/**
 * Calorie counting (day1/day1.cpp). The input is a list of numbers, one per
 * line; a blank line separates the groups of one elf from the next. Both parts
 * read the text from its last character to its first with a small state
 * machine; part one keeps the largest group sum, part two the three largest
 * in a sorted array updated in place by `checkMax`.
 */
module CalorieCounting {
  import opened Decimal
  import opened Sequences

  /** The source's `ParserState`. */
  datatype Mode = Next | EndOfLine | Reading | Idle

  /**
   * The scanner's variables. `closed` lists the group sums already closed by
   * a blank line, in the order they were closed (last group of the text
   * first); it is ghost in the methods below.
   */
  datatype Scanner = Scanner(mode: Mode, radix: int, current: int, closed: seq<int>)

  const Start := Scanner(Idle, 1, 0, [])

  /** One character, read going backwards: the two switches of the loop body. */
  function Step(s: Scanner, c: char): Scanner {
    var mode := if c == '\n' then (if s.mode == EndOfLine then Next else EndOfLine) else Reading;
    match mode
    case Next => Scanner(Next, s.radix, 0, s.closed + [s.current])
    case Reading => Scanner(Reading, s.radix * 10, s.current + DigitValue(c) * s.radix, s.closed)
    case _ => Scanner(EndOfLine, 1, s.current, s.closed)
  }

  /** The scanner after reading `text` from its end to its start, beginning in `s`. */
  function ScanFrom(text: seq<char>, s: Scanner): Scanner {
    if text == [] then s else Step(ScanFrom(text[1..], s), text[0])
  }

  /**
   * The group sums the scanner sees: every closed group, then the group that
   * is still open when the first character has been read.
   */
  function Groups(text: seq<char>): seq<int> {
    var s := ScanFrom(text, Start);
    s.closed + [s.current]
  }

  function Max(a: int, b: int): int {
    if a < b then b else a
  }

  lemma ScanOneMore(text: seq<char>, i: nat)
    requires i < |text|
    ensures ScanFrom(text[i..], Start) == Step(ScanFrom(text[i + 1..], Start), text[i])
  {
    assert text[i..][1..] == text[i + 1..];
  }

  /** Part one: the largest group sum, or 0 when every group sum is negative. */
  method PartOne(input: seq<char>) returns (r: int)
    ensures r >= 0
    ensures forall k | 0 <= k < |Groups(input)| :: Groups(input)[k] <= r
    ensures r == 0 || r in Groups(input)
  {
    var radix, state, localMax, current := 1, Idle, 0, 0;
    ghost var closed: seq<int> := [];
    for i := |input| downto 0
      invariant Scanner(state, radix, current, closed) == ScanFrom(input[i..], Start)
      invariant localMax >= 0
      invariant forall k | 0 <= k < |closed| :: closed[k] <= localMax
      invariant localMax == 0 || localMax in closed
    {
      ScanOneMore(input, i);
      var value := input[i];
      if value == '\n' {
        state := if state == EndOfLine then Next else EndOfLine;
      } else {
        state := Reading;
      }
      match state
      case Next =>
        localMax := Max(localMax, current);
        closed := closed + [current];
        current := 0;
      case Reading =>
        current := current + DigitValue(value) * radix;
        radix := radix * 10;
      case EndOfLine =>
        radix := 1;
      case Idle =>
    }
    r := Max(localMax, current);
  }

  /** TOP_SIZE. */
  const TopSize: nat := 3

  predicate NonIncreasing(m: seq<int>) {
    forall i, j | 0 <= i < j < |m| :: m[i] >= m[j]
  }

  /**
   * Where `checkMax`'s first loop stops: scanning `m[..i]` from its end, one
   * past the last slot that is greater than `v` (0 when there is none).
   */
  function InsertionPoint(m: seq<int>, v: int, i: nat): (k: nat)
    requires i <= |m|
    ensures k <= i
    ensures forall j | k <= j < i :: m[j] <= v
    ensures k > 0 ==> m[k - 1] > v
  {
    if i == 0 then 0 else if m[i - 1] > v then i else InsertionPoint(m, v, i - 1)
  }

  /**
   * The array `checkMax` leaves: `v` goes in at the insertion point, the
   * slots after it move one place down and the last one falls off.
   */
  function InsertTop(m: seq<int>, v: int): seq<int>
    requires |m| > 0
  {
    var k := InsertionPoint(m, v, |m|);
    if k == |m| then m else m[..k] + [v] + m[k..|m| - 1]
  }

  lemma InsertTopLength(m: seq<int>, v: int)
    requires |m| > 0
    ensures |InsertTop(m, v)| == |m|
  {
  }

  lemma InsertTopSorted(m: seq<int>, v: int)
    requires |m| > 0 && NonIncreasing(m)
    ensures NonIncreasing(InsertTop(m, v))
  {
    var r := InsertTop(m, v);
    forall i, j | 0 <= i < j < |r|
      ensures r[i] >= r[j]
    {
      InsertTopPair(m, v, i, j);
    }
  }

  /** Slot `j` after the insertion: an old slot above the insertion point, `v` at it, the slot above it below it. */
  lemma InsertTopAt(m: seq<int>, v: int, j: nat)
    requires |m| > 0 && j < |m|
    ensures var k := InsertionPoint(m, v, |m|);
      InsertTop(m, v)[j] == if k == |m| || j < k then m[j] else if j == k then v else m[j - 1]
  {
  }

  lemma InsertTopPair(m: seq<int>, v: int, i: nat, j: nat)
    requires |m| > 0 && NonIncreasing(m) && i < j < |m|
    ensures InsertTop(m, v)[i] >= InsertTop(m, v)[j]
  {
    var k := InsertionPoint(m, v, |m|);
    InsertTopAt(m, v, i);
    InsertTopAt(m, v, j);
    if k < |m| {
      if j < k {
      } else if j == k {
        assert m[i] >= m[k - 1];
      } else if i < k {
        assert m[i] >= m[k - 1] && m[k - 1] > v && v >= m[j - 1];
      } else if i == k {
        assert m[j - 1] <= v;
      } else {
        assert m[i - 1] >= m[j - 1];
      }
    }
  }

  lemma InsertTopContents(m: seq<int>, v: int)
    requires |m| > 0
    ensures v < m[|m| - 1] ==> InsertTop(m, v) == m
    ensures v >= m[|m| - 1] ==>
      multiset(InsertTop(m, v)) == multiset(m) + multiset{v} - multiset{m[|m| - 1]}
  {
    var k := InsertionPoint(m, v, |m|);
    if k < |m| {
      var r := InsertTop(m, v);
      var a, b, last := m[..k], m[k..|m| - 1], m[|m| - 1];
      assert r == a + [v] + b;
      assert m == a + b + [last];
      var A, B := multiset(a), multiset(b);
      calc {
        multiset(m) + multiset{v} - multiset{last};
        A + B + multiset{last} + multiset{v} - multiset{last};
        A + multiset{v} + B;
        multiset(r);
      }
    }
  }

  /**
   * What `checkMax` promises for a sorted array: it stays sorted and of the
   * same size; a value below the smallest slot changes nothing; otherwise the
   * new contents are the old ones plus the value, less the old smallest.
   */
  lemma InsertTopKeepsLargest(m: seq<int>, v: int)
    requires |m| > 0 && NonIncreasing(m)
    ensures |InsertTop(m, v)| == |m|
    ensures NonIncreasing(InsertTop(m, v))
    ensures v < m[|m| - 1] ==> InsertTop(m, v) == m
    ensures v >= m[|m| - 1] ==>
      multiset(InsertTop(m, v)) == multiset(m) + multiset{v} - multiset{m[|m| - 1]}
  {
    InsertTopSorted(m, v);
    InsertTopContents(m, v);
  }

  /**
   * `checkMax`: insert `value` into the top-three array in place. The three
   * XOR assignments at the end of the source swap `value` and `maximums[i]`
   * (see XorTripleSwaps); here the swap is written as one parallel assignment.
   */
  method CheckMax(value: int, maximums: array<int>)
    requires maximums.Length == TopSize
    modifies maximums
    ensures maximums[..] == InsertTop(old(maximums[..]), value)
  {
    ghost var m := maximums[..];
    ghost var v := value;
    var carry := value;
    var max := TopSize - 1;
    var i := max;
    while i >= 0
      invariant -1 <= i <= max
      invariant InsertionPoint(m, v, |m|) == InsertionPoint(m, v, i + 1)
    {
      if maximums[i] > carry {
        break;
      }
      i := i - 1;
    }
    i := i + 1;
    ghost var k := i;
    assert k == InsertionPoint(m, v, |m|);
    while i <= max
      invariant k <= i <= max + 1
      invariant forall j | 0 <= j < k :: maximums[j] == m[j]
      invariant forall j | k <= j < i :: maximums[j] == if j == k then v else m[j - 1]
      invariant forall j | i <= j < |m| :: maximums[j] == m[j]
      invariant carry == if i == k then v else m[i - 1]
    {
      carry, maximums[i] := maximums[i], carry;
      i := i + 1;
    }
    if k < |m| {
      assert maximums[..] == m[..k] + [v] + m[k..|m| - 1];
    } else {
      assert maximums[..] == m;
    }
  }

  /** The XOR triple of `checkMax` exchanges its two operands. */
  lemma XorTripleSwaps(value: bv32, slot: bv32)
    ensures var v1 := value ^ slot; var s1 := slot ^ v1; var v2 := v1 ^ s1;
      s1 == value && v2 == slot
  {
  }

  /** The top-three array after `checkMax` has seen `xs`, starting from three zero slots. */
  function TopAfter(xs: seq<int>): (m: seq<int>)
    ensures |m| == TopSize
  {
    if xs == [] then [0, 0, 0]
    else
      var m := TopAfter(xs[..|xs| - 1]);
      InsertTopLength(m, xs[|xs| - 1]);
      InsertTop(m, xs[|xs| - 1])
  }

  function Sum(xs: seq<int>): int {
    if xs == [] then 0 else xs[0] + Sum(xs[1..])
  }

  /**
   * `top` holds the three largest values of `pool`: sorted, drawn from the
   * pool, and nothing left in the pool exceeds its smallest slot.
   */
  ghost predicate LargestThree(pool: multiset<int>, top: seq<int>) {
    && |top| == TopSize
    && NonIncreasing(top)
    && multiset(top) <= pool
    && forall y | y in pool - multiset(top) :: y <= top[TopSize - 1]
  }

  lemma SmallestSlotRises(m: seq<int>, v: int)
    requires |m| == TopSize && NonIncreasing(m) && v >= m[2]
    ensures InsertTop(m, v)[2] >= m[2]
  {
    var k := InsertionPoint(m, v, |m|);
    assert k < 3;
  }

  lemma CheckMaxKeepsLargestThree(pool: multiset<int>, m: seq<int>, v: int)
    requires LargestThree(pool, m)
    ensures LargestThree(pool + multiset{v}, InsertTop(m, v))
  {
    InsertTopKeepsLargest(m, v);
    if v < m[2] {
      BelowSmallestSlot(pool, m, v);
    } else {
      AboveSmallestSlot(pool, m, v);
    }
  }

  lemma BelowSmallestSlot(pool: multiset<int>, m: seq<int>, v: int)
    requires LargestThree(pool, m) && v < m[2] && InsertTop(m, v) == m
    ensures forall y | y in pool + multiset{v} - multiset(m) :: y <= m[2]
  {
    var P := pool + multiset{v};
    forall y | y in P - multiset(m)
      ensures y <= m[2]
    {
      if y != v {
        assert (P - multiset(m))[y] == (pool - multiset(m))[y];
      }
    }
  }

  lemma AboveSmallestSlot(pool: multiset<int>, m: seq<int>, v: int)
    requires LargestThree(pool, m) && v >= m[2]
    requires multiset(InsertTop(m, v)) == multiset(m) + multiset{v} - multiset{m[2]}
    ensures multiset(InsertTop(m, v)) <= pool + multiset{v}
    ensures forall y | y in pool + multiset{v} - multiset(InsertTop(m, v)) :: y <= InsertTop(m, v)[2]
  {
    var r := InsertTop(m, v);
    var P := pool + multiset{v};
    assert m[2] in multiset(m);
    SmallestSlotRises(m, v);
    forall y | y in P - multiset(r)
      ensures y <= r[2]
    {
      if y != m[2] {
        assert (P - multiset(r))[y] == (pool - multiset(m))[y];
      }
    }
  }

  /** TopAfter(xs) keeps the three largest of the three zero slots and `xs`. */
  lemma {:induction false} TopAfterIsLargestThree(xs: seq<int>)
    ensures LargestThree(multiset{0, 0, 0} + multiset(xs), TopAfter(xs))
  {
    if xs == [] {
      var top := TopAfter(xs);
      assert top == [0, 0, 0];
      assert multiset(top) == multiset{0, 0, 0};
      assert multiset{0, 0, 0} + multiset(xs) - multiset(top) == multiset{};
    } else {
      var init, v := xs[..|xs| - 1], xs[|xs| - 1];
      assert xs == init + [v];
      var pool := multiset{0, 0, 0} + multiset(init);
      assert multiset{0, 0, 0} + multiset(xs) == pool + multiset{v};
      TopAfterIsLargestThree(init);
      CheckMaxKeepsLargestThree(pool, TopAfter(init), v);
      assert TopAfter(xs) == InsertTop(TopAfter(init), v);
    }
  }

  /** Part two: the sum of the three largest group sums, starting from three zero slots. */
  method PartTwo(input: seq<char>) returns (r: int)
    ensures r == Sum(TopAfter(Groups(input)))
    ensures LargestThree(multiset{0, 0, 0} + multiset(Groups(input)), TopAfter(Groups(input)))
  {
    var radix, state, current := 1, Idle, 0;
    var localMax := new int[TopSize](_ => 0);
    ghost var closed: seq<int> := [];
    for i := |input| downto 0
      invariant Scanner(state, radix, current, closed) == ScanFrom(input[i..], Start)
      invariant localMax[..] == TopAfter(closed)
    {
      ScanOneMore(input, i);
      var value := input[i];
      if value == '\n' {
        state := if state == EndOfLine then Next else EndOfLine;
      } else {
        state := Reading;
      }
      match state
      case Next =>
        CheckMax(current, localMax);
        assert (closed + [current])[..|closed|] == closed;
        closed := closed + [current];
        current := 0;
      case Reading =>
        current := current + DigitValue(value) * radix;
        radix := radix * 10;
      case EndOfLine =>
        radix := 1;
      case Idle =>
    }
    CheckMax(current, localMax);
    assert (closed + [current])[..|closed|] == closed;
    r := 0;
    for i := 0 to TopSize
      invariant r + Sum(localMax[i..]) == Sum(localMax[..])
    {
      assert localMax[i..][1..] == localMax[i + 1..];
      r := r + localMax[i];
    }
    TopAfterIsLargestThree(Groups(input));
  }

  // ---------------------------------------------------------------------
  // What the scanner computes on a well-formed inventory.

  /** One elf's lines: the numbers in decimal, separated by single line breaks. */
  function Block(items: seq<nat>): seq<char>
    requires items != []
  {
    DecString(items[0]) + if |items| == 1 then [] else "\n" + Block(items[1..])
  }

  predicate NonEmptyGroups(elves: seq<seq<nat>>) {
    elves != [] && forall k | 0 <= k < |elves| :: elves[k] != []
  }

  /** A whole inventory: the blocks separated by blank lines, no trailing line break. */
  function Inventory(elves: seq<seq<nat>>): seq<char>
    requires NonEmptyGroups(elves)
  {
    Block(elves[0]) + if |elves| == 1 then [] else "\n\n" + Inventory(elves[1..])
  }

  function NatSum(xs: seq<nat>): int {
    if xs == [] then 0 else xs[0] + NatSum(xs[1..])
  }

  function Totals(elves: seq<seq<nat>>): (t: seq<int>)
    ensures |t| == |elves|
  {
    if elves == [] then [] else [NatSum(elves[0])] + Totals(elves[1..])
  }

  lemma {:induction false} ScanConcat(a: seq<char>, b: seq<char>, s: Scanner)
    ensures ScanFrom(a + b, s) == ScanFrom(a, ScanFrom(b, s))
  {
    if a == [] {
      assert a + b == b;
    } else {
      assert (a + b)[1..] == a[1..] + b;
      assert (a + b)[0] == a[0];
      ScanConcat(a[1..], b, s);
    }
  }

  /** Digits read backwards with a growing radix add the number they spell. */
  lemma {:induction false} ScanDigits(ds: seq<char>, s: Scanner)
    requires ds != [] && AllDigits(ds)
    ensures ScanFrom(ds, s) ==
      Scanner(Reading, s.radix * Pow10(|ds|), s.current + s.radix * Value(ds), s.closed)
  {
    if |ds| == 1 {
      assert ds == [ds[0]];
      assert Value(ds) == DigitValue(ds[0]);
    } else {
      var rest := ds[1..];
      assert ds == [ds[0]] + rest;
      ScanDigits(rest, s);
      ValueCons(ds[0], rest);
      var t := ScanFrom(rest, s);
      assert ScanFrom(ds, s) == Step(t, ds[0]);
      RadixArithmetic(s.current, s.radix, Pow10(|rest|), DigitValue(ds[0]), Value(rest));
    }
  }

  lemma RadixArithmetic(c: int, r: int, p: int, d: int, v: int)
    ensures (c + r * v) + d * (r * p) == c + r * (d * p + v)
    ensures (r * p) * 10 == r * (10 * p)
  {
    assert d * (r * p) == r * (d * p);
  }

  /** Within one elf's block, the open group's sum grows by the block's total. */
  lemma {:induction false} ScanBlock(items: seq<nat>, s: Scanner)
    requires items != [] && s.radix == 1
    ensures ScanFrom(Block(items), s).mode == Reading
    ensures ScanFrom(Block(items), s).current == s.current + NatSum(items)
    ensures ScanFrom(Block(items), s).closed == s.closed
  {
    var d := DecString(items[0]);
    ValueOfDecString(items[0]);
    if |items| == 1 {
      assert Block(items) == d;
      ScanDigits(d, s);
    } else {
      var tail := "\n" + Block(items[1..]);
      assert Block(items) == d + tail;
      ScanConcat(d, tail, s);
      ScanBlock(items[1..], s);
      var t := ScanFrom(Block(items[1..]), s);
      assert ScanFrom(tail, s) == Step(t, '\n') by {
        assert tail[1..] == Block(items[1..]);
      }
      ScanDigits(d, Step(t, '\n'));
    }
  }

  /** Two line breaks close the open group; the next block starts from zero. */
  lemma {:induction false} ScanInventory(elves: seq<seq<nat>>, s: Scanner)
    requires NonEmptyGroups(elves) && s.radix == 1 && s.current == 0
    ensures ScanFrom(Inventory(elves), s).current == NatSum(elves[0])
    ensures ScanFrom(Inventory(elves), s).closed == s.closed + Reverse(Totals(elves[1..]))
    ensures ScanFrom(Inventory(elves), s).mode == Reading
  {
    if |elves| == 1 {
      assert Inventory(elves) == Block(elves[0]);
      ScanBlock(elves[0], s);
    } else {
      var rest := elves[1..];
      var gap := "\n\n" + Inventory(rest);
      assert Inventory(elves) == Block(elves[0]) + gap;
      ScanConcat(Block(elves[0]), gap, s);
      ScanInventory(rest, s);
      var u := ScanFrom(Inventory(rest), s);
      assert ScanFrom(gap, s) == Step(Step(u, '\n'), '\n') by {
        assert gap[1..] == "\n" + Inventory(rest);
        assert gap[1..][1..] == Inventory(rest);
      }
      var w := Step(Step(u, '\n'), '\n');
      assert w.closed == s.closed + Reverse(Totals(rest[1..])) + [NatSum(rest[0])];
      ScanBlock(elves[0], w);
      assert Totals(rest)[1..] == Totals(rest[1..]);
      assert Reverse(Totals(rest)) == Reverse(Totals(rest[1..])) + [NatSum(rest[0])];
    }
  }

  /** On a well-formed inventory the scanner sees exactly the elves' totals, last elf first. */
  lemma GroupsOfInventory(elves: seq<seq<nat>>)
    requires NonEmptyGroups(elves)
    ensures Groups(Inventory(elves)) == Reverse(Totals(elves))
  {
    ScanInventory(elves, Start);
    assert Totals(elves)[1..] == Totals(elves[1..]);
  }
}
