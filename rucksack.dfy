/**
 * Rucksack reorganisation (day3/day3.cpp). Each line's characters are hashed
 * into two 32-bit sets, one for upper-case and one for lower-case letters,
 * with a letter's alphabet position as its bit. Intersecting the sets of the
 * two halves of a line, or of three lines, and summing the positions of the
 * surviving bits gives the priorities a–z → 1–26 and A–Z → 27–52.
 *
 * The text is the characters of the C string before its terminator;
 * `Text.Find` plays the part of `strchr`.
 */
module Rucksack {
  import opened Results
  import opened Bitset
  import opened Text

  /** Bit sets for the two letter classes. */
  datatype CharacterBits = CharacterBits(upper: Word, lower: Word)

  // ---------------------------------------------------------------------------
  // Letters and priorities
  // ---------------------------------------------------------------------------

  /** The bit a character sets in a class: its alphabet position 1..26, or 0 outside the class. */
  function ClassIndex(c: char, upper: bool): (k: nat)
    ensures k <= 26
  {
    if upper then (if 64 < c as int < 91 then c as int - 64 else 0)
    else (if 96 < c as int < 123 then c as int - 96 else 0)
  }

  function ClassBits(b: CharacterBits, upper: bool): Word {
    if upper then b.upper else b.lower
  }

  /** The letter at alphabet position `k` of a class. */
  function Letter(upper: bool, k: nat): (c: char)
    requires 1 <= k <= 26
    ensures ClassIndex(c, upper) == k
  {
    if upper then (64 + k) as char else (96 + k) as char
  }

  predicate IsLetter(c: char) {
    'a' <= c <= 'z' || 'A' <= c <= 'Z'
  }

  /** a–z are worth 1–26 and A–Z 27–52. */
  function Priority(c: char): (p: int)
    ensures IsLetter(c) ==> 1 <= p <= 52
  {
    if 'a' <= c <= 'z' then c as int - 96
    else if 'A' <= c <= 'Z' then c as int - 64 + 26
    else 0
  }

  /** The offset `sumBitPositions` is given for a class: 1 for lower case, 27 for upper case. */
  function ClassBase(upper: bool): int {
    if upper then 27 else 1
  }

  lemma LetterPriority(upper: bool, k: nat)
    requires 1 <= k <= 26
    ensures IsLetter(Letter(upper, k))
    ensures Priority(Letter(upper, k)) == ClassBase(upper) + k - 1
    ensures Priority(Letter(upper, k)) == (if upper then 26 + k else k)
  {
  }

  // ---------------------------------------------------------------------------
  // calculateBits
  // ---------------------------------------------------------------------------

  function AddChar(b: CharacterBits, c: char): CharacterBits {
    SetBitWord(b.upper, ClassIndex(c, true));
    SetBitWord(b.lower, ClassIndex(c, false));
    CharacterBits(Or(b.upper, Pow2(ClassIndex(c, true))), Or(b.lower, Pow2(ClassIndex(c, false))))
  }

  /** The two sets after hashing `items` in order. */
  function Bits(items: seq<char>): CharacterBits {
    if items == [] then CharacterBits(0, 0) else AddChar(Bits(items[..|items| - 1]), items[|items| - 1])
  }

  method CalculateBits(items: seq<char>) returns (result: CharacterBits)
    ensures result == Bits(items)
  {
    result := CharacterBits(0, 0);
    var i := 0;
    while i < |items|
      invariant i <= |items|
      invariant result == Bits(items[..i])
    {
      var value := items[i];
      assert items[..i + 1][..i] == items[..i];
      i := i + 1;
      var upperBit := if 64 < value as int < 91 then value as int - 64 else 0;
      var lowerBit := if 96 < value as int < 123 then value as int - 96 else 0;
      SetBitWord(result.upper, upperBit);
      SetBitWord(result.lower, lowerBit);
      result := CharacterBits(Or(result.upper, Pow2(upperBit)), Or(result.lower, Pow2(lowerBit)));
    }
    assert items[..i] == items;
  }

  /** Adding a character sets exactly its class index in each class set. */
  lemma AddCharBit(b: CharacterBits, c: char, upper: bool, k: nat)
    ensures HasBit(ClassBits(AddChar(b, c), upper), k) <==> HasBit(ClassBits(b, upper), k) || k == ClassIndex(c, upper)
  {
    OrBit(ClassBits(b, upper), Pow2(ClassIndex(c, upper)), k);
    PowBit(ClassIndex(c, upper), k);
  }

  /** Bit k (1..26) of a class set is set iff that letter occurs. */
  lemma {:induction false} LetterBit(items: seq<char>, upper: bool, k: nat)
    requires 1 <= k <= 26
    ensures HasBit(ClassBits(Bits(items), upper), k) <==> Letter(upper, k) in items
  {
    if items == [] {
      NoBitOfZero(k);
    } else {
      var init, c := items[..|items| - 1], items[|items| - 1];
      assert items == init + [c];
      LetterBit(init, upper, k);
      AddCharBit(Bits(init), c, upper, k);
      if k == ClassIndex(c, upper) {
        assert c == Letter(upper, k);
      }
    }
  }

  /** Bit 0 of a class set is set iff some character outside the class occurs. */
  lemma {:induction false} OtherBit(items: seq<char>, upper: bool)
    ensures HasBit(ClassBits(Bits(items), upper), 0) <==> exists i :: 0 <= i < |items| && ClassIndex(items[i], upper) == 0
  {
    if items == [] {
      NoBitOfZero(0);
    } else {
      var init, c := items[..|items| - 1], items[|items| - 1];
      OtherBit(init, upper);
      AddCharBit(Bits(init), c, upper, 0);
      if ClassIndex(c, upper) == 0 {
        assert ClassIndex(items[|items| - 1], upper) == 0;
      }
      if exists i :: 0 <= i < |items| && ClassIndex(items[i], upper) == 0 {
        var i :| 0 <= i < |items| && ClassIndex(items[i], upper) == 0;
        if i < |init| {
          assert ClassIndex(init[i], upper) == 0;
        }
      }
      if exists i :: 0 <= i < |init| && ClassIndex(init[i], upper) == 0 {
        var i :| 0 <= i < |init| && ClassIndex(init[i], upper) == 0;
        assert ClassIndex(items[i], upper) == 0;
      }
    }
  }

  /** No bit from 27 on is ever set. */
  lemma {:induction false} HighBitClear(items: seq<char>, upper: bool, k: nat)
    requires k >= 27
    ensures !HasBit(ClassBits(Bits(items), upper), k)
  {
    if items == [] {
      NoBitOfZero(k);
    } else {
      HighBitClear(items[..|items| - 1], upper, k);
      AddCharBit(Bits(items[..|items| - 1]), items[|items| - 1], upper, k);
    }
  }

  // ---------------------------------------------------------------------------
  // sumBitPositions
  // ---------------------------------------------------------------------------

  /** The sum of `base + j` over the set bits `j < n` of `x`. */
  function BitSum(x: nat, base: int, n: nat): int {
    if n == 0 then 0 else BitSum(x, base, n - 1) + (if HasBit(x, n - 1) then base + n - 1 else 0)
  }

  lemma {:induction false} BitSumClearTail(x: nat, base: int, lo: nat, n: nat)
    requires lo <= n
    requires forall j :: lo <= j < n ==> !HasBit(x, j)
    ensures BitSum(x, base, n) == BitSum(x, base, lo)
  {
    if n > lo {
      BitSumClearTail(x, base, lo, n - 1);
    }
  }

  /** The loop shifts the set right until it is empty, adding the counter for each 1 it drops. */
  method SumBitPositions(duplicates0: Word, base0: int) returns (result: int)
    ensures result == BitSum(duplicates0, base0, 32)
  {
    var duplicates: Word := duplicates0;
    var base := base0;
    result := 0;
    ghost var i: nat := 0;
    while duplicates > 0
      invariant duplicates == Shifted(duplicates0, i)
      invariant base == base0 + i
      invariant result == BitSum(duplicates0, base0, i)
      decreases duplicates
    {
      ShiftedBits(duplicates0, i, 0);
      AndOne(duplicates);
      result := result + And(duplicates, 1) * base;
      base := base + 1;
      duplicates := duplicates / 2;
      i := i + 1;
    }
    forall j | i <= j
      ensures !HasBit(duplicates0, j)
    {
      ShiftedBits(duplicates0, i, j - i);
      NoBitOfZero(j - i);
    }
    if i <= 32 {
      BitSumClearTail(duplicates0, base0, i, 32);
    } else {
      forall j | 32 <= j < i
        ensures !HasBit(duplicates0, j)
      {
        WordBits(duplicates0, j);
      }
      BitSumClearTail(duplicates0, base0, 32, i);
    }
  }

  // ---------------------------------------------------------------------------
  // Shared letters
  // ---------------------------------------------------------------------------

  predicate InAll(parts: seq<seq<char>>, c: char) {
    forall i :: 0 <= i < |parts| ==> c in parts[i]
  }

  /** The priorities of the letters at positions 1..n of a class that occur in every part. */
  function SharedClassSum(parts: seq<seq<char>>, upper: bool, n: nat): int
    requires n <= 26
  {
    if n == 0 then 0
    else SharedClassSum(parts, upper, n - 1) + (if InAll(parts, Letter(upper, n)) then Priority(Letter(upper, n)) else 0)
  }

  /** The sum of the priorities of the distinct letters that occur in every part. */
  function SharedPriorities(parts: seq<seq<char>>): int {
    SharedClassSum(parts, false, 26) + SharedClassSum(parts, true, 26)
  }

  /** Summing the shifted mask of a class adds exactly the shared letters' priorities. */
  lemma {:induction false} MaskClassSum(mask: nat, parts: seq<seq<char>>, upper: bool, n: nat)
    requires n <= 26
    requires forall k :: 1 <= k <= 26 ==> (HasBit(mask, k) <==> InAll(parts, Letter(upper, k)))
    ensures BitSum(mask / 2, ClassBase(upper), n) == SharedClassSum(parts, upper, n)
  {
    if n > 0 {
      MaskClassSum(mask, parts, upper, n - 1);
      assert HasBit(mask / 2, n - 1) == HasBit(mask, n);
      LetterPriority(upper, n);
    }
  }

  lemma MaskTotal(mask: nat, parts: seq<seq<char>>, upper: bool)
    requires forall k :: 1 <= k <= 26 ==> (HasBit(mask, k) <==> InAll(parts, Letter(upper, k)))
    requires forall k :: k >= 27 ==> !HasBit(mask, k)
    ensures BitSum(mask / 2, ClassBase(upper), 32) == SharedClassSum(parts, upper, 26)
  {
    forall j | 26 <= j < 32
      ensures !HasBit(mask / 2, j)
    {
      assert HasBit(mask / 2, j) == HasBit(mask, j + 1);
    }
    BitSumClearTail(mask / 2, ClassBase(upper), 26, 32);
    MaskClassSum(mask, parts, upper, 26);
  }

  lemma InAllPair(a: seq<char>, b: seq<char>, c: char)
    ensures InAll([a, b], c) <==> c in a && c in b
  {
    assert [a, b][0] == a && [a, b][1] == b;
  }

  lemma InAllTriple(a: seq<char>, b: seq<char>, c: seq<char>, d: char)
    ensures InAll([a, b, c], d) <==> d in a && d in b && d in c
  {
    assert [a, b, c][0] == a && [a, b, c][1] == b && [a, b, c][2] == c;
  }

  /** The intersection of two parts' sets is the set of their common letters. */
  lemma PairMask(a: seq<char>, b: seq<char>, upper: bool)
    ensures forall k :: 1 <= k <= 26 ==>
      (HasBit(And(ClassBits(Bits(a), upper), ClassBits(Bits(b), upper)), k) <==> InAll([a, b], Letter(upper, k)))
    ensures forall k :: k >= 27 ==> !HasBit(And(ClassBits(Bits(a), upper), ClassBits(Bits(b), upper)), k)
  {
    var x, y := ClassBits(Bits(a), upper), ClassBits(Bits(b), upper);
    forall k | 1 <= k <= 26
      ensures HasBit(And(x, y), k) <==> InAll([a, b], Letter(upper, k))
    {
      AndBit(x, y, k);
      LetterBit(a, upper, k);
      LetterBit(b, upper, k);
      InAllPair(a, b, Letter(upper, k));
    }
    forall k: nat | k >= 27
      ensures !HasBit(And(x, y), k)
    {
      AndBit(x, y, k);
      HighBitClear(a, upper, k);
    }
  }

  lemma TripleMask(a: seq<char>, b: seq<char>, c: seq<char>, upper: bool)
    ensures forall k :: 1 <= k <= 26 ==>
      (HasBit(And(And(ClassBits(Bits(a), upper), ClassBits(Bits(b), upper)), ClassBits(Bits(c), upper)), k) <==>
        InAll([a, b, c], Letter(upper, k)))
    ensures forall k :: k >= 27 ==>
      !HasBit(And(And(ClassBits(Bits(a), upper), ClassBits(Bits(b), upper)), ClassBits(Bits(c), upper)), k)
  {
    var x, y, z := ClassBits(Bits(a), upper), ClassBits(Bits(b), upper), ClassBits(Bits(c), upper);
    forall k | 1 <= k <= 26
      ensures HasBit(And(And(x, y), z), k) <==> InAll([a, b, c], Letter(upper, k))
    {
      AndBit(x, y, k);
      AndBit(And(x, y), z, k);
      LetterBit(a, upper, k);
      LetterBit(b, upper, k);
      LetterBit(c, upper, k);
      InAllTriple(a, b, c, Letter(upper, k));
    }
    forall k: nat | k >= 27
      ensures !HasBit(And(And(x, y), z), k)
    {
      AndBit(x, y, k);
      AndBit(And(x, y), z, k);
      HighBitClear(a, upper, k);
    }
  }

  /** One class of a pair: the sum gives the priorities of the letters of that class the parts share. */
  lemma PairClassSum(a: seq<char>, b: seq<char>, upper: bool)
    ensures BitSum(And(ClassBits(Bits(a), upper), ClassBits(Bits(b), upper)) / 2, ClassBase(upper), 32)
      == SharedClassSum([a, b], upper, 26)
  {
    PairMask(a, b, upper);
    MaskTotal(And(ClassBits(Bits(a), upper), ClassBits(Bits(b), upper)), [a, b], upper);
  }

  lemma TripleClassSum(a: seq<char>, b: seq<char>, c: seq<char>, upper: bool)
    ensures BitSum(And(And(ClassBits(Bits(a), upper), ClassBits(Bits(b), upper)), ClassBits(Bits(c), upper)) / 2, ClassBase(upper), 32)
      == SharedClassSum([a, b, c], upper, 26)
  {
    TripleMask(a, b, c, upper);
    MaskTotal(And(And(ClassBits(Bits(a), upper), ClassBits(Bits(b), upper)), ClassBits(Bits(c), upper)), [a, b, c], upper);
  }

  /** Both classes of a pair: the two sums give the priorities of the letters the parts share. */
  lemma PairSum(a: seq<char>, b: seq<char>)
    ensures BitSum(And(Bits(a).lower, Bits(b).lower) / 2, 1, 32)
      + BitSum(And(Bits(a).upper, Bits(b).upper) / 2, 27, 32) == SharedPriorities([a, b])
  {
    PairClassSum(a, b, false);
    PairClassSum(a, b, true);
  }

  lemma TripleSum(a: seq<char>, b: seq<char>, c: seq<char>)
    ensures BitSum(And(And(Bits(a).lower, Bits(b).lower), Bits(c).lower) / 2, 1, 32)
      + BitSum(And(And(Bits(a).upper, Bits(b).upper), Bits(c).upper) / 2, 27, 32) == SharedPriorities([a, b, c])
  {
    TripleClassSum(a, b, c, false);
    TripleClassSum(a, b, c, true);
  }

  /** When one letter alone is common to all parts, the sum is that letter's priority. */
  lemma OneSharedLetter(parts: seq<seq<char>>, c: char)
    requires IsLetter(c) && InAll(parts, c)
    requires forall d :: IsLetter(d) && InAll(parts, d) ==> d == c
    ensures SharedPriorities(parts) == Priority(c)
  {
    var upper := 'A' <= c <= 'Z';
    var k := ClassIndex(c, upper);
    assert Letter(upper, k) == c;
    SharedUpTo(parts, c, upper, 26);
    SharedUpTo(parts, c, !upper, 26);
  }

  lemma {:induction false} SharedUpTo(parts: seq<seq<char>>, c: char, upper: bool, n: nat)
    requires n <= 26
    requires IsLetter(c) && InAll(parts, c)
    requires forall d :: IsLetter(d) && InAll(parts, d) ==> d == c
    ensures SharedClassSum(parts, upper, n) ==
      (if 1 <= ClassIndex(c, upper) <= n then Priority(c) else 0)
  {
    if n > 0 {
      SharedUpTo(parts, c, upper, n - 1);
      LetterPriority(upper, n);
      if ClassIndex(c, upper) == n {
        assert Letter(upper, n) == c;
      }
    }
  }

  // ---------------------------------------------------------------------------
  // calculateRucksuckDuplicates and calculateGroupBadge
  // ---------------------------------------------------------------------------

  /** The two compartments of a rucksack: the halves split at `len / 2`. */
  function Halves(line: seq<char>): seq<seq<char>> {
    [line[..|line| / 2], line[|line| / 2..]]
  }

  method RucksackDuplicates(line: seq<char>) returns (r: int)
    ensures r == LineScore(line)
  {
    var mid := |line| / 2;
    var first := CalculateBits(line[..mid]);
    var second := CalculateBits(line[mid..]);
    AndBound(first.lower, second.lower);
    AndBound(first.upper, second.upper);
    var lower := SumBitPositions(And(first.lower, second.lower) / 2, 1);
    var upper := SumBitPositions(And(first.upper, second.upper) / 2, 27);
    PairSum(line[..mid], line[mid..]);
    r := lower + upper;
  }

  /** Where the third line of a group ends: its line break, or the end of the text. */
  function GroupEnd(s: seq<char>, startThree: nat): (e: nat)
    requires startThree <= |s|
    ensures startThree <= e <= |s|
  {
    match Find(s, startThree, '\n')
    case Some(e) => e
    case None => |s|
  }

  /** The source dereferences the result of the first two searches. */
  predicate HasGroup(s: seq<char>, start: nat) {
    && start <= |s|
    && Find(s, start, '\n').Some?
    && Find(s, Find(s, start, '\n').value + 1, '\n').Some?
  }

  /** The three lines a group starting at `start` covers. */
  function Group(s: seq<char>, start: nat): seq<seq<char>>
    requires HasGroup(s, start)
  {
    var endOne := Find(s, start, '\n').value;
    var endTwo := Find(s, endOne + 1, '\n').value;
    [s[start..endOne], s[endOne + 1..endTwo], s[endTwo + 1..GroupEnd(s, endTwo + 1)]]
  }

  /** Where `*start` is left: one past the third line's end. */
  function GroupNext(s: seq<char>, start: nat): nat
    requires HasGroup(s, start)
  {
    GroupEnd(s, Find(s, Find(s, start, '\n').value + 1, '\n').value + 1) + 1
  }

  method GroupBadge(s: seq<char>, start: nat) returns (r: int, next: nat)
    requires HasGroup(s, start)
    ensures r == SharedPriorities(Group(s, start))
    ensures next == GroupNext(s, start)
  {
    var startOne := start;
    var endOne := Find(s, startOne, '\n').value;
    var startTwo := endOne + 1;
    var endTwo := Find(s, startTwo, '\n').value;
    var startThree := endTwo + 1;
    var found := Find(s, startThree, '\n');
    var endThree := if found.Some? then found.value else |s|;
    next := endThree + 1;
    assert Group(s, start) == [s[startOne..endOne], s[startTwo..endTwo], s[startThree..endThree]];
    var first := CalculateBits(s[startOne..endOne]);
    var second := CalculateBits(s[startTwo..endTwo]);
    var third := CalculateBits(s[startThree..endThree]);
    var lowerMask := And(And(first.lower, second.lower), third.lower);
    var upperMask := And(And(first.upper, second.upper), third.upper);
    AndBound(first.lower, second.lower);
    AndBound(And(first.lower, second.lower), third.lower);
    AndBound(first.upper, second.upper);
    AndBound(And(first.upper, second.upper), third.upper);
    var lower := SumBitPositions(lowerMask / 2, 1);
    var upper := SumBitPositions(upperMask / 2, 27);
    TripleSum(s[startOne..endOne], s[startTwo..endTwo], s[startThree..endThree]);
    r := lower + upper;
  }

  // ---------------------------------------------------------------------------
  // partOne
  // ---------------------------------------------------------------------------

  /** A rucksack's score. */
  function LineScore(line: seq<char>): int {
    SharedPriorities(Halves(line))
  }

  /** The lines from `start` on: up to each line break, and the last one up to the end of the text. */
  function LinesFrom(s: seq<char>, start: nat): (r: seq<seq<char>>)
    requires start <= |s|
    ensures r != []
    decreases |s| - start
  {
    match Find(s, start, '\n')
    case None => [s[start..]]
    case Some(e) => [s[start..e]] + LinesFrom(s, e + 1)
  }

  /** The scores of the lines from `start` on. */
  function TotalFrom(s: seq<char>, start: nat): int
    requires start <= |s|
  {
    SumScores(LinesFrom(s, start))
  }

  lemma SumScoresCons(line: seq<char>, rest: seq<seq<char>>)
    ensures SumScores([line] + rest) == LineScore(line) + SumScores(rest)
  {
    assert ([line] + rest)[1..] == rest;
  }

  /** Before a line break, the score of the lines from `start` is the first line's and then the rest's. */
  lemma TotalFromNext(s: seq<char>, start: nat, e: nat)
    requires start <= |s| && Find(s, start, '\n') == Some(e)
    ensures TotalFrom(s, start) == LineScore(s[start..e]) + TotalFrom(s, e + 1)
  {
    SumScoresCons(s[start..e], LinesFrom(s, e + 1));
  }

  /** Without a line break, the lines from `start` are the one last line. */
  lemma TotalFromLast(s: seq<char>, start: nat)
    requires start <= |s| && Find(s, start, '\n') == None
    ensures TotalFrom(s, start) == LineScore(s[start..])
  {
    SumScoresCons(s[start..], []);
    assert [s[start..]] + [] == [s[start..]];
  }

  method PartOne(s: seq<char>) returns (result: int)
    ensures result == TotalFrom(s, 0)
  {
    result := 0;
    var start := 0;
    var end := Find(s, start, '\n');
    while end.Some?
      invariant start <= |s|
      invariant end == Find(s, start, '\n')
      invariant result + TotalFrom(s, start) == TotalFrom(s, 0)
      decreases |s| - start
    {
      TotalFromNext(s, start, end.value);
      var d := RucksackDuplicates(s[start..end.value]);
      result := result + d;
      start := end.value + 1;
      end := Find(s, start, '\n');
    }
    TotalFromLast(s, start);
    var d := RucksackDuplicates(s[start..]);
    result := result + d;
  }

  /** Lines joined by single line breaks, with no break after the last. */
  function Join(lines: seq<seq<char>>): seq<char> {
    if lines == [] then []
    else if |lines| == 1 then lines[0]
    else lines[0] + "\n" + Join(lines[1..])
  }

  function SumScores(lines: seq<seq<char>>): int {
    if lines == [] then 0 else LineScore(lines[0]) + SumScores(lines[1..])
  }

  predicate NoBreaks(lines: seq<seq<char>>) {
    forall i :: 0 <= i < |lines| ==> '\n' !in lines[i]
  }

  /** Splitting from `p` is splitting the text that starts at `p`. */
  lemma {:induction false} LinesFromSuffix(s: seq<char>, p: nat)
    requires p <= |s|
    ensures LinesFrom(s, p) == LinesFrom(s[p..], 0)
    decreases |s| - p
  {
    var t := s[p..];
    FindSuffix(s, p, 0, '\n');
    if Find(t, 0, '\n').Some? {
      var e := Find(t, 0, '\n').value;
      var q := p + e + 1;
      assert e < |t| && q <= |s| && Find(s, p, '\n') == Some(p + e);
      assert LinesFrom(s, p) == [s[p..p + e]] + LinesFrom(s, q);
      assert LinesFrom(t, 0) == [t[0..e]] + LinesFrom(t, e + 1);
      assert t[0..e] == s[p..p + e];
      assert t[e + 1..] == s[q..];
      LinesFromSuffix(s, q);
      LinesFromSuffix(t, e + 1);
    } else {
      Whole(t);
    }
  }

  lemma Whole(t: seq<char>)
    ensures t[0..] == t
  {
  }

  /** An empty rucksack shares nothing. */
  lemma {:induction false} EmptyLineScore(upper: bool, n: nat)
    requires n <= 26
    ensures SharedClassSum([[], []], upper, n) == 0
  {
    if n > 0 {
      EmptyLineScore(upper, n - 1);
      var none: seq<seq<char>> := [[], []];
      assert Letter(upper, n) !in none[0];
    }
  }

  /** A line without a break in front of `"\n" + t`: `strchr` stops at its end and the text goes on with `t`. */
  lemma LineAt(s: seq<char>, p: nat, l: seq<char>, t: seq<char>)
    requires p <= |s| && s[p..] == l + "\n" + t && '\n' !in l
    ensures p + |l| < |s| && Find(s, p, '\n') == Some(p + |l|)
    ensures s[p..p + |l|] == l && s[p + |l| + 1..] == t
  {
    assert s[p + |l|] == s[p..][|l|] == '\n';
    assert s[p..p + |l|] == s[p..][..|l|] == l;
    assert s[p + |l| + 1..] == s[p..][|l| + 1..] == t;
    FindAt(s, p, '\n', p + |l|);
  }

  /** The tail of a list of lines keeps them free of breaks. */
  lemma NoBreaksDrop(lines: seq<seq<char>>, n: nat)
    requires NoBreaks(lines) && n <= |lines|
    ensures NoBreaks(lines[n..])
  {
    forall i | 0 <= i < |lines[n..]|
      ensures '\n' !in lines[n..][i]
    {
      assert lines[n..][i] == lines[i + n];
    }
  }

  /** Splitting lines joined by line breaks gives the lines back. */
  lemma {:induction false} SplitJoin(lines: seq<seq<char>>)
    requires lines != [] && NoBreaks(lines)
    ensures LinesFrom(Join(lines), 0) == lines
  {
    var l := lines[0];
    assert '\n' !in l;
    if |lines| == 1 {
      FindNone(l, 0, '\n');
      assert l[0..] == l;
    } else {
      var s, rest := Join(lines), Join(lines[1..]);
      assert s[0..] == l + "\n" + rest;
      LineAt(s, 0, l, rest);
      LinesFromSuffix(s, |l| + 1);
      NoBreaksDrop(lines, 1);
      SplitJoin(lines[1..]);
      assert [l] + lines[1..] == lines;
    }
  }

  /** On text made of lines, part one sums every line's score, the last one included. */
  lemma TotalOfJoin(lines: seq<seq<char>>)
    requires NoBreaks(lines)
    ensures TotalFrom(Join(lines), 0) == SumScores(lines)
  {
    if lines == [] {
      FindNone([], 0, '\n');
      assert LinesFrom([], 0) == [[]];
      assert Halves([]) == [[], []];
      EmptyLineScore(false, 26);
      EmptyLineScore(true, 26);
    } else {
      SplitJoin(lines);
    }
  }

  // ---------------------------------------------------------------------------
  // Groups of three lines
  // ---------------------------------------------------------------------------

  /** Lines each followed by a line break. */
  function Terminated(lines: seq<seq<char>>): seq<char> {
    if lines == [] then [] else lines[0] + "\n" + Terminated(lines[1..])
  }

  /** The badge priorities of consecutive groups of three lines. */
  function BadgeTotal(lines: seq<seq<char>>): int
    requires |lines| % 3 == 0
  {
    if lines == [] then 0 else SharedPriorities(lines[..3]) + BadgeTotal(lines[3..])
  }

  /** The group read between three consecutive line breaks. */
  lemma GroupFromBreaks(s: seq<char>, start: nat, e1: nat, e2: nat, e3: nat)
    requires start <= e1 < e2 < e3 < |s|
    requires Find(s, start, '\n') == Some(e1)
    requires Find(s, e1 + 1, '\n') == Some(e2)
    requires Find(s, e2 + 1, '\n') == Some(e3)
    ensures HasGroup(s, start)
    ensures Group(s, start) == [s[start..e1], s[e1 + 1..e2], s[e2 + 1..e3]]
    ensures GroupNext(s, start) == e3 + 1
  {
  }

  /** `lines` lie in `s` from index `p` on, each followed by a line break; no line break follows them. */
  predicate LinesAt(s: seq<char>, p: nat, lines: seq<seq<char>>)
    decreases |lines|
  {
    if lines == [] then p <= |s| && '\n' !in s[p..]
    else
      && p + |lines[0]| < |s|
      && s[p..p + |lines[0]|] == lines[0]
      && s[p + |lines[0]|] == '\n'
      && LinesAt(s, p + |lines[0]| + 1, lines[1..])
  }

  lemma {:induction false} LinesAtShift(pre: seq<char>, t: seq<char>, q: nat, lines: seq<seq<char>>)
    requires LinesAt(t, q, lines)
    ensures LinesAt(pre + t, |pre| + q, lines)
    decreases |lines|
  {
    if lines != [] {
      var e := q + |lines[0]|;
      assert (pre + t)[|pre| + q..|pre| + e] == t[q..e];
      assert (pre + t)[|pre| + e] == t[e];
      LinesAtShift(pre, t, e + 1, lines[1..]);
    } else {
      assert (pre + t)[|pre| + q..] == t[q..];
    }
  }

  /** Terminated lines lie in their text one after another, before a last line without a break. */
  lemma {:induction false} TerminatedLines(lines: seq<seq<char>>, tail: seq<char>)
    requires '\n' !in tail
    ensures LinesAt(Terminated(lines) + tail, 0, lines)
  {
    if lines == [] {
      assert (Terminated(lines) + tail)[0..] == tail;
    } else {
      var l, t := lines[0], Terminated(lines[1..]) + tail;
      TerminatedLines(lines[1..], tail);
      LinesAtShift(l + "\n", t, 0, lines[1..]);
      var s := Terminated(lines) + tail;
      assert s == (l + "\n") + t;
      assert s[0..|l|] == l;
    }
  }

  /** The first of the lines: `strchr` stops at its break and the others follow. */
  lemma FirstLine(s: seq<char>, p: nat, lines: seq<seq<char>>)
    requires LinesAt(s, p, lines) && lines != [] && '\n' !in lines[0]
    ensures p + |lines[0]| < |s| && Find(s, p, '\n') == Some(p + |lines[0]|)
    ensures s[p..p + |lines[0]|] == lines[0] && LinesAt(s, p + |lines[0]| + 1, lines[1..])
  {
    FindAt(s, p, '\n', p + |lines[0]|);
  }

  /** Line `n` of the lines, when the text from `q` on holds the lines from `n` on. */
  lemma NthLine(s: seq<char>, q: nat, lines: seq<seq<char>>, n: nat)
    requires n < |lines| && LinesAt(s, q, lines[n..]) && '\n' !in lines[n]
    ensures q + |lines[n]| < |s| && Find(s, q, '\n') == Some(q + |lines[n]|)
    ensures s[q..q + |lines[n]|] == lines[n] && LinesAt(s, q + |lines[n]| + 1, lines[n + 1..])
  {
    assert lines[n..][0] == lines[n] && lines[n..][1..] == lines[n + 1..];
    FirstLine(s, q, lines[n..]);
  }

  lemma FirstThree(x: seq<char>, y: seq<char>, z: seq<char>, lines: seq<seq<char>>)
    requires |lines| >= 3 && x == lines[0] && y == lines[1] && z == lines[2]
    ensures [x, y, z] == lines[..3]
  {
  }

  /** Where the first three lines end, and what follows them. */
  lemma ThreeLines(s: seq<char>, start: nat, lines: seq<seq<char>>)
    requires |lines| >= 3 && NoBreaks(lines) && LinesAt(s, start, lines)
    ensures var e1 := start + |lines[0]|; var e2 := e1 + 1 + |lines[1]|; var e3 := e2 + 1 + |lines[2]|;
      && e3 < |s|
      && Find(s, start, '\n') == Some(e1) && Find(s, e1 + 1, '\n') == Some(e2) && Find(s, e2 + 1, '\n') == Some(e3)
      && s[start..e1] == lines[0] && s[e1 + 1..e2] == lines[1] && s[e2 + 1..e3] == lines[2]
      && LinesAt(s, e3 + 1, lines[3..])
  {
    var l0, l1, l2 := lines[0], lines[1], lines[2];
    assert '\n' !in l0 && '\n' !in l1 && '\n' !in l2;
    var r1 := lines[1..];
    var r2 := r1[1..];
    assert r1[0] == l1 && r2[0] == l2 && r2[1..] == lines[3..];
    var q1 := start + |l0| + 1;
    var q2 := q1 + |l1| + 1;
    FirstLine(s, start, lines);
    assert LinesAt(s, q1, r1);
    FirstLine(s, q1, r1);
    assert LinesAt(s, q2, r2);
    FirstLine(s, q2, r2);
  }

  /** Three lines in front of the rest: the group reads those lines and leaves `start` after them. */
  lemma GroupOfLines(s: seq<char>, start: nat, lines: seq<seq<char>>)
    requires |lines| >= 3 && NoBreaks(lines)
    requires LinesAt(s, start, lines)
    ensures HasGroup(s, start)
    ensures Group(s, start) == lines[..3]
    ensures LinesAt(s, GroupNext(s, start), lines[3..])
  {
    ThreeLines(s, start, lines);
    var e1 := start + |lines[0]|;
    var e2 := e1 + 1 + |lines[1]|;
    var e3 := e2 + 1 + |lines[2]|;
    GroupFromBreaks(s, start, e1, e2, e3);
    FirstThree(s[start..e1], s[e1 + 1..e2], s[e2 + 1..e3], lines);
  }

  lemma DropGroup(n: nat)
    requires n % 3 == 0 && n >= 3
    ensures (n - 3) % 3 == 0
  {
  }

  /**
   * Although the source is not safe on every text, on groups of terminated
   * lines it sums every badge; a last line without a break after them stops
   * the loop and is not read.
   */
  method PartTwo(s: seq<char>, ghost lines: seq<seq<char>>, ghost tail: seq<char>) returns (result: int)
    requires s == Terminated(lines) + tail && '\n' !in tail && |lines| % 3 == 0 && NoBreaks(lines)
    ensures result == BadgeTotal(lines)
  {
    result := 0;
    var start: nat := 0;
    ghost var rest := lines;
    TerminatedLines(lines, tail);
    while Find(s, start, '\n').Some?
      invariant |rest| % 3 == 0 && NoBreaks(rest)
      invariant LinesAt(s, start, rest)
      invariant result + BadgeTotal(rest) == BadgeTotal(lines)
      decreases |s| - start
    {
      if rest == [] {
        FindNone(s, start, '\n');
      }
      GroupOfLines(s, start, rest);
      var badge;
      badge, start := GroupBadge(s, start);
      result := result + badge;
      NoBreaksDrop(rest, 3);
      DropGroup(|rest|);
      rest := rest[3..];
    }
    if rest != [] {
      assert '\n' !in rest[0];
      FirstLine(s, start, rest);
    }
  }
}
