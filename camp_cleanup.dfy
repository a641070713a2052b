/**
 * Camp cleanup (day4/day4.cpp). Each line holds two section ranges,
 * `a-b,c-d`. Both parts read the whole text from its last character to its
 * first with a small state machine that rebuilds the four numbers with a
 * growing radix, and count the lines whose ranges overlap: fully in part one,
 * at all in part two.
 *
 * The source leaves its four range variables uninitialised; reading one before
 * it has been written is undefined behaviour. The model tracks them as
 * options and records such a read in `undefined`; the counting methods
 * require that it never happens.
 */
module CampCleanup {
  import opened Results
  import opened Decimal

  // ---------------------------------------------------------------------------
  // The two overlap tests
  // ---------------------------------------------------------------------------

  /** `calculateFullOverlap`: one range starts no later and ends no earlier than the other. */
  predicate FullOverlap(firstLower: int, firstUpper: int, secondLower: int, secondUpper: int) {
    || (firstLower <= secondLower && firstUpper >= secondUpper)
    || (secondLower <= firstLower && secondUpper >= firstUpper)
  }

  /** `calculatePartialOverlap`: the start of one range lies inside the other. */
  predicate PartialOverlap(firstLower: int, firstUpper: int, secondLower: int, secondUpper: int) {
    || (firstLower >= secondLower && firstLower <= secondUpper)
    || (secondLower >= firstLower && secondLower <= firstUpper)
  }

  /** Section `x` lies in the range. */
  predicate Covers(lower: int, upper: int, x: int) {
    lower <= x <= upper
  }

  /** For well-formed ranges, full overlap means that one range includes every section of the other. */
  lemma FullOverlapMeansContainment(a: int, b: int, c: int, d: int)
    requires a <= b && c <= d
    ensures FullOverlap(a, b, c, d) <==>
      (forall x :: Covers(c, d, x) ==> Covers(a, b, x)) || (forall x :: Covers(a, b, x) ==> Covers(c, d, x))
  {
    if forall x :: Covers(c, d, x) ==> Covers(a, b, x) {
      assert Covers(c, d, c) && Covers(c, d, d);
    }
    if forall x :: Covers(a, b, x) ==> Covers(c, d, x) {
      assert Covers(a, b, a) && Covers(a, b, b);
    }
  }

  /**
   * For well-formed ranges, checking the two start points is enough: the test
   * holds exactly when the ranges share a section.
   */
  lemma PartialOverlapMeansSharedSection(a: int, b: int, c: int, d: int)
    requires a <= b && c <= d
    ensures PartialOverlap(a, b, c, d) <==> exists x :: Covers(a, b, x) && Covers(c, d, x)
  {
    if PartialOverlap(a, b, c, d) {
      if a >= c && a <= d {
        assert Covers(a, b, a) && Covers(c, d, a);
      } else {
        assert Covers(a, b, c) && Covers(c, d, c);
      }
    }
  }

  /** Neither test depends on which range comes first. */
  lemma OverlapSymmetric(a: int, b: int, c: int, d: int)
    ensures FullOverlap(a, b, c, d) == FullOverlap(c, d, a, b)
    ensures PartialOverlap(a, b, c, d) == PartialOverlap(c, d, a, b)
  {
  }

  /** For well-formed ranges, a full overlap is also a partial one. */
  lemma FullImpliesPartial(a: int, b: int, c: int, d: int)
    requires a <= b && c <= d
    ensures FullOverlap(a, b, c, d) ==> PartialOverlap(a, b, c, d)
  {
  }

  /** Which of the two tests a part counts with. */
  datatype Rule = Full | Partial

  predicate Overlaps(rule: Rule, firstLower: int, firstUpper: int, secondLower: int, secondUpper: int) {
    match rule
    case Full => FullOverlap(firstLower, firstUpper, secondLower, secondUpper)
    case Partial => PartialOverlap(firstLower, firstUpper, secondLower, secondUpper)
  }

  // ---------------------------------------------------------------------------
  // The backward scanner
  // ---------------------------------------------------------------------------

  /**
   * The source's `ParserState`. It is recomputed from each character before it
   * is used, so it is not part of the scanner state (and `IDLE` is never used).
   */
  datatype Mode = EndOfLine | ValueSwitch | BoundarySwitch | Reading

  /** The source's `ValueState`: which value the scanner is reading. */
  datatype ValueState = FirstUpper | FirstLower | SecondUpper | SecondLower

  function Classify(c: char): Mode {
    if c == '\n' then EndOfLine
    else if c == ',' then ValueSwitch
    else if c == '-' then BoundarySwitch
    else Reading
  }

  /**
   * The scanner's variables. A range variable is `None` until it is first
   * written; `undefined` records that one was read while still `None`.
   */
  datatype Scanner = Scanner(
    valueState: ValueState, radix: int, section: int,
    firstUpper: Option<int>, firstLower: Option<int>, secondUpper: Option<int>, secondLower: Option<int>,
    count: int, undefined: bool)

  const Start := Scanner(FirstUpper, 1, 0, None, None, None, None, 0, false)

  /** `count += calculate...Overlap(firstLower, firstUpper, secondLower, secondUpper)`. */
  function Tally(s: Scanner, rule: Rule): (t: Scanner)
    ensures t.undefined <==> s.undefined || s.firstLower.None? || s.firstUpper.None? || s.secondLower.None? || s.secondUpper.None?
  {
    if s.firstLower.None? || s.firstUpper.None? || s.secondLower.None? || s.secondUpper.None? then
      s.(undefined := true)
    else
      var hit := Overlaps(rule, s.firstLower.value, s.firstUpper.value, s.secondLower.value, s.secondUpper.value);
      s.(count := s.count + if hit then 1 else 0)
  }

  /** One character, read going backwards: the two switches of the loop body. */
  function Step(s: Scanner, c: char, rule: Rule): Scanner {
    match Classify(c)
    case EndOfLine =>
      Tally(s.(secondLower := Some(s.section), radix := 1, section := 0, valueState := FirstUpper), rule)
    case ValueSwitch =>
      s.(firstLower := Some(s.section), radix := 1, section := 0, valueState := SecondUpper)
    case BoundarySwitch =>
      if s.valueState == FirstUpper then
        s.(valueState := FirstLower, firstUpper := Some(s.section), radix := 1, section := 0)
      else
        s.(valueState := SecondLower, secondUpper := Some(s.section), radix := 1, section := 0)
    case Reading =>
      s.(section := s.section + DigitValue(c) * s.radix, radix := s.radix * 10)
  }

  /** The scanner after reading `text` from its end to its start, beginning in `s`. */
  function ScanFrom(text: seq<char>, s: Scanner, rule: Rule): Scanner {
    if text == [] then s else Step(ScanFrom(text[1..], s, rule), text[0], rule)
  }

  /** After the loop: the last field read is the first line's lower bound, and that line is tallied. */
  function Final(text: seq<char>, rule: Rule): Scanner {
    var s := ScanFrom(text, Start, rule);
    Tally(s.(secondLower := Some(s.section)), rule)
  }

  lemma ScanOneMore(text: seq<char>, i: nat, rule: Rule)
    requires i < |text|
    ensures ScanFrom(text[i..], Start, rule) == Step(ScanFrom(text[i + 1..], Start, rule), text[i], rule)
  {
    assert text[i..][1..] == text[i + 1..];
  }

  lemma {:induction false} ScanConcat(a: seq<char>, b: seq<char>, s: Scanner, rule: Rule)
    ensures ScanFrom(a + b, s, rule) == ScanFrom(a, ScanFrom(b, s, rule), rule)
  {
    if a == [] {
      assert a + b == b;
    } else {
      assert (a + b)[1..] == a[1..] + b;
      assert (a + b)[0] == a[0];
      ScanConcat(a[1..], b, s, rule);
    }
  }

  /** Once an uninitialised read has happened, it stays recorded. */
  lemma {:induction false} UndefinedSticks(text: seq<char>, s: Scanner, rule: Rule)
    requires s.undefined
    ensures ScanFrom(text, s, rule).undefined
  {
    if text != [] {
      UndefinedSticks(text[1..], s, rule);
    }
  }

  /** An uninitialised read anywhere in the scan makes the whole run undefined. */
  lemma UndefinedSuffix(text: seq<char>, i: nat, rule: Rule)
    requires i <= |text| && ScanFrom(text[i..], Start, rule).undefined
    ensures Final(text, rule).undefined
  {
    assert text == text[..i] + text[i..];
    ScanConcat(text[..i], text[i..], Start, rule);
    UndefinedSticks(text[..i], ScanFrom(text[i..], Start, rule), rule);
  }

  /**
   * A text ending in a line break is undefined: the break is read first and
   * tallies four variables that were never written.
   */
  lemma TrailingBreakUndefined(text: seq<char>, rule: Rule)
    ensures Final(text + "\n", rule).undefined
  {
    ScanConcat(text, "\n", Start, rule);
    assert ScanFrom("\n", Start, rule) == Step(Start, '\n', rule);
    UndefinedSticks(text, Step(Start, '\n', rule), rule);
  }

  /** The value a variable holds in the methods: what was written, or the 0 it starts with. */
  function Held(v: Option<int>): int {
    if v.Some? then v.value else 0
  }

  /** Both parts: the loop of `partOne`/`partTwo`, counting with `rule`. */
  method CountOverlaps(input: seq<char>, rule: Rule) returns (count: int)
    requires !Final(input, rule).undefined
    ensures count == Final(input, rule).count
  {
    var radix := 1;
    var valueState := FirstUpper;
    var firstUpper, firstLower, secondUpper, secondLower, section := 0, 0, 0, 0, 0;
    count := 0;
    ghost var s := Start;
    for i := |input| downto 0
      invariant s == ScanFrom(input[i..], Start, rule) && !s.undefined
      invariant valueState == s.valueState && radix == s.radix && section == s.section && count == s.count
      invariant firstUpper == Held(s.firstUpper) && firstLower == Held(s.firstLower)
      invariant secondUpper == Held(s.secondUpper) && secondLower == Held(s.secondLower)
    {
      ScanOneMore(input, i, rule);
      var value := input[i];
      var parserState := if value == '\n' then EndOfLine
        else if value == ',' then ValueSwitch
        else if value == '-' then BoundarySwitch
        else Reading;
      s := Step(s, value, rule);
      if s.undefined {
        UndefinedSuffix(input, i, rule);
      }
      match parserState
      case EndOfLine =>
        secondLower := section;
        radix := 1;
        section := 0;
        valueState := FirstUpper;
        count := count + if Overlaps(rule, firstLower, firstUpper, secondLower, secondUpper) then 1 else 0;
      case ValueSwitch =>
        firstLower := section;
        radix := 1;
        section := 0;
        valueState := SecondUpper;
      case BoundarySwitch =>
        if valueState == FirstUpper {
          valueState := FirstLower;
          firstUpper := section;
        } else {
          valueState := SecondLower;
          secondUpper := section;
        }
        radix := 1;
        section := 0;
      case Reading =>
        section := section + DigitValue(value) * radix;
        radix := radix * 10;
    }
    secondLower := section;
    count := count + if Overlaps(rule, firstLower, firstUpper, secondLower, secondUpper) then 1 else 0;
  }

  /** `partOne`: the lines whose ranges fully overlap. */
  method PartOne(input: seq<char>) returns (count: int)
    requires !Final(input, Full).undefined
    ensures count == Final(input, Full).count
  {
    count := CountOverlaps(input, Full);
  }

  /** `partTwo`: the lines whose ranges overlap at all. */
  method PartTwo(input: seq<char>) returns (count: int)
    requires !Final(input, Partial).undefined
    ensures count == Final(input, Partial).count
  {
    count := CountOverlaps(input, Partial);
  }

  // ---------------------------------------------------------------------------
  // What the scanner computes on well-formed assignments
  // ---------------------------------------------------------------------------

  /** One line of the list: the first elf's range, then the second's. */
  datatype Assignment = Assignment(firstLo: nat, firstHi: nat, secondLo: nat, secondHi: nat)

  function Line(p: Assignment): seq<char> {
    DecString(p.firstLo) + "-" + DecString(p.firstHi) + "," + DecString(p.secondLo) + "-" + DecString(p.secondHi)
  }

  /** The lines joined by single line breaks, with no break after the last. */
  function Lines(ps: seq<Assignment>): seq<char>
    requires ps != []
  {
    Line(ps[0]) + if |ps| == 1 then [] else "\n" + Lines(ps[1..])
  }

  predicate Hit(p: Assignment, rule: Rule) {
    Overlaps(rule, p.firstLo, p.firstHi, p.secondLo, p.secondHi)
  }

  /** The number of assignments whose ranges overlap under `rule`. */
  function Matching(ps: seq<Assignment>, rule: Rule): (n: nat)
    ensures n <= |ps|
  {
    if ps == [] then 0 else (if Hit(ps[0], rule) then 1 else 0) + Matching(ps[1..], rule)
  }

  /** A fresh field: radix 1, nothing read yet, expecting the upper bound of a range. */
  predicate Fresh(s: Scanner) {
    s.radix == 1 && s.section == 0 && s.valueState == FirstUpper
  }

  lemma RadixArithmetic(c: int, r: int, p: int, d: int, v: int)
    ensures (c + r * v) + d * (r * p) == c + r * (d * p + v)
    ensures (r * p) * 10 == r * (10 * p)
  {
    assert d * (r * p) == r * (d * p);
  }

  /** Digits read backwards with a growing radix add the number they spell. */
  lemma {:induction false} ScanDigits(ds: seq<char>, s: Scanner, rule: Rule)
    requires ds != [] && AllDigits(ds)
    ensures ScanFrom(ds, s, rule) ==
      s.(section := s.section + s.radix * Value(ds), radix := s.radix * Pow10(|ds|))
  {
    if |ds| == 1 {
      assert ds == [ds[0]];
      assert Value(ds) == DigitValue(ds[0]);
    } else {
      var rest := ds[1..];
      assert ds == [ds[0]] + rest;
      ScanDigits(rest, s, rule);
      ValueCons(ds[0], rest);
      assert ScanFrom(ds, s, rule) == Step(ScanFrom(rest, s, rule), ds[0], rule);
      RadixArithmetic(s.section, s.radix, Pow10(|rest|), DigitValue(ds[0]), Value(rest));
    }
  }

  /** A number read from a fresh field. */
  lemma ScanNumber(n: nat, s: Scanner, rule: Rule)
    requires s.radix == 1 && s.section == 0
    ensures ScanFrom(DecString(n), s, rule) == s.(section := n, radix := Pow10(|DecString(n)|))
  {
    ScanDigits(DecString(n), s, rule);
    ValueOfDecString(n);
  }

  /** A number after a separator, read backwards: the number, then the separator, then what precedes them. */
  lemma ScanTrail(pre: seq<char>, sep: char, n: nat, s: Scanner, rule: Rule)
    requires s.radix == 1 && s.section == 0
    ensures ScanFrom(pre + [sep] + DecString(n), s, rule) ==
      ScanFrom(pre, Step(s.(section := n, radix := Pow10(|DecString(n)|)), sep, rule), rule)
  {
    ScanConcat(pre + [sep], DecString(n), s, rule);
    ScanNumber(n, s, rule);
    var u := ScanFrom(DecString(n), s, rule);
    ScanConcat(pre, [sep], u, rule);
    assert ScanFrom([sep], u, rule) == Step(u, sep, rule) by {
      assert [sep][1..] == [];
    }
  }

  /**
   * One line read backwards from a fresh field: the second range lands in
   * `first...`, the first range's upper bound in `secondUpper`, and its lower
   * bound is left in `section`.
   */
  lemma ScanLine(p: Assignment, s: Scanner, rule: Rule)
    requires Fresh(s)
    ensures var t := ScanFrom(Line(p), s, rule);
      && t.firstUpper == Some(p.secondHi) && t.firstLower == Some(p.secondLo)
      && t.secondUpper == Some(p.firstHi) && t.section == p.firstLo
      && t.secondLower == s.secondLower && t.count == s.count && t.undefined == s.undefined
  {
    var a, b, c, d := DecString(p.firstLo), DecString(p.firstHi), DecString(p.secondLo), DecString(p.secondHi);
    var x2 := a + "-" + b;
    var x3 := x2 + "," + c;
    assert Line(p) == x3 + ['-'] + d;
    ScanTrail(x3, '-', p.secondHi, s, rule);
    var s1 := s.(valueState := FirstLower, firstUpper := Some(p.secondHi));
    assert x3 == x2 + [','] + c;
    ScanTrail(x2, ',', p.secondLo, s1, rule);
    var s2 := s1.(valueState := SecondUpper, firstLower := Some(p.secondLo));
    assert x2 == a + ['-'] + b;
    ScanTrail(a, '-', p.firstHi, s2, rule);
    var s3 := s2.(valueState := SecondLower, secondUpper := Some(p.firstHi));
    ScanNumber(p.firstLo, s3, rule);
  }

  /**
   * The lines read backwards from a fresh field: every line but the first is
   * tallied at the break before it, and the first line's fields are left set.
   */
  lemma {:induction false} ScanLines(ps: seq<Assignment>, s: Scanner, rule: Rule)
    requires ps != [] && Fresh(s) && !s.undefined
    ensures var t := ScanFrom(Lines(ps), s, rule);
      && t.firstUpper == Some(ps[0].secondHi) && t.firstLower == Some(ps[0].secondLo)
      && t.secondUpper == Some(ps[0].firstHi) && t.section == ps[0].firstLo
      && t.count == s.count + Matching(ps[1..], rule) && !t.undefined
  {
    if |ps| == 1 {
      assert Lines(ps) == Line(ps[0]);
      ScanLine(ps[0], s, rule);
    } else {
      var tail := "\n" + Lines(ps[1..]);
      assert Lines(ps) == Line(ps[0]) + tail;
      ScanConcat(Line(ps[0]), tail, s, rule);
      ScanConcat("\n", Lines(ps[1..]), s, rule);
      ScanLines(ps[1..], s, rule);
      var u := ScanFrom(Lines(ps[1..]), s, rule);
      var w := ScanFrom("\n", u, rule);
      assert w == Step(u, '\n', rule);
      OverlapSymmetric(ps[1].firstLo, ps[1].firstHi, ps[1].secondLo, ps[1].secondHi);
      assert w.count == s.count + Matching(ps[1..], rule);
      ScanLine(ps[0], w, rule);
    }
  }

  /**
   * On a well-formed list the run is defined and counts exactly the
   * assignments whose ranges overlap: part one the full overlaps, part two
   * the partial ones.
   */
  lemma CountOfLines(ps: seq<Assignment>, rule: Rule)
    requires ps != []
    ensures !Final(Lines(ps), rule).undefined
    ensures Final(Lines(ps), rule).count == Matching(ps, rule)
  {
    ScanLines(ps, Start, rule);
    OverlapSymmetric(ps[0].firstLo, ps[0].firstHi, ps[0].secondLo, ps[0].secondHi);
  }
}
