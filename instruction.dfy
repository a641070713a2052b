/**
 * `readInstruction` (day5/day5.cpp): a `move c from f to t` line read from
 * its end back to its start. Digits build the current number with a growing
 * radix; the first non-digit met closes the field named by the
 * `ReadLineState` and jumps over the keyword in front of it.
 */
module Instructions {
  import opened Results
  import opened Decimal

  /** Stack indices are zero-based: the reader subtracts one from both. */
  datatype Instruction = Instruction(count: int, from: int, to: int)

  /** `ReadLineState`: which field the next non-digit closes. */
  datatype Field = ToField | FromField | CountField

  /**
   * The reader's locals. A field of the returned `Instruction` that the
   * source never assigns is `None` here.
   */
  datatype Reader = Reader(state: Field, radix: int, current: int,
                           count: Option<int>, from: Option<int>, to: Option<int>)

  /**
   * What the source leaves undefined: stepping the pointer in front of the
   * text, and returning a field that was never assigned.
   */
  datatype ReadError = BeforeText | FieldUnset

  const Fresh: Reader := Reader(ToField, 1, 0, None, None, None)

  /** How far the pointer jumps once a field is closed: over " to", " from" or " move". */
  function Skip(f: Field): nat {
    match f
    case ToField => 3
    case FromField => 5
    case CountField => 4
  }

  /** A digit, read at the current radix. */
  function Digit(r: Reader, v: char): Reader {
    r.(current := r.current + DigitValue(v) * r.radix, radix := r.radix * 10)
  }

  /** A non-digit: the current number becomes the field the state names. */
  function Close(r: Reader): Reader {
    var closed :=
      match r.state
      case ToField => r.(to := Some(r.current - 1), state := FromField)
      case FromField => r.(from := Some(r.current - 1), state := CountField)
      case CountField => r.(count := Some(r.current));
    closed.(radix := 1, current := 0)
  }

  /** The `Instruction` returned at the line break in front of the line. */
  function Finish(r: Reader): (res: Result<Instruction, ReadError>)
    ensures res.Success? <==> r.count.Some? && r.from.Some? && r.to.Some?
  {
    if r.count.Some? && r.from.Some? && r.to.Some? then
      Success(Instruction(r.count.value, r.from.value, r.to.value))
    else Failure(FieldUnset)
  }

  /** The reader with the pointer at `p`: it next looks at `s[p - 1]`. */
  function ReadFrom(s: seq<char>, p: int, r: Reader): Result<Instruction, ReadError>
    requires p <= |s|
    decreases p
  {
    if p <= 0 then Failure(BeforeText)
    else
      var v := s[p - 1];
      if v == '\n' then Finish(r)
      else if IsDigit(v) then ReadFrom(s, p - 1, Digit(r, v))
      else ReadFrom(s, p - 1 - Skip(r.state), Close(r))
  }

  /** `readInstruction(s + end)`: `end` is the line break (or terminator) after the line. */
  function ReadLine(s: seq<char>, end: nat): Result<Instruction, ReadError>
    requires end <= |s|
  {
    ReadFrom(s, end, Fresh)
  }

  method ReadInstruction(s: seq<char>, end: nat) returns (r: Result<Instruction, ReadError>)
    requires end <= |s|
    ensures r == ReadLine(s, end)
  {
    var position: int := end;
    var state, radix, current := ToField, 1, 0;
    var count, from, to: Option<int> := None, None, None;
    while true
      invariant position <= |s|
      invariant ReadFrom(s, position, Reader(state, radix, current, count, from, to)) == ReadLine(s, end)
      decreases position
    {
      if position <= 0 {
        return Failure(BeforeText);
      }
      ghost var before := Reader(state, radix, current, count, from, to);
      position := position - 1;
      var value := s[position];
      if value == '\n' {
        if count.Some? && from.Some? && to.Some? {
          return Success(Instruction(count.value, from.value, to.value));
        }
        return Failure(FieldUnset);
      }
      if IsDigit(value) {
        current := current + DigitValue(value) * radix;
        radix := radix * 10;
        assert Reader(state, radix, current, count, from, to) == Digit(before, value);
      } else {
        match state {
          case ToField =>
            to := Some(current - 1);
            state := FromField;
            position := position - 3;
          case FromField =>
            from := Some(current - 1);
            state := CountField;
            position := position - 5;
          case CountField =>
            count := Some(current);
            position := position - 4;
        }
        radix := 1;
        current := 0;
        assert Reader(state, radix, current, count, from, to) == Close(before);
      }
    }
  }

  /** The line the puzzle writes for moving `count` crates from stack `from` to stack `to` (numbered from 1). */
  function MoveLine(count: nat, from: nat, to: nat): seq<char> {
    "move " + DecString(count) + " from " + DecString(from) + " to " + DecString(to)
  }

  lemma RadixArithmetic(c: int, r: int, p: int, d: int, v: int)
    ensures (c + d * r) + (r * 10) * v == c + r * (v * 10 + d)
    ensures (r * 10) * p == r * (10 * p)
  {
  }

  /** Digits ending at `q + |ds|`, read backwards, add the number they spell at the current radix. */
  lemma {:induction false} ReadDigits(s: seq<char>, q: nat, ds: seq<char>, r: Reader)
    requires q + |ds| <= |s| && s[q..q + |ds|] == ds && AllDigits(ds)
    ensures ReadFrom(s, q + |ds|, r) ==
      ReadFrom(s, q, r.(current := r.current + r.radix * Value(ds), radix := r.radix * Pow10(|ds|)))
    decreases |ds|
  {
    if ds != [] {
      var n := |ds| - 1;
      var d := ds[n];
      assert s[q + n] == d;
      assert s[q..q + n] == ds[..n];
      ReadDigits(s, q, ds[..n], Digit(r, d));
      RadixArithmetic(r.current, r.radix, Pow10(n), DigitValue(d), Value(ds[..n]));
    }
  }

  /** A number behind the pointer is read, then the separator in front of it closes the field into `next`. */
  lemma ReadField(s: seq<char>, q: nat, n: nat, r: Reader, next: Reader)
    requires r.radix == 1 && r.current == 0
    requires 1 <= q && q + |DecString(n)| <= |s| && s[q..q + |DecString(n)|] == DecString(n)
    requires s[q - 1] == ' '
    requires next == Close(r.(current := n))
    ensures ReadFrom(s, q + |DecString(n)|, r) == ReadFrom(s, q - 1 - Skip(r.state), next)
  {
    ReadDigits(s, q, DecString(n), r);
    ValueOfDecString(n);
  }

  /** The three fields at known places, each behind a space, with a line break in front of the keyword `move `. */
  lemma ReadLaidOut(s: seq<char>, qc: nat, qf: nat, qt: nat, count: nat, from: nat, to: nat)
    requires 6 <= qc && qc + |DecString(count)| + 6 == qf && qf + |DecString(from)| + 4 == qt
    requires qt + |DecString(to)| <= |s|
    requires s[qc - 6] == '\n' && s[qc - 1] == ' ' && s[qf - 1] == ' ' && s[qt - 1] == ' '
    requires s[qc..qc + |DecString(count)|] == DecString(count)
    requires s[qf..qf + |DecString(from)|] == DecString(from)
    requires s[qt..qt + |DecString(to)|] == DecString(to)
    ensures ReadFrom(s, qt + |DecString(to)|, Fresh) == Success(Instruction(count, from - 1, to - 1))
  {
    var r1 := Reader(FromField, 1, 0, None, None, Some(to - 1));
    var r2 := Reader(CountField, 1, 0, None, Some(from - 1), Some(to - 1));
    var r3 := Reader(CountField, 1, 0, Some(count), Some(from - 1), Some(to - 1));
    ReadField(s, qt, to, Fresh, r1);
    ReadField(s, qf, from, r1, r2);
    ReadField(s, qc, count, r2, r3);
  }

  /** The separators of a move line: the line break in front of it and the space in front of each number. */
  lemma MoveLineSeparators(pre: seq<char>, count: nat, from: nat, to: nat, post: seq<char>)
    requires pre != [] && pre[|pre| - 1] == '\n'
    ensures var s, qc := pre + MoveLine(count, from, to) + post, |pre| + 5;
      var qf := qc + |DecString(count)| + 6;
      var qt := qf + |DecString(from)| + 4;
      && qt + |DecString(to)| == |pre| + |MoveLine(count, from, to)| <= |s|
      && s[qc - 6] == '\n' && s[qc - 1] == ' ' && s[qf - 1] == ' ' && s[qt - 1] == ' '
  {
    var c, f, t := DecString(count), DecString(from), DecString(to);
    var m1 := pre + "move ";
    var m2 := m1 + c;
    var m3 := m2 + " from ";
    var m4 := m3 + f;
    var m5 := m4 + " to ";
    var m6 := m5 + t;
    var s := m6 + post;
    assert s == pre + MoveLine(count, from, to) + post;
    assert s[|pre| - 1] == '\n' by { assert m1[|pre| - 1] == '\n'; }
    assert s[|m1| - 1] == ' ' by { assert m2[|m1| - 1] == ' '; }
    assert s[|m3| - 1] == ' ' by { assert m4[|m3| - 1] == ' '; }
    assert s[|m5| - 1] == ' ' by { assert m6[|m5| - 1] == ' '; }
  }

  /** The three numbers of a move line, where the reader meets them. */
  lemma MoveLineFields(pre: seq<char>, count: nat, from: nat, to: nat, post: seq<char>)
    ensures var s, qc := pre + MoveLine(count, from, to) + post, |pre| + 5;
      var qf := qc + |DecString(count)| + 6;
      var qt := qf + |DecString(from)| + 4;
      && s[qc..qc + |DecString(count)|] == DecString(count)
      && s[qf..qf + |DecString(from)|] == DecString(from)
      && s[qt..qt + |DecString(to)|] == DecString(to)
  {
    assert |"move "| == 5 && |" from "| == 6 && |" to "| == 4;
    Fields(pre, "move ", DecString(count), " from ", DecString(from), " to ", DecString(to), post);
  }

  /** The values `c`, `f` and `t` of a line `a + c + b + f + d + t`, read out of it with any text around it. */
  lemma Fields(pre: seq<char>, a: seq<char>, c: seq<char>, b: seq<char>, f: seq<char>, d: seq<char>, t: seq<char>, post: seq<char>)
    ensures var s, qc := pre + (a + c + b + f + d + t) + post, |pre| + |a|;
      var qf := qc + |c| + |b|;
      var qt := qf + |f| + |d|;
      && s[qc..qc + |c|] == c
      && s[qf..qf + |f|] == f
      && s[qt..qt + |t|] == t
  {
    var line := a + c + b + f + d + t;
    var m2 := a + c;
    var m3 := m2 + b;
    var m4 := m3 + f;
    var m5 := m4 + d;
    assert line == m5 + t;
    assert line[|a|..|m2|] == c by { Within(a, c, line); }
    assert line[|m3|..|m4|] == f by { Within(m3, f, line); }
    assert line[|m5|..|line|] == t;
    Shift(pre, line, post, |a|, |m2|);
    Shift(pre, line, post, |m3|, |m4|);
    Shift(pre, line, post, |m5|, |line|);
  }

  /** A slice of the middle part of `pre + line + post`. */
  lemma Shift(pre: seq<char>, line: seq<char>, post: seq<char>, i: nat, j: nat)
    requires i <= j <= |line|
    ensures (pre + line + post)[|pre| + i..|pre| + j] == line[i..j]
  {
    assert (pre + line + post)[|pre|..|pre| + |line|] == line;
  }

  /** The part `b` of `a + b` read back out of any extension of it. */
  lemma Within(a: seq<char>, b: seq<char>, s: seq<char>)
    requires a + b <= s
    ensures s[|a|..|a| + |b|] == b
  {
    assert s[|a|..|a| + |b|] == (a + b)[|a|..];
  }

  /**
   * Reading `move c from f to t` back from its end, with a line break in
   * front of it, gives count `c` and the zero-based stacks `f - 1` and `t - 1`.
   */
  lemma ReadMoveLine(pre: seq<char>, count: nat, from: nat, to: nat, post: seq<char>)
    requires pre != [] && pre[|pre| - 1] == '\n'
    ensures ReadLine(pre + MoveLine(count, from, to) + post, |pre| + |MoveLine(count, from, to)|) ==
      Success(Instruction(count, from - 1, to - 1))
  {
    MoveLineSeparators(pre, count, from, to, post);
    MoveLineFields(pre, count, from, to, post);
    var qc := |pre| + 5;
    var qf := qc + |DecString(count)| + 6;
    ReadLaidOut(pre + MoveLine(count, from, to) + post, qc, qf, qf + |DecString(from)| + 4, count, from, to);
  }
}
