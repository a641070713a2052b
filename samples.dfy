/**
 * The instruction loop over lines whose places are known, the puzzle's own
 * example of day 5 (its drawing loaded, its moves carried out with each
 * crane), and a whole input with a stack the loader never gives a head.
 */
module Samples {
  import opened Results
  import opened Text
  import opened Decimal
  import opened SupplyStacks
  import opened Instructions
  import opened Diagram
  import opened DiagramText
  import opened Rearrangement
  import opened Sequences

  /** `LineEnd` from anywhere in a line without breaks stops at its end. */
  lemma LineEndIn(pre: seq<char>, line: seq<char>, post: seq<char>, i: nat)
    requires |pre| <= i <= |pre| + |line| && '\n' !in line
    requires post == [] || post[0] == '\n'
    ensures LineEnd(pre + line + post, i) == |pre| + |line|
  {
    var s, e := pre + line + post, |pre| + |line|;
    assert s[i..e] == line[i - |pre|..];
    if post == [] {
      assert s[i..] == s[i..e];
      FindNone(s, i, '\n');
    } else {
      assert s[e] == post[0];
      FindAt(s, i, '\n', e);
    }
  }

  /** A move line holds no line break: its numbers are digits. */
  lemma MoveLineNoBreak(count: nat, from: nat, to: nat)
    ensures '\n' !in MoveLine(count, from, to)
    ensures count < 10 && from < 10 && to < 10 ==> |MoveLine(count, from, to)| == 18
  {
    var c, f, t := DecString(count), DecString(from), DecString(to);
    var line := MoveLine(count, from, to);
    assert line == "move " + c + " from " + f + " to " + t;
    forall k | 0 <= k < |line|
      ensures line[k] != '\n'
    {
      if 5 <= k < 5 + |c| {
        assert line[k] == c[k - 5];
      } else if 11 + |c| <= k < 11 + |c| + |f| {
        assert line[k] == f[k - 11 - |c|];
      } else if 15 + |c| + |f| <= k {
        assert line[k] == t[k - 15 - |c| - |f|];
      }
    }
  }

  /** Where a move line stands in `s`, the loop finds its end and reads its move there. */
  lemma MoveLineAt(s: seq<char>, pre: seq<char>, count: nat, from: nat, to: nat, post: seq<char>, pos: nat)
    requires s == pre + MoveLine(count, from, to) + post && pre != [] && pre[|pre| - 1] == '\n'
    requires |pre| <= pos <= |pre| + |MoveLine(count, from, to)| && (post == [] || post[0] == '\n')
    ensures var e := |pre| + |MoveLine(count, from, to)|;
      pos <= |s| && LineEnd(s, pos) == e && ReadLine(s, e) == Success(Instruction(count, from - 1, to - 1))
  {
    MoveLineNoBreak(count, from, to);
    LineEndIn(pre, MoveLine(count, from, to), post, pos);
    ReadMoveLine(pre, count, from, to, post);
  }

  /** The moves carried out in order, stopping at the first that fails. */
  function ExecuteAll(st: Stacks, moves: seq<Instruction>, crane: Crane): Result<Stacks, Fault>
    decreases |moves|
  {
    if moves == [] then Success(st)
    else
      match Execute(st, moves[0], crane)
      case Failure(e) => Failure(e)
      case Success(next) => ExecuteAll(next, moves[1..], crane)
  }

  lemma ExecuteAllStep(st: Stacks, moves: seq<Instruction>, crane: Crane, next: Stacks)
    requires moves != [] && Execute(st, moves[0], crane) == Success(next)
    ensures ExecuteAll(st, moves, crane) == ExecuteAll(next, moves[1..], crane)
  {
  }

  /**
   * The instruction loop over lines that start at `qs` and end at `es`, the
   * last at the end of the text, each reading as its move, carries out the
   * moves in order.
   */
  lemma {:induction false} RunSteps(s: seq<char>, qs: seq<nat>, es: seq<nat>, moves: seq<Instruction>, st: Stacks, crane: Crane)
    requires |qs| == |es| == |moves| > 0
    requires forall i | 0 <= i < |qs| :: qs[i] <= |s| && LineEnd(s, qs[i]) == es[i] && ReadLine(s, es[i]) == Success(moves[i])
    requires forall i | 0 <= i < |qs| - 1 :: es[i] < |s| && qs[i + 1] == es[i] + 1
    requires es[|es| - 1] == |s|
    requires ExecuteAll(st, moves, crane).Success?
    ensures Run(s, qs[0], st, crane) == ExecuteAll(st, moves, crane)
    decreases |qs|
  {
    var r := Execute(st, moves[0], crane);
    assert r.Success?;
    ExecuteAllStep(st, moves, crane, r.value);
    assert qs[0] <= |s| && LineEnd(s, qs[0]) == es[0] && ReadLine(s, es[0]) == Success(moves[0]);
    RunGoesOn(s, qs[0], st, crane, moves[0], r.value);
    if |qs| > 1 {
      assert es[0] < |s| && qs[1] == es[0] + 1;
      RunSteps(s, qs[1..], es[1..], moves[1..], r.value, crane);
    }
  }

  // ---------------------------------------------------------------------------
  // The puzzle's example
  // ---------------------------------------------------------------------------

  /**
   * The drawing of the example, stacks `NZ`, `DCM` and `P`, as the rows
   * `    [D]    `, `[N] [C]    ` and `[Z] [M] [P]` above ` 1   2   3 `.
   */
  function ExampleGrid(): (grid: seq<seq<Cell>>)
    ensures Drawable(grid, 3, " 1   2   3 ")
  {
    [[None, Some('D'), None], [Some('N'), Some('C'), None], [Some('Z'), Some('M'), Some('P')]]
  }

  /** What the example's four lines mean, with the stacks counted from 0. */
  function ExampleInstructions(): seq<Instruction> {
    [Instruction(1, 1, 0), Instruction(3, 0, 2), Instruction(2, 1, 0), Instruction(1, 0, 1)]
  }

  /** The example's drawing, whatever follows it, loads as `NZ`, `DCM`, `P`, with the instructions starting at the second character of what follows. */
  lemma ExampleLoads(rest: seq<char>)
    ensures var p := Picture(ExampleGrid(), 3, " 1   2   3 ");
      Load(p + rest) == Success(Loaded(["NZ", "DCM", "P"], |p| + 1))
  {
    var p := Picture(ExampleGrid(), 3, " 1   2   3 ");
    LoadPicture(ExampleGrid(), 3, " 1   2   3 ", rest);
    ExampleColumns();
    assert Load(p + rest).value.stacks == ["NZ", "DCM", "P"];
  }

  lemma ExampleColumns()
    ensures Column(ExampleGrid(), 0) == "NZ" && Column(ExampleGrid(), 1) == "DCM" && Column(ExampleGrid(), 2) == "P"
  {
  }

  /** Four moves carried out in order, given what each does. */
  lemma ExecuteFour(ms: seq<Instruction>, crane: Crane, st0: Stacks, st1: Stacks, st2: Stacks, st3: Stacks, st4: Stacks)
    requires |ms| == 4
    requires Execute(st0, ms[0], crane) == Success(st1) && Execute(st1, ms[1], crane) == Success(st2)
    requires Execute(st2, ms[2], crane) == Success(st3) && Execute(st3, ms[3], crane) == Success(st4)
    ensures ExecuteAll(st0, ms, crane) == Success(st4)
  {
    assert ms[1..][0] == ms[1] && ms[2..][0] == ms[2] && ms[3..][0] == ms[3];
    assert ms[1..][1..] == ms[2..] && ms[2..][1..] == ms[3..] && ms[3..][1..] == [];
    ExecuteAllStep(st0, ms, crane, st1);
    ExecuteAllStep(st1, ms[1..], crane, st2);
    ExecuteAllStep(st2, ms[2..], crane, st3);
    ExecuteAllStep(st3, ms[3..], crane, st4);
  }

  /** A one-at-a-time move, checked stack by stack against its law. */
  lemma SequentialStep(st: Stacks, f: nat, t: nat, count: nat, next: Stacks)
    requires |st| == 3 && f < 3 && t < 3 && f != t && 1 <= count <= |st[f]|
    requires |next| == 3 && next[t] == Reverse(st[f][..count]) + st[t] && next[f] == st[f][count..]
    requires forall i | 0 <= i < 3 && i != f && i != t :: next[i] == st[i]
    ensures Execute(st, Instruction(count, f, t), OneAtATime) == Success(next)
  {
    ExecuteWithin(st, Instruction(count, f, t), OneAtATime);
    SequentialLaw(st, f, t, count);
    assert Sequential(st, f, t, count) == next;
  }

  /** A block move, checked stack by stack against its law. */
  lemma BatchedStep(st: Stacks, f: nat, t: nat, count: nat, next: Stacks)
    requires |st| == 3 && f < 3 && t < 3 && f != t && 1 <= count <= |st[f]|
    requires |next| == 3 && next[t] == st[f][..count] + st[t] && next[f] == st[f][count..]
    requires forall i | 0 <= i < 3 && i != f && i != t :: next[i] == st[i]
    ensures Execute(st, Instruction(count, f, t), BlockAtOnce) == Success(next)
  {
    ExecuteWithin(st, Instruction(count, f, t), BlockAtOnce);
    BatchedLaw(st, f, t, count);
    assert Batched(st, f, t, count) == next;
  }

  /** Each of the example's moves, one crate at a time. */
  lemma ExampleMovesOne()
    ensures Execute(["NZ", "DCM", "P"], Instruction(1, 1, 0), OneAtATime) == Success(["DNZ", "CM", "P"])
    ensures Execute(["DNZ", "CM", "P"], Instruction(3, 0, 2), OneAtATime) == Success(["", "CM", "ZNDP"])
    ensures Execute(["", "CM", "ZNDP"], Instruction(2, 1, 0), OneAtATime) == Success(["MC", "", "ZNDP"])
    ensures Execute(["MC", "", "ZNDP"], Instruction(1, 0, 1), OneAtATime) == Success(["C", "M", "ZNDP"])
  {
    ReverseOfCons('D', []);
    ReverseOfCons('Z', []);
    ReverseOfCons('N', "Z");
    ReverseOfCons('D', "NZ");
    ReverseOfCons('M', []);
    ReverseOfCons('C', "M");
    ReverseOfCons('C', []);
    assert "DCM"[..1] == "D" && "DNZ"[..3] == "DNZ" && "CM"[..2] == "CM" && "MC"[..1] == "M";
    SequentialStep(["NZ", "DCM", "P"], 1, 0, 1, ["DNZ", "CM", "P"]);
    SequentialStep(["DNZ", "CM", "P"], 0, 2, 3, ["", "CM", "ZNDP"]);
    SequentialStep(["", "CM", "ZNDP"], 1, 0, 2, ["MC", "", "ZNDP"]);
    SequentialStep(["MC", "", "ZNDP"], 0, 1, 1, ["C", "M", "ZNDP"]);
  }

  /** Each of the example's moves, each block at once. */
  lemma ExampleMovesBlock()
    ensures Execute(["NZ", "DCM", "P"], Instruction(1, 1, 0), BlockAtOnce) == Success(["DNZ", "CM", "P"])
    ensures Execute(["DNZ", "CM", "P"], Instruction(3, 0, 2), BlockAtOnce) == Success(["", "CM", "DNZP"])
    ensures Execute(["", "CM", "DNZP"], Instruction(2, 1, 0), BlockAtOnce) == Success(["CM", "", "DNZP"])
    ensures Execute(["CM", "", "DNZP"], Instruction(1, 0, 1), BlockAtOnce) == Success(["M", "C", "DNZP"])
  {
    BatchedStep(["NZ", "DCM", "P"], 1, 0, 1, ["DNZ", "CM", "P"]);
    BatchedStep(["DNZ", "CM", "P"], 0, 2, 3, ["", "CM", "DNZP"]);
    BatchedStep(["", "CM", "DNZP"], 1, 0, 2, ["CM", "", "DNZP"]);
    BatchedStep(["CM", "", "DNZP"], 0, 1, 1, ["M", "C", "DNZP"]);
  }

  /** The example's moves from its loaded stacks, one crate at a time, leave the tops `CMZ`. */
  lemma ExampleAnswerOne()
    ensures ExecuteAll(["NZ", "DCM", "P"], ExampleInstructions(), OneAtATime) == Success(["C", "M", "ZNDP"])
    ensures Report(["C", "M", "ZNDP"]) == Some("CMZ")
  {
    ExampleMovesOne();
    ExecuteFour(ExampleInstructions(), OneAtATime, ["NZ", "DCM", "P"], ["DNZ", "CM", "P"], ["", "CM", "ZNDP"], ["MC", "", "ZNDP"], ["C", "M", "ZNDP"]);
    assert Tops(["C", "M", "ZNDP"]) == "CMZ";
  }

  /** The example's moves from its loaded stacks, each block at once, leave the tops `MCD`. */
  lemma ExampleAnswerBlock()
    ensures ExecuteAll(["NZ", "DCM", "P"], ExampleInstructions(), BlockAtOnce) == Success(["M", "C", "DNZP"])
    ensures Report(["M", "C", "DNZP"]) == Some("MCD")
  {
    ExampleMovesBlock();
    ExecuteFour(ExampleInstructions(), BlockAtOnce, ["NZ", "DCM", "P"], ["DNZ", "CM", "P"], ["", "CM", "DNZP"], ["CM", "", "DNZP"], ["M", "C", "DNZP"]);
    assert Tops(["M", "C", "DNZP"]) == "MCD";
  }

  // ---------------------------------------------------------------------------
  // A stack without a crate
  // ---------------------------------------------------------------------------

  /** Two stacks, crates only on the first: the rows `[A]    ` and `[B]    ` above ` 1   2 `. */
  function OneSidedGrid(): (grid: seq<seq<Cell>>)
    ensures Drawable(grid, 2, " 1   2 ")
  {
    [[Some('A'), None], [Some('B'), None]]
  }

  /** The drawing of `OneSidedGrid`, the blank line and `move 1 from 1 to 2`. */
  function OneSided(): seq<char> {
    Picture(OneSidedGrid(), 2, " 1   2 ") + MoveLine(1, 1, 2)
  }

  /** `OneSided` loads as `AB` and an empty second stack. */
  lemma OneSidedLoads()
    ensures Load(OneSided()).Success? && Load(OneSided()).value.stacks == ["AB", ""]
  {
    var g := OneSidedGrid();
    LoadPicture(g, 2, " 1   2 ", MoveLine(1, 1, 2));
    assert Column(g, 0) == "AB";
    assert Column(g, 1) == "";
  }

  /** The source never writes the empty stack's head, so whatever the crane the run stops with `UnsetHead`. */
  lemma OneSidedUnset(crane: Crane)
    ensures Solve(OneSided(), crane) == Failure(UnsetHead)
  {
    OneSidedLoads();
    var st: Stacks := ["AB", ""];
    assert st[1] == [];
    assert Report(st).None?;
  }
}
