/**
 * `partOne` and `partTwo` of day5/day5.cpp: load the drawing, carry out
 * every `move` line with one crane (one crate at a time, or a block at
 * once), and report the top crate of every stack. Where the source would
 * dereference `NULL`, index outside `stacks` or read past the terminator,
 * the model stops with a `Fault`.
 */
module Rearrangement {
  import opened Results
  import opened Text
  import opened SupplyStacks
  import opened CrateArena
  import opened Instructions
  import opened Diagram

  /** `partOne` moves crates one at a time; `partTwo` moves the block at once. */
  datatype Crane = OneAtATime | BlockAtOnce

  datatype Fault =
    | BadDiagram(reason: LoadError)
    | UnsetHead
    | StartPastEnd
    | BadLine(cause: ReadError)
    | BadMove(move: Instruction)
    | EmptyStackOnTop

  /**
   * The bottom-finding loop of `parseBatchedInstruction`, on depths: `depth`
   * stands for `NULL`, where the walk starts, and a step from `NULL` goes
   * back to the top crate instead of failing.
   */
  function Walk(count: nat, depth: nat): (p: nat)
    ensures p <= depth
  {
    if count == 0 then depth
    else
      var p := Walk(count - 1, depth);
      if p == depth then 0 else p + 1
  }

  /** The walk goes round the stack and its `NULL`: `count` steps end at depth `(count - 1) mod (depth + 1)`. */
  lemma {:induction false} WalkWraps(count: nat, depth: nat)
    requires 1 <= count
    ensures Walk(count, depth) == (count - 1) % (depth + 1)
  {
    if count > 1 {
      WalkWraps(count - 1, depth);
      ModStep(count - 2, depth + 1);
    }
  }

  lemma ModStep(a: nat, m: nat)
    requires 1 <= m
    ensures (a + 1) % m == if a % m == m - 1 then 0 else a % m + 1
  {
    var q, r := a / m, a % m;
    assert a == q * m + r;
    if r == m - 1 {
      assert a + 1 == (q + 1) * m + 0;
      ModUnique(a + 1, m, q + 1, 0);
    } else {
      ModUnique(a + 1, m, q, r + 1);
    }
  }

  lemma ModUnique(a: int, m: int, q: int, r: int)
    requires 1 <= m && 0 <= r < m && a == q * m + r
    ensures a % m == r
  {
    var q', r' := a / m, a % m;
    assert a == q' * m + r';
    assert (q - q') * m == r' - r;
    if q > q' {
      AtLeastOnce(q - q', m);
    } else if q < q' {
      AtLeastOnce(q' - q, m);
    }
  }

  lemma {:induction false} AtLeastOnce(d: nat, m: nat)
    requires 1 <= d
    ensures m <= d * m
  {
    if d > 1 {
      AtLeastOnce(d - 1, m);
      assert d * m == (d - 1) * m + m;
    }
  }

  /** Within the stack the walk stops on the `count`-th crate. */
  lemma {:induction false} WalkWithin(count: nat, depth: nat)
    requires 1 <= count <= depth
    ensures Walk(count, depth) == count - 1
  {
    if count > 1 {
      WalkWithin(count - 1, depth);
    }
  }

  /**
   * One instruction on the stacks. The sequential crane needs distinct
   * stacks and enough crates; a count of zero does nothing. The batched
   * crane takes the block its walk ends on, and fails where that walk ends
   * on `NULL` (a count of zero among them).
   */
  function Execute(st: Stacks, move: Instruction, crane: Crane): (r: Result<Stacks, Fault>)
    ensures r.Success? ==> |r.value| == |st|
    ensures r.Failure? ==> r.error == BadMove(move)
  {
    if !(0 <= move.from < |st| && 0 <= move.to < |st|) || move.count < 0 then Failure(BadMove(move))
    else
      var f, t, n, depth := move.from, move.to, move.count, |st[move.from]|;
      match crane
      case OneAtATime =>
        if n == 0 then Success(st)
        else if f == t || depth < n then Failure(BadMove(move))
        else Success(Sequential(st, f, t, n))
      case BlockAtOnce =>
        var p := Walk(n, depth);
        if p == depth then Failure(BadMove(move))
        else
          var r := Batched(st, f, t, p + 1);
          assert |r| == |st|;
          Success(r)
  }

  /** An instruction within the stack moves the crates it names, with each crane. */
  lemma ExecuteWithin(st: Stacks, move: Instruction, crane: Crane)
    requires 0 <= move.from < |st| && 0 <= move.to < |st| && 1 <= move.count <= |st[move.from]|
    requires crane.OneAtATime? ==> move.from != move.to
    ensures Execute(st, move, crane) == Success(match crane
      case OneAtATime => Sequential(st, move.from, move.to, move.count)
      case BlockAtOnce => Batched(st, move.from, move.to, move.count))
  {
    WalkWithin(move.count, |st[move.from]|);
  }

  /** No instruction creates or loses a crate. */
  lemma ExecuteKeepsCrates(st: Stacks, move: Instruction, crane: Crane)
    requires Execute(st, move, crane).Success?
    ensures Crates(Execute(st, move, crane).value) == Crates(st)
  {
    if move.count > 0 {
      var f, t, n := move.from, move.to, move.count;
      match crane
      case OneAtATime =>
        assert Execute(st, move, crane) == Success(Sequential(st, f, t, n));
        SequentialKeepsCrates(st, f, t, n);
      case BlockAtOnce =>
        var k := Walk(n, |st[f]|) + 1;
        assert Execute(st, move, crane) == Success(Batched(st, f, t, k));
        BatchedKeepsCrates(st, f, t, k);
    }
  }

  /**
   * The source's instruction loop from `pos`: each line ending in a line
   * break is read back from it, and after the last line break the rest of
   * the input is read back from the terminator.
   */
  function Run(input: seq<char>, pos: nat, st: Stacks, crane: Crane): (r: Result<Stacks, Fault>)
    requires pos <= |input|
    ensures r.Success? ==> |r.value| == |st|
    decreases |input| - pos
  {
    var end := LineEnd(input, pos);
    match ReadLine(input, end)
    case Failure(e) => Failure(BadLine(e))
    case Success(move) =>
      match Execute(st, move, crane)
      case Failure(e) => Failure(e)
      case Success(next) => if end == |input| then Success(next) else Run(input, end + 1, next, crane)
  }

  /** Where the line from `pos` ends: the next line break, or the terminator when there is none. */
  function LineEnd(input: seq<char>, pos: nat): (end: nat)
    requires pos <= |input|
    ensures pos <= end <= |input|
    ensures end < |input| ==> input[end] == '\n'
  {
    match Find(input, pos, '\n')
    case Some(e) => FindMeaning(input, pos, '\n'); e
    case None => |input|
  }

  /** No run of instructions creates or loses a crate. */
  lemma {:induction false} RunKeepsCrates(input: seq<char>, pos: nat, st: Stacks, crane: Crane)
    requires pos <= |input| && Run(input, pos, st, crane).Success?
    ensures Crates(Run(input, pos, st, crane).value) == Crates(st)
    decreases |input| - pos
  {
    var end := LineEnd(input, pos);
    var move := ReadLine(input, end).value;
    ExecuteKeepsCrates(st, move, crane);
    if end < |input| {
      RunKeepsCrates(input, end + 1, Execute(st, move, crane).value, crane);
    }
  }

  /**
   * `partOne` (`OneAtATime`) and `partTwo` (`BlockAtOnce`): the top crate of
   * every stack after all the moves. The loader writes the head of a stack
   * only when it finds that stack's first crate, and `malloc` leaves the
   * others unset; every run reads them, by a move or by the report, so a
   * drawing with an empty stack is `UnsetHead`.
   */
  function Solve(input: seq<char>, crane: Crane): (r: Result<seq<char>, Fault>)
    ensures r.Success? ==> Load(input).Success? && |r.value| == |Load(input).value.stacks|
    ensures r.Success? ==> forall i | 0 <= i < |Load(input).value.stacks| :: Load(input).value.stacks[i] != []
  {
    match Load(input)
    case Failure(e) => Failure(BadDiagram(e))
    case Success(loaded) =>
      if Report(loaded.stacks).None? then Failure(UnsetHead)
      else if |input| < loaded.start then Failure(StartPastEnd)
      else
        match Run(input, loaded.start, loaded.stacks, crane)
        case Failure(e) => Failure(e)
        case Success(st) =>
          match Report(st)
          case None => Failure(EmptyStackOnTop)
          case Some(tops) => Success(tops)
  }

  /** What is reported is the top of every stack of some rearrangement of the loaded crates. */
  lemma SolveReportsTops(input: seq<char>, crane: Crane)
    requires Solve(input, crane).Success?
    ensures var loaded := Load(input).value;
      exists st: Stacks ::
        && |st| == |loaded.stacks| && Crates(st) == Crates(loaded.stacks)
        && (forall i | 0 <= i < |st| :: st[i] != [])
        && Solve(input, crane).value == Tops(st)
  {
    var loaded := Load(input).value;
    var st := Run(input, loaded.start, loaded.stacks, crane).value;
    RunKeepsCrates(input, loaded.start, loaded.stacks, crane);
    assert Solve(input, crane).value == Tops(st);
  }

  /** One instruction on the arena, with the checks that keep it inside its nodes. */
  method Apply(arena: Arena, move: Instruction, crane: Crane) returns (ok: bool)
    requires arena.Valid()
    modifies arena, arena.stacks
    ensures arena.Valid() && arena.stacks == old(arena.stacks)
    ensures ok <==> Execute(old(arena.Contents()), move, crane).Success?
    ensures ok ==> arena.Contents() == Execute(old(arena.Contents()), move, crane).value
  {
    if !(0 <= move.from < arena.stacks.Length && 0 <= move.to < arena.stacks.Length) || move.count < 0 {
      return false;
    }
    var depth := arena.Depth(move.from);
    match crane {
      case OneAtATime =>
        if move.count == 0 {
          return true;
        }
        if move.from == move.to || depth < move.count {
          return false;
        }
        arena.SequentialMove(move.from, move.to, move.count);
      case BlockAtOnce =>
        if move.count == 0 {
          return false;
        }
        WalkWraps(move.count, depth);
        var p := (move.count - 1) % (depth + 1);
        if p == depth {
          return false;
        }
        arena.BatchedMove(move.from, move.to, p + 1);
    }
    return true;
  }

  /** A line that cannot be read stops the loop. */
  lemma RunStopsAtLine(input: seq<char>, pos: nat, st: Stacks, crane: Crane)
    requires pos <= |input| && ReadLine(input, LineEnd(input, pos)).Failure?
    ensures Run(input, pos, st, crane) == Failure(BadLine(ReadLine(input, LineEnd(input, pos)).error))
  {
  }

  /** A move that cannot be carried out stops the loop. */
  lemma RunStopsAtMove(input: seq<char>, pos: nat, st: Stacks, crane: Crane, move: Instruction)
    requires pos <= |input| && ReadLine(input, LineEnd(input, pos)) == Success(move)
    requires Execute(st, move, crane).Failure?
    ensures Run(input, pos, st, crane) == Failure(BadMove(move))
  {
  }

  /** After a move the loop goes on with the next line, or ends at the terminator. */
  lemma RunGoesOn(input: seq<char>, pos: nat, st: Stacks, crane: Crane, move: Instruction, next: Stacks)
    requires pos <= |input| && ReadLine(input, LineEnd(input, pos)) == Success(move)
    requires Execute(st, move, crane) == Success(next)
    ensures LineEnd(input, pos) == |input| ==> Run(input, pos, st, crane) == Success(next)
    ensures LineEnd(input, pos) < |input| ==> Run(input, pos, st, crane) == Run(input, LineEnd(input, pos) + 1, next, crane)
  {
  }

  /**
   * One turn of the instruction loop: the line from `pos` is read and
   * carried out; `next` is where the following line starts, if there is one.
   */
  method Turn(arena: Arena, input: seq<char>, pos: nat, crane: Crane) returns (fault: Option<Fault>, next: Option<nat>)
    requires arena.Valid() && pos <= |input|
    modifies arena, arena.stacks
    ensures arena.Valid() && arena.stacks == old(arena.stacks)
    ensures fault.Some? ==> Run(input, pos, old(arena.Contents()), crane) == Failure(fault.value)
    ensures fault.None? && next.None? ==> Run(input, pos, old(arena.Contents()), crane) == Success(arena.Contents())
    ensures fault.None? && next.Some? ==> (pos < next.value <= |input|
      && Run(input, pos, old(arena.Contents()), crane) == Run(input, next.value, arena.Contents(), crane))
  {
    var found := Find(input, pos, '\n');
    var end := if found.Some? then found.value else |input|;
    assert end == LineEnd(input, pos);
    ghost var before := arena.Contents();
    var line := ReadInstruction(input, end);
    fault, next := None, None;
    if line.Failure? {
      RunStopsAtLine(input, pos, before, crane);
      fault := Some(BadLine(line.error));
    } else {
      var ok := Apply(arena, line.value, crane);
      if !ok {
        RunStopsAtMove(input, pos, before, crane, line.value);
        fault := Some(BadMove(line.value));
      } else {
        RunGoesOn(input, pos, before, crane, line.value, arena.Contents());
        if found.Some? {
          next := Some(end + 1);
        }
      }
    }
  }

  /** The instruction loop of `partOne` and `partTwo` on the arena, from `start`. */
  method Perform(arena: Arena, input: seq<char>, start: nat, crane: Crane) returns (fault: Option<Fault>)
    requires arena.Valid() && start <= |input|
    modifies arena, arena.stacks
    ensures arena.Valid() && arena.stacks == old(arena.stacks)
    ensures Run(input, start, old(arena.Contents()), crane)
         == if fault.None? then Success(arena.Contents()) else Failure(fault.value)
  {
    ghost var spec := Run(input, start, arena.Contents(), crane);
    var pos: nat := start;
    while true
      invariant arena.Valid() && arena.stacks == old(arena.stacks)
      invariant pos <= |input| && Run(input, pos, arena.Contents(), crane) == spec
      decreases |input| - pos
    {
      var next;
      fault, next := Turn(arena, input, pos, crane);
      if fault.Some? || next.None? {
        return;
      }
      pos := next.value;
    }
  }

  /** `partOne` and `partTwo` on the linked stacks. */
  method Rearrange(input: seq<char>, crane: Crane) returns (r: Result<seq<char>, Fault>)
    ensures r == Solve(input, crane)
  {
    var loaded, start := LoadStacks(input);
    if loaded.Failure? {
      return Failure(BadDiagram(loaded.error));
    }
    var arena := loaded.value;
    var heads := arena.TopCrates();
    if heads.None? {
      return Failure(UnsetHead);
    }
    if |input| < start {
      return Failure(StartPastEnd);
    }
    var fault := Perform(arena, input, start, crane);
    if fault.Some? {
      return Failure(fault.value);
    }
    var tops := arena.TopCrates();
    if tops.None? {
      return Failure(EmptyStackOnTop);
    }
    return Success(tops.value);
  }
}
