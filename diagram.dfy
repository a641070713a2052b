/**
 * `loadStacks` (day5/day5.cpp): the drawing of the stacks at the top of the
 * puzzle input, read row by row from the top. The first line break fixes
 * the row width `w`, and with it the number of stacks, `w / 4`: every cell
 * `[X] ` is four characters wide and the last one ends with the line break
 * instead of a space. A row is read cell by cell, four characters at a time;
 * a cell starting with `[` holds the crate letter after it, which goes at
 * the bottom of that column's stack. The drawing ends at the first row that
 * starts with a line break (the blank line), and the instructions are taken
 * to start two characters after it.
 */
module Diagram {
  import opened Results
  import opened Text
  import opened SupplyStacks
  import opened CrateArena

  /** The loaded stacks and the index `loadStacks` returns. */
  datatype Loaded = Loaded(stacks: Stacks, start: nat)

  /**
   * `MissingLineBreak` is the source's `-1` result. `MalformedDiagram`
   * stands for drawings the source would read past the end of, or whose
   * crates fall in a column it has no stack for.
   */
  datatype LoadError = MissingLineBreak | MalformedDiagram

  /** What one row's cells leave: the index after them, and the stacks. */
  datatype Scan = Scan(index: nat, stacks: Stacks)

  /** `n` stacks, all empty. */
  function EmptyStacks(n: nat): (st: Stacks)
    ensures |st| == n && forall c | 0 <= c < n :: st[c] == []
  {
    seq(n, _ => [])
  }

  /**
   * The inner loop of `loadStacks`: the cells of a row, from `index` while it
   * is below `limit`, the `column`-th cell first.
   */
  function Cells(input: seq<char>, n: nat, index: nat, limit: nat, column: nat, acc: Stacks): (r: Result<Scan, LoadError>)
    requires |acc| == n
    ensures r.Failure? ==> r.error == MalformedDiagram
    ensures r.Success? ==> |r.value.stacks| == n && limit <= r.value.index
    ensures r.Success? ==> index <= r.value.index && (index < limit ==> index < r.value.index)
    decreases limit - index
  {
    if limit <= index then Success(Scan(index, acc))
    else if |input| <= index then Failure(MalformedDiagram)
    else if input[index] == '[' then
      if |input| <= index + 1 || n <= column then Failure(MalformedDiagram)
      else Cells(input, n, index + 4, limit, column + 1, acc[column := acc[column] + [input[index + 1]]])
    else Cells(input, n, index + 4, limit, column + 1, acc)
  }

  /**
   * The outer loop of `loadStacks`: rows until one starts with a line break.
   * The end of the current row, `limit`, moves on by `step` after each row.
   */
  function Rows(input: seq<char>, step: nat, n: nat, index: nat, limit: nat, acc: Stacks): (r: Result<Loaded, LoadError>)
    requires |acc| == n && 1 <= step
    ensures r.Failure? ==> r.error == MalformedDiagram
    ensures r.Success? ==> |r.value.stacks| == n
    decreases |input| - index, if limit <= index then index - limit + 1 else 0
  {
    if |input| <= index then Failure(MalformedDiagram)
    else if input[index] == '\n' then Success(Loaded(acc, index + 2))
    else
      match Cells(input, n, index, limit, 0, acc)
      case Failure(e) => Failure(e)
      case Success(scan) => Rows(input, step, n, scan.index, limit + step, scan.stacks)
  }

  /** The width of a row: the first line, with its line break. */
  function Width(input: seq<char>): (w: Option<nat>)
    ensures w.Some? ==> 1 <= w.value <= |input|
  {
    match Find(input, 0, '\n')
    case None => None
    case Some(e) => Some(e + 1)
  }

  /** `loadStacks` with rows `w` characters apart, as its documentation describes. */
  function Load(input: seq<char>): (r: Result<Loaded, LoadError>)
  {
    match Width(input)
    case None => Failure(MissingLineBreak)
    case Some(w) => Rows(input, w, w / 4, 0, w, EmptyStacks(w / 4))
  }

  /** `loadStacks` as written: the end of the row moves on by `w + 1` after each row. */
  function LoadAsWritten(input: seq<char>): (r: Result<Loaded, LoadError>)
  {
    match Width(input)
    case None => Failure(MissingLineBreak)
    case Some(w) => Rows(input, w + 1, w / 4, 0, w, EmptyStacks(w / 4))
  }

  /** The `-1` result comes exactly from an input without a line break. */
  lemma LoadMissingLineBreak(input: seq<char>)
    ensures Load(input) == Failure(MissingLineBreak) <==> '\n' !in input
  {
    FindMeaning(input, 0, '\n');
    assert input[0..] == input;
  }

  /** The number of stacks is the length of the first line plus one, over four. */
  lemma LoadColumns(input: seq<char>, e: nat)
    requires e < |input| && input[e] == '\n' && '\n' !in input[..e]
    ensures Load(input).Success? ==> |Load(input).value.stacks| == (e + 1) / 4
  {
    FindAt(input, 0, '\n', e);
    assert input[0..e] == input[..e];
  }

  /** `builders[c]` is the bottom node of stack `c` of a valid arena with `n` stacks. */
  ghost predicate Building(arena: Arena, builders: array<int>, n: nat)
    reads arena, arena.stacks, builders
  {
    && arena.Valid() && builders != arena.stacks && builders.Length == n && |arena.chains| == n
    && forall c | 0 <= c < n :: builders[c] == Last(arena.chains[c])
  }

  /**
   * The source's outer loop on an arena: `builders[c]` is the bottom node of
   * stack `c` so far (`Null` while it has none).
   */
  method LoadStacks(input: seq<char>) returns (r: Result<Arena, LoadError>, start: nat)
    ensures r.Success? <==> Load(input).Success?
    ensures r.Failure? ==> r.error == Load(input).error
    ensures r.Success? ==> (fresh(r.value) && fresh(r.value.stacks) && r.value.Valid()
      && r.value.Contents() == Load(input).value.stacks && start == Load(input).value.start)
  {
    start := 0;
    var found := Find(input, 0, '\n');
    if found.None? {
      return Failure(MissingLineBreak), start;
    }
    var w := found.value + 1;
    var n := w / 4;
    var arena := new Arena(n);
    var builders := new int[n](_ => Null);
    ghost var spec := Rows(input, w, n, 0, w, EmptyStacks(n));
    assert Load(input) == spec;
    var index: nat, limit: nat := 0, w;
    while true
      invariant fresh(arena) && fresh(arena.stacks) && Building(arena, builders, n)
      invariant Rows(input, w, n, index, limit, arena.Contents()) == spec
      decreases |input| - index, if limit <= index then index - limit + 1 else 0
    {
      if |input| <= index {
        return Failure(MalformedDiagram), start;
      }
      if input[index] == '\n' {
        start := index + 2;
        return Success(arena), start;
      }
      var row := ReadRow(arena, builders, input, n, index, limit);
      if row.Failure? {
        return Failure(row.error), start;
      }
      index, limit := row.value, limit + w;
    }
  }

  /** The source's inner loop: the cells of one row, each crate added at the bottom of its stack. */
  method ReadRow(arena: Arena, builders: array<int>, input: seq<char>, n: nat, first: nat, limit: nat)
    returns (r: Result<nat, LoadError>)
    requires Building(arena, builders, n)
    modifies arena, arena.stacks, builders
    ensures arena.stacks == old(arena.stacks) && Building(arena, builders, n)
    ensures r.Success? <==> Cells(input, n, first, limit, 0, old(arena.Contents())).Success?
    ensures r.Failure? ==> r.error == MalformedDiagram
    ensures r.Success? ==> Cells(input, n, first, limit, 0, old(arena.Contents())) == Success(Scan(r.value, arena.Contents()))
  {
    var index, column := first, 0;
    while index < limit
      invariant arena.stacks == old(arena.stacks) && Building(arena, builders, n)
      invariant Cells(input, n, index, limit, column, arena.Contents()) == Cells(input, n, first, limit, 0, old(arena.Contents()))
      decreases limit - index
    {
      if |input| <= index {
        return Failure(MalformedDiagram);
      }
      ghost var before := arena.Contents();
      if input[index] == '[' {
        if |input| <= index + 1 || n <= column {
          return Failure(MalformedDiagram);
        }
        var node := arena.AppendBelow(column, builders[column], input[index + 1]);
        builders[column] := node;
        assert arena.Contents() == before[column := before[column] + [input[index + 1]]];
      }
      assert Cells(input, n, index, limit, column, before) == Cells(input, n, index + 4, limit, column + 1, arena.Contents());
      index := index + 4;
      column := column + 1;
    }
    return Success(index);
  }

  /** Three crates on one stack, then the labels, the blank line and a move. */
  const Tower: seq<char> := "[A]\n[B]\n[C]\n 1 \n\nmove 1 from 1 to 1"

  /**
   * Read as written, the second row runs one cell into the third: the `[`
   * that starts the third row is taken as a crate of a second stack, which
   * does not exist (`builders[1]` with one stack). Read with rows `w` apart,
   * the three crates land on the one stack, top first.
   */
  lemma TowerOverreads()
    ensures LoadAsWritten(Tower) == Failure(MalformedDiagram)
    ensures Load(Tower) == Success(Loaded(["ABC"], 18))
  {
    TowerWidth();
    TowerCells();
    assert EmptyStacks(1) == [[]];
    assert Tower[16] == '\n' && Tower[0] != '\n' && Tower[4] != '\n' && Tower[12] != '\n' && |Tower| == 35;
  }

  lemma TowerWidth()
    ensures Width(Tower) == Some(4)
  {
    assert Tower[..3] == "[A]";
    FindAt(Tower, 0, '\n', 3);
  }

  /** The cells the two readings visit: rows end at 4, 8, 12, 16 as documented, or at 4, 9, ... as written. */
  lemma TowerCells()
    ensures Cells(Tower, 1, 0, 4, 0, [[]]) == Success(Scan(4, ["A"]))
    ensures Cells(Tower, 1, 4, 8, 0, ["A"]) == Success(Scan(8, ["AB"]))
    ensures Cells(Tower, 1, 4, 9, 0, ["A"]) == Failure(MalformedDiagram)
    ensures Cells(Tower, 1, 8, 12, 0, ["AB"]) == Success(Scan(12, ["ABC"]))
    ensures Cells(Tower, 1, 12, 16, 0, ["ABC"]) == Success(Scan(16, ["ABC"]))
  {
    assert |Tower| == 35;
    assert Tower[0] == Tower[4] == Tower[8] == '[' && Tower[12] == ' ';
    assert Tower[1] == 'A' && Tower[5] == 'B' && Tower[9] == 'C';
    assert [] + ['A'] == "A" && "A" + ['B'] == "AB" && "AB" + ['C'] == "ABC";
    assert [[]][0 := [] + ['A']] == ["A"];
    assert ["A"][0 := "A" + ['B']] == ["AB"];
    assert ["AB"][0 := "AB" + ['C']] == ["ABC"];
  }
}
