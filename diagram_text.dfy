/**
 * The drawings `loadStacks` is written for: rows of cells `[X]` or three
 * blanks, one space apart, every row `4 * n` characters with its line
 * break; then the row of stack labels and a blank line. Loading such a
 * drawing gives one stack per column, listed from the top row down.
 */
module DiagramText {
  import opened Results
  import opened Text
  import opened SupplyStacks
  import opened Diagram

  /** A cell of the drawing: a crate letter, or no crate. */
  type Cell = Option<char>

  function Crate(x: Cell): seq<char> {
    if x.Some? then [x.value] else []
  }

  /** Every row has `n` cells. */
  ghost predicate Shaped(grid: seq<seq<Cell>>, n: nat) {
    forall i | 0 <= i < |grid| :: |grid[i]| == n
  }

  /** Column `c` of the drawing, from the top row down. */
  function Column(grid: seq<seq<Cell>>, c: nat): seq<char>
    requires forall i | 0 <= i < |grid| :: c < |grid[i]|
  {
    if grid == [] then [] else Crate(grid[0][c]) + Column(grid[1..], c)
  }

  /** The stacks once the cells `k..` of one more row have been read. */
  function AddCells(acc: Stacks, row: seq<Cell>, k: nat): (r: Stacks)
    requires |row| == |acc| && k <= |acc|
    ensures |r| == |acc|
    decreases |acc| - k
  {
    if k == |acc| then acc else AddCells(acc[k := acc[k] + Crate(row[k])], row, k + 1)
  }

  /** The stacks once the rows of `grid` have been read, top row first. */
  function Fill(acc: Stacks, grid: seq<seq<Cell>>): (r: Stacks)
    requires Shaped(grid, |acc|)
    ensures |r| == |acc|
    decreases |grid|
  {
    if grid == [] then acc else Fill(AddCells(acc, grid[0], 0), grid[1..])
  }

  /** Reading a row puts each of its crates under its column's stack. */
  lemma {:induction false} AddCellsMeaning(acc: Stacks, row: seq<Cell>, k: nat, c: nat)
    requires |row| == |acc| && k <= |acc| && c < |acc|
    ensures AddCells(acc, row, k)[c] == acc[c] + (if k <= c then Crate(row[c]) else [])
    decreases |acc| - k
  {
    if k < |acc| {
      AddCellsMeaning(acc[k := acc[k] + Crate(row[k])], row, k + 1, c);
    }
  }

  /** Reading the rows makes each stack its column, top crate first. */
  lemma {:induction false} FillMeaning(acc: Stacks, grid: seq<seq<Cell>>, c: nat)
    requires Shaped(grid, |acc|) && c < |acc|
    ensures Fill(acc, grid)[c] == acc[c] + Column(grid, c)
    decreases |grid|
  {
    if grid != [] {
      var next := AddCells(acc, grid[0], 0);
      AddCellsMeaning(acc, grid[0], 0, c);
      FillMeaning(next, grid[1..], c);
      assert acc[c] + Crate(grid[0][c]) + Column(grid[1..], c) == acc[c] + (Crate(grid[0][c]) + Column(grid[1..], c));
    }
  }

  // ---------------------------------------------------------------------------
  // Where the loader looks: positions of a laid-out drawing
  // ---------------------------------------------------------------------------

  /** The `n` cells of `row` start at `b`: each cell's first character is `[` exactly when it holds a crate. */
  ghost predicate RowAt(s: seq<char>, b: nat, row: seq<Cell>, n: nat) {
    && |row| == n && b + 4 * n <= |s| && (0 < n ==> s[b] != '\n')
    && forall c | 0 <= c < n ::
         && (row[c].Some? ==> s[b + 4 * c] == '[' && s[b + 4 * c + 1] == row[c].value)
         && (row[c].None? ==> s[b + 4 * c] != '[')
  }

  /** The rows of `grid` follow one another from `b`, each `4 * n` characters. */
  ghost predicate GridAt(s: seq<char>, b: nat, grid: seq<seq<Cell>>, n: nat)
    decreases |grid|
  {
    grid == [] || (RowAt(s, b, grid[0], n) && GridAt(s, b + 4 * n, grid[1..], n))
  }

  /** A row without crates. */
  function Blank(n: nat): (row: seq<Cell>)
    ensures |row| == n && forall c | 0 <= c < n :: row[c] == None
  {
    seq(n, _ => None)
  }

  /** The inner loop over a laid-out row reads exactly its crates. */
  lemma {:induction false} CellsOfRow(s: seq<char>, n: nat, b: nat, row: seq<Cell>, k: nat, acc: Stacks)
    requires RowAt(s, b, row, n) && k <= n && |acc| == n
    ensures Cells(s, n, b + 4 * k, b + 4 * n, k, acc) == Success(Scan(b + 4 * n, AddCells(acc, row, k)))
    decreases n - k
  {
    if k < n {
      var next := acc[k := acc[k] + Crate(row[k])];
      CellsOfRow(s, n, b, row, k + 1, next);
      assert b + 4 * k + 4 == b + 4 * (k + 1);
      if row[k].Some? {
        assert s[b + 4 * k] == '[';
        assert next == acc[k := acc[k] + [s[b + 4 * k + 1]]];
      } else {
        assert s[b + 4 * k] != '[';
        assert acc[k] + [] == acc[k];
        assert next == acc;
      }
    }
  }

  /** The length of the rows of `grid`, `w` characters each. */
  function Span(w: nat, grid: seq<seq<Cell>>): (e: nat)
    ensures grid != [] ==> w <= e
    decreases |grid|
  {
    if grid == [] then 0 else w + Span(w, grid[1..])
  }

  /** The outer loop over laid-out rows reads them all, in order. */
  lemma {:induction false} RowsOfGrid(s: seq<char>, n: nat, b: nat, grid: seq<seq<Cell>>, acc: Stacks)
    requires 1 <= n && |acc| == n && Shaped(grid, n) && GridAt(s, b, grid, n)
    ensures var e := b + Span(4 * n, grid);
      Rows(s, 4 * n, n, b, b + 4 * n, acc) == Rows(s, 4 * n, n, e, e + 4 * n, Fill(acc, grid))
    decreases |grid|
  {
    if grid != [] {
      var next := AddCells(acc, grid[0], 0);
      CellsOfRow(s, n, b, grid[0], 0, acc);
      assert Rows(s, 4 * n, n, b, b + 4 * n, acc) == Rows(s, 4 * n, n, b + 4 * n, b + 4 * n + 4 * n, next);
      RowsOfGrid(s, n, b + 4 * n, grid[1..], next);
    }
  }

  /** A laid-out drawing: its rows from 0, the label row, the blank line; the first line ends at `4 * n - 1`. */
  ghost predicate LaidOut(s: seq<char>, grid: seq<seq<Cell>>, n: nat) {
    && 1 <= n && Shaped(grid, n) && GridAt(s, 0, grid, n)
    && RowAt(s, Span(4 * n, grid), Blank(n), n)
    && Span(4 * n, grid) + 4 * n < |s| && s[Span(4 * n, grid) + 4 * n] == '\n'
    && s[4 * n - 1] == '\n' && '\n' !in s[..4 * n - 1]
  }

  /** Loading a laid-out drawing fills each stack from its column. */
  lemma LoadLaidOut(s: seq<char>, grid: seq<seq<Cell>>, n: nat)
    requires LaidOut(s, grid, n)
    ensures Load(s) == Success(Loaded(Fill(EmptyStacks(n), grid), Span(4 * n, grid) + 4 * n + 2))
  {
    FindAt(s, 0, '\n', 4 * n - 1);
    assert s[0..4 * n - 1] == s[..4 * n - 1];
    assert Width(s) == Some(4 * n);
    assert (4 * n) / 4 == n;
    var e := Span(4 * n, grid);
    var acc := Fill(EmptyStacks(n), grid);
    RowsOfGrid(s, n, 0, grid, EmptyStacks(n));
    LabelRow(s, n, e, acc);
  }

  /** The label row holds no crates, and the blank line after it ends the drawing. */
  lemma LabelRow(s: seq<char>, n: nat, e: nat, acc: Stacks)
    requires 1 <= n && |acc| == n && RowAt(s, e, Blank(n), n)
    requires e + 4 * n < |s| && s[e + 4 * n] == '\n'
    ensures Rows(s, 4 * n, n, e, e + 4 * n, acc) == Success(Loaded(acc, e + 4 * n + 2))
  {
    var w := 4 * n;
    CellsOfRow(s, n, e, Blank(n), 0, acc);
    BlankAddsNothing(acc, 0);
    assert Cells(s, n, e, e + w, 0, acc) == Success(Scan(e + w, acc));
    assert s[e] != '\n';
    assert Rows(s, w, n, e + w, e + w + w, acc) == Success(Loaded(acc, e + w + 2));
  }

  lemma {:induction false} BlankAddsNothing(acc: Stacks, k: nat)
    requires k <= |acc|
    ensures AddCells(acc, Blank(|acc|), k) == acc
    decreases |acc| - k
  {
    if k < |acc| {
      assert acc[k] + [] == acc[k];
      assert acc[k := acc[k] + Crate(None)] == acc;
      BlankAddsNothing(acc, k + 1);
    }
  }

  // ---------------------------------------------------------------------------
  // Drawing the stacks
  // ---------------------------------------------------------------------------

  function CellText(x: Cell): (t: seq<char>)
    ensures |t| == 3
  {
    if x.Some? then ['[', x.value, ']'] else "   "
  }

  /** A row: its cells one space apart, and a line break after the last. */
  function RowText(row: seq<Cell>): (t: seq<char>)
    ensures |t| == 4 * |row|
  {
    if row == [] then [] else CellText(row[0]) + [if |row| == 1 then '\n' else ' '] + RowText(row[1..])
  }

  function GridText(grid: seq<seq<Cell>>, n: nat): (t: seq<char>)
    requires Shaped(grid, n)
    ensures |t| == Span(4 * n, grid)
    decreases |grid|
  {
    if grid == [] then [] else RowText(grid[0]) + GridText(grid[1..], n)
  }

  /** The whole drawing: the rows, the label row and the blank line. */
  function Picture(grid: seq<seq<Cell>>, n: nat, labels: seq<char>): seq<char>
    requires Shaped(grid, n)
  {
    GridText(grid, n) + labels + "\n\n"
  }

  /** What a drawing needs: crate letters that are not line breaks, and a label row of the right width without `[` where a cell starts. */
  ghost predicate Drawable(grid: seq<seq<Cell>>, n: nat, labels: seq<char>) {
    && 1 <= n && Shaped(grid, n)
    && (forall i, c | 0 <= i < |grid| && 0 <= c < n :: grid[i][c] != Some('\n'))
    && |labels| == 4 * n - 1 && '\n' !in labels
    && forall c | 0 <= c < n :: labels[4 * c] != '['
  }

  lemma {:induction false} RowTextAt(row: seq<Cell>, c: nat)
    requires c < |row|
    ensures RowText(row)[4 * c] == (if row[c].Some? then '[' else ' ')
    ensures row[c].Some? ==> RowText(row)[4 * c + 1] == row[c].value
  {
    if c > 0 {
      RowTextAt(row[1..], c - 1);
    }
  }

  /** A row's only line break is its last character. */
  lemma {:induction false} RowTextBreak(row: seq<Cell>)
    requires row != [] && forall c | 0 <= c < |row| :: row[c] != Some('\n')
    ensures RowText(row)[4 * |row| - 1] == '\n' && '\n' !in RowText(row)[..4 * |row| - 1]
  {
    var t := RowText(row);
    if |row| > 1 {
      RowTextBreak(row[1..]);
      var tail := RowText(row[1..]);
      assert t[..4 * |row| - 1] == CellText(row[0]) + [' '] + tail[..4 * |row[1..]| - 1];
    } else {
      assert t[..3] == CellText(row[0]);
    }
  }

  lemma RowAtText(pre: seq<char>, row: seq<Cell>, post: seq<char>, n: nat)
    requires |row| == n
    ensures RowAt(pre + RowText(row) + post, |pre|, row, n)
  {
    var s := pre + RowText(row) + post;
    forall c | 0 <= c < n
      ensures (row[c].Some? ==> s[|pre| + 4 * c] == '[' && s[|pre| + 4 * c + 1] == row[c].value)
        && (row[c].None? ==> s[|pre| + 4 * c] != '[')
    {
      RowTextAt(row, c);
    }
    if 0 < n {
      RowTextAt(row, 0);
    }
  }

  lemma {:induction false} GridAtText(pre: seq<char>, grid: seq<seq<Cell>>, n: nat, post: seq<char>)
    requires Shaped(grid, n)
    ensures GridAt(pre + GridText(grid, n) + post, |pre|, grid, n)
    decreases |grid|
  {
    if grid != [] {
      var row, rest := RowText(grid[0]), GridText(grid[1..], n);
      assert pre + GridText(grid, n) + post == pre + row + (rest + post);
      RowAtText(pre, grid[0], rest + post, n);
      GridAtText(pre + row, grid[1..], n, post);
      assert pre + row + rest + post == pre + GridText(grid, n) + post;
    }
  }

  lemma LabelsAt(pre: seq<char>, n: nat, labels: seq<char>, post: seq<char>)
    requires 1 <= n && |labels| == 4 * n - 1 && '\n' !in labels
    requires forall c | 0 <= c < n :: labels[4 * c] != '['
    ensures RowAt(pre + labels + post, |pre|, Blank(n), n) || |post| == 0
  {
    var s := pre + labels + post;
    if |post| > 0 {
      forall c | 0 <= c < n
        ensures s[|pre| + 4 * c] != '['
      {
        assert s[|pre| + 4 * c] == labels[4 * c];
      }
      assert s[|pre|] == labels[0];
    }
  }

  /** The first line of a drawing is its first row (or its label row). */
  lemma FirstLine(grid: seq<seq<Cell>>, n: nat, labels: seq<char>, rest: seq<char>)
    requires Drawable(grid, n, labels)
    ensures var s := Picture(grid, n, labels) + rest;
      s[4 * n - 1] == '\n' && '\n' !in s[..4 * n - 1]
  {
    var s := Picture(grid, n, labels) + rest;
    if grid != [] {
      RowTextBreak(grid[0]);
      assert s[..4 * n - 1] == RowText(grid[0])[..4 * n - 1];
      assert s[4 * n - 1] == RowText(grid[0])[4 * n - 1];
    } else {
      assert s[..4 * n - 1] == labels;
    }
  }

  /**
   * Loading a drawing: each stack is its column, top crate first, and the
   * instructions start two characters past the blank line's line break.
   */
  lemma LoadPicture(grid: seq<seq<Cell>>, n: nat, labels: seq<char>, rest: seq<char>)
    requires Drawable(grid, n, labels)
    ensures var r := Load(Picture(grid, n, labels) + rest);
      && r.Success? && r.value.start == |Picture(grid, n, labels)| + 1
      && |r.value.stacks| == n
      && forall c | 0 <= c < n :: r.value.stacks[c] == Column(grid, c)
  {
    var pic := Picture(grid, n, labels);
    var s := pic + rest;
    var e := Span(4 * n, grid);
    GridAtText([], grid, n, labels + "\n\n" + rest);
    assert [] + GridText(grid, n) + (labels + "\n\n" + rest) == s;
    LabelsAt(GridText(grid, n), n, labels, "\n\n" + rest);
    assert GridText(grid, n) + labels + ("\n\n" + rest) == s;
    assert s[e + 4 * n] == '\n';
    FirstLine(grid, n, labels, rest);
    LoadLaidOut(s, grid, n);
    forall c | 0 <= c < n
      ensures Fill(EmptyStacks(n), grid)[c] == Column(grid, c)
    {
      FillMeaning(EmptyStacks(n), grid, c);
    }
  }
}
