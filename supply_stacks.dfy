/**
 * Supply stacks (day5/day5.cpp) as values: one sequence of crate letters per
 * stack, the top crate first. The two crane policies and the top-of-stack
 * report are functions here; crate_arena.dfy carries them out on linked
 * nodes and proves it computes these.
 */
module SupplyStacks {
  import opened Results
  import opened Sequences

  /** Every stack, indexed from 0, each listed from its top crate down. */
  type Stacks = seq<seq<char>>

  /**
   * `parseBatchedInstruction`: the top `count` crates leave `from` in one
   * piece and go on top of `to`. The two writes happen in the source's order
   * (`from` first), so a move onto the same stack leaves it as it was.
   */
  function Batched(st: Stacks, from: nat, to: nat, count: nat): Stacks
    requires from < |st| && to < |st| && count <= |st[from]|
  {
    var rest := st[from := st[from][count..]];
    rest[to := st[from][..count] + rest[to]]
  }

  /** One crate from the top of `from` to the top of `to`. */
  function MoveOne(st: Stacks, from: nat, to: nat): Stacks
    requires from < |st| && to < |st| && st[from] != []
  {
    var rest := st[from := st[from][1..]];
    rest[to := [st[from][0]] + rest[to]]
  }

  /** `parseSequentialInstruction` as documented: `count` single moves, one after the other. */
  function Sequential(st: Stacks, from: nat, to: nat, count: nat): (r: Stacks)
    requires from < |st| && to < |st| && count <= |st[from]| && from != to
    ensures |r| == |st|
    decreases count
  {
    if count == 0 then st
    else
      var next := MoveOne(st, from, to);
      assert next[from] == st[from][1..];
      Sequential(next, from, to, count - 1)
  }

  /** Batched: the block keeps its order on `to`, `from` loses it, nothing else changes. */
  lemma BatchedLaw(st: Stacks, from: nat, to: nat, count: nat)
    requires from < |st| && to < |st| && count <= |st[from]| && from != to
    ensures |Batched(st, from, to, count)| == |st|
    ensures Batched(st, from, to, count)[to] == st[from][..count] + st[to]
    ensures Batched(st, from, to, count)[from] == st[from][count..]
    ensures forall i | 0 <= i < |st| && i != from && i != to :: Batched(st, from, to, count)[i] == st[i]
  {
  }

  /** A batched move onto the stack it comes from changes nothing. */
  lemma BatchedSelf(st: Stacks, from: nat, count: nat)
    requires from < |st| && count <= |st[from]|
    ensures Batched(st, from, from, count) == st
  {
    assert st[from][..count] + st[from][count..] == st[from];
  }

  /** Sequential: the block lands on `to` reversed, `from` loses it, nothing else changes. */
  lemma {:induction false} SequentialLaw(st: Stacks, from: nat, to: nat, count: nat)
    requires from < |st| && to < |st| && count <= |st[from]| && from != to
    ensures Sequential(st, from, to, count)[to] == Reverse(st[from][..count]) + st[to]
    ensures Sequential(st, from, to, count)[from] == st[from][count..]
    ensures forall i | 0 <= i < |st| && i != from && i != to :: Sequential(st, from, to, count)[i] == st[i]
    decreases count
  {
    if count == 0 {
      assert st[from][..0] == [];
    } else {
      var next := MoveOne(st, from, to);
      var c := st[from][0];
      SequentialLaw(next, from, to, count - 1);
      assert next[from] == st[from][1..];
      assert next[from][..count - 1] == st[from][1..count];
      assert st[from][..count] == [c] + st[from][1..count];
      assert next[from][count - 1..] == st[from][count..];
      ReverseOfCons(c, st[from][1..count]);
    }
  }

  /** A single crate moves the same way under both policies. */
  lemma OneCrateAgrees(st: Stacks, from: nat, to: nat)
    requires from < |st| && to < |st| && 1 <= |st[from]| && from != to
    ensures Sequential(st, from, to, 1) == Batched(st, from, to, 1)
  {
    var s1, b1 := Sequential(st, from, to, 1), Batched(st, from, to, 1);
    SequentialLaw(st, from, to, 1);
    BatchedLaw(st, from, to, 1);
    assert Reverse(st[from][..1]) == st[from][..1] by {
      assert st[from][..1] == [st[from][0]];
      assert Reverse([st[from][0]]) == Reverse([]) + [st[from][0]];
    }
    assert |s1| == |b1|;
    forall i | 0 <= i < |st|
      ensures s1[i] == b1[i]
    {
    }
  }

  /** Every crate of every stack, counted with multiplicity. */
  function Crates(st: Stacks): multiset<char> {
    if st == [] then multiset{} else Crates(st[..|st| - 1]) + multiset(st[|st| - 1])
  }

  lemma {:induction false} CratesUpdate(st: Stacks, i: nat, s: seq<char>)
    requires i < |st|
    ensures Crates(st[i := s]) == Crates(st) - multiset(st[i]) + multiset(s)
  {
    var n := |st| - 1;
    if i < n {
      assert st[i := s][..n] == st[..n][i := s];
      CratesUpdate(st[..n], i, s);
      assert multiset(st[i]) <= Crates(st[..n]) by {
        CrateOfStack(st[..n], i);
      }
    } else {
      assert st[i := s][..n] == st[..n];
    }
  }

  lemma {:induction false} CrateOfStack(st: Stacks, i: nat)
    requires i < |st|
    ensures multiset(st[i]) <= Crates(st)
  {
    var n := |st| - 1;
    if i < n {
      CrateOfStack(st[..n], i);
      assert st[..n][i] == st[i];
    }
  }

  /** No crate is created or lost by a batched move. */
  lemma BatchedKeepsCrates(st: Stacks, from: nat, to: nat, count: nat)
    requires from < |st| && to < |st| && count <= |st[from]|
    ensures Crates(Batched(st, from, to, count)) == Crates(st)
  {
    var take, drop := st[from][..count], st[from][count..];
    var rest := st[from := drop];
    assert multiset(st[from]) == multiset(take) + multiset(drop) by {
      assert st[from] == take + drop;
    }
    CrateOfStack(st, from);
    CratesUpdate(st, from, drop);
    assert Crates(rest) + multiset(take) == Crates(st);
    CrateOfStack(rest, to);
    CratesUpdate(rest, to, take + rest[to]);
  }

  /** No crate is created or lost by a sequential move. */
  lemma SequentialKeepsCrates(st: Stacks, from: nat, to: nat, count: nat)
    requires from < |st| && to < |st| && count <= |st[from]| && from != to
    ensures Crates(Sequential(st, from, to, count)) == Crates(st)
  {
    SequentialLaw(st, from, to, count);
    BatchedLaw(st, from, to, count);
    var s, b := Sequential(st, from, to, count), Batched(st, from, to, count);
    MultisetReverse(st[from][..count]);
    assert s == b[to := Reverse(st[from][..count]) + st[to]];
    CratesUpdate(b, to, s[to]);
    CrateOfStack(b, to);
    BatchedKeepsCrates(st, from, to, count);
  }

  /** The report: the top crate of every stack, in index order. */
  function Tops(st: Stacks): (r: seq<char>)
    requires forall i | 0 <= i < |st| :: st[i] != []
    ensures |r| == |st| && forall i | 0 <= i < |st| :: r[i] == st[i][0]
  {
    if st == [] then [] else [st[0][0]] + Tops(st[1..])
  }

  /** The report, or nothing where the source would read the top of an empty stack through a `NULL` head. */
  function Report(st: Stacks): (r: Option<seq<char>>)
    ensures r.Some? <==> forall i | 0 <= i < |st| :: st[i] != []
    ensures r.Some? ==> r.value == Tops(st)
  {
    if forall i | 0 <= i < |st| :: st[i] != [] then Some(Tops(st)) else None
  }
}
