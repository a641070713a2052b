/**
 * `parseSequentialInstruction` exactly as day5/day5.cpp writes it, on the
 * links of the arena: the loop saves `from->below` in `temp` but never
 * moves `from` on to it, so every turn after the first links the same node
 * to itself, and the head of the source stack is written back unchanged,
 * so even a single crate ends up on both stacks.
 * `CrateArena.Arena.SequentialMove` is the loop with that step.
 */
module SequentialAsWritten {
  import opened Results
  import opened SupplyStacks
  import opened CrateArena

  /** The loop: `count` times `from->below = to; to = from`; `None` where `from` is `NULL`. */
  function Loop(below: seq<int>, from: int, to: int, count: nat): (r: Option<(seq<int>, int)>)
    ensures r.Some? ==> |r.value.0| == |below|
    decreases count
  {
    if count == 0 then Some((below, to))
    else if !(0 <= from < |below|) then None
    else Loop(below[from := to], from, from, count - 1)
  }

  /** The whole instruction: the loop, then both heads written back, `to` first. */
  function MoveAsWritten(below: seq<int>, heads: seq<int>, f: nat, t: nat, count: nat): (r: Option<(seq<int>, seq<int>)>)
    requires f < |heads| && t < |heads|
    ensures r.Some? ==> |r.value.0| == |below| && |r.value.1| == |heads|
  {
    match Loop(below, heads[f], heads[t], count)
    case None => None
    case Some((links, to)) => Some((links, heads[t := to][f := heads[f]]))
  }

  /** In a well-formed arena the top node of a non-empty stack is owned by that stack. */
  lemma HeadOwned(value: seq<char>, below: seq<int>, heads: seq<int>,
                  chains: seq<seq<nat>>, owner: seq<int>, place: seq<int>, i: nat)
    requires Wellformed(value, below, heads, chains, owner, place)
    requires i < |heads| && heads[i] != Null
    ensures 0 <= heads[i] < |owner| && owner[heads[i]] == i
  {
    assert Head(chains[i]) == heads[i];
    assert chains[i] != [] && chains[i][0] == heads[i];
    assert Owned(owner, place, chains[i], i);
  }

  /** In a well-formed arena no two stacks have the same top node. */
  lemma SharedHeadIllFormed(value: seq<char>, below: seq<int>, heads: seq<int>,
                            chains: seq<seq<nat>>, owner: seq<int>, place: seq<int>, i: nat, j: nat)
    requires i < j < |heads| && heads[i] == heads[j] && heads[i] != Null
    ensures !Wellformed(value, below, heads, chains, owner, place)
  {
    if Wellformed(value, below, heads, chains, owner, place) {
      HeadOwned(value, below, heads, chains, owner, place, i);
      HeadOwned(value, below, heads, chains, owner, place, j);
    }
  }

  /**
   * One crate `A` on stack 1, stack 2 empty, and `move 1 from 1 to 2`. As
   * written, the crate's node is linked on top of stack 2, but the head of
   * stack 1 is written back as it was: both heads now name node `A`, so
   * the crate stands on both stacks and no record of which stack owns
   * which node fits the links. Moved properly, stack 1 is empty.
   */
  lemma OneCrateShared()
    ensures Wellformed("A", [Null], [0, Null], [[0], []], [0], [0])
    ensures Stacked("A", [[0], []]) == ["A", ""]
    ensures MoveAsWritten([Null], [0, Null], 0, 1, 1) == Some(([Null], [0, 0]))
    ensures forall chains, owner, place :: !Wellformed("A", [Null], [0, 0], chains, owner, place)
    ensures Sequential(["A", ""], 0, 1, 1) == ["", "A"]
  {
    forall chains, owner, place
      ensures !Wellformed("A", [Null], [0, 0], chains, owner, place)
    {
      SharedHeadIllFormed("A", [Null], [0, 0], chains, owner, place, 0, 1);
    }
    var c: seq<nat> := [0];
    assert Next(c, 0) == Null;
    assert Labels("A", c) == "A";
    assert Labels("A", []) == "";
    assert [Null][0 := Null] == [Null];
    assert Loop([Null], 0, Null, 1) == Loop([Null], 0, 0, 0);
    assert [0, Null][1 := 0][0 := 0] == [0, 0];
    var st: Stacks := ["A", ""];
    assert st[0][1..] == "" && [st[0][0]] + st[1] == "A";
    assert MoveOne(st, 0, 1) == ["", "A"];
    assert Sequential(st, 0, 1, 1) == Sequential(["", "A"], 0, 1, 0);
  }

  /** Node 0 linked to itself: no stack of crates starts there. */
  lemma {:induction false} NoStackThroughSelfLink(c: seq<nat>)
    ensures c != [] && c[0] == 0 ==> !Linked([0, Null], c)
  {
    var b: seq<int> := [0, Null];
    if c != [] && c[0] == 0 {
      assert b[c[0]] == 0;
      if 2 <= |c| {
        NoStackThroughSelfLink(c[1..]);
        assert Next(c, 0) == c[1] == c[1..][0];
        assert forall k | 0 <= k < |c| - 1 :: c[1..][k] == c[k + 1] && Next(c[1..], k) == Next(c, k + 1);
      } else {
        assert Next(c, 0) == Null;
      }
    }
  }

  /**
   * Two crates `A` over `B` on stack 1, stack 2 empty, and `move 2 from 1
   * to 2`. As written, both heads end on node `A`, which links to itself:
   * neither stack is a list of crates any more. One crate at a time, the
   * two crates land on stack 2 as `B` over `A`.
   */
  lemma TwoCratesSelfLink()
    ensures Wellformed("AB", [1, Null], [0, Null], [[0, 1], []], [0, 0], [0, 1])
    ensures Stacked("AB", [[0, 1], []]) == ["AB", ""]
    ensures MoveAsWritten([1, Null], [0, Null], 0, 1, 2) == Some(([0, Null], [0, 0]))
    ensures forall c: seq<nat> | c != [] && c[0] == 0 :: !Linked([0, Null], c)
    ensures Sequential(["AB", ""], 0, 1, 2) == ["", "BA"]
  {
    TwoCratesBefore();
    TwoCratesLoop();
    forall c: seq<nat> | c != [] && c[0] == 0
      ensures !Linked([0, Null], c)
    {
      NoStackThroughSelfLink(c);
    }
    TwoCratesOneByOne();
  }

  lemma TwoCratesBefore()
    ensures Wellformed("AB", [1, Null], [0, Null], [[0, 1], []], [0, 0], [0, 1])
    ensures Stacked("AB", [[0, 1], []]) == ["AB", ""]
  {
    var c: seq<nat> := [0, 1];
    assert Next(c, 0) == 1 && Next(c, 1) == Null;
    assert Labels("AB", c) == "AB";
    assert Labels("AB", []) == "";
  }

  lemma TwoCratesLoop()
    ensures MoveAsWritten([1, Null], [0, Null], 0, 1, 2) == Some(([0, Null], [0, 0]))
  {
    var once: seq<int> := [1, Null][0 := Null];
    assert once == [Null, Null];
    assert once[0 := 0] == [0, Null];
    assert Loop([1, Null], 0, Null, 2) == Loop(once, 0, 0, 1);
    assert Loop(once, 0, 0, 1) == Loop([0, Null], 0, 0, 0);
    assert [0, Null][1 := 0][0 := 0] == [0, 0];
  }

  lemma TwoCratesOneByOne()
    ensures Sequential(["AB", ""], 0, 1, 2) == ["", "BA"]
  {
    var st: Stacks := ["AB", ""];
    assert st[0][1..] == "B" && [st[0][0]] + st[1] == "A";
    assert st[0 := "B"][1 := "A"] == ["B", "A"];
    var one := MoveOne(st, 0, 1);
    assert one == ["B", "A"];
    assert one[0][1..] == "" && [one[0][0]] + one[1] == "BA";
    assert one[0 := ""][1 := "BA"] == ["", "BA"];
    assert MoveOne(one, 0, 1) == ["", "BA"];
    assert Sequential(st, 0, 1, 2) == Sequential(one, 0, 1, 1);
    assert Sequential(one, 0, 1, 1) == Sequential(["", "BA"], 0, 1, 0);
  }
}
