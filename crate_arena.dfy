/**
 * The linked stacks of day5/day5.cpp. Every `Stack_t` node the loader
 * allocates is an index into the arena: `value[n]` is its crate letter and
 * `below[n]` the node under it, or `Null`. `stacks` is the array of head
 * pointers. Ghost chains list the nodes of each stack from its head down,
 * so that the arena can be read as the stacks of `SupplyStacks`.
 */
module CrateArena {
  import opened Results
  import opened SupplyStacks
  import opened Sequences

  /** The source's `NULL` link. */
  const Null: int := -1

  function Head(c: seq<nat>): int {
    if c == [] then Null else c[0]
  }

  function Last(c: seq<nat>): int {
    if c == [] then Null else c[|c| - 1]
  }

  /** What the `k`-th node of a chain must link to. */
  function Next(c: seq<nat>, k: nat): int
    requires k < |c|
  {
    if k + 1 < |c| then c[k + 1] else Null
  }

  /** Every node of `c` exists and links to the next one; the last one links to `Null`. */
  ghost predicate Linked(below: seq<int>, c: seq<nat>) {
    && (forall k | 0 <= k < |c| :: c[k] < |below|)
    && (forall k {:trigger below[c[k]]} | 0 <= k < |c| :: below[c[k]] == Next(c, k))
  }

  /** The ghost index records `c` as chain `i`: its `k`-th node is owned by `i` at place `k`. */
  ghost predicate Owned(owner: seq<int>, place: seq<int>, c: seq<nat>, i: int) {
    forall k | 0 <= k < |c| :: c[k] < |owner| && c[k] < |place| && owner[c[k]] == i && place[c[k]] == k
  }

  /** A node's crate letter; a node outside the arena (never in a valid chain) reads as a blank. */
  function Label(value: seq<char>, n: nat): char {
    if n < |value| then value[n] else ' '
  }

  /** The crate letters of a chain, from its head down. */
  function Labels(value: seq<char>, c: seq<nat>): (r: seq<char>)
    ensures |r| == |c| && forall k | 0 <= k < |c| :: r[k] == Label(value, c[k])
  {
    seq(|c|, k requires 0 <= k < |c| => Label(value, c[k]))
  }

  /** The crate letters of every chain. */
  function Stacked(value: seq<char>, chains: seq<seq<nat>>): (st: Stacks)
    ensures |st| == |chains| && forall i | 0 <= i < |chains| :: st[i] == Labels(value, chains[i])
  {
    seq(|chains|, i requires 0 <= i < |chains| => Labels(value, chains[i]))
  }

  /**
   * The links, heads and ghost index describe disjoint, well-formed linked
   * lists: chain `i` starts at `heads[i]`, follows `below` to `Null`, and
   * each of its nodes is recorded as owned by `i` at its depth.
   */
  ghost predicate Wellformed(value: seq<char>, below: seq<int>, heads: seq<int>,
                             chains: seq<seq<nat>>, owner: seq<int>, place: seq<int>) {
    && |below| == |value| && |owner| == |value| && |place| == |value|
    && |heads| == |chains|
    && (forall i | 0 <= i < |chains| :: heads[i] == Head(chains[i]))
    && (forall i | 0 <= i < |chains| :: Linked(below, chains[i]))
    && (forall i | 0 <= i < |chains| :: Owned(owner, place, chains[i], i))
  }

  /** The chains after `count` nodes have gone one by one from chain `f` to chain `t`. */
  ghost function SequentialChains(chains: seq<seq<nat>>, f: nat, t: nat, count: nat): seq<seq<nat>>
    requires f < |chains| && t < |chains| && count <= |chains[f]|
  {
    chains[f := chains[f][count..]][t := Reverse<nat>(chains[f][..count]) + chains[t]]
  }

  /** The chains after a block of `count` nodes has gone from chain `f` to chain `t`. */
  ghost function BatchedChains(chains: seq<seq<nat>>, f: nat, t: nat, count: nat): seq<seq<nat>>
    requires f < |chains| && t < |chains| && count <= |chains[f]|
  {
    chains[f := chains[f][count..]][t := chains[f][..count] + chains[t]]
  }

  class Arena {
    /** `Stack_t.value` of every node. */
    var value: seq<char>
    /** `Stack_t.below` of every node: the node under it, or `Null`. */
    var below: seq<int>
    /** The source's `stacks` array: the head node of every stack, or `Null`. */
    var stacks: array<int>
    /** The nodes of every stack, from its head down. */
    ghost var chains: seq<seq<nat>>
    /** For every node, the stack it belongs to and its depth there. */
    ghost var owner: seq<int>
    ghost var place: seq<int>

    ghost predicate Valid()
      reads this, stacks
    {
      Wellformed(value, below, stacks[..], chains, owner, place)
    }

    /** The stacks the linked lists hold, each from its top crate down. */
    ghost function Contents(): (st: Stacks)
      reads this
      ensures |st| == |chains| && forall i | 0 <= i < |chains| :: st[i] == Labels(value, chains[i])
    {
      Stacked(value, chains)
    }

    /** `malloc` of the `stacks` array, every head still empty. */
    constructor (n: nat)
      ensures Valid() && fresh(stacks) && value == []
      ensures |chains| == n && forall i | 0 <= i < n :: chains[i] == []
      ensures Contents() == seq(n, _ => [])
    {
      value, below := [], [];
      stacks := new int[n](_ => Null);
      chains := seq(n, _ => []);
      owner, place := [], [];
    }

    /**
     * `parseSequentialInstruction`, moving `count` crates one at a time. The
     * source's loop never advances `from` to the saved `temp`; this method
     * does, which is the one-by-one pop and push the function is written for.
     */
    method SequentialMove(fromStack: nat, toStack: nat, count: nat)
      requires Valid() && fromStack < |chains| && toStack < |chains| && fromStack != toStack
      requires count <= |chains[fromStack]|
      modifies this, stacks
      ensures Valid() && value == old(value) && stacks == old(stacks) && |chains| == old(|chains|)
      ensures Contents() == Sequential(old(Contents()), fromStack, toStack, count)
    {
      ghost var heads, nodes, owners, places := stacks[..], chains, owner, place;
      var links, to, from := Relink(below, owner, place, chains, fromStack, toStack, count, stacks[toStack], stacks[fromStack]);
      SequentialDone(value, below, links, heads, nodes, owners, places, fromStack, toStack, count, to, from);
      below := links;
      stacks[toStack] := to;
      stacks[fromStack] := from;
      chains := SequentialChains(nodes, fromStack, toStack, count);
      owner, place := MovedOwner(owners, places, fromStack, toStack, count),
                      MovedPlace(owners, places, fromStack, toStack, count, true);
      assert stacks[..] == heads[toStack := to][fromStack := from];
    }

    /**
     * `parseBatchedInstruction`: `bottom` walks down to the `count`-th node,
     * the stack under it becomes the source stack, and the block is linked
     * onto the target stack in one piece.
     */
    method BatchedMove(fromStack: nat, toStack: nat, count: nat)
      requires Valid() && fromStack < |chains| && toStack < |chains|
      requires 1 <= count <= |chains[fromStack]|
      modifies this, stacks
      ensures Valid() && value == old(value) && stacks == old(stacks) && |chains| == old(|chains|)
      ensures Contents() == Batched(old(Contents()), fromStack, toStack, count)
    {
      ghost var src, heads := chains[fromStack], stacks[..];
      var bottom := Null;
      var top := stacks[fromStack];
      for i := 0 to count
        invariant if i == 0 then bottom == Null else bottom == src[i - 1]
      {
        bottom := if bottom == Null then top else below[bottom];
      }
      BatchedBottom(below, src, count);
      stacks[fromStack] := below[bottom];
      below := below[bottom := stacks[toStack]];
      stacks[toStack] := top;
      if fromStack == toStack {
        BatchedSelfDone(value, old(below), heads, chains, owner, place, fromStack, count);
      } else {
        BatchedDone(value, old(below), heads, chains, owner, place, fromStack, toStack, count);
        chains := BatchedChains(chains, fromStack, toStack, count);
        owner, place := MovedOwner(owner, place, fromStack, toStack, count),
                        MovedPlace(owner, place, fromStack, toStack, count, false);
      }
    }

    /**
     * The loader's step for a crate found in `column`: a new node below the
     * current bottom node `tail` of that stack, or its head if it has none.
     */
    method AppendBelow(column: nat, tail: int, letter: char) returns (node: nat)
      requires Valid() && column < |chains| && tail == Last(chains[column])
      modifies this, stacks
      ensures Valid() && stacks == old(stacks) && |chains| == old(|chains|)
      ensures Contents() == old(Contents())[column := old(Contents())[column] + [letter]]
      ensures node == Last(chains[column])
      ensures forall c | 0 <= c < |chains| && c != column :: chains[c] == old(chains[c])
    {
      ghost var heads, c := stacks[..], chains[column];
      node := |value|;
      AppendContents(value, below, heads, chains, owner, place, column, letter);
      if tail == Null {
        AppendToEmpty(value, below, heads, chains, owner, place, column, letter);
        stacks[column] := node;
        below := below + [Null];
      } else {
        AppendToChain(value, below, heads, chains, owner, place, column, letter);
        below := (below + [Null])[tail := node];
      }
      value := value + [letter];
      owner, place := owner + [column], place + [|c|];
      chains := chains[column := c + [node]];
    }

    /**
     * The report loop of `partOne` and `partTwo`: the letter of every head
     * node, in index order.
     */
    method TopCrates() returns (tops: Option<seq<char>>)
      requires Valid()
      ensures tops == Report(Contents())
    {
      var result := [];
      for i := 0 to stacks.Length
        invariant |result| == i
        invariant forall k | 0 <= k < i :: chains[k] != [] && result[k] == Contents()[k][0]
      {
        var head := stacks[i];
        if head == Null {
          assert Contents()[i] == [];
          return None;
        }
        result := result + [value[head]];
      }
      assert result == Tops(Contents());
      return Some(result);
    }

    /**
     * The number of crates on stack `column`, counted along its links. The
     * source never counts: a move deeper than the stack reaches a `NULL`
     * link, and the model counts first to report that as a failure.
     */
    method Depth(column: nat) returns (depth: nat)
      requires Valid() && column < |chains|
      ensures depth == |Contents()[column]|
    {
      ghost var c := chains[column];
      assert stacks[..][column] == stacks[column];
      var node := stacks[column];
      depth := 0;
      while node != Null
        invariant depth <= |c| && node == (if depth < |c| then c[depth] else Null)
        decreases |c| - depth
      {
        node := below[node];
        depth := depth + 1;
      }
    }
  }

  /**
   * The loop of `parseSequentialInstruction` on the links: `count` times the
   * head `from` of what is left of chain `f` is linked onto `to`, the head of
   * the chain growing on `t`, and both move on.
   */
  method Relink(below: seq<int>, ghost owner: seq<int>, ghost place: seq<int>, ghost chains: seq<seq<nat>>,
                f: nat, t: nat, count: nat, to0: int, from0: int) returns (links: seq<int>, to: int, from: int)
    requires f < |chains| && t < |chains| && f != t && count <= |chains[f]| && |place| == |owner|
    requires forall j | 0 <= j < |chains| :: Linked(below, chains[j])
    requires forall j | 0 <= j < |chains| :: Owned(owner, place, chains[j], j)
    requires to0 == Head(chains[t]) && from0 == Head(chains[f])
    ensures |links| == |below|
    ensures to == Head(Reverse<nat>(chains[f][..count]) + chains[t]) && from == Head(chains[f][count..])
    ensures Linked(links, Reverse<nat>(chains[f][..count]) + chains[t]) && Linked(links, chains[f][count..])
    ensures forall j | 0 <= j < |chains| && j != f && j != t :: Linked(links, chains[j])
  {
    ghost var src, dst := chains[f], chains[t];
    links, to, from := below, to0, from0;
    assert Reverse<nat>(src[..0]) + dst == dst;
    var i := 0;
    while i < count
      invariant 0 <= i <= count && |links| == |below|
      invariant to == Head(Reverse<nat>(src[..i]) + dst) && from == Head(src[i..])
      invariant Linked(links, Reverse<nat>(src[..i]) + dst) && Linked(links, src[i..])
      invariant forall j | 0 <= j < |chains| && j != f && j != t :: Linked(links, chains[j])
    {
      assert from == src[i] && src[i] < |links| by {
        assert src[i..][0] == src[i];
      }
      var temp := links[from];
      assert temp == Head(src[i + 1..]) by {
        assert src[i..][0] == src[i];
        if i + 1 < |src| {
          assert src[i..][1] == src[i + 1];
        }
      }
      SequentialStep(links, owner, place, src, dst, f, t, i);
      LinkedOthers(links, owner, place, chains, f, t, from, to);
      ReversePrefixStep(src, i);
      links := links[from := to];
      to := from;
      from := temp;
      i := i + 1;
    }
    assert src[..i] == src[..count] && src[i..] == src[count..];
  }

  // ---------------------------------------------------------------------------
  // Whole-arena steps, one lemma per method above
  // ---------------------------------------------------------------------------

  /** The arena once the one-by-one loop has relinked `count` nodes. */
  lemma SequentialDone(value: seq<char>, below0: seq<int>, below: seq<int>, heads: seq<int>,
                       chains: seq<seq<nat>>, owner: seq<int>, place: seq<int>, f: nat, t: nat, count: nat,
                       to: int, from: int)
    requires Wellformed(value, below0, heads, chains, owner, place)
    requires f < |chains| && t < |chains| && f != t && count <= |chains[f]| && |below| == |value|
    requires Linked(below, Reverse<nat>(chains[f][..count]) + chains[t]) && Linked(below, chains[f][count..])
    requires forall j | 0 <= j < |chains| && j != f && j != t :: Linked(below, chains[j])
    requires to == Head(Reverse<nat>(chains[f][..count]) + chains[t]) && from == Head(chains[f][count..])
    ensures Wellformed(value, below, heads[t := to][f := from], SequentialChains(chains, f, t, count),
      MovedOwner(owner, place, f, t, count), MovedPlace(owner, place, f, t, count, true))
    ensures Stacked(value, SequentialChains(chains, f, t, count)) == Sequential(Stacked(value, chains), f, t, count)
  {
    var moved := SequentialChains(chains, f, t, count);
    OwnedOthers(owner, place, chains, f, t, count, true);
    OwnedAfterMove(owner, place, chains[f], chains[t], f, t, count, true);
    SequentialContents(value, chains, f, t, count);
  }

  /** The arena once the batched move has relinked the block. */
  lemma BatchedDone(value: seq<char>, below: seq<int>, heads: seq<int>,
                    chains: seq<seq<nat>>, owner: seq<int>, place: seq<int>, f: nat, t: nat, count: nat)
    requires Wellformed(value, below, heads, chains, owner, place)
    requires f < |chains| && t < |chains| && f != t && 1 <= count <= |chains[f]|
    ensures chains[f][count - 1] < |below|
    ensures Wellformed(value, below[chains[f][count - 1] := heads[t]],
      heads[f := below[chains[f][count - 1]]][t := heads[f]],
      BatchedChains(chains, f, t, count),
      MovedOwner(owner, place, f, t, count), MovedPlace(owner, place, f, t, count, false))
    ensures Stacked(value, BatchedChains(chains, f, t, count)) == Batched(Stacked(value, chains), f, t, count)
  {
    var src, dst := chains[f], chains[t];
    BatchedBottom(below, src, count);
    BatchedStep(below, owner, place, src, dst, f, t, count);
    LinkedOthers(below, owner, place, chains, f, t, src[count - 1], Head(dst));
    OwnedOthers(owner, place, chains, f, t, count, false);
    OwnedAfterMove(owner, place, src, dst, f, t, count, false);
    BatchedContents(value, chains, f, t, count);
  }

  /** A batched move onto its own stack relinks the bottom node to where it already pointed. */
  lemma BatchedSelfDone(value: seq<char>, below: seq<int>, heads: seq<int>,
                        chains: seq<seq<nat>>, owner: seq<int>, place: seq<int>, f: nat, count: nat)
    requires Wellformed(value, below, heads, chains, owner, place)
    requires f < |chains| && 1 <= count <= |chains[f]|
    ensures chains[f][count - 1] < |below|
    ensures below[chains[f][count - 1] := below[chains[f][count - 1]]] == below
    ensures heads[f := below[chains[f][count - 1]]][f := heads[f]] == heads
    ensures Stacked(value, chains) == Batched(Stacked(value, chains), f, f, count)
  {
    BatchedBottom(below, chains[f], count);
    BatchedSelf(Stacked(value, chains), f, count);
  }

  /** The loader's first crate of a stack becomes its head. */
  lemma AppendToEmpty(value: seq<char>, below: seq<int>, heads: seq<int>,
                      chains: seq<seq<nat>>, owner: seq<int>, place: seq<int>, column: nat, letter: char)
    requires Wellformed(value, below, heads, chains, owner, place)
    requires column < |chains| && chains[column] == []
    ensures Wellformed(value + [letter], below + [Null], heads[column := |value|],
                       chains[column := [|value|]], owner + [column], place + [0])
  {
    var node := |value|;
    assert [node] == chains[column] + [node];
    AppendLinks(below, owner, place, chains, column, node);
    AppendOwned(owner, place, chains, column, node);
  }

  /** A later crate of a stack goes under its current bottom node. */
  lemma AppendToChain(value: seq<char>, below: seq<int>, heads: seq<int>,
                      chains: seq<seq<nat>>, owner: seq<int>, place: seq<int>, column: nat, letter: char)
    requires Wellformed(value, below, heads, chains, owner, place)
    requires column < |chains| && chains[column] != []
    ensures 0 <= Last(chains[column]) < |below|
    ensures Wellformed(value + [letter], (below + [Null])[Last(chains[column]) := |value|], heads,
                       chains[column := chains[column] + [|value|]], owner + [column], place + [|chains[column]|])
  {
    var node := |value|;
    AppendLinks(below, owner, place, chains, column, node);
    AppendOwned(owner, place, chains, column, node);
    var after := chains[column := chains[column] + [node]];
    forall i | 0 <= i < |after|
      ensures heads[i] == Head(after[i])
    {
    }
  }

  /** The ghost index after the loader adds node `node` at the bottom of chain `column`. */
  lemma AppendOwned(owner: seq<int>, place: seq<int>, chains: seq<seq<nat>>, column: nat, node: nat)
    requires column < |chains| && node == |owner| && |place| == |owner|
    requires forall i | 0 <= i < |chains| :: Owned(owner, place, chains[i], i)
    ensures var after := chains[column := chains[column] + [node]];
      forall j | 0 <= j < |after| :: Owned(owner + [column], place + [|chains[column]|], after[j], j)
  {
    var c := chains[column];
    var after := chains[column := c + [node]];
    forall j | 0 <= j < |after|
      ensures Owned(owner + [column], place + [|c|], after[j], j)
    {
      OwnedExtend(owner, place, chains[j], j, column, |c|);
      if j == column {
        forall k | 0 <= k < |c| + 1
          ensures (c + [node])[k] < |owner| + 1 && (c + [node])[k] < |place| + 1
            && (owner + [column])[(c + [node])[k]] == column && (place + [|c|])[(c + [node])[k]] == k
        {
          if k < |c| {
            assert (c + [node])[k] == c[k];
          }
        }
      }
    }
  }

  /** The loader's new node adds its letter at the bottom of its stack and changes no other letter. */
  lemma AppendContents(value: seq<char>, below: seq<int>, heads: seq<int>,
                       chains: seq<seq<nat>>, owner: seq<int>, place: seq<int>, column: nat, letter: char)
    requires Wellformed(value, below, heads, chains, owner, place) && column < |chains|
    ensures Stacked(value + [letter], chains[column := chains[column] + [|value|]])
         == Stacked(value, chains)[column := Stacked(value, chains)[column] + [letter]]
  {
    forall j | 0 <= j < |chains|
      ensures Labels(value + [letter], chains[j]) == Labels(value, chains[j])
    {
      assert Linked(below, chains[j]);
    }
    var c := chains[column];
    assert Labels(value + [letter], c + [|value|]) == Labels(value + [letter], c) + [letter];
  }

  /** The `count`-th node of a linked chain is where `bottom` stops, and the rest of the chain starts under it. */
  lemma BatchedBottom(below: seq<int>, src: seq<nat>, count: nat)
    requires Linked(below, src) && 1 <= count <= |src|
    ensures src[count - 1] < |below| && below[src[count - 1]] == Head(src[count..])
  {
  }

  // ---------------------------------------------------------------------------
  // Facts about chains, used by the relinking methods below
  // ---------------------------------------------------------------------------

  /** Relinking a node outside a chain leaves the chain linked. */
  lemma LinkedFrame(below: seq<int>, c: seq<nat>, x: nat, v: int)
    requires Linked(below, c) && x < |below| && x !in c
    ensures Linked(below[x := v], c)
  {
  }

  /** A node owned by another chain is not in `c`. */
  lemma OwnedNotIn(owner: seq<int>, place: seq<int>, c: seq<nat>, i: int, x: nat)
    requires Owned(owner, place, c, i) && x < |owner| && owner[x] != i
    ensures x !in c
  {
  }

  /** A node placed outside `lo..hi` of chain `c` is not in that part of it. */
  lemma PlacedNotIn(owner: seq<int>, place: seq<int>, c: seq<nat>, i: int, lo: nat, hi: nat, x: nat)
    requires Owned(owner, place, c, i) && lo <= hi <= |c| && x < |place|
    requires !(lo <= place[x] < hi)
    ensures x !in c[lo..hi]
  {
  }

  lemma InReverse<T>(s: seq<T>, x: T)
    ensures x in Reverse(s) <==> x in s
  {
    MultisetReverse(s);
    assert x in Reverse(s) <==> x in multiset(Reverse(s));
    assert x in s <==> x in multiset(s);
  }

  lemma OwnedSlice(owner: seq<int>, place: seq<int>, c: seq<nat>, i: int, lo: nat, hi: nat)
    requires Owned(owner, place, c, i) && lo <= hi <= |c|
    ensures forall k | 0 <= k < hi - lo :: c[lo..hi][k] < |owner| && owner[c[lo..hi][k]] == i
  {
    forall k | 0 <= k < hi - lo
      ensures c[lo..hi][k] < |owner| && owner[c[lo..hi][k]] == i
    {
      assert c[lo..hi][k] == c[lo + k];
    }
  }

  /** A suffix of a linked chain is linked. */
  lemma LinkedSuffix(below: seq<int>, c: seq<nat>, lo: nat)
    requires Linked(below, c) && lo <= |c|
    ensures Linked(below, c[lo..])
  {
    forall k | 0 <= k < |c| - lo
      ensures c[lo..][k] < |below| && below[c[lo..][k]] == Next(c[lo..], k)
    {
      assert c[lo..][k] == c[lo + k];
    }
  }

  /** The head of what is left of a chain is not among the nodes already moved off it. */
  lemma NotInMovedPart(owner: seq<int>, place: seq<int>, src: seq<nat>, f: int, i: nat)
    requires i < |src| && Owned(owner, place, src, f)
    ensures src[i] !in Reverse<nat>(src[..i])
  {
    InReverse(src[..i], src[i]);
    PlacedNotIn(owner, place, src, f, 0, i, src[i]);
    assert src[0..i] == src[..i];
  }

  lemma ReversePrefixStep(src: seq<nat>, i: nat)
    requires i < |src|
    ensures Reverse<nat>(src[..i + 1]) == [src[i]] + Reverse<nat>(src[..i])
  {
    assert src[..i + 1] == src[..i] + [src[i]];
    ReverseSnoc(src[..i], src[i]);
  }

  /** Linking a fresh node `x` on top of a linked chain. */
  lemma LinkedPush(below: seq<int>, c: seq<nat>, x: nat)
    requires Linked(below, c) && x < |below| && x !in c
    ensures Linked(below[x := Head(c)], [x] + c)
  {
    var b := below[x := Head(c)];
    LinkedFrame(below, c, x, Head(c));
    forall k | 0 <= k < |c| + 1
      ensures ([x] + c)[k] < |b| && b[([x] + c)[k]] == Next([x] + c, k)
    {
      if k > 0 {
        assert ([x] + c)[k] == c[k - 1];
      }
    }
  }

  /**
   * One step of the one-by-one move: the head `x` of what is left of `src`
   * is linked onto the moved chain, which grows by `x` at its top.
   */
  lemma SequentialStep(below: seq<int>, owner: seq<int>, place: seq<int>,
                       src: seq<nat>, dst: seq<nat>, f: int, t: int, i: nat)
    requires i < |src| && f != t && |place| == |owner|
    requires Owned(owner, place, src, f) && Owned(owner, place, dst, t)
    requires Linked(below, Reverse<nat>(src[..i]) + dst) && Linked(below, src[i..])
    ensures var b := below[src[i] := Head(Reverse<nat>(src[..i]) + dst)];
      Linked(b, Reverse<nat>(src[..i + 1]) + dst) && Linked(b, src[i + 1..])
  {
    var x := src[i];
    var moved := Reverse<nat>(src[..i]) + dst;
    assert x < |below| by {
      assert src[i..][0] == x;
    }
    MovedGrows(below, owner, place, src, dst, f, t, i);
    RestShrinks(below, owner, place, src, f, i, Head(moved));
  }

  lemma MovedGrows(below: seq<int>, owner: seq<int>, place: seq<int>,
                   src: seq<nat>, dst: seq<nat>, f: int, t: int, i: nat)
    requires i < |src| && f != t && |place| == |owner| && src[i] < |below|
    requires Owned(owner, place, src, f) && Owned(owner, place, dst, t)
    requires Linked(below, Reverse<nat>(src[..i]) + dst)
    ensures Linked(below[src[i] := Head(Reverse<nat>(src[..i]) + dst)], Reverse<nat>(src[..i + 1]) + dst)
  {
    var x := src[i];
    var moved := Reverse<nat>(src[..i]) + dst;
    assert x !in moved by {
      NotInMovedPart(owner, place, src, f, i);
      OwnedNotIn(owner, place, dst, t, x);
    }
    var grown := Reverse<nat>(src[..i + 1]) + dst;
    assert grown == [x] + moved by {
      ReversePrefixStep(src, i);
    }
    LinkedPush(below, moved, x);
  }

  lemma RestShrinks(below: seq<int>, owner: seq<int>, place: seq<int>,
                    src: seq<nat>, f: int, i: nat, v: int)
    requires i < |src| && |place| == |owner| && src[i] < |below|
    requires Owned(owner, place, src, f) && Linked(below, src[i..])
    ensures Linked(below[src[i] := v], src[i + 1..])
  {
    LinkedSuffix(below, src[i..], 1);
    assert src[i..][1..] == src[i + 1..];
    PlacedNotIn(owner, place, src, f, i + 1, |src|, src[i]);
    LinkedFrame(below, src[i + 1..], src[i], v);
  }

  /** The batched move links the bottom of the moved block onto the target chain. */
  lemma BatchedStep(below: seq<int>, owner: seq<int>, place: seq<int>,
                    src: seq<nat>, dst: seq<nat>, f: int, t: int, count: nat)
    requires 1 <= count <= |src| && f != t && |place| == |owner|
    requires Owned(owner, place, src, f) && Owned(owner, place, dst, t)
    requires Linked(below, src) && Linked(below, dst)
    ensures var b := below[src[count - 1] := Head(dst)];
      Linked(b, src[..count] + dst) && Linked(b, src[count..])
  {
    var x := src[count - 1];
    var b := below[x := Head(dst)];
    var moved := src[..count] + dst;
    OwnedNotIn(owner, place, dst, t, x);
    PlacedNotIn(owner, place, src, f, count, |src|, x);
    LinkedSuffix(below, src, count);
    LinkedFrame(below, src[count..], x, Head(dst));
    LinkedFrame(below, dst, x, Head(dst));
    forall k | 0 <= k < |moved|
      ensures moved[k] < |b| && b[moved[k]] == Next(moved, k)
    {
      if k < count - 1 {
        assert moved[k] == src[k] && moved[k + 1] == src[k + 1];
        assert place[src[k]] == k;
      } else if k >= count {
        assert moved[k] == dst[k - count];
      }
    }
  }

  /** Where each node sits once `count` nodes have gone from the top of chain `f` to the top of chain `t`. */
  ghost function MovedOwner(owner: seq<int>, place: seq<int>, f: int, t: int, count: nat): (r: seq<int>)
    requires |place| == |owner|
    ensures |r| == |owner|
  {
    seq(|owner|, n requires 0 <= n < |owner| => if owner[n] == f && place[n] < count then t else owner[n])
  }

  /** Places after a move; `reversed` says whether the block is turned over on the way (one by one). */
  ghost function MovedPlace(owner: seq<int>, place: seq<int>, f: int, t: int, count: nat, reversed: bool): (r: seq<int>)
    requires |place| == |owner|
    ensures |r| == |place|
  {
    seq(|place|, n requires 0 <= n < |place| =>
      if owner[n] == f then
        (if place[n] < count then (if reversed then count - 1 - place[n] else place[n]) else place[n] - count)
      else if owner[n] == t then place[n] + count
      else place[n])
  }

  /** The ownership of every chain after a move. */
  lemma OwnedAfterMove(owner: seq<int>, place: seq<int>, src: seq<nat>, dst: seq<nat>,
                       f: int, t: int, count: nat, reversed: bool)
    requires count <= |src| && f != t && |place| == |owner|
    requires Owned(owner, place, src, f) && Owned(owner, place, dst, t)
    ensures var o, p := MovedOwner(owner, place, f, t, count), MovedPlace(owner, place, f, t, count, reversed);
      && Owned(o, p, src[count..], f)
      && Owned(o, p, (if reversed then Reverse<nat>(src[..count]) else src[..count]) + dst, t)
  {
    var o, p := MovedOwner(owner, place, f, t, count), MovedPlace(owner, place, f, t, count, reversed);
    var block := if reversed then Reverse<nat>(src[..count]) else src[..count];
    var moved := block + dst;
    forall k | 0 <= k < |src| - count
      ensures src[count..][k] < |o| && src[count..][k] < |p| && o[src[count..][k]] == f && p[src[count..][k]] == k
    {
      assert src[count..][k] == src[count + k];
    }
    forall k | 0 <= k < |moved|
      ensures moved[k] < |o| && moved[k] < |p| && o[moved[k]] == t && p[moved[k]] == k
    {
      if k < count {
        var j := if reversed then count - 1 - k else k;
        if reversed {
          ReverseIndex(src[..count], k);
        }
        assert moved[k] == src[j];
      } else {
        assert moved[k] == dst[k - count];
      }
    }
  }

  /** Chains other than the two a move touches keep their ownership. */
  lemma OwnedUntouched(owner: seq<int>, place: seq<int>, c: seq<nat>, j: int,
                       f: int, t: int, count: nat, reversed: bool)
    requires |place| == |owner| && j != f && j != t && Owned(owner, place, c, j)
    ensures Owned(MovedOwner(owner, place, f, t, count), MovedPlace(owner, place, f, t, count, reversed), c, j)
  {
  }

  lemma LabelsAppend(value: seq<char>, a: seq<nat>, b: seq<nat>)
    ensures Labels(value, a + b) == Labels(value, a) + Labels(value, b)
  {
  }

  lemma LabelsReverse(value: seq<char>, c: seq<nat>)
    ensures Labels(value, Reverse(c)) == Reverse(Labels(value, c))
  {
    forall k | 0 <= k < |c|
      ensures Labels(value, Reverse(c))[k] == Reverse(Labels(value, c))[k]
    {
      ReverseIndex(c, k);
      ReverseIndex(Labels(value, c), k);
    }
  }

  /** Linking a fresh node `node` under the last node of chain `column`. */
  lemma AppendLinks(below: seq<int>, owner: seq<int>, place: seq<int>, chains: seq<seq<nat>>, column: nat, node: nat)
    requires column < |chains| && node == |below| && |owner| == |below|
    requires forall i | 0 <= i < |chains| :: Linked(below, chains[i])
    requires forall i | 0 <= i < |chains| :: Owned(owner, place, chains[i], i)
    ensures chains[column] != [] ==> Last(chains[column]) < |below|
    ensures var grown := below + [Null];
      var b := if chains[column] == [] then grown else grown[Last(chains[column]) := node];
      && Linked(b, chains[column] + [node])
      && forall i | 0 <= i < |chains| && i != column :: Linked(b, chains[i])
  {
    var c := chains[column];
    var grown := below + [Null];
    var b := if c == [] then grown else grown[Last(c) := node];
    forall i | 0 <= i < |chains|
      ensures Linked(grown, chains[i])
    {
    }
    if c != [] {
      var tail := c[|c| - 1];
      forall i | 0 <= i < |chains| && i != column
        ensures Linked(b, chains[i])
      {
        OwnedNotIn(owner, place, chains[i], i, tail);
        LinkedFrame(grown, chains[i], tail, node);
      }
      forall k | 0 <= k < |c| + 1
        ensures (c + [node])[k] < |b| && b[(c + [node])[k]] == Next(c + [node], k)
      {
        if k < |c| - 1 {
          assert place[c[k]] == k && place[tail] == |c| - 1;
        }
      }
    }
  }

  /** A node added at the end of the arena keeps the ownership of every chain. */
  lemma OwnedExtend(owner: seq<int>, place: seq<int>, c: seq<nat>, i: int, o: int, p: int)
    requires Owned(owner, place, c, i)
    ensures Owned(owner + [o], place + [p], c, i)
  {
  }

  /** Relinking a node of chain `f` leaves every chain other than `f` and `t` linked. */
  lemma LinkedOthers(below: seq<int>, owner: seq<int>, place: seq<int>, chains: seq<seq<nat>>,
                     f: int, t: int, x: nat, v: int)
    requires x < |below| && x < |owner| && owner[x] == f
    requires forall j | 0 <= j < |chains| && j != f && j != t :: Linked(below, chains[j])
    requires forall j | 0 <= j < |chains| :: Owned(owner, place, chains[j], j)
    ensures forall j | 0 <= j < |chains| && j != f && j != t :: Linked(below[x := v], chains[j])
  {
    forall j | 0 <= j < |chains| && j != f && j != t
      ensures Linked(below[x := v], chains[j])
    {
      OwnedNotIn(owner, place, chains[j], j, x);
      LinkedFrame(below, chains[j], x, v);
    }
  }

  /** Chains other than `f` and `t` keep their ownership through a move. */
  lemma OwnedOthers(owner: seq<int>, place: seq<int>, chains: seq<seq<nat>>,
                    f: int, t: int, count: nat, reversed: bool)
    requires |place| == |owner|
    requires forall j | 0 <= j < |chains| :: Owned(owner, place, chains[j], j)
    ensures forall j | 0 <= j < |chains| && j != f && j != t ::
      Owned(MovedOwner(owner, place, f, t, count), MovedPlace(owner, place, f, t, count, reversed), chains[j], j)
  {
    forall j | 0 <= j < |chains| && j != f && j != t
      ensures Owned(MovedOwner(owner, place, f, t, count), MovedPlace(owner, place, f, t, count, reversed), chains[j], j)
    {
      OwnedUntouched(owner, place, chains[j], j, f, t, count, reversed);
    }
  }

  /** Moving nodes one by one between chains moves their letters as `Sequential` does. */
  lemma SequentialContents(value: seq<char>, chains: seq<seq<nat>>, f: nat, t: nat, count: nat)
    requires f < |chains| && t < |chains| && f != t && count <= |chains[f]|
    ensures Stacked(value, chains[f := chains[f][count..]][t := Reverse<nat>(chains[f][..count]) + chains[t]])
         == Sequential(Stacked(value, chains), f, t, count)
  {
    var src := chains[f];
    var st := Stacked(value, chains);
    SequentialLaw(st, f, t, count);
    LabelsAppend(value, Reverse<nat>(src[..count]), chains[t]);
    LabelsReverse(value, src[..count]);
    LabelsPrefix(value, src, count);
    LabelsSuffix(value, src, count);
  }

  /** Moving a block of nodes between chains moves their letters as `Batched` does. */
  lemma BatchedContents(value: seq<char>, chains: seq<seq<nat>>, f: nat, t: nat, count: nat)
    requires f < |chains| && t < |chains| && f != t && count <= |chains[f]|
    ensures Stacked(value, chains[f := chains[f][count..]][t := chains[f][..count] + chains[t]])
         == Batched(Stacked(value, chains), f, t, count)
  {
    var src := chains[f];
    var st := Stacked(value, chains);
    BatchedLaw(st, f, t, count);
    LabelsAppend(value, src[..count], chains[t]);
    LabelsPrefix(value, src, count);
    LabelsSuffix(value, src, count);
  }

  lemma LabelsPrefix(value: seq<char>, c: seq<nat>, n: nat)
    requires n <= |c|
    ensures Labels(value, c[..n]) == Labels(value, c)[..n]
  {
  }

  lemma LabelsSuffix(value: seq<char>, c: seq<nat>, n: nat)
    requires n <= |c|
    ensures Labels(value, c[n..]) == Labels(value, c)[n..]
  {
  }
}
