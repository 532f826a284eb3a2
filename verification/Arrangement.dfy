/** Lists made of one block per module: the blocks of the modules reachable from a root, in the order of the walk. */
module Arrangement {
  import opened Prelude
  import opened ImportGraph

  /** What each module contributes to a list. */
  type Blocks<T> = map<Name, seq<T>>

  ghost predicate StandsAt<T>(list: seq<T>, k: int, block: seq<T>) {
    0 <= k && k + |block| <= |list| && forall p | k <= p < k + |block| :: list[p] == block[p - k]
  }

  ghost predicate StandsBackwardsAt<T>(list: seq<T>, k: int, block: seq<T>) {
    0 <= k && k + |block| <= |list| && forall p | k <= p < k + |block| :: list[p] == block[k + |block| - 1 - p]
  }

  ghost predicate Stands<T>(list: seq<T>, k: int, block: seq<T>, backwards: bool) {
    if backwards then StandsBackwardsAt(list, k, block) else StandsAt(list, k, block)
  }

  /** The block of `m` ends before that of `n` starts. */
  ghost predicate Precedes<T>(blocks: Blocks<T>, start: map<Name, int>, m: Name, n: Name)
    requires m in blocks && n in blocks && m in start && n in start
  {
    start[m] + |blocks[m]| <= start[n]
  }

  /** The given modules each have one block in the list, no two overlap, and nothing else is in it. */
  ghost predicate Tiles<T>(blocks: Blocks<T>, list: seq<T>, start: map<Name, int>, backwards: bool) {
    && (forall n | n in start :: n in blocks && Stands(list, start[n], blocks[n], backwards))
    && (forall m, n | m in start && n in start && m != n ::
      Precedes(blocks, start, m, n) || Precedes(blocks, start, n, m))
    && (forall p | 0 <= p < |list| :: IsWithin(blocks, start, p))
  }

  ghost predicate IsWithin<T>(blocks: Blocks<T>, start: map<Name, int>, p: int)
    requires forall n | n in start :: n in blocks
  {
    exists n :: n in start && start[n] <= p < start[n] + |blocks[n]|
  }

  ghost predicate AreReachable(g: Graph, root: Name, start: map<Name, int>) {
    forall n :: n in start <==> Reaches(g, root, n)
  }

  /** What a module imports, directly or not, has its block before the module's own, or after it. */
  ghost predicate ImportsPrecede<T>(g: Graph, blocks: Blocks<T>, start: map<Name, int>)
    requires forall n | n in start :: n in blocks
  {
    forall m, n | m in start && n in start && m != n && Reaches(g, m, n) :: Precedes(blocks, start, n, m)
  }

  ghost predicate ImportersPrecede<T>(g: Graph, blocks: Blocks<T>, start: map<Name, int>)
    requires forall n | n in start :: n in blocks
  {
    forall m, n | m in start && n in start && m != n && Reaches(g, m, n) :: Precedes(blocks, start, m, n)
  }

  /** The list consists of one block of each module reachable from the root, imports first. */
  ghost predicate ImportedFirst<T>(g: Graph, root: Name, blocks: Blocks<T>, list: seq<T>) {
    exists start: map<Name, int> ::
      Tiles(blocks, list, start, false) && AreReachable(g, root, start) && ImportsPrecede(g, blocks, start)
  }

  /** The same with every block backwards and importers first. */
  ghost predicate ImportersFirst<T>(g: Graph, root: Name, blocks: Blocks<T>, list: seq<T>) {
    exists start: map<Name, int> ::
      Tiles(blocks, list, start, true) && AreReachable(g, root, start) && ImportersPrecede(g, blocks, start)
  }

  // ---------------------------------------------------------------- gathering in the order of the walk

  ghost function Gather<T>(blocks: Blocks<T>, order: seq<Name>): seq<T>
    requires forall n | n in order :: n in blocks
  {
    if order == [] then [] else Gather(blocks, order[..|order| - 1]) + blocks[order[|order| - 1]]
  }

  lemma {:induction false} GatherSnoc<T>(blocks: Blocks<T>, order: seq<Name>, n: Name)
    requires (forall x | x in order :: x in blocks) && n in blocks
    ensures Gather(blocks, order + [n]) == Gather(blocks, order) + blocks[n]
  {
    assert (order + [n])[..|order|] == order;
  }

  /** Where the block of the i-th module starts. */
  ghost function StartOf<T>(blocks: Blocks<T>, order: seq<Name>, i: nat): nat
    requires (forall n | n in order :: n in blocks) && i <= |order|
  {
    |Gather(blocks, order[..i])|
  }

  lemma {:induction false} GatheredPrefix<T>(blocks: Blocks<T>, order: seq<Name>, i: nat)
    requires (forall n | n in order :: n in blocks) && i <= |order|
    ensures Gather(blocks, order[..i]) <= Gather(blocks, order)
    decreases |order| - i
  {
    if i == |order| {
      assert order[..i] == order;
    } else {
      GatheredPrefix(blocks, order, i + 1);
      assert order[..i + 1] == order[..i] + [order[i]];
      GatherSnoc(blocks, order[..i], order[i]);
    }
  }

  lemma {:induction false} BlockStands<T>(blocks: Blocks<T>, order: seq<Name>, i: nat)
    requires (forall n | n in order :: n in blocks) && i < |order|
    ensures StandsAt(Gather(blocks, order), StartOf(blocks, order, i), blocks[order[i]])
    ensures StartOf(blocks, order, i + 1) == StartOf(blocks, order, i) + |blocks[order[i]]|
  {
    assert order[..i + 1] == order[..i] + [order[i]];
    GatherSnoc(blocks, order[..i], order[i]);
    GatheredPrefix(blocks, order, i + 1);
  }

  lemma {:induction false} StartsAscend<T>(blocks: Blocks<T>, order: seq<Name>, i: nat, j: nat)
    requires (forall n | n in order :: n in blocks) && i <= j <= |order|
    ensures StartOf(blocks, order, i) <= StartOf(blocks, order, j)
    decreases j - i
  {
    if i < j {
      BlockStands(blocks, order, i);
      StartsAscend(blocks, order, i + 1, j);
    }
  }

  /** Every place of the list is within the block of one of the first `j` modules, up to where the next one starts. */
  lemma {:induction false} WithinSomeBlock<T>(blocks: Blocks<T>, order: seq<Name>, j: nat, p: int) returns (i: nat)
    requires (forall n | n in order :: n in blocks) && j <= |order| && 0 <= p < StartOf(blocks, order, j)
    ensures i < j && StartOf(blocks, order, i) <= p < StartOf(blocks, order, i + 1)
    decreases j
  {
    assert order[..0] == [];
    if p < StartOf(blocks, order, j - 1) {
      i := WithinSomeBlock(blocks, order, j - 1, p);
    } else {
      i := j - 1;
    }
  }

  ghost predicate AreStarts<T>(blocks: Blocks<T>, order: seq<Name>, start: map<Name, int>)
    requires forall n | n in order :: n in blocks
  {
    && (forall n | n in start :: n in order)
    && forall i | 0 <= i < |order| :: order[i] in start && start[order[i]] == StartOf(blocks, order, i)
  }

  ghost function PlaceOf(order: seq<Name>, n: Name): (i: nat)
    requires n in order
    ensures i < |order| && order[i] == n
  {
    var i :| 0 <= i < |order| && order[i] == n;
    i
  }

  ghost function Starts<T>(blocks: Blocks<T>, order: seq<Name>): map<Name, int>
    requires forall n | n in order :: n in blocks
  {
    map n | n in order :: StartOf(blocks, order, PlaceOf(order, n))
  }

  lemma {:induction false} StartsAreStarts<T>(blocks: Blocks<T>, order: seq<Name>)
    requires (forall n | n in order :: n in blocks) && Distinct(order)
    ensures AreStarts(blocks, order, Starts(blocks, order))
  {
    var start := Starts(blocks, order);
    forall i | 0 <= i < |order|
      ensures order[i] in start && start[order[i]] == StartOf(blocks, order, i)
    {
      assert PlaceOf(order, order[i]) == i;
    }
  }

  lemma {:induction false} PlacesPrecede<T>(blocks: Blocks<T>, order: seq<Name>, start: map<Name, int>, i: nat, j: nat)
    requires (forall n | n in order :: n in blocks) && AreStarts(blocks, order, start) && i < j < |order|
    ensures Precedes(blocks, start, order[i], order[j])
  {
    BlockStands(blocks, order, i);
    StartsAscend(blocks, order, i + 1, j);
  }

  lemma {:induction false} GatheredTiles<T>(blocks: Blocks<T>, order: seq<Name>, start: map<Name, int>)
    requires (forall n | n in order :: n in blocks) && AreStarts(blocks, order, start)
    ensures Tiles(blocks, Gather(blocks, order), start, false)
  {
    forall n | n in start
      ensures Stands(Gather(blocks, order), start[n], blocks[n], false)
    {
      BlockStands(blocks, order, PlaceOf(order, n));
    }
    forall m, n | m in start && n in start && m != n
      ensures Precedes(blocks, start, m, n) || Precedes(blocks, start, n, m)
    {
      var i, j := PlaceOf(order, m), PlaceOf(order, n);
      if i < j {
        PlacesPrecede(blocks, order, start, i, j);
      } else {
        PlacesPrecede(blocks, order, start, j, i);
      }
    }
    forall p | 0 <= p < |Gather(blocks, order)|
      ensures IsWithin(blocks, start, p)
    {
      assert order[..|order|] == order;
      var i := WithinSomeBlock(blocks, order, |order|, p);
      BlockStands(blocks, order, i);
      assert order[i] in start;
    }
  }

  /** The starts of the blocks once the list is reversed. */
  ghost function Mirrored<T>(blocks: Blocks<T>, length: nat, start: map<Name, int>): map<Name, int>
    requires forall n | n in start :: n in blocks
  {
    map n | n in start :: length - start[n] - |blocks[n]|
  }

  lemma {:induction false} ReversedTiles<T>(blocks: Blocks<T>, list: seq<T>, start: map<Name, int>)
    requires Tiles(blocks, list, start, false)
    ensures Tiles(blocks, Reverse(list), Mirrored(blocks, |list|, start), true)
    ensures forall m, n | m in start && n in start && Precedes(blocks, start, m, n) ::
      Precedes(blocks, Mirrored(blocks, |list|, start), n, m)
  {
    var back := Mirrored(blocks, |list|, start);
    forall n | n in back
      ensures Stands(Reverse(list), back[n], blocks[n], true)
    {
      assert Stands(list, start[n], blocks[n], false);
    }
    forall m, n | m in back && n in back && m != n
      ensures Precedes(blocks, back, m, n) || Precedes(blocks, back, n, m)
    {
      assert Precedes(blocks, start, m, n) || Precedes(blocks, start, n, m);
    }
    forall p | 0 <= p < |list|
      ensures IsWithin(blocks, back, p)
    {
      assert IsWithin(blocks, start, |list| - 1 - p);
      var n :| n in start && start[n] <= |list| - 1 - p < start[n] + |blocks[n]|;
      assert n in back;
    }
  }

  /** Gathered in the order of the walk, imported modules come first; reversed, importers do. */
  lemma {:induction false} GatheredIsArranged<T>(g: Graph, root: Name, blocks: Blocks<T>)
    requires Closed(g) && root in g && WalkFrom(g, root).Done? && forall n | n in g :: n in blocks
    ensures var order := WalkFrom(g, root).walk.order;
      && (forall n | n in order :: n in blocks)
      && ImportedFirst(g, root, blocks, Gather(blocks, order))
      && ImportersFirst(g, root, blocks, Reverse(Gather(blocks, order)))
  {
    var order := WalkFrom(g, root).walk.order;
    NewlyCompletedInGraph(g, root, EMPTY_WALK);
    OrderIsTopological(g, root);
    var list := Gather(blocks, order);
    var start := Starts(blocks, order);
    StartsAreStarts(blocks, order);
    GatheredTiles(blocks, order, start);
    ReversedTiles(blocks, list, start);
    OrderPrecedes(g, order, blocks, start);
    var back := Mirrored(blocks, |list|, start);
    assert ImportersPrecede(g, blocks, back);
    assert AreReachable(g, root, start) && AreReachable(g, root, back) by {
      forall n
        ensures n in start <==> Reaches(g, root, n)
      {
        assert n in order <==> n in start;
      }
    }
  }

  lemma {:induction false} OrderPrecedes<T>(g: Graph, order: seq<Name>, blocks: Blocks<T>, start: map<Name, int>)
    requires (forall x | x in order :: x in blocks) && AreStarts(blocks, order, start)
    requires forall i, x | 0 <= i < |order| && Reaches(g, order[i], x) && x != order[i] :: x in order[..i]
    ensures ImportsPrecede(g, blocks, start)
  {
    forall m, n | m in start && n in start && m != n && Reaches(g, m, n)
      ensures Precedes(blocks, start, n, m)
    {
      var j := PlaceOf(order, m);
      assert n in order[..j];
      PlacesPrecede(blocks, order, start, PlaceOf(order[..j], n), j);
    }
  }
}
