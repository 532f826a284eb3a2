/**
 Module import graphs and the depth-first walk over them.

 `Visit` and `VisitAll` are the pure form of the three `visit_*` functions of module.rs: the state is the
 `visited` and `visiting` sets and the `stack`, plus the order in which modules were completed.
 */
module ImportGraph {
  import opened Prelude

  type Name = string

  /** The modules by name, each with the names it imports, in declaration order. */
  type Graph = map<Name, seq<Name>>

  /** Every imported module is a module of the graph. */
  ghost predicate Closed(g: Graph) {
    forall n, i | n in g && 0 <= i < |g[n]| :: g[n][i] in g
  }

  datatype Walk = Walk(visited: set<Name>, visiting: set<Name>, stack: seq<Name>, order: seq<Name>)

  /** A walk that meets a cycle reports it, having completed some modules before. */
  datatype Outcome = Done(walk: Walk) | Cycle(path: seq<Name>, before: seq<Name>)

  /** The modules a walk has completed, whether or not it went on to meet a cycle. */
  function Completed(r: Outcome): seq<Name> {
    match r
    case Done(w) => w.order
    case Cycle(_, before) => before
  }

  const EMPTY_WALK := Walk({}, {}, [], [])

  function Enter(w: Walk, n: Name): Walk {
    w.(visiting := w.visiting + {n}, stack := w.stack + [n])
  }

  function Leave(w: Walk, n: Name): Walk {
    Walk(w.visited + {n}, w.visiting - {n}, if w.stack == [] then [] else w.stack[..|w.stack| - 1], w.order + [n])
  }

  /** The names the walk has not met; the part of the termination measure that shrinks when a module is entered. */
  ghost function Unmet(g: Graph, w: Walk): set<Name> {
    g.Keys - w.visited - w.visiting
  }

  ghost predicate Grows(g: Graph, w: Walk, w': Walk) {
    && w.visited <= w'.visited && w'.visiting == w.visiting && w'.stack == w.stack && w.order <= w'.order
    && Unmet(g, w') <= Unmet(g, w)
  }

  function Visit(g: Graph, n: Name, w: Walk): (r: Outcome)
    requires Closed(g) && n in g
    ensures r.Done? ==> Grows(g, w, r.walk)
    ensures w.order <= Completed(r)
    decreases Unmet(g, w), 0
  {
    if n in w.visited then
      Done(w)
    else if n in w.visiting then
      Cycle(w.stack + [n], w.order)
    else
      assert n in Unmet(g, w) && n !in Unmet(g, Enter(w, n));
      var r := VisitAll(g, g[n], Enter(w, n));
      if r.Cycle? then r else
        assert r.walk.stack == w.stack + [n];
        Done(Leave(r.walk, n))
  }

  function VisitAll(g: Graph, ns: seq<Name>, w: Walk): (r: Outcome)
    requires Closed(g) && forall i | 0 <= i < |ns| :: ns[i] in g
    ensures r.Done? ==> Grows(g, w, r.walk)
    ensures w.order <= Completed(r)
    decreases Unmet(g, w), 1 + |ns|
  {
    if ns == [] then
      Done(w)
    else
      var r := Visit(g, ns[0], w);
      if r.Cycle? then r else VisitAll(g, ns[1..], r.walk)
  }

  // ---------------------------------------------------------------- walks through the graph

  /** A walk along imports: each module imports the next. */
  ghost predicate IsWalk(g: Graph, p: seq<Name>) {
    && |p| > 0
    && (forall i | 0 <= i < |p| :: p[i] in g)
    && (forall i | 0 <= i < |p| - 1 :: p[i + 1] in g[p[i]])
  }

  ghost predicate WalkFromTo(g: Graph, p: seq<Name>, a: Name, b: Name) {
    IsWalk(g, p) && p[0] == a && p[|p| - 1] == b
  }

  ghost predicate Reaches(g: Graph, a: Name, b: Name) {
    exists p :: WalkFromTo(g, p, a, b)
  }

  /** A walk from `root` whose last module already occurred earlier in it. */
  ghost predicate IsCycleFrom(g: Graph, root: Name, p: seq<Name>) {
    IsWalk(g, p) && p[0] == root && exists i :: 0 <= i < |p| - 1 && p[i] == p[|p| - 1]
  }

  ghost predicate HasCycleFrom(g: Graph, root: Name) {
    exists p :: IsCycleFrom(g, root, p)
  }

  lemma {:induction false} ReachesThroughImport(g: Graph, a: Name, m: Name, b: Name)
    requires a in g && m in g[a] && Reaches(g, m, b)
    ensures Reaches(g, a, b)
  {
    var p :| WalkFromTo(g, p, m, b);
    assert WalkFromTo(g, [a] + p, a, b);
  }

  // ---------------------------------------------------------------- the invariant of the walk

  /** Every import of a completed module was completed before it. */
  ghost predicate ImportsFirst(g: Graph, order: seq<Name>) {
    forall i | 0 <= i < |order| :: order[i] in g && forall m | m in g[order[i]] :: m in order[..i]
  }

  ghost predicate Inv(g: Graph, w: Walk) {
    && w.visited !! w.visiting
    && Distinct(w.stack) && Elems(w.stack) == w.visiting
    && (w.stack != [] ==> IsWalk(g, w.stack))
    && Distinct(w.order) && Elems(w.order) == w.visited
    && ImportsFirst(g, w.order)
  }

  /** The module being visited is imported by the one on top of the stack. */
  ghost predicate ImportedByTop(g: Graph, w: Walk, n: Name) {
    w.stack != [] ==> w.stack[|w.stack| - 1] in g && n in g[w.stack[|w.stack| - 1]]
  }

  /** What a visit started in `w` on behalf of module `from` may produce. */
  ghost predicate GoodOutcome(g: Graph, from: Name, w: Walk, r: Outcome) {
    match r
    case Done(w') =>
      && Inv(g, w') && w.order <= w'.order
      && (forall x | x in w'.visited && x !in w.visited :: Reaches(g, from, x))
    case Cycle(p, _) =>
      && IsWalk(g, p) && w.stack <= p && |w.stack| < |p|
      && (exists i :: 0 <= i < |p| - 1 && p[i] == p[|p| - 1])
      && Distinct(p[..|p| - 1])
  }

  lemma {:induction false} EnterKeepsInv(g: Graph, n: Name, w: Walk)
    requires n in g && Inv(g, w) && ImportedByTop(g, w, n) && n !in w.visited && n !in w.visiting
    ensures Inv(g, Enter(w, n))
  {
    assert n !in w.stack;
    assert Elems(w.stack + [n]) == w.visiting + {n};
  }

  lemma {:induction false} PopTop(stack: seq<Name>, n: Name)
    requires Distinct(stack) && stack != [] && stack[|stack| - 1] == n
    ensures Elems(stack[..|stack| - 1]) == Elems(stack) - {n}
  {
    var s := stack[..|stack| - 1];
    assert stack == s + [n];
    forall x
      ensures x in s <==> x in stack && x != n
    {
      if x in s {
        var i :| 0 <= i < |s| && s[i] == x;
        assert stack[i] != stack[|stack| - 1];
      }
    }
  }

  lemma {:induction false} CompleteNext(g: Graph, order: seq<Name>, n: Name)
    requires n in g && n !in order && Distinct(order) && ImportsFirst(g, order)
    requires forall m | m in g[n] :: m in order
    ensures Distinct(order + [n]) && Elems(order + [n]) == Elems(order) + {n} && ImportsFirst(g, order + [n])
  {
    var order' := order + [n];
    forall i | 0 <= i < |order'|
      ensures order'[i] in g && forall m | m in g[order'[i]] :: m in order'[..i]
    {
      if i < |order| {
        assert order'[..i] == order[..i];
      } else {
        assert order'[..i] == order;
      }
    }
  }

  lemma {:induction false} LeaveKeepsInv(g: Graph, n: Name, w: Walk)
    requires n in g && Inv(g, w) && w.stack != [] && w.stack[|w.stack| - 1] == n
    requires forall m | m in g[n] :: m in w.visited
    ensures Inv(g, Leave(w, n))
  {
    assert n in Elems(w.stack);
    assert n !in Elems(w.order);
    PopTop(w.stack, n);
    CompleteNext(g, w.order, n);
  }

  lemma {:induction false} ClosingTheCycle(g: Graph, n: Name, w: Walk)
    requires n in g && Inv(g, w) && ImportedByTop(g, w, n) && n in w.visiting
    ensures GoodOutcome(g, n, w, Cycle(w.stack + [n], w.order))
  {
    var p := w.stack + [n];
    assert n in Elems(w.stack);
    var i :| 0 <= i < |w.stack| && w.stack[i] == n;
    assert p[i] == p[|p| - 1];
    assert p[..|p| - 1] == w.stack;
  }

  /** From the imports of `n` done to `n` done. */
  lemma {:induction false} CompletingIsGood(g: Graph, n: Name, w: Walk, r: Walk)
    requires n in g && Inv(g, w) && n !in w.visited && n !in w.visiting
    requires GoodOutcome(g, n, Enter(w, n), Done(r)) && Grows(g, Enter(w, n), r)
    requires AllVisited(g[n], r)
    ensures GoodOutcome(g, n, w, Done(Leave(r, n)))
  {
    LeaveKeepsInv(g, n, r);
    assert WalkFromTo(g, [n], n, n);
  }

  lemma {:induction false} VisitIsGood(g: Graph, n: Name, w: Walk)
    requires Closed(g) && n in g && Inv(g, w) && ImportedByTop(g, w, n)
    ensures GoodOutcome(g, n, w, Visit(g, n, w))
    ensures Visit(g, n, w).Done? ==> n in Visit(g, n, w).walk.visited
    decreases Unmet(g, w), 0
  {
    if n in w.visited {
    } else if n in w.visiting {
      ClosingTheCycle(g, n, w);
    } else {
      assert n in Unmet(g, w) && n !in Unmet(g, Enter(w, n));
      EnterKeepsInv(g, n, w);
      VisitAllIsGood(g, n, g[n], Enter(w, n));
      var r := VisitAll(g, g[n], Enter(w, n));
      if r.Done? {
        CompletingIsGood(g, n, w, r.walk);
      }
    }
  }

  ghost predicate AreImports(g: Graph, from: Name, ns: seq<Name>) {
    from in g && forall i | 0 <= i < |ns| :: ns[i] in g && ns[i] in g[from]
  }

  ghost predicate AllVisited(ns: seq<Name>, w: Walk) {
    forall i | 0 <= i < |ns| :: ns[i] in w.visited
  }

  lemma {:induction false} AllVisitedCons(ns: seq<Name>, w: Walk)
    requires ns != [] && ns[0] in w.visited && AllVisited(ns[1..], w)
    ensures AllVisited(ns, w)
  {
    forall i | 0 <= i < |ns|
      ensures ns[i] in w.visited
    {
      assert i == 0 || ns[i] == ns[1..][i - 1];
    }
  }

  lemma {:induction false} VisitAllIsGood(g: Graph, from: Name, ns: seq<Name>, w: Walk)
    requires Closed(g) && Inv(g, w) && AreImports(g, from, ns)
    requires w.stack != [] && w.stack[|w.stack| - 1] == from
    ensures GoodOutcome(g, from, w, VisitAll(g, ns, w))
    ensures VisitAll(g, ns, w).Done? ==> AllVisited(ns, VisitAll(g, ns, w).walk)
    decreases Unmet(g, w), 1 + |ns|
  {
    if ns != [] {
      assert ns[0] in g && ns[0] in g[from];
      VisitIsGood(g, ns[0], w);
      var r := Visit(g, ns[0], w);
      if r.Done? {
        assert AreImports(g, from, ns[1..]) && Unmet(g, r.walk) <= Unmet(g, w);
        VisitAllIsGood(g, from, ns[1..], r.walk);
        var r' := VisitAll(g, ns[1..], r.walk);
        ThenGood(g, from, ns[0], w, r.walk, r');
        if r'.Done? {
          AllVisitedCons(ns, r'.walk);
        }
      }
    }
  }

  /** A good visit of an import, then a good visit of the others. */
  lemma {:induction false} ThenGood(g: Graph, from: Name, m: Name, w: Walk, w1: Walk, r: Outcome)
    requires from in g && m in g[from] && Grows(g, w, w1)
    requires GoodOutcome(g, m, w, Done(w1)) && GoodOutcome(g, from, w1, r)
    ensures GoodOutcome(g, from, w, r)
  {
    if r.Done? {
      forall x | x in r.walk.visited && x !in w.visited
        ensures Reaches(g, from, x)
      {
        if x in w1.visited {
          ReachesThroughImport(g, from, m, x);
        }
      }
    }
  }

  // ---------------------------------------------------------------- main results

  /** The walk from a root, as the three `collect_*`/`initialize_*` entry points start it. */
  function WalkFrom(g: Graph, root: Name): Outcome
    requires Closed(g) && root in g
  {
    Visit(g, root, EMPTY_WALK)
  }

  /** Along a walk that starts at a completed module, everything else was completed earlier. */
  lemma {:induction false} WalkDescends(g: Graph, order: seq<Name>, i: nat, p: seq<Name>)
    requires ImportsFirst(g, order) && i < |order| && IsWalk(g, p) && p[0] == order[i]
    ensures forall k | 0 < k < |p| :: p[k] in order[..i]
  {
    if |p| > 1 {
      assert p[1] in g[p[0]];
      var j :| 0 <= j < i && order[..i][j] == p[1];
      WalkDescends(g, order, j, p[1..]);
      forall k | 0 < k < |p|
        ensures p[k] in order[..i]
      {
        if k > 1 {
          assert p[k] == p[1..][k - 1];
          assert order[..j] <= order[..i];
        }
      }
    }
  }

  lemma {:induction false} CompletedHasNoCycle(g: Graph, order: seq<Name>, p: seq<Name>)
    requires ImportsFirst(g, order) && Distinct(order) && IsWalk(g, p) && p[0] in order
    ensures !exists i :: 0 <= i < |p| - 1 && p[i] == p[|p| - 1]
  {
    if i :| 0 <= i < |p| - 1 && p[i] == p[|p| - 1] {
      var r :| 0 <= r < |order| && order[r] == p[0];
      WalkDescends(g, order, r, p);
      assert p[i] in order;
      var k :| 0 <= k < |order| && order[k] == p[i];
      WalkDescends(g, order, k, p[i..]);
    }
  }

  /** The walk succeeds exactly when no import cycle can be reached from the root. */
  lemma {:induction false} WalkSucceedsIffNoCycle(g: Graph, root: Name)
    requires Closed(g) && root in g
    ensures WalkFrom(g, root).Done? <==> !HasCycleFrom(g, root)
  {
    VisitIsGood(g, root, EMPTY_WALK);
    var r := WalkFrom(g, root);
    match r {
      case Done(w) =>
        forall p | IsWalk(g, p) && p[0] == root
          ensures !IsCycleFrom(g, root, p)
        {
          CompletedHasNoCycle(g, w.order, p);
        }
      case Cycle(p, _) =>
        CycleStartsAtRoot(g, root);
        assert IsCycleFrom(g, root, p);
    }
  }

  /**
   A reported cycle is a real walk from the root; it is duplicate-free up to its last name, which repeats an earlier
   one.
   */
  lemma {:induction false} CycleStartsAtRoot(g: Graph, root: Name)
    requires Closed(g) && root in g && WalkFrom(g, root).Cycle?
    ensures IsCycleFrom(g, root, WalkFrom(g, root).path)
    ensures Distinct(WalkFrom(g, root).path[..|WalkFrom(g, root).path| - 1])
  {
    var w := Enter(EMPTY_WALK, root);
    assert root in Unmet(g, EMPTY_WALK);
    EnterKeepsInv(g, root, EMPTY_WALK);
    VisitAllIsGood(g, root, g[root], w);
    assert w.stack == [root] && w.stack[0] == root;
  }

  /** The completed modules are exactly the reachable ones, each once, after everything they import, the root last. */
  lemma {:induction false} OrderIsTopological(g: Graph, root: Name)
    requires Closed(g) && root in g && WalkFrom(g, root).Done?
    ensures var order := WalkFrom(g, root).walk.order;
      && Distinct(order)
      && (forall x :: x in order <==> Reaches(g, root, x))
      && (forall i, x | 0 <= i < |order| && Reaches(g, order[i], x) && x != order[i] :: x in order[..i])
      && order != [] && order[|order| - 1] == root
  {
    VisitIsGood(g, root, EMPTY_WALK);
    var order := WalkFrom(g, root).walk.order;
    forall i, x | 0 <= i < |order| && Reaches(g, order[i], x) && x != order[i]
      ensures x in order[..i]
    {
      var p :| WalkFromTo(g, p, order[i], x);
      WalkDescends(g, order, i, p);
    }
    assert root in order;
    forall x | Reaches(g, root, x)
      ensures x in order
    {
      var k :| 0 <= k < |order| && order[k] == root;
      if x != root {
        assert x in order[..k];
      }
    }
    var r := VisitAll(g, g[root], Enter(EMPTY_WALK, root));
    assert order == r.walk.order + [root];
  }

  /** A module's imports, direct or not, are completed at earlier positions. */
  lemma {:induction false} ImportedEarlier(g: Graph, root: Name, importer: Name, imported: Name) returns (i: nat,
      j: nat)
    requires Closed(g) && root in g && WalkFrom(g, root).Done?
    requires Reaches(g, root, importer) && Reaches(g, importer, imported) && imported != importer
    ensures var order := WalkFrom(g, root).walk.order;
      && i < j < |order| && order[i] == imported && order[j] == importer
      && forall n | n in order :: n in g
  {
    var order := WalkFrom(g, root).walk.order;
    NewlyCompletedInGraph(g, root, EMPTY_WALK);
    assert importer in order by {
      OrderIsTopological(g, root);
    }
    j :| 0 <= j < |order| && order[j] == importer;
    assert imported in order[..j] by {
      OrderIsTopological(g, root);
    }
    i :| 0 <= i < j && order[..j][i] == imported;
  }

  /** What a list of imports adds to the completed modules can be reached from one of them. */
  lemma {:induction false} VisitAllReaches(g: Graph, from: Name, ns: seq<Name>, w: Walk, x: Name) returns (k: nat)
    requires Closed(g) && Inv(g, w) && AreImports(g, from, ns)
    requires w.stack != [] && w.stack[|w.stack| - 1] == from
    requires VisitAll(g, ns, w).Done? && x in VisitAll(g, ns, w).walk.visited && x !in w.visited
    ensures k < |ns| && Reaches(g, ns[k], x)
    decreases |ns|
  {
    assert ns[0] in g && ns[0] in g[from];
    VisitIsGood(g, ns[0], w);
    var w1 := Visit(g, ns[0], w).walk;
    if x in w1.visited {
      k := 0;
    } else {
      k := VisitAllReaches(g, from, ns[1..], w1, x);
      k := k + 1;
    }
  }

  lemma {:induction false} VisitAllPrefix(g: Graph, ns: seq<Name>, w: Walk, i: nat)
    requires Closed(g) && (forall j | 0 <= j < |ns| :: ns[j] in g) && i <= |ns| && VisitAll(g, ns, w).Done?
    ensures VisitAll(g, ns[..i], w).Done? && VisitAll(g, ns[..i], w).walk.order <= VisitAll(g, ns, w).walk.order
    decreases i
  {
    if i > 0 {
      var w1 := Visit(g, ns[0], w).walk;
      VisitAllPrefix(g, ns[1..], w1, i - 1);
      assert ns[..i][1..] == ns[1..][..i - 1];
    }
  }

  lemma {:induction false} LaterInExtension(before: seq<Name>, after: seq<Name>, x: Name, y: Name)
      returns (p: nat, q: nat)
    requires before <= after && x in before && y in after && y !in before
    ensures p < q < |after| && after[p] == x && after[q] == y
  {
    p :| 0 <= p < |before| && before[p] == x;
    q :| 0 <= q < |after| && after[q] == y;
  }

  lemma {:induction false} EarlierInList(g: Graph, from: Name, ns: seq<Name>, w: Walk, i: nat, j: nat)
      returns (p: nat, q: nat)
    requires Closed(g) && Inv(g, w) && AreImports(g, from, ns) && VisitAll(g, ns, w).Done?
    requires w.stack != [] && w.stack[|w.stack| - 1] == from
    requires i < j < |ns| && ns[j] !in w.visited && forall k | 0 <= k <= i :: !Reaches(g, ns[k], ns[j])
    ensures var order := VisitAll(g, ns, w).walk.order; p < q < |order| && order[p] == ns[i] && order[q] == ns[j]
  {
    var head := ns[..i + 1];
    VisitAllPrefix(g, ns, w, i + 1);
    VisitAllIsGood(g, from, head, w);
    VisitAllIsGood(g, from, ns, w);
    var w1, w2 := VisitAll(g, head, w).walk, VisitAll(g, ns, w).walk;
    assert head[i] == ns[i];
    if ns[j] in w1.visited {
      var k := VisitAllReaches(g, from, head, w, ns[j]);
      assert false;
    }
    assert ns[i] in Elems(w1.order) && ns[j] in Elems(w2.order) && ns[j] !in Elems(w1.order);
    p, q := LaterInExtension(w1.order, w2.order, ns[i], ns[j]);
  }

  /** The root's imports are completed in the order of their declaration, unless an earlier one needs a later one. */
  lemma {:induction false} DeclaredEarlier(g: Graph, root: Name, i: nat, j: nat) returns (p: nat, q: nat)
    requires Closed(g) && root in g && WalkFrom(g, root).Done? && i < j < |g[root]|
    requires forall k | 0 <= k <= i :: !Reaches(g, g[root][k], g[root][j])
    ensures var order := WalkFrom(g, root).walk.order;
      p < q < |order| && order[p] == g[root][i] && order[q] == g[root][j]
  {
    EnterKeepsInv(g, root, EMPTY_WALK);
    assert root in Unmet(g, EMPTY_WALK);
    p, q := EarlierInList(g, root, g[root], Enter(EMPTY_WALK, root), i, j);
  }

  lemma {:induction false} NewlyCompletedInGraph(g: Graph, n: Name, w: Walk)
    requires Closed(g) && n in g
    ensures forall x | x in Completed(Visit(g, n, w))[|w.order|..] :: x in g
    decreases Unmet(g, w), 0
  {
    if n !in w.visited && n !in w.visiting {
      assert n in Unmet(g, w) && n !in Unmet(g, Enter(w, n));
      AllNewlyCompletedInGraph(g, g[n], Enter(w, n));
    }
  }

  lemma {:induction false} AllNewlyCompletedInGraph(g: Graph, ns: seq<Name>, w: Walk)
    requires Closed(g) && forall i | 0 <= i < |ns| :: ns[i] in g
    ensures forall x | x in Completed(VisitAll(g, ns, w))[|w.order|..] :: x in g
    decreases Unmet(g, w), 1 + |ns|
  {
    if ns != [] {
      NewlyCompletedInGraph(g, ns[0], w);
      var r := Visit(g, ns[0], w);
      if r.Done? {
        AllNewlyCompletedInGraph(g, ns[1..], r.walk);
        NewlyCompletedAppend(w.order, r.walk.order, Completed(VisitAll(g, ns[1..], r.walk)));
      }
    }
  }

  lemma {:induction false} NewlyCompletedAppend(o: seq<Name>, o1: seq<Name>, o2: seq<Name>)
    requires o <= o1 <= o2
    ensures o2[|o|..] == o1[|o|..] + o2[|o1|..]
  {
  }

  // ---------------------------------------------------------------- the reference order

  /** `rank` certifies that the modules it covers import only lower-ranked modules it covers. */
  ghost predicate Ranked(g: Graph, rank: map<Name, nat>) {
    forall n | n in rank :: n in g && forall m | m in g[n] :: m in rank && rank[m] < rank[n]
  }

  /** The import tree below `n` written out in full, in post-order, repeating shared imports. */
  ghost function Unfold(g: Graph, rank: map<Name, nat>, n: Name): seq<Name>
    requires Ranked(g, rank) && n in rank
    decreases rank[n], 1 + |g[n]|
  {
    UnfoldAll(g, rank, g[n], rank[n]) + [n]
  }

  ghost function UnfoldAll(g: Graph, rank: map<Name, nat>, ns: seq<Name>, bound: nat): seq<Name>
    requires Ranked(g, rank) && forall m | m in ns :: m in rank && rank[m] < bound
    decreases bound, |ns|
  {
    if ns == [] then [] else Unfold(g, rank, ns[0]) + UnfoldAll(g, rank, ns[1..], bound)
  }

  ghost function PostOrder(g: Graph, rank: map<Name, nat>, root: Name): seq<Name>
    requires Ranked(g, rank) && root in rank
  {
    AddNew([], Unfold(g, rank, root))
  }

  lemma {:induction false} AddNewAppend(acc: seq<Name>, a: seq<Name>, b: seq<Name>)
    ensures AddNew(acc, a + b) == AddNew(AddNew(acc, a), b)
    decreases |a|
  {
    if a == [] {
      assert a + b == b;
    } else {
      assert (a + b)[1..] == a[1..] + b;
      AddNewAppend(if a[0] in acc then acc else acc + [a[0]], a[1..], b);
    }
  }

  lemma {:induction false} AddNewKnown(acc: seq<Name>, s: seq<Name>)
    requires forall x | x in s :: x in acc
    ensures AddNew(acc, s) == acc
    decreases |s|
  {
    if s != [] {
      AddNewKnown(acc, s[1..]);
    }
  }

  lemma {:induction false} UnfoldStaysCompleted(g: Graph, rank: map<Name, nat>, n: Name, order: seq<Name>)
    requires Ranked(g, rank) && n in rank && ImportsFirst(g, order) && n in order
    ensures forall x | x in Unfold(g, rank, n) :: x in order
    decreases rank[n], 1 + |g[n]|
  {
    var i :| 0 <= i < |order| && order[i] == n;
    UnfoldAllStaysCompleted(g, rank, g[n], rank[n], order);
  }

  lemma {:induction false} UnfoldAllStaysCompleted(g: Graph, rank: map<Name, nat>, ns: seq<Name>, bound: nat,
      order: seq<Name>)
    requires Ranked(g, rank) && forall m | m in ns :: m in rank && rank[m] < bound && m in order
    requires ImportsFirst(g, order)
    ensures forall x | x in UnfoldAll(g, rank, ns, bound) :: x in order
    decreases bound, |ns|
  {
    if ns != [] {
      UnfoldStaysCompleted(g, rank, ns[0], order);
      UnfoldAllStaysCompleted(g, rank, ns[1..], bound, order);
    }
  }

  /** Nothing ranked at or below `bound` is being visited. */
  ghost predicate Above(rank: map<Name, nat>, w: Walk, bound: nat) {
    forall v | v in w.visiting && v in rank :: rank[v] >= bound
  }

  lemma {:induction false} VisitAddsUnfold(g: Graph, rank: map<Name, nat>, n: Name, w: Walk)
    requires Closed(g) && Ranked(g, rank) && n in rank && Inv(g, w) && ImportedByTop(g, w, n)
    requires Above(rank, w, rank[n] + 1)
    ensures Visit(g, n, w).Done? && Visit(g, n, w).walk.order == AddNew(w.order, Unfold(g, rank, n))
    decreases rank[n], 1 + |g[n]|
  {
    VisitIsGood(g, n, w);
    if n in w.visited {
      UnfoldStaysCompleted(g, rank, n, w.order);
      AddNewKnown(w.order, Unfold(g, rank, n));
    } else {
      EnterKeepsInv(g, n, w);
      VisitAllAddsUnfold(g, rank, n, g[n], rank[n], Enter(w, n));
      EnteredIsNotCompleted(g, n, w);
      AddNewAppend(w.order, UnfoldAll(g, rank, g[n], rank[n]), [n]);
      AddNewOne(VisitAll(g, g[n], Enter(w, n)).walk.order, n);
    }
  }

  lemma {:induction false} AddNewOne(acc: seq<Name>, n: Name)
    requires n !in acc
    ensures AddNew(acc, [n]) == acc + [n]
  {
    assert AddNew(acc, [n]) == AddNew(acc + [n], []);
  }

  lemma {:induction false} EnteredIsNotCompleted(g: Graph, n: Name, w: Walk)
    requires Closed(g) && n in g && Inv(g, Enter(w, n)) && VisitAll(g, g[n], Enter(w, n)).Done?
    ensures n !in VisitAll(g, g[n], Enter(w, n)).walk.order
  {
    VisitAllIsGood(g, n, g[n], Enter(w, n));
    var r := VisitAll(g, g[n], Enter(w, n)).walk;
    assert n in r.visiting && n !in Elems(r.order);
  }

  lemma {:induction false} VisitAllAddsUnfold(g: Graph, rank: map<Name, nat>, from: Name, ns: seq<Name>, bound: nat,
      w: Walk)
    requires Closed(g) && Ranked(g, rank) && from in g && Inv(g, w)
    requires forall m | m in ns :: m in rank && rank[m] < bound && m in g[from]
    requires w.stack != [] && w.stack[|w.stack| - 1] == from
    requires Above(rank, w, bound)
    ensures VisitAll(g, ns, w).Done? && VisitAll(g, ns, w).walk.order == AddNew(w.order, UnfoldAll(g, rank, ns, bound))
    decreases bound, |ns|
  {
    if ns != [] {
      VisitAddsUnfold(g, rank, ns[0], w);
      VisitIsGood(g, ns[0], w);
      var w' := Visit(g, ns[0], w).walk;
      VisitAllAddsUnfold(g, rank, from, ns[1..], bound, w');
      AddNewAppend(w.order, Unfold(g, rank, ns[0]), UnfoldAll(g, rank, ns[1..], bound));
    }
  }

  /**
   Whatever ranks witness acyclicity, the walk completes the modules in the one post-order of the unfolded import
   tree.
   */
  lemma {:induction false} WalkIsPostOrder(g: Graph, rank: map<Name, nat>, root: Name)
    requires Closed(g) && Ranked(g, rank) && root in rank
    ensures WalkFrom(g, root).Done? && WalkFrom(g, root).walk.order == PostOrder(g, rank, root)
  {
    VisitAddsUnfold(g, rank, root, EMPTY_WALK);
  }

  /** Such ranks exist exactly when no cycle can be reached. */
  lemma {:induction false} RankedIffNoCycle(g: Graph, root: Name)
    requires Closed(g) && root in g
    ensures (exists rank :: Ranked(g, rank) && root in rank) <==> !HasCycleFrom(g, root)
  {
    WalkSucceedsIffNoCycle(g, root);
    if rank :| Ranked(g, rank) && root in rank {
      WalkIsPostOrder(g, rank, root);
    }
    if WalkFrom(g, root).Done? {
      VisitIsGood(g, root, EMPTY_WALK);
      var rank := Positions(WalkFrom(g, root).walk.order);
      assert Ranked(g, rank) && root in rank;
    }
  }

  ghost function Positions(order: seq<Name>): (rank: map<Name, nat>)
    requires Distinct(order)
    ensures rank.Keys == Elems(order)
    ensures forall i | 0 <= i < |order| :: rank[order[i]] == i
  {
    map x | x in order :: Position(order, x)
  }

  ghost function Position(order: seq<Name>, x: Name): (i: nat)
    requires x in order
    ensures i < |order| && order[i] == x
  {
    var i :| 0 <= i < |order| && order[i] == x;
    i
  }
}
