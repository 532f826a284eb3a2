/** The documentation and introspection walks of module.rs, as methods over mutable walk states. */
module ModuleReports {
  import opened Prelude
  import opened Arrangement
  import opened ImportGraph

  /** The part of a module definition the two reporting walks read. */
  datatype ModuleInfo = ModuleInfo(imports: seq<Name>, routeDocs: seq<string>, exports: seq<string>,
    controllerCount: nat, isGlobal: bool)

  type Modules = map<Name, ModuleInfo>

  datatype Entry = Entry(name: Name, imports: seq<Name>, exports: seq<string>, controllerCount: nat, isGlobal: bool)

  function Imports(modules: Modules): Graph {
    map n | n in modules :: modules[n].imports
  }

  /** Names are unique and every import is one of the modules. */
  ghost predicate WellFormed(modules: Modules) {
    Closed(Imports(modules))
  }

  function EntryOf(modules: Modules, n: Name): Entry
    requires n in modules
  {
    var m := modules[n];
    Entry(n, m.imports, m.exports, m.controllerCount, m.isGlobal)
  }

  ghost function Docs(modules: Modules, order: seq<Name>): seq<string>
    requires forall n | n in order :: n in modules
  {
    if order == [] then [] else Docs(modules, order[..|order| - 1]) + modules[order[|order| - 1]].routeDocs
  }

  ghost function Entries(modules: Modules, order: seq<Name>): seq<Entry>
    requires forall n | n in order :: n in modules
  {
    seq(|order|, i requires 0 <= i < |order| => EntryOf(modules, order[i]))
  }

  class DocumentationGraphState {
    var visited: set<Name>
    var visiting: set<Name>
    var stack: seq<Name>
    var routeDocs: seq<string>
    ghost var order: seq<Name>

    constructor ()
      ensures Abs() == EMPTY_WALK && routeDocs == []
    {
      visited, visiting, stack, routeDocs, order := {}, {}, [], [], [];
    }

    ghost function Abs(): Walk
      reads this
    {
      Walk(visited, visiting, stack, order)
    }

    ghost predicate Valid(modules: Modules)
      reads this
    {
      (forall n | n in order :: n in modules) && routeDocs == Docs(modules, order)
    }
  }

  method VisitModuleDocs(modules: Modules, name: Name,
      state: DocumentationGraphState) returns (cycle: Option<seq<Name>>)
    requires WellFormed(modules) && name in modules && state.Valid(modules)
    modifies state
    ensures Visit(Imports(modules), name, old(state.Abs())) == if cycle.None? then Done(state.Abs())
      else Cycle(cycle.value, state.order)
    ensures cycle.None? ==> state.Valid(modules)
    decreases Unmet(Imports(modules), state.Abs()), 0
  {
    ghost var g := Imports(modules);
    if name in state.visited {
      return None;
    }
    if name in state.visiting {
      return Some(state.stack + [name]);
    }
    state.visiting := state.visiting + {name};
    state.stack := state.stack + [name];
    ghost var entered := state.Abs();
    assert name in Unmet(g, old(state.Abs())) && name !in Unmet(g, entered);

    cycle := VisitImportedDocs(modules, modules[name].imports, state);
    if cycle.Some? {
      return;
    }
    assert state.stack == entered.stack;

    assert (state.order + [name])[..|state.order|] == state.order;
    state.routeDocs := state.routeDocs + modules[name].routeDocs;
    state.stack := state.stack[..|state.stack| - 1];
    state.visiting := state.visiting - {name};
    state.visited := state.visited + {name};
    state.order := state.order + [name];
    return None;
  }

  method VisitImportedDocs(modules: Modules, imports: seq<Name>, state: DocumentationGraphState)
      returns (cycle: Option<seq<Name>>)
    requires WellFormed(modules) && state.Valid(modules) && forall i | 0 <= i < |imports| :: imports[i] in modules
    modifies state
    ensures VisitAll(Imports(modules), imports, old(state.Abs()))
         == if cycle.None? then Done(state.Abs()) else Cycle(cycle.value, state.order)
    ensures cycle.None? ==> state.Valid(modules)
    decreases Unmet(Imports(modules), state.Abs()), 1
  {
    ghost var g, entered := Imports(modules), state.Abs();
    for i := 0 to |imports|
      invariant VisitAll(g, imports, entered) == VisitAll(g, imports[i..], state.Abs())
      invariant Grows(g, entered, state.Abs()) && state.Valid(modules)
    {
      assert imports[i..][0] == imports[i] && imports[i..][1..] == imports[i + 1..];
      cycle := VisitModuleDocs(modules, imports[i], state);
      if cycle.Some? {
        return;
      }
    }
    return None;
  }

  lemma {:induction false} DocsAreGathered(modules: Modules, order: seq<Name>, blocks: Blocks<string>)
    requires (forall n | n in order :: n in modules) && blocks.Keys == modules.Keys
    requires forall n | n in modules :: blocks[n] == modules[n].routeDocs
    ensures Docs(modules, order) == Gather(blocks, order)
    decreases |order|
  {
    if order != [] {
      DocsAreGathered(modules, order[..|order| - 1], blocks);
    }
  }

  /**
   Route docs are collected exactly when no import cycle is reachable; they are the docs of the reachable modules, each
   module's as one block, imported modules first, in the post-order of the import tree.
   */
  method CollectModuleRouteDocs(modules: Modules, root: Name) returns (r: Result<seq<string>, seq<Name>>)
    requires WellFormed(modules) && root in modules
    ensures r.Ok? <==> !HasCycleFrom(Imports(modules), root)
    ensures r.Err? ==> IsCycleFrom(Imports(modules), root, r.error)
    ensures r.Ok? ==> forall rank | Ranked(Imports(modules), rank) && root in rank ::
      var order := PostOrder(Imports(modules), rank, root);
      (forall n | n in order :: n in modules) && r.value == Docs(modules, order)
    ensures r.Ok? ==> ImportedFirst(Imports(modules), root, map n | n in modules :: modules[n].routeDocs, r.value)
  {
    ghost var g := Imports(modules);
    WalkSucceedsIffNoCycle(g, root);
    var state := new DocumentationGraphState();
    var cycle := VisitModuleDocs(modules, root, state);
    if cycle.Some? {
      CycleStartsAtRoot(g, root);
      return Err(cycle.value);
    }
    forall rank | Ranked(g, rank) && root in rank
      ensures PostOrder(g, rank, root) == state.order
    {
      WalkIsPostOrder(g, rank, root);
    }
    ghost var blocks := map n | n in modules :: modules[n].routeDocs;
    DocsAreGathered(modules, state.order, blocks);
    GatheredIsArranged(g, root, blocks);
    return Ok(state.routeDocs);
  }

  class ModuleIntrospectionState {
    var visited: set<Name>
    var visiting: set<Name>
    var stack: seq<Name>
    var modules: seq<Entry>
    ghost var order: seq<Name>

    constructor ()
      ensures Abs() == EMPTY_WALK && modules == []
    {
      visited, visiting, stack, modules, order := {}, {}, [], [], [];
    }

    ghost function Abs(): Walk
      reads this
    {
      Walk(visited, visiting, stack, order)
    }

    ghost predicate Valid(all: Modules)
      reads this
    {
      (forall n | n in order :: n in all) && modules == Entries(all, order)
    }
  }

  method VisitModuleGraph(modules: Modules, name: Name,
      state: ModuleIntrospectionState) returns (cycle: Option<seq<Name>>)
    requires WellFormed(modules) && name in modules && state.Valid(modules)
    modifies state
    ensures Visit(Imports(modules), name, old(state.Abs())) == if cycle.None? then Done(state.Abs())
      else Cycle(cycle.value, state.order)
    ensures cycle.None? ==> state.Valid(modules)
    decreases Unmet(Imports(modules), state.Abs()), 0
  {
    ghost var g := Imports(modules);
    if name in state.visited {
      return None;
    }
    if name in state.visiting {
      return Some(state.stack + [name]);
    }
    state.visiting := state.visiting + {name};
    state.stack := state.stack + [name];
    ghost var entered := state.Abs();
    assert name in Unmet(g, old(state.Abs())) && name !in Unmet(g, entered);

    cycle := VisitImportedGraph(modules, modules[name].imports, state);
    if cycle.Some? {
      return;
    }
    assert state.stack == entered.stack;

    assert Entries(modules, state.order + [name]) == Entries(modules, state.order) + [EntryOf(modules, name)];
    state.modules := state.modules + [EntryOf(modules, name)];
    state.stack := state.stack[..|state.stack| - 1];
    state.visiting := state.visiting - {name};
    state.visited := state.visited + {name};
    state.order := state.order + [name];
    return None;
  }

  method VisitImportedGraph(modules: Modules, imports: seq<Name>, state: ModuleIntrospectionState)
      returns (cycle: Option<seq<Name>>)
    requires WellFormed(modules) && state.Valid(modules) && forall i | 0 <= i < |imports| :: imports[i] in modules
    modifies state
    ensures VisitAll(Imports(modules), imports, old(state.Abs()))
         == if cycle.None? then Done(state.Abs()) else Cycle(cycle.value, state.order)
    ensures cycle.None? ==> state.Valid(modules)
    decreases Unmet(Imports(modules), state.Abs()), 1
  {
    ghost var g, entered := Imports(modules), state.Abs();
    for i := 0 to |imports|
      invariant VisitAll(g, imports, entered) == VisitAll(g, imports[i..], state.Abs())
      invariant Grows(g, entered, state.Abs()) && state.Valid(modules)
    {
      assert imports[i..][0] == imports[i] && imports[i..][1..] == imports[i + 1..];
      cycle := VisitModuleGraph(modules, imports[i], state);
      if cycle.Some? {
        return;
      }
    }
    return None;
  }

  /** A report lists each module reachable from the root once, imports before importers, the root last. */
  ghost predicate IsReport(modules: Modules, root: Name, report: seq<Entry>) {
    var g := Imports(modules);
    && (forall i, j | 0 <= i < j < |report| :: report[i].name != report[j].name)
    && (forall n :: Reaches(g, root, n) <==> Lists(report, n))
    && (forall i | 0 <= i < |report| :: report[i].name in modules && Describes(report[i], modules[report[i].name]))
    && (forall i, n | 0 <= i < |report| && Reaches(g, report[i].name, n) && n != report[i].name ::
      Lists(report[..i], n))
    && report != [] && report[|report| - 1].name == root
  }

  /** The entry repeats what the module declares. */
  ghost predicate Describes(entry: Entry, m: ModuleInfo) {
    && entry.imports == m.imports && entry.exports == m.exports && entry.controllerCount == m.controllerCount
    && entry.isGlobal == m.isGlobal
  }

  ghost predicate Lists(report: seq<Entry>, n: Name) {
    exists i :: 0 <= i < |report| && report[i].name == n
  }

  lemma {:induction false} ListsOrder(modules: Modules, order: seq<Name>, n: Name)
    requires forall x | x in order :: x in modules
    ensures Lists(Entries(modules, order), n) <==> n in order
  {
    var report := Entries(modules, order);
    if n in order {
      var i :| 0 <= i < |order| && order[i] == n;
      assert report[i].name == n;
    }
    if i :| 0 <= i < |report| && report[i].name == n {
      assert order[i] == n;
    }
  }

  lemma {:induction false} OrderIsReport(modules: Modules, root: Name)
    requires WellFormed(modules) && root in modules && WalkFrom(Imports(modules), root).Done?
    requires forall x | x in WalkFrom(Imports(modules), root).walk.order :: x in modules
    ensures IsReport(modules, root, Entries(modules, WalkFrom(Imports(modules), root).walk.order))
  {
    OrderIsTopological(Imports(modules), root);
    EntriesAreReport(modules, root, WalkFrom(Imports(modules), root).walk.order);
  }

  lemma {:induction false} EntriesAreReport(modules: Modules, root: Name, order: seq<Name>)
    requires Distinct(order) && (forall x | x in order :: x in modules)
    requires forall x :: x in order <==> Reaches(Imports(modules), root, x)
    requires forall i, x | 0 <= i < |order| && Reaches(Imports(modules), order[i], x) && x != order[i] ::
      x in order[..i]
    requires order != [] && order[|order| - 1] == root
    ensures IsReport(modules, root, Entries(modules, order))
  {
    var g, report := Imports(modules), Entries(modules, order);
    forall n
      ensures Reaches(g, root, n) <==> Lists(report, n)
    {
      ListsOrder(modules, order, n);
    }
    forall i, n | 0 <= i < |report| && Reaches(g, report[i].name, n) && n != report[i].name
      ensures Lists(report[..i], n)
    {
      assert report[i].name == order[i];
      ListedBefore(modules, order, i, n);
    }
  }

  lemma {:induction false} ListedBefore(modules: Modules, order: seq<Name>, i: nat, n: Name)
    requires (forall x | x in order :: x in modules) && i < |order| && n in order[..i]
    ensures Lists(Entries(modules, order)[..i], n)
  {
    ListsOrder(modules, order[..i], n);
    assert Entries(modules, order)[..i] == Entries(modules, order[..i]);
  }

  /** A report is produced exactly when no import cycle is reachable. */
  method CollectModuleGraph(modules: Modules, root: Name) returns (r: Result<seq<Entry>, seq<Name>>)
    requires WellFormed(modules) && root in modules
    ensures r.Ok? <==> !HasCycleFrom(Imports(modules), root)
    ensures r.Err? ==> IsCycleFrom(Imports(modules), root, r.error)
    ensures r.Ok? ==> IsReport(modules, root, r.value)
  {
    ghost var g := Imports(modules);
    WalkSucceedsIffNoCycle(g, root);
    var state := new ModuleIntrospectionState();
    var cycle := VisitModuleGraph(modules, root, state);
    if cycle.Some? {
      CycleStartsAtRoot(g, root);
      return Err(cycle.value);
    }
    OrderIsReport(modules, root);
    return Ok(state.modules);
  }
}
