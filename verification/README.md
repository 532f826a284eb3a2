# NestForge: models and proofs

NestForge is a web framework in Rust in the manner of NestJS: modules that import one another, a dependency-injection
container, a request pipeline of middleware, guards and interceptors, generated OpenAPI documentation, a response
cache, a migration runner and an in-memory resource store. This project models the algorithms behind these parts and
proves what they promise. Check it with `dafny verify dfyconfig.toml`.

Each part has a pure form, on which the theorems are stated, and, where the source updates state in place, methods
over objects whose contracts tie every new state to the pure form.

| files | part |
|---|---|
| `ImportGraph`, `Arrangement`, `ModuleReports`, `ModuleRuntime`, `ModuleInit` | the depth-first walk over module imports, in its three variants |
| `Resolution`, `DiContainer` | the container, its scopes and its factories |
| `Pipeline`, `PipelineOrder`, `PipelineRuntime`, `RouteMatching`, `RouteGuards` | serving a request through nested layers |
| `YamlPrinter`, `YamlReader`, `BrowserPath`, `SchemaRefs`, `OpenApiDocument`, `SchemaNames` | documentation: YAML, links, references |
| `ResponseCache` | the caching interceptor over its store |
| `Migrations`, `SqlScanner`, `CaseConversion` | the command line's journal, scanner and case conversions |
| `EntityStore`, `ResourceService` | the in-memory store and the service on top of it |
| `Prelude`, `Text` | sequences, optional values, Rust's string operations |

How the parts are modelled:

- **Modules** are named uniquely and form a finite graph. A module's `register` is a list of providers; the walk's
  state is the `visited` and `visiting` sets and the `stack`, and, as ghost state, the order of completion.
- **Factories** are interactive: from the answers so far, a factory asks the container for one more type, returns or
  fails. A `Plan` ranks the types so that factories ask only for lower-ranked ones and stop asking. Types are
  identified by type name. An instance carries the number of its allocation, so that equal numbers mean the same `Arc`.
- **Interceptors and middleware** are interactive too: from the responses `next` has given so far, a link calls `next`
  with any request or replies. It may call `next` many times, up to some bound of its own.
- **Entities, DTOs and serialisation** are JSON values with an arbitrary pair of conversions. The cache's JSON encoding
  is an injective constructor and the content hash a function to non-empty hexadecimal strings.
- **Concurrency** is interleaving: the cache at lookup, handler and store steps; the store at lock granularity, an
  update taking two critical sections; containers at whole operations of different scopes.
- **Text** is sequences of characters; `lines`, `trim`, `split`, `replace` and `is_whitespace` follow Rust.

Where the code does not do what its documentation or an obvious reading promises, the model follows the code, and the
exact condition is proved:

- `execute_pipeline` says that exception filters see failures of the handler. They see rejections by guards only
  (`PipelineOrder.FiltersSeeOnlyRejections`); a failure passes as filtered exactly when the filters would not change it
  (`PipelineOrder.FailurePassesAsFilteredIff`).
- Documentation links are relative to a page path without a trailing slash, and their segments are not percent-encoded.
  A docs path such as `/docs/` is accepted, and on it every link misses; so does a link to a path that holds `?` or `#`,
  and dot segments in a page path are taken for directories (`BrowserPath.LinkResolvesIff`).
- A derived schema is named by the bare identifier of its type, and the first of a name is kept: two types of one
  identifier share the first one's schema (`SchemaNames.OwnSchemasIff`). A type brings no components for its fields, so
  references inside schemas can dangle (`SchemaNames.FieldRefsResolveIff`).
- The YAML printer escapes neither newlines nor keys. Which values survive being read back by lines is
  `YamlReader.DocumentReadsBackIff`.
- The store's next id is the largest plus one in 64 bits. Ids stay distinct exactly while a creation finds room
  (`EntityStore.CreateIsInsertIff`, `ResourceService.IdsStayDistinctIff`); with overflow checks the addition panics instead.
- The id of a deleted entity can be given out again, and an update that was read before the deletion then overwrites the
  new entity (`ResourceService.WriteHitsItsEntityIff`). Updates of one entity that overlap can be lost
  (`ResourceService.UpdateIsAtomicIff`).
- A cache hit keeps the status, the body and a readable content type, and loses every other header
  (`ResponseCache.HitIsAlike`).
- A failed initialisation undoes nothing: the container keeps what was registered before
  (`ModuleInit.InitializeModuleRuntime`).
- A journal without a final line break loses the next migration's name, spoils the hash of the file before it, and lets
  that migration be committed once more (`Migrations.AppendRecordsIff`, `Migrations.SecondRunCommitsAgainIff`); the
  runner itself always leaves a line break.
- Overlapping requests for one URI can all miss the cache; the handler is spared exactly when they do not overlap
  (`ResponseCache.CalledOnceIff`).
- A middleware path made only of slashes, such as `//`, is stored as the empty prefix; it matches what `/` matches
  (`RouteMatching.WrittenRouteMatches`).

## Model

| member | source | states |
|---|---|---|
| `ImportGraph.Visit` | crates/nestforge-core/src/module.rs:537-626 | The walk terminates by the set of names not met yet, then the imports left; on success the sets and the completion order only grow and the stack and `visiting` are as before |
| `ImportGraph.VisitIsGood` | crates/nestforge-core/src/module.rs:546-623 | From a state in which the stack is a duplicate-free import path whose set is `visiting` and every completed module has its imports completed before it, a visit ends in such a state and completes only modules reachable from its argument, or reports a walk that extends the stack and ends in a repeated name |
| `ImportGraph.VisitAllIsGood` | crates/nestforge-core/src/module.rs:569-578 | The same for the loop over a module's imports |
| `ImportGraph.WalkSucceedsIffNoCycle` | crates/nestforge-core/src/module.rs:560-570 | The walk from a root succeeds if and only if no import cycle can be reached from the root |
| `ImportGraph.CycleStartsAtRoot` | crates/nestforge-core/src/module.rs:560-567 | A reported cycle is a real walk along imports from the root whose last name occurred earlier in it, and which repeats no other name |
| `ImportGraph.OrderIsTopological` | crates/nestforge-core/src/module.rs:574-623 | On success the completion order lists exactly the reachable modules, each once, every module after all its transitive imports, the root last |
| `ImportGraph.ImportedEarlier` | crates/nestforge-core/src/module.rs:574-623 | A transitive import stands at an earlier position of the completion order than its importer |
| `ImportGraph.DeclaredEarlier` | crates/nestforge-core/src/module.rs:569-578 | Of the root's imports an earlier declared one is completed before a later one that neither it nor any before it needs |
| `ImportGraph.WalkIsPostOrder` | crates/nestforge-core/src/module.rs:537-626 | When the imports below the root can be ranked, the completion order is the import tree written out in post-order with later repetitions dropped, whatever the ranking |
| `ImportGraph.RankedIffNoCycle` | crates/nestforge-core/src/module.rs:560-567 | Such a ranking that covers the root exists if and only if no cycle is reachable from it |
| `Arrangement.GatheredIsArranged` | crates/nestforge-core/src/module.rs:472-486 | A list gathered in completion order consists of exactly one block of each reachable module, with nothing else, and every module's block comes after those of all it imports, directly or not; reversed, every block stands backwards and importers come first |
| `ModuleReports.VisitModuleDocs` | crates/nestforge-core/src/module.rs:665-691 | The documentation walk changes its state as the pure walk does, or reports the same cycle; the collected docs are those of the completed modules in completion order |
| `ModuleReports.CollectModuleRouteDocs` | crates/nestforge-core/src/module.rs:494-498 | Route docs are returned exactly when there is no reachable cycle: one block of each reachable module, imported modules first, in the post-order of the import tree; an error is a real cycle |
| `ModuleReports.VisitModuleGraph` | crates/nestforge-core/src/module.rs:693-729 | The introspection walk changes its state as the pure walk does, or reports the same cycle; its entries are those of the completed modules in completion order |
| `ModuleReports.CollectModuleGraph` | crates/nestforge-core/src/module.rs:500-506 | A report is returned exactly when there is no reachable cycle; it has one entry for each reachable module, imports before importers, the root last, each with the imports, exports, controller count and global flag that its module declares |
| `ModuleRuntime.RegisterMany` | crates/nestforge-core/src/module.rs:584-585 | Registering providers keeps factory dependencies acyclic and never removes a name |
| `ModuleRuntime.FirstMissing` | crates/nestforge-core/src/module.rs:607-621 | No export is missing exactly when all are named; otherwise the reported one is a declared export without a name |
| `ModuleRuntime.VisitIsSequential` | crates/nestforge-core/src/module.rs:537-626 | The runtime walk is the plain walk with each module it newly completes finished in turn: it fails with the first module that cannot be finished, also when the plain walk goes on to meet a cycle, else with the cycle, else it ends where these end; the container is always the one these finishes leave |
| `ModuleRuntime.ExportsStayNamed` | crates/nestforge-core/src/module.rs:607-621 | When all modules of an order finish, every export of every one of them is named at the end |
| `ModuleRuntime.InitIsSequentialRegistration` | crates/nestforge-core/src/module.rs:472-486 | Initialisation succeeds if and only if no cycle is reachable and finishing each completed module once, in completion order, succeeds; every export is then named; otherwise its error is that of the first module that cannot be finished among those completed before the walk ends or meets a cycle, and if there is none, a real cycle; either way the container is left as finishing these modules in turn leaves it |
| `ModuleRuntime.RegistersIff` | crates/nestforge-core/src/provider.rs:172-254 | A provider is registered exactly when its type is free in its kind and a factory that has to run at once succeeds; it then stands in the registry under its name, nothing registered before is lost or replaced, and a failure registers nothing |
| `ModuleRuntime.FinishesIff` | crates/nestforge-core/src/module.rs:584-621 | A module can be finished exactly when its providers can be registered in turn and every type it exports is named already or provided by itself |
| `ModuleRuntime.ProvidersStayRegistered` | crates/nestforge-core/src/module.rs:584-621 | When all modules of an order finish, every provider of every one of them stands in the registry at the end |
| `ModuleRuntime.RegisteredIsFound` | crates/nestforge-core/src/container.rs:259-298 | What stands in the registry is what a scope resolves that does not override the type: a singleton as it is, before any factory; the value of a request factory, which is kept; the value of a transient factory, which is not |
| `ModuleInit.RegisterProvider` | crates/nestforge-core/src/provider.rs:172-254 | Registering a value, a factory run at once, a request factory or a transient factory changes the container as the pure step does, errors included |
| `ModuleInit.Register` | crates/nestforge-core/src/module.rs:584-585 | A module's providers are registered in order up to the first that fails |
| `ModuleInit.CheckExports` | crates/nestforge-core/src/module.rs:607-621 | The export check reports the first declared export that is not named |
| `ModuleInit.ModuleGraphState.Collect` | crates/nestforge-core/src/module.rs:591-605 | Controllers, the four kinds of hooks and global flags are gathered from the completed modules in completion order |
| `ModuleInit.FinishModule` | crates/nestforge-core/src/module.rs:584-623 | Registering, collecting, checking exports and popping the stack: the container and the error are those of the pure step, the walk state is left as by the plain walk |
| `ModuleInit.VisitModule` | crates/nestforge-core/src/module.rs:537-626 | The walk over mutable state and a real container computes the pure runtime walk |
| `ModuleInit.VisitImports` | crates/nestforge-core/src/module.rs:569-578 | The loop over a module's imports computes the pure runtime walk over the list, stopping at the first error |
| `ModuleInit.InitializeModuleRuntime` | crates/nestforge-core/src/module.rs:472-486 | Success exactly without a reachable cycle and with every module finishing; then every module of the post-order is registered once in that order, every provider of every reachable module stands in the registry, every export is named, and the returned lists consist of the blocks of exactly the reachable modules: controllers, init and bootstrap hooks with imported modules first, destroy and shutdown hooks with importers first and each block backwards; failure is the error of the first module that cannot be finished before the walk ends or meets a cycle, else a real cycle, and leaves the container with everything registered up to then |
| `ModuleInit.RunLifecycleHooks` | crates/nestforge-core/src/module.rs:628-639 | Hooks run in order up to and including the first that fails, whose error is returned |
| `Resolution.ResolveProgresses` | crates/nestforge-core/src/container.rs:259-298 | A resolve loses and replaces no cached instance; each new entry is a request-scoped type ranked no higher than the resolved one, built once, under a fresh allocation; a request-scoped type gets an entry exactly when its resolve succeeds |
| `Resolution.FailureCachesNothing` | crates/nestforge-core/src/container.rs:352-365 | A failing factory leaves no cached entry for its own type |
| `Resolution.TransientIsAlwaysFresh` | crates/nestforge-core/src/container.rs:370-397 | Every resolve of a transient type returns a new allocation, which the scope does not keep |
| `Resolution.SoundCacheIsInvisible` | crates/nestforge-core/src/container.rs:359-362 | Cached entries that hold what the pure lookup gives change no lookup |
| `Resolution.ResolveRefinesLookup` | crates/nestforge-core/src/container.rs:259-298 | A resolve returns what a lookup without cache returns, in the order overrides, singletons, request factories, transient factories, and whatever it caches is what later lookups would give |
| `Resolution.FactoriesCompleteAtMostOnce` | crates/nestforge-core/src/container.rs:336-368 | In any run of resolves and overrides in one scope every request-scoped factory completes at most once, through diamond dependencies too |
| `Resolution.CachedInstanceIsStable` | crates/nestforge-core/src/container.rs:263-269 | An instance held by a scope is what every later resolve of its type returns, as long as the type is not overridden |
| `Resolution.RequestScopedIsShared` | crates/nestforge-core/src/container.rs:336-368 | After one successful resolve of a request-scoped type every later one in the scope returns the same allocation, as long as the type is not overridden |
| `Resolution.DependenciesAreShared` | crates/nestforge-core/src/container.rs:259-398 | What a factory was given is what its scope goes on using: of each request-scoped type it was given, the scope afterwards holds one allocation with that value and answers it until the type is overridden; the factory's last word after these answers decides the result |
| `Resolution.OverrideIsStable` | crates/nestforge-core/src/container.rs:158-173 | A value put over a type is what every later resolve of it answers, as long as it is not overridden again; other types keep what the scope holds of them |
| `Resolution.FactorySaysIt` | crates/nestforge-core/src/container.rs:336-397 | A factory's result is its own last word after a conversation in which each of its questions was answered by a lookup in its scope |
| `Resolution.SingletonIsShared` | crates/nestforge-core/src/container.rs:275-277 | In any interleaving over any number of scopes, every resolve of a singleton in a scope that does not override it answers the one registered allocation, and the scope keeps nothing of it |
| `Resolution.ScopesDoNotInterfere` | crates/nestforge-core/src/container.rs:82-96 | In any interleaving over any number of scopes, a scope is answered with the values it would get, and holds the values it would hold, if its own operations ran alone |
| `Resolution.ScopesShareNothing` | crates/nestforge-core/src/container.rs:82-96 | However operations interleave, no allocation is ever held by two scopes |
| `DiContainer.Container.constructor` | crates/nestforge-core/src/container.rs:77-80 | A container starts with no overrides |
| `DiContainer.Container.Scoped` | crates/nestforge-core/src/container.rs:88-96 | A child scope shares the registry and starts with no overrides, whatever the parent has overridden |
| `DiContainer.Container.Register` | crates/nestforge-core/src/container.rs:106-129 | A singleton is stored and named, unless its type is registered already: then nothing changes |
| `DiContainer.Container.Replace` | crates/nestforge-core/src/container.rs:135-150 | The singleton is stored and named whether or not there was one |
| `DiContainer.Container.OverrideValue` | crates/nestforge-core/src/container.rs:158-173 | The value is stored in this scope only; its name goes to the names that all scopes share |
| `DiContainer.Container.IsTypeRegisteredName` | crates/nestforge-core/src/container.rs:178-184 | A type whose name is not registered is refused by every resolve in this scope, as not registered, with nothing changed |
| `DiContainer.Container.RegisterRequestFactory` | crates/nestforge-core/src/container.rs:190-216 | The factory is stored and named, unless the type already has a request factory: then nothing changes |
| `DiContainer.Container.RegisterTransientFactory` | crates/nestforge-core/src/container.rs:222-248 | The factory is stored and named, unless the type already has a transient factory: then nothing changes |
| `DiContainer.Container.Resolve` | crates/nestforge-core/src/container.rs:259-298 | Resolving in place computes the pure resolve and changes only this scope's cache and the allocator; an overridden type answers the held instance and a singleton the registered one, with nothing changed |
| `DiContainer.Container.ResolveFromRequestFactory` | crates/nestforge-core/src/container.rs:336-368 | Nothing without a request factory for the type; else runs it against this scope and caches its result; on failure caches nothing for the type |
| `DiContainer.Container.ResolveFromTransientFactory` | crates/nestforge-core/src/container.rs:370-397 | Nothing without a transient factory for the type; else runs it against this scope and keeps no result |
| `Pipeline.HandlerRunsAtMostOnce` | crates/nestforge-core/src/pipeline.rs:175-206 | Whatever interceptors and middleware do, however often they call `next`, one request runs the handler at most once, and only if the guards of every layer accepted it |
| `Pipeline.ChainRunsAtMostOnce` | crates/nestforge-core/src/pipeline.rs:208-235 | A chain of links runs the inner layers at most once, and only by taking the layer's one-shot `next` |
| `Pipeline.LinkRunsAtMostOnce` | crates/nestforge-http/src/middleware.rs:226-253 | The same for one link that calls its `next` any number of times |
| `Pipeline.LinkAnswersItself` | crates/nestforge-http/src/middleware.rs:226-253 | Whatever a link does, its answer is its own last reply, given to exactly the responses that its calls of `next` got from the rest of the chain, one after another |
| `Pipeline.HandledHasPassed` | crates/nestforge-core/src/pipeline.rs:208-257 | The handler only ever runs on a request that passed every layer: the guards accepted it as it arrived there, and each link that applied to the request handed on to it called `next` before replying |
| `PipelineOrder.ServeIsOnion` | crates/nestforge-core/src/pipeline.rs:242-257 | When every guard accepts and every link calls `next` once, each layer is admitted, entered in order and left in reverse around the layers inside it |
| `PipelineOrder.LayerWraps` | crates/nestforge-core/src/pipeline.rs:242-257 | A layer that accepts and whose links call `next` once, around any inner layers: these get the request as the links hand it on, and the links, innermost first, make the answer of theirs |
| `PipelineOrder.ReplyEndsChain` | crates/nestforge-http/src/middleware.rs:252-252 | A link that applies and replies without calling `next` ends its chain with that reply, and nothing but its own entering and leaving is logged |
| `PipelineOrder.RefusalEndsRun` | crates/nestforge-core/src/pipeline.rs:242-257 | Below any layers that let the request through, a guard's rejection or a link's immediate reply ends the run: the handler is not run, and the client gets the rejection as that layer's filters leave it, or the reply, as the links outside make it |
| `PipelineOrder.SecondNextIsRefused` | crates/nestforge-core/src/pipeline.rs:175-206 | A second `next` of a layer reaches nothing inside it: links that only relay bring back an internal error |
| `PipelineOrder.FiltersInTurn` | crates/nestforge-core/src/pipeline.rs:259-269 | Each filter is applied to what the one before it made, and the last result stands |
| `PipelineOrder.ApplicationRunsAsOnion` | crates/nestforge-http/src/factory.rs:240-272 | Middleware runs outside the global guards and interceptors, those outside the route's, those outside the handler, and they unwind in reverse |
| `PipelineOrder.SkippingIsFiltering` | crates/nestforge-http/src/middleware.rs:226-253 | For middleware that passes on method and path, running the chain with its matchers equals running the bindings that match the request, in order |
| `PipelineOrder.FiltersSeeOnlyRejections` | crates/nestforge-core/src/pipeline.rs:242-257 | A run in which no guard rejects is, for any guards, interceptors and handler, the run without exception filters: same response, same events |
| `PipelineOrder.RelayedAnswer` | crates/nestforge-core/src/pipeline.rs:208-257 | When the guards accept and every link calls `next` once and hands its response on, the client gets what the handler answers to the request as it arrives there |
| `PipelineOrder.FailurePassesAsFilteredIff` | crates/nestforge-core/src/pipeline.rs:237-257 | Then a failing handler's answer is the one that the documented filtering promises if and only if the layers' filters leave its exception unchanged |
| `PipelineOrder.HandlerFailuresAreNotFiltered` | crates/nestforge-core/src/pipeline.rs:237-241 | With one filter that turns every exception into a 400, any other failure of the handler misses the promised answer |
| `PipelineRuntime.RunGuardList` | crates/nestforge-core/src/pipeline.rs:168-173 | None exactly when every guard accepts, else the rejection of the first that does not |
| `PipelineRuntime.ApplyExceptionFilters` | crates/nestforge-core/src/pipeline.rs:259-269 | Each filter is applied to the result of the one before |
| `PipelineRuntime.OneShot.Take` | crates/nestforge-core/src/pipeline.rs:175-206 | The continuation can be taken once |
| `PipelineRuntime.RunLayers` | crates/nestforge-core/src/pipeline.rs:242-257 | Guards, filters on a rejection, and the chain around the next layer, with a new one-shot `next` for each layer, compute the pure pipeline |
| `PipelineRuntime.RunChain` | crates/nestforge-http/src/middleware.rs:226-253 | Walking the links by index, skipping middleware that does not match, computes the pure chain |
| `PipelineRuntime.RunOneLink` | crates/nestforge-core/src/pipeline.rs:208-235 | Driving one link until it replies computes the pure link, with the one-shot shared by all its calls of `next` |
| `PipelineRuntime.HandleHttp` | crates/nestforge-http/src/factory.rs:341-432 | Every response carries the request id; a request that authentication refuses reaches no layer and gets its error, with the request id inside, as the filters leave it; any other runs the layers with the request id and the resolved identity; the handler runs at most once; id, identity and context are held by a container of the request's own, while the application's overrides stay as they are |
| `RouteMatching.PrefixMatchIsPartwise` | crates/nestforge-http/src/middleware.rs:268-274 | A path equals a prefix or continues it after a slash exactly when the slash-separated parts of the prefix are the first parts of the path |
| `RouteMatching.RouteMatchesAtSegments` | crates/nestforge-http/src/middleware.rs:108-118 | A route matches exactly for the root prefix or at segment boundaries, and for its methods if it names any |
| `RouteMatching.WrittenRouteMatches` | crates/nestforge-http/src/middleware.rs:255-274 | What a route matches in terms of the text it was built from: every path when only spaces and end slashes were written, else the paths that begin with its segments |
| `RouteMatching.MatcherMeans` | crates/nestforge-http/src/middleware.rs:46-56 | A middleware runs where no excluded route covers the request and, if any route is included, one of these does |
| `RouteGuards.MergeStringLists` | crates/nestforge-macros/src/lib.rs:1333-1341 | The loop computes the pure merge |
| `RouteGuards.MergeIsOrderedUnion` | crates/nestforge-macros/src/lib.rs:1333-1354 | The merge is the first list, then the other members of the second, each once, in the order of their first occurrence |
| `RouteGuards.AnyRoleMeans` | crates/nestforge-core/src/pipeline.rs:125-139 | The role test passes exactly when the identity holds one of the roles |
| `RouteGuards.GuardsEnforceDocumentation` | crates/nestforge-macros/src/lib.rs:147-214 | A request passes the generated guards exactly when the user's own guards accept it and it meets the documented authentication and roles; otherwise it gets the first user guard's error, then 401 when anonymous, then 403 |
| `RouteGuards.GuardsEnforceDeclarations` | crates/nestforge-macros/src/lib.rs:147-214 | In terms of what controller and method declare: a request passes exactly when every guard that either names accepts it, it is identified if either asks for authentication or names a role, and it holds one of all roles named, if any |
| `YamlPrinter.PrinterPrintsLines` | crates/nestforge-openapi/src/lib.rs:545-599 | A value without newlines in strings and keys is printed as exactly its lines as depth alone places them: entries of a container at depth d in column d(d+3), an empty container in column d(d+1), less the columns that the enclosing containers add |
| `YamlPrinter.PrintedDocument` | crates/nestforge-openapi/src/lib.rs:295-297 | The document is these lines from depth 0 |
| `YamlReader.UnescapeUndoesEscape` | crates/nestforge-openapi/src/lib.rs:601-603 | The two replacements in sequence are undone by reading the escapes of a double-quoted scalar |
| `YamlReader.NestedIsDeeper` | crates/nestforge-openapi/src/lib.rs:559-562 | The lines of a nested value stand to the right of the entries around it |
| `YamlReader.DocumentIsReadable` | crates/nestforge-openapi/src/lib.rs:545-603 | The line reader returns, for any text at all, only values whose strings and keys hold no newline and whose keys hold no colon, start with no space and, first in their object, not like a list item |
| `YamlReader.DocumentReadsBackIff` | crates/nestforge-openapi/src/lib.rs:545-603 | For every value, reading its printed document gives it back if and only if it is readable in this sense |
| `YamlReader.PrintingIsInjective` | crates/nestforge-openapi/src/lib.rs:545-603 | Two readable values that print alike are the same |
| `YamlReader.KeysCollide` | crates/nestforge-openapi/src/lib.rs:576-587 | Other values can print alike: one key that holds a colon and a newline prints as two fields |
| `BrowserPath.RelativeBrowserParts` | crates/nestforge-openapi/src/lib.rs:511-535 | The two pushing loops produce one `..` for each directory left, then the rest of the target, or `.` for nothing |
| `BrowserPath.LinkReachesTarget` | crates/nestforge-openapi/src/lib.rs:511-535 | Followed from the page's directory, the link arrives at exactly the target's segments |
| `BrowserPath.PathReachesTarget` | crates/nestforge-cli/src/main.rs:3470-3491 | The same for the command line's variant, which prints nothing for the directory itself |
| `BrowserPath.LinkIsShortest` | crates/nestforge-openapi/src/lib.rs:520-528 | No reference with at least one segment that reaches the target has fewer segments than the link |
| `BrowserPath.LinkSplits` | crates/nestforge-openapi/src/lib.rs:530-534 | The link splits into exactly the segments pushed, each of them `..`, `.` or a segment of the target, none empty |
| `BrowserPath.ResolvedIsPlain` | crates/nestforge-openapi/src/lib.rs:511-535 | A browser never arrives at a segment that holds a query or fragment delimiter |
| `BrowserPath.LinkResolvesIff` | crates/nestforge-openapi/src/lib.rs:511-543 | Resolving the link against the page by section 5.2 of RFC 3986, query and fragment taken off and dot segments removed from the merged path, gives the target's segments if and only if these are no dot segments and hold no `?` and no `#`, the link does not begin with a target segment that holds a colon, and climbing from where the page stands leads to the common directory; on a page without dot segments the last holds exactly when the page has no segments, or its last part and every directory the link climbs through are non-empty |
| `BrowserPath.LinkResolvesFromPlainPath` | crates/nestforge-openapi/src/lib.rs:511-543 | The link is right on every page whose path is its segments, none a dot segment, each after one slash, for targets without dot segments, `?`, `#` and colons |
| `BrowserPath.TrailingSlashMisleads` | crates/nestforge-openapi/src/lib.rs:498-509 | On every page with segments, a trailing slash and no dot segments the link is wrong, whatever the target |
| `BrowserPath.QueryMisleads` | crates/nestforge-openapi/src/lib.rs:498-509 | The link from `/docs` to a path `/a?b` is wrong: the browser takes `b` for the query |
| `BrowserPath.DotSegmentsMislead` | crates/nestforge-openapi/src/lib.rs:511-543 | From every page `/a/../last` the link to `/a/b` leads to `/b` |
| `BrowserPath.SlashAfterDot` | crates/nestforge-openapi/src/lib.rs:511-543 | On the page `/./` the link to `/a` is right, although the page has a segment and a trailing slash |
| `SchemaRefs.SchemaIsCoveredIff` | crates/nestforge-core/src/documentation.rs:141-243 | Through any nesting of lists and options, the references in a type's schema name components of the type exactly when the innermost type's own implementation, hand-written ones included, brings the components it refers to |
| `SchemaRefs.ProvidedIsSound` | crates/nestforge-macros/src/lib.rs:556-625 | The implementations for primitives and the ones derived from any structs do |
| `SchemaRefs.ResponseIsCovered` | crates/nestforge-macros/src/lib.rs:1417-1501 | When all implementations do, the response schema inferred from any return type refers only to components inferred with it |
| `SchemaRefs.RequestIsCovered` | crates/nestforge-macros/src/lib.rs:1376-1407 | The same for the request body inferred from the first body extractor |
| `SchemaRefs.AddComponentsNames` | crates/nestforge-core/src/documentation.rs:103-118 | Adding components keeps names distinct, keeps what was there first, and ends with exactly the names of both lists |
| `SchemaRefs.First2xx` | crates/nestforge-core/src/documentation.rs:81-88 | The first response with a 2xx status, if there is one |
| `SchemaRefs.WithSuccessAttaches` | crates/nestforge-core/src/documentation.rs:80-101 | The schema is attached to the first 2xx response, or to the first when there is no 2xx, and every other response stays as it was; without responses a 200 is made for it |
| `SchemaRefs.RouteDocumentation.WithSuccessResponseSchema` | crates/nestforge-core/src/documentation.rs:80-101 | The schema goes to the first 2xx response, else the first response, else a new 200; references come only from the old ones and the schema |
| `SchemaRefs.RouteDocumentation.WithSchemaComponents` | crates/nestforge-core/src/documentation.rs:103-118 | Components with new names are appended in order |
| `SchemaRefs.DocumentedIsClosed` | crates/nestforge-macros/src/lib.rs:274-353 | Whatever a handler's argument and return types nest, every reference in its documentation names one of its components, and component names are distinct |
| `SchemaRefs.DocumentRoute` | crates/nestforge-macros/src/lib.rs:274-353 | The generated calls, one by one on the documentation object, build exactly this documentation |
| `SchemaRefs.CollectSchemaComponents` | crates/nestforge-openapi/src/lib.rs:432-447 | Names are distinct over all routes, the first of each name is kept, and each reference of each closed route names one of them |
| `OpenApiDocument.ToOpenApiJson` | crates/nestforge-openapi/src/lib.rs:225-292 | The loops build the operation maps by path and method and the schema map by name, under the title, the version and the fixed bearer scheme |
| `OpenApiDocument.DocumentedIffAnswered` | crates/nestforge-openapi/src/lib.rs:227-265 | The document has an operation at a path and method exactly when a route answers there |
| `OpenApiDocument.LastRouteStands` | crates/nestforge-openapi/src/lib.rs:227-265 | It is the operation of the last route that does: that route's summary, description, tags, roles, security and request body, and of its responses the last of each status |
| `OpenApiDocument.SchemaKeys` | crates/nestforge-openapi/src/lib.rs:267-271 | The schema map has exactly the component names, each with its own schema when names are distinct |
| `OpenApiDocument.DocumentRefsResolve` | crates/nestforge-openapi/src/lib.rs:191-292 | Every reference at every path and method of a document made from closed routes names a schema of the document |
| `OpenApiDocument.HandlersDocumentResolves` | crates/nestforge-macros/src/lib.rs:274-353 | From any handler signatures to the document: every reference at every path and method names a schema of the document |
| `SchemaNames.SchemaIsOfFirst` | crates/nestforge-openapi/src/lib.rs:432-447 | The document of any handlers with primitive and derived types has a schema for exactly the identifiers of their innermost derived types, and it is the body of the first type of that identifier |
| `SchemaNames.SchemaFollowsType` | crates/nestforge-core/src/documentation.rs:141-243 | Lists are documented as arrays and options as nullable, each around what is documented of the inner type, and anything else inline or by reference |
| `SchemaNames.RequestTypeIsFirst` | crates/nestforge-macros/src/lib.rs:1376-1407 | The documented request body is what the first body extractor among the arguments extracts |
| `SchemaNames.DocumentedMeans` | crates/nestforge-macros/src/lib.rs:274-353 | A handler's documentation keeps its method, path, metadata and declared responses, has the schema of the request body, and the schema of the answer, in its envelope if it has one, at the one place of success and nowhere else |
| `SchemaNames.OwnSchemasIff` | crates/nestforge-macros/src/lib.rs:556-625 | Every documented type finds its own body under its name if and only if documented types of one identifier, in whatever modules, share a body |
| `SchemaNames.ReferenceLeadsToOwnType` | crates/nestforge-openapi/src/lib.rs:191-292 | Then every reference at every path and method leads to the body of a type of the handler documented there |
| `SchemaNames.FirstOfNameStands` | crates/nestforge-openapi/src/lib.rs:432-447 | Of two types of one identifier with different bodies, in two handlers, the second is documented with the body of the first |
| `SchemaNames.FieldRefsResolveIff` | crates/nestforge-macros/src/lib.rs:574-625 | The references inside the schemas resolve if and only if every field of the first type of each identifier is primitive inside its lists and options or has the identifier of a type that some handler documents itself |
| `SchemaNames.NestedFieldDangles` | crates/nestforge-macros/src/lib.rs:574-625 | A single handler whose type has a field of another derived type leaves a reference without a schema |
| `ResponseCache.InMemoryRedisStore.Set` | crates/nestforge-redis/src/lib.rs:53-73 | A value with a time to live is refused and nothing changes; any other is stored |
| `ResponseCache.Around` | crates/nestforge-cache/src/lib.rs:135-226 | Without a store the handler answers; a hit answers from the store without calling the handler; a miss calls it once, answers with its response and stores what may be stored |
| `ResponseCache.KeysDistinguishUris` | crates/nestforge-cache/src/lib.rs:64-70 | Two URIs never share a key |
| `ResponseCache.KeysDistinguishPolicies` | crates/nestforge-cache/src/lib.rs:64-70 | Policies of different types never share a key for URIs that start with a slash |
| `ResponseCache.SavedIff` | crates/nestforge-cache/src/lib.rs:173-225 | Saving makes a hit of exactly the answers to a GET that the policy caches without time to live and that read as text, with all that is kept of them, and changes the hits of no other URI; a body that cannot be read becomes a 500 |
| `ResponseCache.HitIsHttp` | crates/nestforge-cache/src/lib.rs:26-39 | Whatever stands in the store, an answer from it has a valid status and a valid content type |
| `ResponseCache.HitIsAlike` | crates/nestforge-cache/src/lib.rs:26-39 | A hit has the handler's status, its body, and as its only header the content type, that of the handler if it reads as text; it is the very response exactly when a readable content type is that one's only header |
| `ResponseCache.SaveIsFaithful` | crates/nestforge-cache/src/lib.rs:173-225 | Every entry goes on encoding the handler's answer for its URI; the client gets the handler's response unless it was cacheable and its body could not be read |
| `ResponseCache.StepIsTransparent` | crates/nestforge-cache/src/lib.rs:135-226 | Every step of every request in flight keeps entries, answers held and answers given faithful |
| `ResponseCache.CacheIsTransparent` | crates/nestforge-cache/src/lib.rs:135-226 | However requests of any method interleave, each is answered with the very response of a direct call of the handler, or with that response under the one header that a hit keeps |
| `ResponseCache.CachedStaysCached` | crates/nestforge-cache/src/lib.rs:155-170 | In a sequence of requests of any methods the handler is not called again for a GET of a cached URI |
| `ResponseCache.HandlerRunsOncePerUri` | crates/nestforge-cache/src/lib.rs:135-226 | In a sequence of requests of any methods, from any store, the handler runs at most once for the GETs of each URI whose answer can be stored |
| `ResponseCache.ServeAll` | crates/nestforge-cache/src/lib.rs:135-226 | Serving requests one after another through the interceptor makes exactly these handler calls and answers each as a direct call would, up to the headers that a hit loses |
| `ResponseCache.CalledOnceIff` | crates/nestforge-cache/src/lib.rs:135-226 | Any run of overlapping requests that starts and ends without open flights for a URI whose answer can be stored calls the handler for it at most once if and only if at no time two flights for it are open |
| `ResponseCache.ConcurrentRequestsBothMiss` | crates/nestforge-cache/src/lib.rs:155-173 | Two interleaved requests for one URI can both call the handler |
| `Migrations.ReadAppliedMigrations` | crates/nestforge-cli/src/main.rs:3875-3895 | The loop over trimmed, non-empty lines computes the pure reading of the journal |
| `Migrations.AppendReadsBack` | crates/nestforge-cli/src/main.rs:3897-3906 | Reading after an append is the old map updated at that name, for a journal that is empty or ends with a line break, which it then still does, and names without a bar, a newline or a leading space |
| `Migrations.SplitJournal` | crates/nestforge-cli/src/main.rs:3875-3895 | Every journal is a part that ends with a line break and what follows it |
| `Migrations.AppendRecordsIff` | crates/nestforge-cli/src/main.rs:3875-3906 | Appending to any journal records a name that is not in it if and only if what follows the last line break is blank; the reading is then updated at that name |
| `Migrations.RunnerLineIsCorrupted` | crates/nestforge-cli/src/main.rs:3875-3906 | When a line of the runner's own has lost its break, the appended entry becomes part of the earlier file's hash |
| `Migrations.UnterminatedJournalSwallowsName` | crates/nestforge-cli/src/main.rs:3875-3906 | After `a|0` without a break, appending `b` with hash 1 leaves a journal that knows only `a`, with hash `0b|1` |
| `Migrations.SecondRunCommitsAgainIff` | crates/nestforge-cli/src/main.rs:713-778 | Of two runs over such a journal the second commits the script again that the first committed first, if and only if what follows the last line break is not blank |
| `Migrations.Workspace.DbMigrate` | crates/nestforge-cli/src/main.rs:713-778 | A run that may fail before any commit computes the pure run: pending files in order, empty scripts recorded without being run, each commit followed by its record |
| `Migrations.Workspace.DbStatus` | crates/nestforge-cli/src/main.rs:780-822 | The counts are the numbers of files that the journal does not name, that it names under another content, and of the others |
| `Migrations.MigrateAdvances` | crates/nestforge-cli/src/main.rs:713-778 | One run, failing anywhere: the journal lists exactly what was committed or skipped; what is new was committed in file-name order; old records stay; a run that does not fail leaves no file pending |
| `Migrations.PendingIff` | crates/nestforge-cli/src/main.rs:713-729 | The pending files are exactly those that the journal does not name, in file-name order |
| `Migrations.MigrateAppliesFirst` | crates/nestforge-cli/src/main.rs:741-778 | One run applies exactly the pending files before the first that fails, in order: it commits those with SQL, passes over the others and records each under its digest; it is well exactly when no pending file fails |
| `Migrations.NoScriptCommitsTwice` | crates/nestforge-cli/src/main.rs:713-778 | Over any sequence of runs, failing anywhere, with files added, changed or removed between them, no script commits twice and the journal lists exactly the committed and the skipped files |
| `Migrations.EmptyWorkspaceIsInStep` | crates/nestforge-cli/src/main.rs:3875-3879 | The invariant of the runs holds before the first |
| `Migrations.StatusAfterMigrate` | crates/nestforge-cli/src/main.rs:713-822 | After a run that does not fail the status of a pending file is applied and that of every other file is what it was |
| `Migrations.ChangedFileDriftsIff` | crates/nestforge-cli/src/main.rs:796-812 | A file that a run applied shows as drifted exactly when its content has another digest |
| `Migrations.BareNameIsApplied` | crates/nestforge-cli/src/main.rs:3875-3895 | A journal line that holds only a name stands for a file of any content |
| `SqlScanner.ContainsSqlContent` | crates/nestforge-cli/src/main.rs:3951-3990 | The two-flag scanner answers true exactly when the text without its line comments and non-nesting, possibly unterminated block comments has a character that is not whitespace |
| `SqlScanner.EmptyIff` | crates/nestforge-cli/src/main.rs:3951-3990 | A script is found empty if and only if it is written as white space, line comments and block comments, of which the last may be unfinished |
| `CaseConversion.ToSnakeCaseLoop` | crates/nestforge-cli/src/main.rs:3646-3665 | The loop computes the pure conversion |
| `CaseConversion.PascalInOnePass` | crates/nestforge-cli/src/main.rs:3632-3644 | Splitting, capitalising and joining equals one pass that drops separators and capitalises what follows them |
| `CaseConversion.PascalOfSnakeIff` | crates/nestforge-cli/src/main.rs:3632-3665 | On ASCII, Pascal case undoes snake case exactly for names without separators that do not start with a lowercase letter |
| `CaseConversion.SnakeIsIdempotent` | crates/nestforge-cli/src/main.rs:3646-3665 | Converting to snake case twice is converting once |
| `CaseConversion.SnakeOfPascalIff` | crates/nestforge-cli/src/main.rs:3632-3665 | On ASCII, snake case undoes Pascal case exactly for lowercase words joined by single underscores, each word after the first starting with a letter |
| `EntityStore.Position` | crates/nestforge-core/src/store.rs:99-104 | Finds an entity with the id; none exactly when there is no such entity |
| `EntityStore.MaxId` | crates/nestforge-core/src/store.rs:128-128 | At least every id, and one of them when there is one |
| `EntityStore.PositionIsFirst` | crates/nestforge-core/src/store.rs:180-184 | The first entity with the id is the one found |
| `EntityStore.InMemoryStore.FindIndex` | crates/nestforge-core/src/store.rs:180-182 | The search loop computes the pure position |
| `EntityStore.InMemoryStore.FindById` | crates/nestforge-core/src/store.rs:99-104 | Finds the first entity with the id, exactly when there is one |
| `EntityStore.InMemoryStore.Count` | crates/nestforge-core/src/store.rs:109-111 | The number of entities, which is the size of the map from ids to entities while ids are distinct |
| `EntityStore.InMemoryStore.Create` | crates/nestforge-core/src/store.rs:125-133 | The new entity gets the largest id plus one, or 0 after the largest 64-bit id, keeps its fields, is appended and returned |
| `EntityStore.InMemoryStore.UpdateById` | crates/nestforge-core/src/store.rs:144-153 | The found entity is replaced by the updater's result, at its place; nothing changes when there is none |
| `EntityStore.InMemoryStore.ReplaceById` | crates/nestforge-core/src/store.rs:164-170 | The found entity is replaced at its place by the replacement under the same id |
| `EntityStore.InMemoryStore.DeleteById` | crates/nestforge-core/src/store.rs:180-184 | The found entity is removed and returned, the order of the others kept |
| `EntityStore.PositionRefinesMap` | crates/nestforge-core/src/store.rs:99-104 | Lookup by id is lookup in the map from ids to entities |
| `EntityStore.CreateIsInsertIff` | crates/nestforge-core/src/store.rs:125-133 | Creation inserts into the map under an id it did not hold, and ids stay distinct, exactly unless the largest 64-bit id and 0 are both taken |
| `EntityStore.CreateAscends` | crates/nestforge-core/src/store.rs:125-133 | While the largest id can be exceeded, ascending ids stay ascending |
| `EntityStore.UpdateIsMapUpdate` | crates/nestforge-core/src/store.rs:144-153 | Updating in place, for an updater that keeps the id, is updating the map at that id, and every entity keeps its place |
| `EntityStore.ReplaceIsMapUpdate` | crates/nestforge-core/src/store.rs:164-170 | Replacing writes the replacement under the id it is found by, in the map and at its place in the list, and returns it; without such an entity nothing changes |
| `EntityStore.DeleteIsMapRemove` | crates/nestforge-core/src/store.rs:180-184 | Deletion removes the id from the map and nothing else, leaves the other entities in their order, and returns what the map held |
| `ResourceService.MergeFields` | crates/nestforge-core/src/resource_service.rs:104-120 | The result is the entity's fields with every non-null field of the input except `id` laid over them |
| `ResourceService.PrepareMeans` | crates/nestforge-core/src/resource_service.rs:95-128 | An input that is no object is refused; an id that is not held gives none; else the first entity of the id decides: it is no object, or the merge of its fields does not decode, or that merge is the result |
| `ResourceService.PrepareKeepsId` | crates/nestforge-core/src/resource_service.rs:95-128 | The merged entity has the id it was found by, whatever the input says about `id` |
| `ResourceService.CreateFrom` | crates/nestforge-core/src/resource_service.rs:74-86 | A DTO that is no object or does not decode changes nothing; any other is created under the next id |
| `ResourceService.UpdateFrom` | crates/nestforge-core/src/resource_service.rs:95-128 | Each of the four outcomes as the source orders them; on success the merged entity replaces the found one and keeps its id |
| `ResourceService.ReplaceFrom` | crates/nestforge-core/src/resource_service.rs:137-149 | A DTO that is no object or does not decode changes nothing; any other replaces the entity of that id, if there is one |
| `ResourceService.StepKeepsConsistent` | crates/nestforge-core/src/resource_service.rs:95-149 | Each critical section keeps ids distinct (ascending if the seed's were), waiting writes under their own id, and the count equal to seed plus creations minus deletions |
| `ResourceService.InterleavingsAreConsistent` | crates/nestforge-core/src/resource_service.rs:74-161 | The same over every interleaving of creations, replacements, deletions and two-phase updates, when the largest seed id leaves room for the creations |
| `ResourceService.IdsStayDistinctIff` | crates/nestforge-core/src/resource_service.rs:74-161 | Throughout any interleaving ids stay distinct if and only if every creation finds the largest 64-bit id or 0 free |
| `ResourceService.SameEntityIff` | crates/nestforge-core/src/resource_service.rs:74-161 | After any interleaving an id belongs to the entity it belonged to before if and only if no step deleted it, while creations find room |
| `ResourceService.WriteHitsItsEntityIff` | crates/nestforge-core/src/resource_service.rs:107-127 | The write of an `update_from` replaces the entity it read if and only if no step in between deleted that id; it changes a later entity exactly when the id is in use again, and nothing when it is not |
| `ResourceService.ReusedIdTakesTheWrite` | crates/nestforge-core/src/resource_service.rs:107-127 | Read, deletion, creation, write: the created entity gets the freed id and is overwritten by the update of the deleted one |
| `ResourceService.ReplacementIsFound` | crates/nestforge-core/src/resource_service.rs:137-149 | In any state a replacement is what the next lookup of its id finds, if the id is held, and lookups of other ids find what they did |
| `ResourceService.SeedIsTagged` | crates/nestforge-core/src/store.rs:72-76 | A seed with distinct ids is a start for these runs, every entity born with it |
| `ResourceService.UpdateIsAtomicIff` | crates/nestforge-core/src/resource_service.rs:95-128 | Read, any steps of others, write leave the store as the others' steps followed by the update in one piece would, if and only if the id is out of use by then or the entity merged at the read is what that update would leave |
| `ResourceService.UpdateIsAtomicUnlessWritten` | crates/nestforge-core/src/resource_service.rs:95-128 | In particular when no step in between writes or removes what is stored under the id |
| `ResourceService.SecondWriteWins` | crates/nestforge-core/src/resource_service.rs:107-127 | Of two updates that both read before either writes, the first leaves no trace |
| `ResourceService.SeedIsConsistent` | crates/nestforge-core/src/store.rs:72-76 | A seed with distinct ids is a consistent start |
| `ResourceService.OverflowRepeatsIds` | crates/nestforge-core/src/store.rs:125-133 | Two creations after the largest 64-bit id give two entities with the same id |

## Left out

- ModuleRuntime.RegisterMany: a module's own code besides its providers is one step that fails or does nothing.
- DiContainer.Container.Resolve: lock poisoning and failed downcasts are not modelled, a type is its type name, and two threads resolving one type in one scope are out, because check and insert are separate there; factories whose dependencies form a cycle recurse without end and are excluded by the plan.
- PipelineRuntime.HandleHttp: the header that carries the token, timing and logs are not modelled; the resolver is a function of the request, and values in a container are text.
- YamlPrinter.PrinterPrintsLines: values with a newline in a string or key are printed over more lines than depth determines; what is lost then is said by the reader's theorem.
- YamlPrinter.PrintedDocument: the same, for the whole document.
- YamlReader.DocumentReadsBackIff: the reader is this project's own and knows the block style and the scalars that the printer uses; it takes for keys some texts, such as those that begin with `#`, `[` or a quote, that section 7.3.3 of YAML 1.2.2 does not read as plain scalars, and it takes every key for a string, while the core schema of section 10.3 reads bare keys such as `200`, `true` or `null`, every response status among them, as numbers, booleans or null.
- YamlReader.PrintingIsInjective: other values can print alike, as `YamlReader.KeysCollide` shows.
- BrowserPath.LinkResolvesIff: the page path is an absolute path without query and fragment.
- BrowserPath.TrailingSlashMisleads: pages with dot segments are decided by `BrowserPath.LinkResolvesIff`; on some, such as `/./`, the link is right.
- BrowserPath.LinkResolvesFromPlainPath: pages and targets with dot segments are decided by `BrowserPath.LinkResolvesIff`.
- SchemaNames.OwnSchemasIff: the bodies of derived types are their fields, each with its schema and the text of its validation rules, and the required ones; hand-written implementations are out.
- SchemaRefs.DocumentedIsClosed: implementations of the schema trait that refer to components they do not bring are excluded; for one type `SchemaRefs.SchemaIsCoveredIff` says exactly what they cost.
- ResponseCache.CacheIsTransparent: the handler is a function of method and URI with well-formed answers, and cacheable bodies can be read; the cache key is the default one, while the time to live and the choice of responses worth caching are any policy's.
- Migrations.NoScriptCommitsTwice: a crash between a commit and its record is out, because the code does not make the two atomic; names with a bar, a newline or a leading space are excluded; listing and sorting the directory is the given list in ascending order.
- CaseConversion.PascalOfSnakeIff: letters outside ASCII, whose case mappings change length, are excluded.
- CaseConversion.ToSnakeCaseLoop: capitals are those of ASCII.
- CaseConversion.PascalInOnePass: lowercase letters are those of ASCII.
- CaseConversion.SnakeIsIdempotent: capitals are those of ASCII; elsewhere a capital without a lowercase form would get a further underscore each time.
- ResourceService.PrepareKeepsId: the id field of the entity's JSON is called `id`, as in the source.
- Two modules with the same name: the walks key on the name and skip the second; names are taken to be unique.
- `ModuleRef` builders, dynamic asynchronous registration and `block_on_dynamic_registration`: plumbing around `register`.
- `resolve_in_module`, configuration objects, environment files and database access: easy members or foreign code.
- Routing, sockets, futures, the asynchronous runtime, SQL drivers and serialisation internals: foreign code.
- GraphQL, gRPC, WebSocket, microservice, scheduler, testing and ORM crates: thin wrappers.
- Code generation templates, file patchers, prompts and the documentation browser of the command line: text and user interface.
