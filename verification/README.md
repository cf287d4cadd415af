# A verified model of the client toolkit's hard parts

This project models these parts of a CQRS client toolkit in Dafny and proves what they are for:

* **Schemas and hydration** (`SchemaPlan`, `SchemaDocument`, `SchemaReferences`, `SchemaMeaning`, `SchemaWalk`,
  `SchemaRegistration`, `Hydration*`, `JsonHeap`).
  A schema is a heap of objects that the registry overwrites in place; its meaning is a plan defined on the tree that
  the object stood for when it was first written. The caching registry and the plain recursive walk both compute
  that plan, and the path interpreter edits, in place, exactly the strings that the schema marks, but for the
  failures below.
* **Worker serialization** (`WireFormat`, `WireRoundTrip`, `WireMeaning`, `WireCodecs`, `SerializeGraph`). A tagged
  encoding of a graph of objects: when it reports a cycle, and when decoding gives the value back.
* **Storage** (`StorageRecords`, `MemoryStorage`, `SqlDatabase`, `SqliteTables`, `SqliteMigration*`, `SqlJunctions`,
  `SqlKeyRemoval`, `JunctionParents`, `SqlBatches`, `SqliteStorage`, `StorageAgreement`, `StorageMeaning`,
  `SchemaMigrations`). One abstract view of records, two backends that show it: a map of records, and relations changed
  by batches of statements. Every operation of either is tied to one operation on the view, so the backends agree over
  every run.
* **Listing and eviction** (`StableSort`, `ReadModelSort`, `ReadModelOrder`, `ReadModelListing`, `Eviction`,
  `EvictionAgreement`).
* **Query sessions and subscriptions** (`ListQuery`, `ListQueryProgress`, `ViewQuery`, `QueryHolds`,
  `TopicSubscriptions`), as step machines whose steps are the methods of a class.
* **URI templates** (`IriTemplates`, `TextParts`).

What the definitions that code and theorems share stand for is stated in `SchemaMeaning`, `WireMeaning`,
`StorageMeaning`, `ReadModelOrder` and `ListQueryProgress`, on objects, fields and values alone.

Check it with `dafny verify dfyconfig.toml`.

## What the code does not do for every input

Each theorem named here gives the condition, an exact one where it says so.

* A save shows the same in both backends exactly when the last record of each entity names every key that the entity
  has or is given (`SqliteTables.SaveAgreement`): SQL adds keys, memory replaces them.
* Removing a cache key agrees exactly when no record is without keys (`StorageRecords.HeldKeyAgreement`): SQL deletes
  every orphan it finds, memory looks only at holders of the key.
* Adding keys to a missing record leaves a junction pair without a row in SQL (`SqliteTables.AddAgreement`).
* With distinct sources and targets, migrating ids in memory goes wrong exactly when an entry moves a record to a later
  entry's source (`StorageRecords.InTurnUnlessChained`). SQL performs a batch in every order of its rows exactly when
  the targets are free (`SqliteMigrationOrders.MigrationSucceedsInEveryOrder`), and in some order exactly when the new
  ids are distinct and no records trade places in a ring (`SqliteMigrationRings.MigrationSucceedsInSomeOrder`); in
  between, the order decides (`SqliteMigrationOrders.OrderDecides`). A batch that is refused changes nothing.
* That every junction row has its parent is not kept over runs: deletions and id migrations leave the rows of parents
  behind, a key removal those of parents without keys, and a synchronisation may name a parent that does not exist
  (`JunctionParents`, one exact condition for each).
* The batched junction synchronisation differs from one operation after another exactly when a pair is added before
  its last removal and not added again with the same value (`SqlJunctions.DeletesFirst`). A child that stays keeps its
  stored value even if the row now gives it another one (`SqlJunctions.DiffApplied`).
* `countReadModels` takes an empty cache key for none, the listing does not (`ReadModelListing.CountIsListLength`).
* SQL ignores an offset without a limit (`ReadModelListing.OffsetNeedsLimit`).
* A column of mixed types can be sorted exactly when different types read differently and stay in order as texts, and
  never if it holds objects (`ReadModelSort.ConsistentIffSortable`): null beside strings is fine unless one of them is
  `null` (`ReadModelSort.NullableText`), numbers beside strings may go in a circle (`ReadModelSort.MixedTypesCircle`).
  A collation that equates different strings leaves no order (`ReadModelSort.EqualCollationIsNoOrder`).
* Where a schema allows an array or a string beside an object with converted `additionalProperties`, hydration converts
  strings of the array that are not marked (`HydrationMeaning.VisitedUnlessStray`, `HydrationFailures.StrayElement`).
* On a string there it fails if a character converts, exactly when a path is left with nothing but `*` at a string
  that no earlier path has converted (`HydrationRuns.HydrationThrowsIff`, `HydrationRuns.ThrowsWhereGrabbed`,
  `HydrationFailures.CharacterThrows`).
* Where two alternatives convert `additionalProperties` beside different properties, a value that is marked may be left
  a string (`HydrationFailures.MissedKey`). In general the result is right exactly when no convertible string is
  reached but not marked, or marked but not reached (`HydrationRuns.ReachedUnlessMisplaced`).
* Where two visitors convert one string to different things the first one wins; while none fails, only there does
  their order matter (`HydrationVisitors.SwappedUnlessContested`).
* Cache keys on a parent cycle are never evicted (`Eviction.RoundsEmptyTheStore`).
* A list session that is ready has been given data unless a signal's fetch came back outdated before any data did, and
  then it need not have been (`ListQuery.ReadyMeansData`, `ListQuery.ReadyWithoutData`). One that lost its
  synchronisation never becomes ready again (`ListQuery.StatusMovesForward`).
* The hold that `list` places is never released by the session that asked for it (`QueryHolds.SessionKeepsItsHold`), but
  may be by the end of a view query on the same key (`QueryHolds.ListLosesItsHold`). Counts are kept per key and not
  per window, so that windows that share a key lose or strand holds (`QueryHolds.SharedCountStrands`). They mean what
  they say for one window that lists nothing with a hold (`QueryHolds.CountedHolds`).
* Keys with a negative hold count are evicted in memory and not in SQL (`EvictionAgreement.EvictionsAgree`).
* Subscribing to no topics leaves a client entry with an empty set
  (`TopicSubscriptions.SubscriptionRegistry.Subscribe`); only topic entries are never empty.
* An object that looks like a marker does not survive serialization (`WireRoundTrip.RoundTrip`).
* A variable with a closing brace or a comma is not read back from a URI template (`IriTemplates.BaseHrefIsPath`,
  `IriTemplates.VariablesReadBack`).

## Parameters

JSON parsing and printing, base64, number and date texts, collations, filters, `String(value)` and the visitors'
`match` and `hydrate` are function parameters, taken as the inverse pairs or orders that their contracts name; so is
the order in which the SQL engine updates rows. What the JavaScript runtime holds for a query session, its unfinished
fetches and callbacks that are due, is explicit state. A statement is its effect on relations; a failing one ends its
batch.

## Model

| member | source | states |
|---|---|---|
| `SchemaRegistration.RegisterAndWalk` | packages/schema/src/SchemaRegistry.ts:42-219 | after any registrations in any order, the plan built from cached, prefixed sub-plans has for every visitor the same path list and star exclusions as the plain recursive walk of the document as first written, and its path texts are exactly those that the document gives for the places where a visitor matches |
| `SchemaMeaning.PathsAreSaid` | packages/schema/src/utils.ts:58-146 | the path texts of a plan are exactly those read off the objects of the document: `.key` for the sub-schema listed under that key, `[i]` and `[]` for elements, `.*` for `additionalProperties`, nothing for the branches of a combinator and the target of a `$ref` |
| `SchemaMeaning.MarkedIsSaid` | packages/schema/src/SchemaRegistry.ts:89-180 | a place in data is converted exactly if the document says so, read off its objects without trees or paths: some schema that applies there matches, where a schema applies to a property under its own key, to an element at its place in a tuple or in a list, to any other property under `additionalProperties`, and to the same place as a branch or the target of a `$ref` |
| `SchemaMeaning.MarkedAreSaid` | packages/schema/src/SchemaRegistry.ts:71-80 | the same for all places below the root |
| `SchemaMeaning.SomeHit` | packages/schema/src/SchemaRegistry.ts:90-95 | a visitor name collects a place exactly if some visitor of that name matches the schema |
| `SchemaMeaning.RefsAreThoseComeTo` | packages/schema/src/SchemaRegistry.ts:155-179 | the references that registration needs are those that the objects hold along every sub-schema, save that a plain reference under `additionalProperties` counts by its name alone |
| `SchemaRegistration.SchemaRegistry.Register` | packages/schema/src/SchemaRegistry.ts:42-52 | registration fails exactly when a `$ref` that the walk comes to, through sub-schemas but not through `$ref`s, is not registered by then: one registered before does not fail, and the ids that are new are those of the schema and of sub-schemas declared below it; on success the schema has a cached plan, which is the plan of the tree it was first written as; ids, plans and references are never taken back |
| `SchemaRegistration.SchemaRegistry.ProcessSchema` | packages/schema/src/SchemaRegistry.ts:82-87 | the registry invariant holds again and the schema has a cached plan, unless, and only if, a `$ref` that the walk comes to is not registered |
| `SchemaRegistration.SchemaRegistry.WalkSchema` | packages/schema/src/SchemaRegistry.ts:89-180 | the contexts grow, per visitor, by the plan of the original tree of the schema, prefixed by the path, although children are overwritten by `$ref`s on the way |
| `SchemaRegistration.SchemaRegistry.WalkSlot` | packages/schema/src/SchemaRegistry.ts:98-149 | one sub-schema: composed from its cached plan and replaced by a reference if it has an `$id`, walked in place if not; either way the contexts grow by its original tree |
| `SchemaRegistration.SchemaRegistry.WalkAdditional` | packages/schema/src/SchemaRegistry.ts:152-170 | the `additionalProperties` child, with or without `$id`, or a plain reference standing for its target |
| `SchemaRegistration.SchemaRegistry.WalkRef` | packages/schema/src/SchemaRegistry.ts:172-179 | a `$ref` contributes the plan of its target, and fails exactly when it names no registered schema |
| `SchemaRegistration.SchemaRegistry.EnsureCommonRegistered` | packages/schema/src/SchemaRegistry.ts:182-198 | a schema with an `$id` ends up registered and with a cached plan, unless, and only if, a `$ref` that the walk comes to is not registered |
| `SchemaRegistration.SchemaRegistry.ComposeFrom` | packages/schema/src/SchemaRegistry.ts:203-219 | the cached plan that is asked for exists in every reachable state, and is added under the current path |
| `SchemaRegistration.SchemaRegistry.GetHydrationPlan` | packages/schema/src/SchemaRegistry.ts:66-68 | the cached plan is the plan of the tree as first written, with exactly the path texts that the document gives; an unregistered schema has the empty plan |
| `SchemaRegistration.SchemaRegistry.Hydrate` | packages/schema/src/SchemaRegistry.ts:71-80 | whatever was registered and rewritten before, every visitor of the cached plan has its turn by the schema as first written: hydration fails exactly when one of them fails; otherwise the data is what they make of it one after another, in data that the schema describes by converting exactly the strings of which the objects of the document say so |
| `SchemaRegistration.PlanConvertsWhatIsSaid` | packages/schema/src/SchemaRegistry.ts:71-80 | in data that the schema describes, the visitors of a plan one after another convert what the objects of the document say of each |
| `SchemaRegistration.MarkedIsSaidInTurn` | packages/schema/src/SchemaRegistry.ts:71-80 | converting what the tree marks, visitor after visitor, is converting what the document says |
| `HydrationVisitors.VisitThrowsIff` | packages/schema/src/SchemaRegistry.ts:74-79 | a visitor fails exactly when one of its paths is caught at a string of the data as it was that no visitor before it has converted |
| `HydrationVisitors.StringInTurn` | packages/schema/src/SchemaRegistry.ts:74-79 | the strings that visitors leave are those of the data that none of them has converted |
| `HydrationVisitors.SwappedUnlessContested` | packages/schema/src/SchemaRegistry.ts:71-80 | two visitors can be exchanged exactly when no string is visited by both and converted by them to different things |
| `HydrationVisitors.InAnyOrder` | packages/schema/src/SchemaRegistry.ts:71-80 | visitors that contest no string may come in any order |
| `HydrationVisitors.HydrateInTurn` | packages/schema/src/SchemaRegistry.ts:74-79 | one visitor after another, until one fails; one without paths is passed over |
| `HydrationVisitors.ShapedInTurn` | packages/schema/src/SchemaRegistry.ts:71-80 | on data that the schema describes, each visitor converts what is marked for it |
| `HydrationVisitors.ShapedKept` | packages/schema/src/utils.ts:159-167 | conversions keep data as the schema describes it, so that every visitor finds it so |
| `SchemaRegistration.RewritingPreservesPlans` | packages/schema/src/SchemaRegistry.ts:89-180 | walking the rewritten objects again, references resolved by the registry, gives every schema the plan it had as first written |
| `SchemaRegistration.RewrittenUnfolds` | packages/schema/src/SchemaRegistry.ts:89-180 | objects whose sub-schemas were overwritten by references still have a tree each, so the theorem above applies to them |
| `SchemaRegistration.SchemaRegistry.CachedPlansOfRewrittenTrees` | packages/schema/src/SchemaRegistry.ts:89-219 | in every reachable state the rewritten objects have trees, and every cached plan is the plan of the rewritten tree of its schema |
| `SchemaDocument.EveryDocumentUnfolds` | packages/schema/src/SchemaRegistry.ts:89-180 | every finite document with acyclic sub-schemas and references and distinct ids has a tree for each object, so the theorems above apply to it |
| `SchemaDocument.UnfoldingIsUnique` | packages/schema/src/SchemaRegistry.ts:89-180 | a document has only one tree for each object |
| `SchemaWalk.BuildHydrationPlan` | packages/schema/src/utils.ts:49-56 | the plain recursive walk computes the reference meaning of the tree for every visitor, and exactly the path texts that the document gives |
| `SchemaWalk.WalkTransparent` | packages/schema/src/utils.ts:58-108 | one node of that walk adds the meaning of its tree under the current path |
| `SchemaWalk.BuildPlanFromContext` | packages/schema/src/utils.ts:26-37 | the plan shows for each visitor what its context collected, and has no empty entries |
| `SchemaWalk.ComposeAdditionalProperties` | packages/schema/src/utils.ts:117-146 | a sub-plan goes below `*`, with the static keys as its exclusion, for each visitor that it is not empty for |
| `SchemaPlan.PartsPlanConcat` | packages/schema/src/utils.ts:58-108 | the meaning of a list of parts is compositional |
| `SchemaPlan.NoPathsNoStars` | packages/schema/src/utils.ts:127-146 | an envelope without paths has no star exclusions either |
| `SchemaDocument.EveryTreeIsStepwise` | packages/schema/src/SchemaRegistry.ts:89-180 | every sub-schema is at most one step below its parent, and only `additionalProperties` stands for any key |
| `HydrationPaths.PartsOfRender` | packages/schema/src/utils.ts:164-166 | splitting a written path by periods gives back its segments |
| `HydrationPaths.ClassifyText` | packages/schema/src/utils.ts:180-230 | each segment text is read as the step that it was written for: every key, all elements, one element, or a property |
| `HydrationPaths.RenderInjective` | packages/schema/src/utils.ts:58-108 | different paths over plain keys never read alike |
| `HydrationPlans.PlanPaths` | packages/schema/src/utils.ts:58-108 | the path texts of a plan are the rendered token paths of the tree |
| `HydrationPlans.ExclusionsFound` | packages/schema/src/utils.ts:130-134 | if every path can be written and has one converting `additionalProperties`, each `*` finds exactly the keys of its own node to skip |
| `HydrationPlans.ExclusionsWellFormed` | packages/schema/src/utils.ts:58-108 | every star exclusion lies on a path of the plan, so that it can be written if the paths can |
| `HydrationPlans.PathsReachVisited` | packages/schema/src/utils.ts:169-241 | the paths of a plan, with their exclusions, reach exactly the locations that are found when the schema is walked beside the data and `additionalProperties` looks into arrays as well |
| `Hydration.JsonData.ApplyHydration` | packages/schema/src/utils.ts:159-167 | if the paths of the plan can be written, applying it fails exactly when one of them is caught; otherwise it converts, in place, exactly the strings that they reach, which are the marked ones exactly when none is misplaced; data that the schema describes has neither trouble |
| `Hydration.JsonData.ApplyHydrationTwice` | packages/schema/src/utils.ts:159-167 | applying a plan twice is applying it once: the second time nothing fails and nothing changes |
| `HydrationRuns.HydratedIsFinished` | packages/schema/src/utils.ts:159-167 | data that was hydrated without failure can be hydrated again, to no effect |
| `HydrationRuns.ShapedIsHydrated` | packages/schema/src/utils.ts:159-167 | in data that the schema describes no path fails and no string is misplaced |
| `HydrationRuns.HydrationThrowsIff` | packages/schema/src/utils.ts:159-196 | a plan fails on some data exactly when, in the data as it was, a path is caught: it reaches a string with nothing but `*` left, one of the characters that the `*` enumerates converts, and the string is not one that converts and that an earlier path has reached |
| `HydrationReach.ThrowsIfStuck` | packages/schema/src/utils.ts:169-241 | interpreting one path fails exactly when it reaches a string with nothing but `*` left and one of the characters that the `*` enumerates converts |
| `HydrationReach.SomeThrowsIfCaught` | packages/schema/src/utils.ts:164-166 | paths in a row fail exactly when one is stuck at a string of the data as it was that no earlier path has converted |
| `HydrationRuns.ThrowsWhereGrabbed` | packages/schema/src/utils.ts:180-196 | in terms of schema and data: hydration fails only at a string below which the schema has nothing but `additionalProperties`, down to a node that converts, if they come to a character that converts; and it does fail there unless the string is itself one to convert |
| `HydrationRuns.PathsGrab` | packages/schema/src/utils.ts:180-196 | the paths of a plan enumerate a character at a location exactly when the schema has such `additionalProperties` there |
| `HydrationRuns.ReachedUnlessMisplaced` | packages/schema/src/utils.ts:159-167 | converting what is reached is converting what is marked exactly when no convertible string is the one but not the other |
| `HydrationRuns.MisplacedIsStray` | packages/schema/src/utils.ts:180-196 | with one converting `additionalProperties` per path, misplaced strings are exactly those that are visited and not marked |
| `HydrationReach.ThrowsLess` | packages/schema/src/utils.ts:159-196 | converting strings makes no path fail that did not fail before |
| `HydrationMeaning.VisitedUnlessStray` | packages/schema/src/utils.ts:180-196 | converting what is visited is converting what is marked exactly when no convertible string is visited that is not marked |
| `HydrationMeaning.ShapedVisitsMarked` | packages/schema/src/utils.ts:180-196 | where a converting `additionalProperties` meets neither array nor string, only marked places are visited |
| `HydrationMeaning.RewrittenAlike` | packages/schema/src/utils.ts:169-241 | two sets of locations give the same result exactly when they agree on the convertible strings |
| `HydrationFailures.StrayElement` | packages/schema/src/utils.ts:180-196 | an array that is valid by another alternative is enumerated by `*`, and its strings are converted although the schema does not mark them |
| `HydrationFailures.CharacterThrows` | packages/schema/src/utils.ts:180-191 | a string that is valid by another alternative is enumerated by `*`, and hydration fails if one of its characters converts |
| `HydrationFailures.MissedKey` | packages/schema/src/utils.ts:130-134 | where two alternatives exclude different keys from their converting `additionalProperties`, the exclusion of the last one is all that `*` knows of, and a marked value is left a string |
| `Hydration.JsonData.ApplyAtPath` | packages/schema/src/utils.ts:169-241 | interpreting one path fails exactly when the value makes it, and otherwise rewrites exactly the locations that the path reaches; either way it changes nothing in memory but scalars of the nodes of that value |
| `Hydration.JsonData.ApplyHere` | packages/schema/src/utils.ts:185-194 | one property or element is converted in place if the path ends there, descended into if not; nothing else of its node changes |
| `Hydration.JsonData.ApplyToProperty` | packages/schema/src/utils.ts:230-241 | a property is visited if the value is an object that has it |
| `Hydration.JsonData.ApplyToAnyKey` | packages/schema/src/utils.ts:180-196 | `*` visits the keys of an object and the indices of an array that are not excluded, and fails on a string with a character to convert |
| `Hydration.JsonData.ApplyToChars` | packages/schema/src/utils.ts:180-195 | the characters of a string are visited, never changed, and make the path fail if it would convert one |
| `Hydration.JsonData.ApplyToFields` | packages/schema/src/utils.ts:184-195 | every key that is not excluded is rewritten, in whatever order, and no other; one that fails ends the loop |
| `Hydration.JsonData.ApplyToItems` | packages/schema/src/utils.ts:184-214 | every element whose index is not excluded is rewritten, and no other; one that fails ends the loop |
| `Hydration.JsonData.ApplyToElements` | packages/schema/src/utils.ts:201-214 | `key[]` visits the elements of an array and nothing else |
| `Hydration.JsonData.ApplyToElement` | packages/schema/src/utils.ts:215-229 | `key[i]` visits one element, if there is one |
| `HydrationRuns.PlanReachesVisited` | packages/schema/src/utils.ts:159-167 | with one converting `additionalProperties` per path, the paths of a plan together reach exactly the locations to be visited |
| `JsonHeap.ReadFrame` | packages/schema/src/utils.ts:169-241 | the value that a cell shows depends only on its own nodes |
| `JsonHeap.SlotAssigned` | packages/schema/src/utils.ts:188-191 | assigning a scalar to one property or element changes what that one shows and nothing else of the node |
| `JsonHeap.SlotChanged` | packages/schema/src/utils.ts:194 | changes within the value of one property leave its siblings alone, since they share no node |
| `JsonHeap.EveryValueHasAPlace` | packages/schema/src/utils.ts:159-167 | every JSON value is shown by some data in memory that the theorems apply to |
| `HydrationMeaning.RewriteAt` | packages/schema/src/utils.ts:169-241 | what the specification of rewriting means at a location: a string at a marked location becomes what the visitor makes of it, if anything, and every other value keeps its kind and stays |
| `HydrationMeaning.RewriteTwice` | packages/schema/src/utils.ts:159-167 | rewriting at one set of locations and then at another is rewriting at their union, when conversions leave no strings |
| `SerializeGraph.Serialize` | packages/client/src/protocol/serialization.ts:37-39 | a circular reference is reported exactly when a container reachable from the value is its own descendant; otherwise the result encodes the tree that the value unfolds to, shared sub-objects included |
| `SerializeGraph.SerializeRecursive` | packages/client/src/protocol/serialization.ts:41-144 | an encoding fails exactly when an ancestor or a cycle lies below the value; the recursion ends because the nodes off the ancestor path become fewer, and the shared set is left as it was found |
| `SerializeGraph.Transfer` | packages/client/src/protocol/serialization.ts:37-39 | encoding an acyclic graph and decoding it gives back its unfolding exactly when that holds no look-alike of a marker |
| `SerializeGraph.BlockedStep` | packages/client/src/protocol/serialization.ts:97-100 | being blocked by an ancestor or a cycle is decided by the children |
| `SerializeGraph.UnfoldingUnique` | packages/client/src/protocol/serialization.ts:102-135 | a graph node unfolds to at most one tree |
| `SerializeGraph.UnfoldedIsUnblocked` | packages/client/src/protocol/serialization.ts:97-135 | a node that unfolds to a finite tree is on no cycle |
| `WireRoundTrip.RoundTrip` | packages/client/src/protocol/serialization.ts:41-211 | decoding the encoding of a value gives the value back exactly when no object in it looks like a marker |
| `WireRoundTrip.CompositeRoundTrip` | packages/client/src/protocol/serialization.ts:104-132 | decoding inverts the encoding of an array, object, map or set exactly when nothing in it looks like a marker |
| `WireRoundTrip.EncodingIsJson` | packages/client/src/protocol/serialization.ts:41-144 | what the encoder hands on is JSON: ordinary numbers, names listed once and in property order, texts of its own making |
| `WireMeaning.EncodedIsSent` | packages/client/src/protocol/serialization.ts:41-144 | the encoding of a value is its wire form and nothing else is: primitives as they are, the other types as a marker object with its tag, type name and text, a map as entries of key and value, an object under its own names |
| `WireMeaning.LooksAre` | packages/client/src/protocol/serialization.ts:21-28 | an object is taken for a marker exactly if its tag is true and its type is one of the six |
| `WireMeaning.MarkerDecoded` | packages/client/src/protocol/serialization.ts:174-189 | a marker from elsewhere, its properties in any order, is decoded from its text by its type; of an unknown type it is a plain object |
| `WireMeaning.CollectionDecoded` | packages/client/src/protocol/serialization.ts:190-197 | a set and a map are rebuilt from the members that the text lists |
| `WireMeaning.UntaggedDecoded` | packages/client/src/protocol/serialization.ts:202-208 | without the tag an object is decoded property by property |
| `WireMeaning.SetMembers` | packages/client/src/protocol/serialization.ts:194-197 | a rebuilt set holds a repeated primitive once, and every object as often as it is given |
| `WireMeaning.SetGrows` | packages/client/src/protocol/serialization.ts:194-197 | members that come later stand later |
| `WireMeaning.MapEntries` | packages/client/src/protocol/serialization.ts:190-193 | a rebuilt map has the keys of the set rebuilt from its keys, in that order; a primitive key has the last value that it is given, and an object each of its own |
| `WireCodecs.LawfulCodecExists` | packages/client/src/protocol/serialization.ts:37-39 | some library functions meet the laws that the decoding theorems ask of them |
| `WireCodecs.TextCut` | packages/client/src/protocol/serialization.ts:104-132 | in the code that shows this, no text of a node is the beginning of another, so texts are read back uniquely |
| `WireRoundTrip.MakeSetKeeps` | packages/client/src/protocol/serialization.ts:194-197 | rebuilding a set keeps its members and their order |
| `WireRoundTrip.MakeMapKeeps` | packages/client/src/protocol/serialization.ts:190-193 | rebuilding a map keeps its entries and their order |
| `WireRoundTrip.BytesSurvive` | packages/client/src/protocol/serialization.ts:73-80 | an array buffer survives the text form |
| `WireRoundTrip.BinaryOf` | packages/client/src/protocol/serialization.ts:74-78 | the chunked loop writes one character per byte, whatever the length |
| `WireRoundTrip.BytesOf` | packages/client/src/protocol/serialization.ts:176-183 | the reading loop gives one byte per character, and so inverts the writing one |
| `StorageAgreement.RunBoth` | packages/client/src/storage/SQLiteStorage.ts:1040-1351 | over every run of saves, key additions, deletions, id migrations and cache-key removals from a common state, both backends show the same records, cache-key sets and events, namely those of the abstract run |
| `StorageMeaning.SaveMeans` | packages/client/src/storage/InMemoryStorage.ts:545-553 | field by field, what the abstract save leaves: the last record of the batch for an entity, with its keys and no others; other records untouched |
| `StorageMeaning.AddMeans` | packages/client/src/storage/InMemoryStorage.ts:615-647 | a record that exists gains the keys that are added to it, and none comes into being |
| `StorageMeaning.DeleteMeans` | packages/client/src/storage/InMemoryStorage.ts:555-563 | exactly the named records go |
| `StorageMeaning.MigrateMeans` | packages/client/src/storage/InMemoryStorage.ts:576-597 | if the new ids are distinct: a record that an entry names goes to the new id with the effective and server data, the flag and the time of the entry, and its own revision, position, metadata and keys; every other record stays as it is; and there are no more |
| `StorageMeaning.DeleteKeysMeans` | packages/client/src/storage/InMemoryStorage.ts:133-145 | what is left of records and events holds a key outside the list, with its data and exactly its keys outside the list |
| `StorageMeaning.RemoveKeyMeans` | packages/client/src/storage/InMemoryStorage.ts:599-613 | the same for one key and the records, events untouched |
| `StorageMeaning.FilterDivides` | packages/client/src/storage/InMemoryStorage.ts:529-543 | a filter and its opposite divide the count, and what is counted passes |
| `StorageMeaning.CountedAre` | packages/client/src/storage/InMemoryStorage.ts:529-543 | without a filter the records of the collection are counted, or those of them that hold the key |
| `StorageMeaning.RevisionsAre` | packages/client/src/storage/InMemoryStorage.ts:663-675 | a revision is reported exactly for a record of the collection that has one, under its id |
| `StorageAgreement.SameReadings` | packages/client/src/storage/SQLiteStorage.ts:1414-1441 | after a run both give the same count and revisions; the counts by collection, cache key and filter agree exactly when the key is not empty or every counted record holds the empty key |
| `StorageAgreement.StepKeyed` | packages/client/src/storage/SQLiteStorage.ts:1277-1308 | no operation leaves a record without a cache key |
| `StorageAgreement.StepsKeyed` | packages/client/src/storage/SQLiteStorage.ts:1277-1308 | no run of operations leaves a record without a cache key |
| `StorageRecords.HeldKeyAgreement` | packages/client/src/storage/InMemoryStorage.ts:603-613 | the in-memory removal, which looks only at holders of the key, and the SQL one, which deletes every orphan, agree exactly when every record has a key |
| `StorageRecords.HeldKeysAgreement` | packages/client/src/storage/InMemoryStorage.ts:141-145 | a list of in-memory removals, in any order and with repeats, leaves what holds a key outside the list |
| `StorageRecords.WithoutKeysTwice` | packages/client/src/storage/SQLiteStorage.ts:282-293 | removals compose to the removal of the union |
| `StorageRecords.InTurnIsAtOnce` | packages/client/src/storage/InMemoryStorage.ts:576-597 | the in-memory loop is one simultaneous renaming if sources are distinct and no entry moves a record to a later entry's source |
| `StorageRecords.InTurnUnlessChained` | packages/client/src/storage/InMemoryStorage.ts:576-597 | with distinct sources and distinct targets it is one exactly when no entry moves a record to a later entry's source, whatever the records hold |
| `StorageRecords.MigratedStep` | packages/client/src/storage/InMemoryStorage.ts:577-596 | one turn of the loop extends the simultaneous renaming by its entry |
| `StorageRecords.MigratedInAnyOrder` | packages/client/src/storage/InMemoryStorage.ts:576-597 | the outcome of a simultaneous renaming does not depend on the order of the entries, if no two move records to one place |
| `StorageRecords.MigratedConserves` | packages/client/src/storage/InMemoryStorage.ts:576-597 | a simultaneous renaming is one to one exactly when the new ids are distinct; then no record is lost or merged, and each keeps its cache keys, revision, position and client metadata |
| `StorageRecords.SwappingIdsLosesARecord` | packages/client/src/storage/InMemoryStorage.ts:576-597 | two ids swapped in turn lose a record |
| `StorageRecords.SavedOne` | packages/client/src/storage/InMemoryStorage.ts:549-553 | a save loop extends the abstract save by one record |
| `StorageRecords.AddedOne` | packages/client/src/storage/InMemoryStorage.ts:632-644 | an addition loop extends the abstract addition by one entry |
| `StorageRecords.EmptyKeyCount` | packages/client/src/storage/InMemoryStorage.ts:529-543 | counting with an empty cache key differs from counting without one exactly when a counted record lacks the empty key |
| `MemoryStorage.StorageKeyInjective` | packages/client/src/storage/InMemoryStorage.ts:451-453 | the composite string key is injective for collection names without a colon |
| `MemoryStorage.ViewPut` | packages/client/src/storage/InMemoryStorage.ts:545-547 | setting a map entry changes the view at one entity |
| `MemoryStorage.ViewDrop` | packages/client/src/storage/InMemoryStorage.ts:555-557 | deleting a map entry removes one entity from the view |
| `MemoryStorage.InMemoryStorage.SaveReadModels` | packages/client/src/storage/InMemoryStorage.ts:549-553 | a save replaces data and cache keys, the last record of an entity winning |
| `MemoryStorage.InMemoryStorage.AddCacheKeysToReadModels` | packages/client/src/storage/InMemoryStorage.ts:632-644 | keys are added to existing records and to no others |
| `MemoryStorage.InMemoryStorage.DeleteReadModels` | packages/client/src/storage/InMemoryStorage.ts:559-563 | exactly the named records go |
| `MemoryStorage.InMemoryStorage.MigrateReadModelIds` | packages/client/src/storage/InMemoryStorage.ts:576-597 | the loop is the fold of single renamings, and the simultaneous one if sources are distinct and no entry moves a record to a later entry's source |
| `MemoryStorage.InMemoryStorage.RemoveCacheKeyFromReadModels` | packages/client/src/storage/InMemoryStorage.ts:603-613 | holders lose the key, and go if it was their last |
| `MemoryStorage.InMemoryStorage.RemoveCacheKeyFromEvents` | packages/client/src/storage/InMemoryStorage.ts:422-435 | events that hold the key lose it, and go if it was their last |
| `MemoryStorage.InMemoryStorage.DeleteCacheKeys` | packages/client/src/storage/InMemoryStorage.ts:133-145 | key records, events and read models after a list of deletions |
| `MemoryStorage.InMemoryStorage.GetReadModelCount` | packages/client/src/storage/InMemoryStorage.ts:659-661 | the map size is the number of entities shown |
| `MemoryStorage.InMemoryStorage.CountReadModels` | packages/client/src/storage/InMemoryStorage.ts:529-543 | the number of records with the cache key, if a non-empty one is given, that pass the filter |
| `MemoryStorage.InMemoryStorage.GetReadModelRevisions` | packages/client/src/storage/InMemoryStorage.ts:663-673 | the revision pairs of a collection, each id once |
| `MemoryStorage.InMemoryStorage.GetEvictableCacheKeys` | packages/client/src/storage/InMemoryStorage.ts:178-200 | unheld, unfrozen keys without children: no persistent key while an ephemeral one is left, none more recently used than one left of the same policy, and in that order |
| `SqlDatabase.LocalSqliteDb.ExecBatch` | packages/client/src/storage/LocalSqliteDb.ts:201-220 | all statements take effect in order, or none does |
| `SqlDatabase.RunPrefixFails` | packages/client/src/storage/LocalSqliteDb.ts:211-219 | a batch whose beginning fails has no outcome |
| `SqliteTables.SaveAgreement` | packages/client/src/storage/SQLiteStorage.ts:1079-1155 | SQL adds saved keys and memory replaces them: the outcomes agree exactly when the last record of each entity names every key that the entity has or is given |
| `SqliteTables.AddAgreement` | packages/client/src/storage/SQLiteStorage.ts:1323-1351 | the junction insert leaves a pair without a row exactly when an addition with keys names a missing record; otherwise it is the abstract addition |
| `SqliteTables.DeleteAgreement` | packages/client/src/storage/SQLiteStorage.ts:1157-1187 | the two deletes per table are the abstract deletion |
| `SqliteTables.RemoveAgreement` | packages/client/src/storage/SQLiteStorage.ts:1277-1308 | key delete and orphan delete are the abstract removal on every table |
| `SqliteTables.KeyRemovedView` | packages/client/src/storage/SQLiteStorage.ts:827-841 | key delete and orphan delete are the abstract removal on the event tables |
| `SqliteTables.ShownView` | packages/client/src/storage/SQLiteStorage.ts:1079-1155 | tables that show a view collection by collection have that view and no pair without a row |
| `SqliteTables.Group` | packages/client/src/storage/SQLiteStorage.ts:1083-1092 | grouping by collection keeps each group in batch order and loses nothing |
| `SqliteTables.SavedRow` | packages/client/src/storage/SQLiteStorage.ts:1114-1127 | the upsert leaves the last record of each id |
| `SqliteMigration.MigrateAgreement` | packages/client/src/storage/SQLiteStorage.ts:1189-1267 | in whatever order the engine updates rows: if no key is violated, the two updates per table are together the simultaneous renaming, and with free targets none is |
| `SqliteMigrationOrders.MigrationSucceedsInEveryOrder` | packages/client/src/storage/SQLiteStorage.ts:1189-1267 | a batch succeeds in every order of the engine exactly when each entry whose source exists moves it to its own id or to one that is not there, and no two move to one |
| `SqliteMigrationOrders.RowsRenamedInEveryOrder` | packages/client/src/storage/SQLiteStorage.ts:1228-1246 | the same for the rows of one collection |
| `SqliteMigrationOrders.KeysRenamedInEveryOrder` | packages/client/src/storage/SQLiteStorage.ts:1248-1262 | and for the junction rows |
| `SqliteMigrationOrders.OrderDecides` | packages/client/src/storage/SQLiteStorage.ts:1228-1246 | where one entry moves a record to the place that another entry takes one from, one order of the two fails and the other does not |
| `SqliteMigrationOrders.MigrationsAgree` | packages/client/src/storage/SQLiteStorage.ts:1189-1267 | with distinct sources and targets, SQL succeeds and shows what the in-memory loop shows, whatever the order of the engine, exactly when targets are free and no entry moves a record to a later entry's source |
| `SqliteMigrationRings.MigrationSucceedsInSomeOrder` | packages/client/src/storage/SQLiteStorage.ts:1189-1267 | with distinct sources, a batch succeeds in some order of the engine exactly when the new ids are distinct and no records move to each other's places in a ring |
| `SqliteMigrationRings.SucceedingWaits` | packages/client/src/storage/SQLiteStorage.ts:1228-1246 | an order succeeds only if every entry comes after the one that leaves its target |
| `SqliteMigrationRings.Arranged` | packages/client/src/storage/SQLiteStorage.ts:1228-1246 | without a ring there is an order in which every entry comes after the one that it waits for |
| `SqliteMigrationRings.RingWaits` | packages/client/src/storage/SQLiteStorage.ts:1228-1246 | with a ring there is none |
| `SqliteMigration.RenamedRowsShow` | packages/client/src/storage/SQLiteStorage.ts:1228-1246 | an update of the rows that succeeds, in whatever order, shows the simultaneous renaming |
| `SqliteMigration.RenamedRowsFit` | packages/client/src/storage/SQLiteStorage.ts:1228-1246 | an update of the rows succeeds, in whatever order, only if the ids after it are distinct |
| `SqliteMigration.RenamedKeysShow` | packages/client/src/storage/SQLiteStorage.ts:1248-1262 | an update of the junction rows that succeeds, in whatever order, shows the simultaneous renaming, if the new ids are distinct |
| `SqliteMigration.FreeRowsRenamed` | packages/client/src/storage/SQLiteStorage.ts:1228-1246 | with free targets no order of the rows violates the primary key |
| `SqliteMigration.FreeKeysRenamed` | packages/client/src/storage/SQLiteStorage.ts:1248-1262 | with free targets no order of the junction rows violates their key |
| `SqliteMigration.SelectedMigrated` | packages/client/src/storage/SQLiteStorage.ts:1199-1208 | the entries of one collection decide what happens in it |
| `SqlJunctions.DeletesFirst` | packages/client/src/storage/SQLiteStorage.ts:1353-1397 | on one junction, all deletes first and all inserts last is one operation after another exactly when nothing is added to a pair before its last removal, save for the value that is added afterwards |
| `SqlJunctions.OncePerParentOrderly` | packages/client/src/storage/SQLiteStorage.ts:1353-1397 | a batch in which each parent appears once meets that condition |
| `SqlJunctions.RepeatedParentDiffers` | packages/client/src/storage/SQLiteStorage.ts:1353-1397 | a parent that appears twice may break it |
| `SqlJunctions.SyncedByJunction` | packages/client/src/storage/SQLiteStorage.ts:1362-1384 | operations on different junctions do not touch each other |
| `SqlJunctions.DiffApplied` | packages/client/src/core/read-model-store/ReadModelStore.ts:1071-1090 | a diff turns the old child set of its parent into the new one, leaves other parents alone, and keeps the stored value of every child that stays |
| `SqlJunctions.AppliedMeans` | packages/client/src/storage/SQLiteStorage.ts:1353-1397 | one operation, pair by pair: those of other parents stay; of its own, a pair that is not removed keeps its value, one that is added otherwise has the value of the first child of that id, and no more |
| `SqlJunctions.DiffsApplied` | packages/client/src/core/read-model-store/ReadModelStore.ts:1046-1097 | after a batch of diffs, one after another, each parent of the batch has exactly its new children |
| `SqlJunctions.OthersUntouched` | packages/client/src/core/read-model-store/ReadModelStore.ts:1046-1097 | a batch of diffs, one after another, leaves the children of every parent outside it as they were |
| `SqlJunctions.DiffsInPhases` | packages/client/src/storage/SQLiteStorage.ts:1353-1397 | the batch as it is run, all deletes first: each of its parents has exactly its new children, those that stay keep their values, and other parents have their old children |
| `SqlKeyRemoval.KeysDroppedFaithful` | packages/client/src/storage/SQLiteStorage.ts:282-293 | any list of deletions leaves exactly the events and read models that hold a key outside the list, each with exactly those keys |
| `SqlKeyRemoval.KeysDroppedJunctions` | packages/client/src/storage/SQLiteStorage.ts:1287-1298 | no junction row outlives its parent, and a parent that stays keeps all its rows |
| `JunctionParents.SaveKeepsParents` | packages/client/src/storage/SQLiteStorage.ts:1079-1155 | a save leaves every junction row with its parent |
| `JunctionParents.AddKeepsParents` | packages/client/src/storage/SQLiteStorage.ts:1323-1351 | so does an addition of cache keys |
| `JunctionParents.DeleteKeepsParents` | packages/client/src/storage/SQLiteStorage.ts:1157-1187 | a deletion does exactly when none of the deleted records is a parent |
| `JunctionParents.MigrateKeepsParents` | packages/client/src/storage/SQLiteStorage.ts:1189-1267 | an id migration that succeeds does exactly when no parent is renamed without another record taking its id |
| `JunctionParents.RemovalKeepsParents` | packages/client/src/storage/SQLiteStorage.ts:273-293 | a list of cache-key removals does exactly when every parent has a cache key to begin with |
| `JunctionParents.TrimKeepsParents` | packages/client/src/storage/SQLiteStorage.ts:1277-1308 | so does the removal of one key from the records |
| `JunctionParents.SyncKeepsParents` | packages/client/src/storage/SQLiteStorage.ts:1353-1397 | a junction synchronisation does exactly when every parent that is given a child exists |
| `SqlKeyRemoval.DoomedRow` | packages/client/src/storage/SQLiteStorage.ts:1289-1296 | the rows whose junction pairs are deleted first are exactly those that become orphans |
| `SqlBatches.SaveStatements` | packages/client/src/storage/SQLiteStorage.ts:1079-1155 | running the built list saves on every table |
| `SqlBatches.MigrateStatements` | packages/client/src/storage/SQLiteStorage.ts:1189-1267 | running the built list renames on every table, or fails if the renaming of one violates a key in the order that the engine takes |
| `SqlBatches.SyncStatements` | packages/client/src/storage/SQLiteStorage.ts:1353-1397 | running the built list performs all deletes and then all inserts |
| `SqlBatches.PhasesAreSequential` | packages/client/src/storage/SQLiteStorage.ts:1353-1397 | all deletes and then all inserts is one operation after another exactly when the batch is orderly on every junction, as it is when each parent appears once |
| `SqliteStorage.SQLiteStorage.SaveReadModels` | packages/client/src/storage/SQLiteStorage.ts:1079-1155 | the batch succeeds and is the abstract save exactly under the condition above |
| `SqliteStorage.SQLiteStorage.AddCacheKeysToReadModels` | packages/client/src/storage/SQLiteStorage.ts:1323-1351 | the batch succeeds and is the abstract addition when records exist |
| `SqliteStorage.SQLiteStorage.DeleteReadModels` | packages/client/src/storage/SQLiteStorage.ts:1157-1187 | the batch succeeds and is the abstract deletion |
| `SqliteStorage.SQLiteStorage.MigrateReadModelIds` | packages/client/src/storage/SQLiteStorage.ts:1189-1267 | a batch with distinct sources that succeeds is the simultaneous renaming, in whatever order the engine updates rows; one that violates a key changes nothing; one with free targets succeeds, and one that succeeds keeps ids distinct and has no ring |
| `SqliteStorage.SQLiteStorage.GetEvictableCacheKeys` | packages/client/src/storage/SQLiteStorage.ts:371-384 | the same of those whose hold count is zero: no persistent key while an ephemeral one is left, none more recently used than one left of the same policy, and in that order |
| `SqliteStorage.SQLiteStorage.BuildRemoveCacheKeyFromReadModels` | packages/client/src/storage/SQLiteStorage.ts:1277-1308 | the list for one key trims every collection and its junctions |
| `SqliteStorage.SQLiteStorage.RemoveCacheKeyFromReadModels` | packages/client/src/storage/SQLiteStorage.ts:1269-1275 | the abstract removal of one key |
| `SqliteStorage.SQLiteStorage.DeleteCacheKeys` | packages/client/src/storage/SQLiteStorage.ts:273-293 | the abstract removal of a list, with junction rows going exactly with their parents |
| `SqliteStorage.SQLiteStorage.SyncJunctions` | packages/client/src/storage/SQLiteStorage.ts:1353-1397 | the batch is one operation after another exactly when it is orderly; rows and events stay as they were |
| `SqliteStorage.SQLiteStorage.GetReadModelCount` | packages/client/src/storage/SQLiteStorage.ts:1414-1428 | the sum over the tables is the number of entities shown |
| `SqliteStorage.SQLiteStorage.CountReadModels` | packages/client/src/storage/SQLiteStorage.ts:1011-1038 | the number of rows with the cache key, if one is given, that pass the filter |
| `SqliteStorage.SQLiteStorage.GetReadModelRevisions` | packages/client/src/storage/SQLiteStorage.ts:1430-1441 | the revision pairs of a collection |
| `StableSort.AnyStableSort` | packages/client/src/storage/sort-read-models.ts:116-130 | any stable sort under a consistent comparator returns one and the same list |
| `StableSort.StableSortedSorts` | packages/client/src/storage/sort-read-models.ts:116-130 | the sorted list is ordered and keeps equivalent elements in their given order |
| `StableSort.StableSortedMultiset` | packages/client/src/storage/sort-read-models.ts:116-130 | the sorted list is a permutation |
| `ReadModelSort.SortIsStable` | packages/client/src/storage/sort-read-models.ts:110-131 | with sortable columns the composite sort is that list |
| `ReadModelOrder.SortedByTerms` | packages/client/src/storage/sort-read-models.ts:110-131 | of two records in the sorted list the first term whose column tells them apart decides: its value in the earlier record stands first in the direction of the term, numbers, integers, strings and collated strings by their own order, false before true, undefined before the rest |
| `ReadModelOrder.TiesKeepOrder` | packages/client/src/storage/sort-read-models.ts:110-131 | records that no term tells apart stay in their given order |
| `ReadModelOrder.SortedByField` | packages/client/src/storage/sort-read-models.ts:52-68 | sorted by a column kept beside the data, the list runs along the id, time, revision, position or local-changes flag of the records, up or down |
| `ReadModelOrder.SortedByData` | packages/client/src/storage/sort-read-models.ts:52-78 | sorted by any other column, it runs along what the resolver reads from the parsed data, or else the property |
| `ReadModelOrder.ComparedByValue` | packages/client/src/storage/sort-read-models.ts:86-125 | the direction of one term on two values of a sortable column |
| `ReadModelOrder.BesideText` | packages/client/src/storage/sort-read-models.ts:101 | beside a string, null and the two flags stand as their names do, and numbers as they are shown |
| `ReadModelOrder.BeforeIsLexLess` | packages/client/src/storage/sort-read-models.ts:97 | raw strings are ordered by the first character in which they differ, or by length |
| `ReadModelSort.CompareOrdered` | packages/client/src/storage/sort-read-models.ts:117-129 | the composite comparator is antisymmetric and transitive on such records |
| `ReadModelSort.ConsistentIffSortable` | packages/client/src/storage/sort-read-models.ts:86-125 | whatever types its values have, a column is compared consistently exactly when it has no objects, its strings are ordered by the collation, different types read differently, and no value reads as something between two of another type whose own order is the opposite |
| `ReadModelSort.NullableText` | packages/client/src/storage/sort-read-models.ts:41-49 | a column of strings, some of them null or missing, is compared consistently exactly when null does not meet the string that it reads as |
| `ReadModelSort.ValuesChained` | packages/client/src/storage/sort-read-models.ts:86-102 | three values of a sortable column never compare in a circle |
| `ReadModelSort.BeforeTotal` | packages/client/src/storage/sort-read-models.ts:97 | raw string comparison is total |
| `ReadModelSort.UndefinedAtOneEnd` | packages/client/src/storage/sort-read-models.ts:122-123 | undefined comes first in an ascending column and last in a descending one |
| `ReadModelSort.EqualCollationIsNoOrder` | packages/client/src/storage/sort-read-models.ts:92-96 | a collation that returns 0 for different strings orders them in neither way |
| `ReadModelSort.MixedTypesCircle` | packages/client/src/storage/sort-read-models.ts:91-101 | numbers and strings in one column may compare in a circle |
| `ReadModelListing.GetReadModelsByCollection` | packages/client/src/storage/InMemoryStorage.ts:485-518 | filter, sort, offset and limit, in that order |
| `ReadModelListing.SelectedInOrder` | packages/client/src/storage/InMemoryStorage.ts:485-507 | selection from a list is selection from its beginning and then from its end, so that records stay in order |
| `ReadModelListing.SelectedAlone` | packages/client/src/storage/InMemoryStorage.ts:485-507 | a record is selected if it is of the collection, holds the cache key and passes the filter, where these are given |
| `ReadModelListing.PageIsPart` | packages/client/src/storage/InMemoryStorage.ts:511-516 | the page begins at the offset and ends after as many records as the limit says, or with the list |
| `ReadModelListing.CountReadModels` | packages/client/src/storage/InMemoryStorage.ts:529-543 | the number of selected records, an empty key counting as none |
| `ReadModelListing.CountIsListLength` | packages/client/src/storage/InMemoryStorage.ts:485-543 | the count is the length of the unpaged list exactly when the key is not empty or every selected record holds the empty key |
| `ReadModelListing.PagesConcatenate` | packages/client/src/storage/InMemoryStorage.ts:511-516 | consecutive pages of positive size concatenate to the whole list exactly when there are enough of them |
| `ReadModelListing.OffsetNeedsLimit` | packages/client/src/storage/SQLiteStorage.ts:969-977 | SQL paging, which ignores an offset without a limit, agrees with the in-memory one exactly when there is a limit, no offset, or nothing to skip |
| `Eviction.EvictableCacheKeys` | packages/client/src/storage/InMemoryStorage.ts:178-200 | at most `limit` keys, all unheld, unfrozen leaves: no persistent key while an ephemeral one is left, none more recently used than one left of the same policy, earlier places before later ones likewise |
| `Eviction.TakesLeastRecentlyUsed` | packages/client/src/storage/InMemoryStorage.ts:191-196 | of any candidates, a choice of the first ones takes the least recently used by policy and time alone |
| `Eviction.NoOrphans` | packages/client/src/storage/InMemoryStorage.ts:184-188 | deleting evicted keys leaves no surviving key pointing at a parent that was just removed |
| `Eviction.LeafBelow` | packages/client/src/storage/InMemoryStorage.ts:184-188 | a finite acyclic parent relation has a leaf |
| `Eviction.RoundTakes` | packages/client/src/storage/InMemoryStorage.ts:178-200 | a round with a positive limit takes at least one key of an acyclic store with nothing held or frozen |
| `Eviction.CycleStaysForever` | packages/client/src/storage/InMemoryStorage.ts:184-188 | keys on a parent cycle are never evicted |
| `Eviction.RoundsEmptyTheStore` | packages/client/src/storage/InMemoryStorage.ts:133-200 | with nothing held or frozen, as many rounds as there are keys empty the store exactly when the parent relation has no cycle |
| `EvictionAgreement.EvictionsAgree` | packages/client/src/storage/SQLiteStorage.ts:371-384 | both backends may evict the same lists, whatever the limit, exactly when no evictable key has a negative hold count: SQL asks for zero, memory for not above zero |
| `EvictionAgreement.QueryEvictable` | packages/client/src/storage/SQLiteStorage.ts:371-384 | the statement of the SQL backend makes such a choice of the keys that it asks for |
| `EvictionAgreement.EvictionAgreement` | packages/client/src/storage/SQLiteStorage.ts:371-384 | then the choices of the two have the same length and, place by place, the same rank, and are the same if no two evictable keys tie |
| `EvictionAgreement.SameRanks` | packages/client/src/storage/SQLiteStorage.ts:371-384 | two choices among the same keys differ only by ties |
| `ListQuery.NoStaleResult` | packages/client-react/src/useListQuery.ts:216-255 | in every interleaving, a result that changes what is shown comes from the newest issued fetch, which carries the current sort and filter |
| `ListQuery.LoadingUntilSettled` | packages/client-react/src/useListQuery.ts:164-300 | `loading` holds exactly while the status is loading or seeding, exactly until the session settles |
| `ListQuery.StatusMovesForward` | packages/client-react/src/useListQuery.ts:249-299 | status only moves forward, between any two moments of a run |
| `ListQuery.NothingAfterDestroy` | packages/client-react/src/useListQuery.ts:208-214 | after `destroy` the snapshot stays and no fetch is issued |
| `ListQuery.RunKeepsInv` | packages/client-react/src/useListQuery.ts:164-300 | over every run: the newest fetch carries the current parameters, and status, `loading` and settlement agree |
| `ListQuery.ReadyMeansData` | packages/client-react/src/useListQuery.ts:216-284 | in a run in which no signal's fetch comes back outdated before there is data, a session that is ready has been given data |
| `ListQuery.ReadyWithoutData` | packages/client-react/src/useListQuery.ts:280-284 | any such fetch makes the session ready without data, if its callback runs next |
| `ListQuery.RunSession` | packages/client-react/src/useListQuery.ts:164-300 | a session driven through any sequence of events has the state that the machine reaches, so the theorems about runs and about each next event hold of it |
| `ListQueryProgress.NewestResult` | packages/client-react/src/useListQuery.ts:216-255 | at any moment of any run, the result of the newest fetch of a live session is shown; not empty it makes an unsettled session ready and ends loading, empty it leaves it seeding; a settled session keeps its status; client ids map to the server ids that the last entry gives them |
| `ListQueryProgress.OtherResult` | packages/client-react/src/useListQuery.ts:216-222 | no other result changes what is shown |
| `ListQueryProgress.FailedFetch` | packages/client-react/src/useListQuery.ts:256-265 | a failure of the newest fetch shows as failed seeding unless the session has settled, and no other does |
| `ListQueryProgress.FailedSignal` | packages/client-react/src/useListQuery.ts:286-299 | a failed synchronisation shows as failed seeding before the session has settled and as failed synchronisation afterwards, but never hides that seeding failed |
| `ListQueryProgress.UpdateSignal` | packages/client-react/src/useListQuery.ts:273-284 | an update fetches again with the parameters as they are and shows nothing yet |
| `ListQueryProgress.ParamsApplied` | packages/client-react/src/useListQuery.ts:197-206 | new parameters fetch, the same ones do not |
| `ListQueryProgress.CallbackSettles` | packages/client-react/src/useListQuery.ts:280-284 | the callback that is due after a signal's fetch makes a live session ready, and one becomes due with each such fetch |
| `ListQueryProgress.Begins` | packages/client-react/src/useListQuery.ts:164-195 | a session begins loading, with one fetch under way and nothing to show |
| `ListQueryProgress.Destroyed` | packages/client-react/src/useListQuery.ts:208-214 | `destroy` ends it, keeps what is shown and releases the key that it has resolved |
| `ListQuery.SupersededFetchSettles` | packages/client-react/src/useListQuery.ts:280-284 | such a run: ready with no data while the newest fetch is under way |
| `ListQuery.ListQuerySession.ApplyParams` | packages/client-react/src/useListQuery.ts:197-206 | one step of the machine: a fetch is issued with new parameters; the same sort and filter, or a destroyed session, change nothing |
| `ListQuery.ListQuerySession.FetchResolves` | packages/client-react/src/useListQuery.ts:216-255 | one step of the machine: a result is shown only if its fetch is the newest and the session is alive |
| `ListQuery.ListQuerySession.FetchRejects` | packages/client-react/src/useListQuery.ts:256-265 | one step of the machine: a failure shows only if its fetch is the newest and the session has not settled |
| `ListQuery.ListQuerySession.HandleSignal` | packages/client-react/src/useListQuery.ts:273-299 | one step of the machine: a refetch, or a failure that shows by whether the session has settled |
| `ListQuery.ListQuerySession.SettlingCallback` | packages/client-react/src/useListQuery.ts:280-284 | one step of the machine: the callback settles a live session that has not settled |
| `ListQuery.ListQuerySession.DestroySession` | packages/client-react/src/useListQuery.ts:208-214 | one step of the machine: the session is dead, and the release of a resolved cache key is called |
| `QueryHolds.RunHolds` | packages/client/src/core/query-manager/QueryManager.ts:790-822 | over every run of holds, releases, lists and closed windows, by any number of windows: the counts are those of the run, and a window is recorded as a holder of a key exactly if it holds it after the run |
| `QueryHolds.CountIsLargestNet` | packages/client/src/core/query-manager/QueryManager.ts:790-822 | the count of a key is the largest number by which holds outweigh releases since any moment after the counts were last cleared |
| `QueryHolds.OneMoreEvent` | packages/client/src/core/cache-manager/CacheManager.ts:543-658 | what one more event does to a hold: the first counted hold and a list place it; the last counted release, a release of all while counted, and closing end it for the window that does so, and nothing else does |
| `QueryHolds.HoldsSinceTaken` | packages/client/src/core/cache-manager/CacheManager.ts:543-592 | a window holds a key exactly when it took it at some moment, by a list or by the first counted hold, and has not dropped it since, by the last counted release, by releasing all, or by closing |
| `QueryHolds.CountedHolds` | packages/client/src/core/query-manager/QueryManager.ts:790-811 | one window whose holds are all counted holds the key exactly while the count is positive |
| `QueryHolds.ListedStaysHeld` | packages/client/src/core/query-manager/QueryManager.ts:220-224 | a hold placed by `list` is not counted, so no release ends it: without counted holds, exactly the windows that listed a key hold it until they close |
| `QueryHolds.SessionKeepsItsHold` | packages/client-react/src/useListQuery.ts:177-222 | whatever becomes of a list-query session, its window holds exactly the keys that some result came with: a result that comes after `destroy` is held as one before, since the release of `destroy` has nothing to count down |
| `QueryHolds.ListLosesItsHold` | packages/client/src/core/query-manager/QueryManager.ts:802-811 | one counted hold and its release end the hold that a list query still needs |
| `QueryHolds.SharedCountStrands` | packages/client/src/core/query-manager/QueryManager.ts:790-811 | windows share the count: the second to hold a key is not recorded, and if the first releases before the second it stays recorded |
| `QueryHolds.HoldManagers.HoldForWindow` | packages/client/src/core/query-manager/QueryManager.ts:790-796 | the key is held in the cache manager when the count leaves zero |
| `QueryHolds.HoldManagers.ReleaseForWindow` | packages/client/src/core/query-manager/QueryManager.ts:802-811 | and released there, for the window that releases, when the count returns to zero |
| `QueryHolds.HoldManagers.ReleaseAllForWindow` | packages/client/src/core/query-manager/QueryManager.ts:817-822 | the window drops every counted key, and every count is gone |
| `QueryHolds.HoldManagers.CloseWindow` | packages/client/src/core/cache-manager/CacheManager.ts:622-658 | the window drops every key; the counts stay |
| `ViewQuery.RunHook` | packages/client-react/src/useViewQuery.ts:59-205 | over every run of emissions, restarts and unmounts, holds minus releases of a key is 1 if it is held and 0 if not, at every moment |
| `ViewQuery.HeldIsLastEmitted` | packages/client-react/src/useViewQuery.ts:59-205 | what a run leaves held is what a live session emitted last, restarted since or not, if nothing was unmounted since |
| `ViewQuery.LiveIsLastStarted` | packages/client-react/src/useViewQuery.ts:59-95 | the live session is the one started last, if all events since are emissions |
| `ViewQuery.ViewQueryHolds.ReconcileHolds` | packages/client-react/src/useViewQuery.ts:187-205 | the held set becomes the emitted set; what left is released once, what entered is held once, the overlap sees no call |
| `ViewQuery.ViewQueryHolds.OnUnmount` | packages/client-react/src/useViewQuery.ts:86-95 | after unmount every balance is 0 |
| `ViewQuery.ViewQueryHolds.OnEmit` | packages/client-react/src/useViewQuery.ts:161-170 | an emission of a session that is no longer live changes nothing |
| `ViewQuery.DeadSessionsStayDead` | packages/client-react/src/useViewQuery.ts:59-83 | a session that was replaced or unmounted never becomes live again, so its emissions change nothing at any later time |
| `TopicSubscriptions.SubscriptionRegistry.Subscribe` | demos/hypermedia-server/src/websocket.ts:38-55 | the maps stay exact inverses, no topic has an empty client set, and the socket gains exactly the topics |
| `TopicSubscriptions.SubscriptionRegistry.Unsubscribe` | demos/hypermedia-server/src/websocket.ts:57-76 | the maps stay exact inverses, the socket loses exactly the topics, and is forgotten once it has none |
| `TopicSubscriptions.SubscriptionRegistry.RemoveClient` | demos/hypermedia-server/src/websocket.ts:78-93 | the maps stay exact inverses, and the socket is forgotten with all its topics |
| `TopicSubscriptions.SubscriptionRegistry.GetMatchingClients` | demos/hypermedia-server/src/websocket.ts:95-107 | exactly the sockets with a matching pattern |
| `TopicSubscriptions.Route` | demos/hypermedia-server/src/websocket.ts:34-108 | after any run, exactly the sockets whose replayed subscriptions hold a matching pattern |
| `TopicSubscriptions.ReplayedAre` | demos/hypermedia-server/src/websocket.ts:38-93 | a socket is subscribed to a topic exactly if it subscribed at some moment and has neither unsubscribed from it nor gone since |
| `TopicSubscriptions.WildcardMatches` | demos/hypermedia-server/src/websocket.ts:23-30 | `kind:*` matches the topics that begin with `kind:` and no others |
| `TopicSubscriptions.PlainMatches` | demos/hypermedia-server/src/websocket.ts:23-30 | `*` matches every topic, and a pattern that is no wildcard itself alone |
| `SchemaMigrations.MigratingStorage.Initialize` | packages/client/src/storage/SQLiteStorage.ts:118-124 | a run goes on where the last one stopped, and completes exactly when no batch fails in it, with the whole list applied |
| `SchemaMigrations.MigratingStorage.RunMigrations` | packages/client/src/storage/SQLiteStorage.ts:1543-1576 | what has taken effect is always a beginning of the list, each migration once and in order; a run stops at its first failure and nowhere else |
| `SchemaMigrations.Boot` | packages/client/src/storage/SQLiteStorage.ts:1543-1576 | over any number of processes, each stopping where a batch fails, what has taken effect is a beginning of the list, and the whole list once a run completes; none completes exactly when a batch has failed in each |
| `SchemaMigrations.StepsInOrder` | packages/client/src/storage/SQLiteStorage.ts:1543-1576 | the steps of a list are those of its beginning and then those of its end |
| `SchemaMigrations.CurrentVersion` | packages/client/src/storage/SQLiteStorage.ts:1552-1556 | the largest recorded version |
| `IriTemplates.BaseHrefIsPath` | packages/hypermedia/src/HydraDoc.ts:565-568 | stripping gives back the path exactly when no derived variable holds a closing brace |
| `IriTemplates.VariablesReadBack` | packages/hypermedia/src/HydraDoc.ts:546-568 | reading the expansion back gives the derived variables in order exactly when none holds a comma |
| `IriTemplates.DerivedVariables` | packages/hypermedia/src/utils.ts:52-83 | the derived variables are distinct, and are exactly the mapped variables that are not empty and not in the path |
| `IriTemplates.DerivedInOrder` | packages/hypermedia/src/utils.ts:52-83 | derived variables stand in the query in the order of their mappings |
| `IriTemplates.RefusedWhen` | packages/hypermedia/src/HydraDoc.ts:549-564 | the constructor refuses for a missing id, a missing path, a path that holds `{?`, and two mappings of one derived variable, in that order, exactly; otherwise the text is the path, followed by `{?`, the variables and `}` if there are any |
| `IriTemplates.ExpansionIffVariables` | packages/hypermedia/src/HydraDoc.ts:569-571 | a template has an expansion exactly when there are derived variables, whatever they hold |
| `IriTemplates.ScanFindsVariables` | packages/hypermedia/src/utils.ts:85-97 | scanning a written path finds exactly its variables, in order |
| `IriTemplates.GetPathVariables` | packages/hypermedia/src/utils.ts:85-97 | the scanning loop collects exactly the matches of the expression |
| `IriTemplates.DeriveQueryVars` | packages/hypermedia/src/utils.ts:52-83 | the loop refuses exactly when a derived variable repeats, and otherwise keeps mapping order |
| `IriTemplates.BuildTemplateIri` | packages/hypermedia/src/utils.ts:14-40 | duplicates are refused; otherwise the expansion is appended |
| `IriTemplates.Create` | packages/hypermedia/src/HydraDoc.ts:549-564 | the checks of the constructor, in their order |
| `TextParts.SplitJoin` | packages/hypermedia/src/utils.ts:14-40 | splitting undoes joining exactly when no part holds the separator |

## Left out

- SQL text, bind parameters, table definitions, WASM and worker plumbing: foreign code.
- Sessions, commands, id mappings, saving of cached events and attachment of keys to events: the backends differ by design there.
- Deleting a whole collection, single-record variants of the batch operations, and reading records back: easy members.
- Hydration of data in which two properties share an object, which parsed JSON never has, and the `parent` argument of a visitor.
- StorageRecords.InTurnIsAtOnce: holds one way only, since with repeated targets the two renamings may still agree when records happen to be equal; with distinct targets it is exact.
- SqliteMigration.MigrateAgreement: promises nothing for a batch that names a source twice, where the engine takes one of the entries; and the pairs of one record are renamed together.
- Hydration.JsonData.ApplyHydration: is stated for schemas that convert something only below plain keys and in arrays directly under a property, since the path syntax cannot express the rest; of a hydration that fails it says only that it fails, not how much was converted by then.
- HydrationRuns.ThrowsWhereGrabbed: where the string at which a path is stuck is itself one to convert, the order of the paths decides, which is exact in `HydrationThrowsIff` only.
- SchemaRegistration.RegisterAndWalk: is stated for documents without `$ref`, since the plain walk ignores them; documents with references are covered by the registry members.
- Cyclic references between schemas: the registry refuses to resolve them, as a schema must be registered before it is referred to.
- AJV validation, compilation and error texts: library behaviour.
- Numbers are the finite doubles without -0; invalid dates, typed arrays, `Blob`, functions and symbols, the key `__proto__`, and properties inherited from prototypes are not modelled.
- Decoding of markers that no encoder writes (a `value` that is no string, map entries that are no pairs) is a failure here; the code would coerce.
- Map iteration order: storage maps, group maps and plans are visited in an arbitrary order, which covers every order; ties in eviction are therefore broken arbitrarily.
- ReadModelListing.GetReadModelsByCollection: takes the records in map order as a list, so that stability of the sort can be stated.
- SQL ordering of a listing: SQLite's collations and tie order are not part of this model.
- The ids that a cache-key removal returns: the select statement changes nothing and is omitted.
- Touching a cache key, hold counts in the stored records, and time stamps: single assignments.
- QueryHolds.RunHolds: leaves out the eviction of an ephemeral key with its last holder, the restoration of holds after a worker restart, and the end of a session, which clear or set whole entries.
- A negative limit of an eviction: `slice` and `LIMIT` read it differently.
- ReadModelSort.BeforeTotal: strings are sequences of Unicode characters, not UTF-16 units, here and in hydration.
- Other users of list and view queries (the Solid twins) follow the same protocols.
- HAL rendering, mode detection, routes, Electron bridge, devtools and UI: mostly one-branch reasoning.
