# JSON-LD processing in Dafny

This project models the parts of a JSON-LD 1.1 processor where an efficient algorithm has to
agree with a simple idea: a graph rendered as nested documents, a traversal run on an explicit
stack, a greedy matching, printers with their parsers, caches with the functions they speed up.
Each algorithm is a method in the form it has in the source, with its mutable state and loops;
what it is for is stated over values and proved for every input or every run.

## Parts

* **Serialization of RDF** (`RdfModel`, `SerializationBuild`, `ListFolding`, `RenderForest`,
  `Rendering`, `Render`, `Document`, `ObjectEquality`, `Serialization`, `Conservation`, `Contents`,
  `ListLaw`, `Losses`).
  A quad is read as a fact. Building stores each fact once; the resources that rendering nests
  form a forest, because nesting follows only a sole reference; so rendering terminates on cyclic
  graphs. `Rendering` specifies the object for a resource from its record alone and proves that
  such objects state everything below it exactly once; the methods of `Render` give those objects.
  `Document` reads objects without what they were rendered for: their statements are the facts
  spelled out, and a document is determined by the quads. `Conservation` and `Losses` say exactly
  what is lost, `Contents` on the graph alone. `ListLaw` says by positions and IRIs which quads encode
  a list, and that exactly these come out as lists, with their values in order.
* **Quads** (`Quads`, `QuadPlaces`). The iterator with nine kinds of frame refines a recursive traversal;
  `QuadPlaces` says which quads these are, once for each place in the document and in the order of places.
* **Comparison of JSON** (`Json`, `Compare`, `Symmetry`). Comparison is equality of normal forms,
  proved together with the completeness of greedy matching; `Symmetry` says when it is symmetric.
* **Caches** (`LangTag`, `SharedContexts`, `ProcessingCache`, `CacheModes`, `TermExpansion`,
  `ContextMemos`, `ShardedMemo`).
  `ProcessingCache` identifies contexts by address; it is modelled with an explicit memory of
  counted cells whose addresses are reused. `ContextMemos` follows the memo that contexts share with
  their clones through clones, changes and questions. `ShardedMemo` is modelled sequentially and under
  every interleaving of threads.
* **Vocabulary terms** (`Resolve`). Memoised depth-first resolution against the chain of
  references it follows.
* **Choice of terms** (`CompactIriFallback`, `TermSelection`, `SelectionLaws`). The best compact IRI, and
  the term selected for a value, which `SelectionLaws` reads off the value and the inverse definition alone.
* **Expansion** (`ExpansionTypes`, `ExpansionRelation`, `ExpansionUnique`, `ExpansionLaws`, `ListsOfLists`,
  `Expansion`). `ExpansionRelation` relates an element to its outcome; there is one outcome
  (`ExpansionUnique`), the methods of `Expansion` return it, and the laws say what it holds.
* **Round trips** (`Values`, `ValueRoundTrip`, `AddValue`, `PropertyRoundTrip`, `LanguageMap`, `IndexMap`,
  `NestedLists`). Compaction and expansion of values, properties, language maps, index maps and nested lists,
  five round trips, each with its exact condition.

`Wrappers` holds `Option` and `Result`, `Tallies` sums and images of multisets.

## What the proofs found

* Serialization loses facts in four ways: resources with one reference each that only lead to
  one another; a resource whose one reference is as the object of `rdf:type`; facts about
  `rdf:nil` when its one reference is the end of a folded list; and one of two top-level resources
  that are rendered the same, which takes two without a name, or under one name. A fact whose
  property or type has no identifier is not written either, nor what is nested below it.
  `ConservedExactlyWhen` gives the exact condition and `UnreachedExactlyWhen` the exact reasons.
* The same quad given twice counts as two references, so it turns a nested resource into a
  top-level one.
* An explicit `rdf:type rdf:List` on a cell of a folded list is not written.
* The documentation of comparison says that an object with a duplicate key never compares
  equal. With the duplicate in the left operand it can (`DuplicateOnTheLeft`), and then it does
  not the other way round (`EqualIsSymmetricExactlyWhen`).
* The processing cache does not compare the mode its active context was processed under, nor the
  spelling of tags. The result can depend on the mode when the context does not propagate
  (`HitAcrossModesExactlyWhen`, `WrongHit`). A hit is right whatever processing does exactly when
  both are the same (`HitRightExactlyWhen`), so a cache used under one mode and one spelling is
  never wrong (`OneUseIsEqual`).
* The comment on `Clone` says that a changed clone diverges from those it shares caches with. The
  memo of expanded terms is replaced only when something is in it: a clone that is changed before
  anything has been memoised goes on sharing it, and the context it was cloned from is then
  answered with what the clone's terms mean (`MisledByClone`). A change of mode never replaces it
  (`MisledByMode`). `SafeExactlyWhen` and `RunIsRightExactlyWhen` give the exact condition.
* A value without a language or direction is written as a bare string even where the term gives
  strings one; a language string is written bare whatever the type mapping; a tag spelled
  "@none" does not come back (`ComesBackExactlyWhen`).
* Under a `@json` term a property comes back only if it has one value, and an array of JSON only if
  adding it neither opens an array in it nor leaves less than an array
  (`PropertyComesBackExactlyWhen`).
* Under a `@json` term with an `@index` container the values are written as a map, which is read back as one
  JSON value (`MapComesBackExactlyWhen`).
* The common language of a list's items depends on their order (`CommonLangDirNeedsOrder`).

## Conventions

Resources, addresses and hashes are numbers; IRIs and terms are strings, and bytes where their
order matters. Interpretations, IRI expansion, context processing, literal parsing and relative
IRIs are parameters, with the hypotheses each theorem names. Sets and maps of the source are
visited in an arbitrary order (`:|`), so results hold for every order. `Arc::clone` and drops are
changes to counts; freeing a cell is a step of its own that may come at any later time.

## Model

| member | source | states |
|---|---|---|
| `SerializationBuild.SingleReference` | jsonld-core/src/serialization.rs:316-321 | A resource has a reference count of one exactly when there is one place in the quads of the graph where it is the object, and there its predicate is not the resource itself; so "one reference" means what rendering takes it to mean |
| `SerializationBuild.AddToGraph` | jsonld-core/src/serialization.rs:274-321 | Filing a quad adds exactly the one fact the quad states, keeps `reverse_rest` the inverse of `rest`, and counts the reference |
| `SerializationBuild.SerDataset.AddQuad` | jsonld-core/src/serialization.rs:274-322 | After each quad every graph stores exactly the facts of its quads, with exact reference counts, the terms seen and the first `rdf:nil` |
| `SerializationBuild.SerDataset.FoldIntoDefaultGraph` | jsonld-core/src/serialization.rs:66-73 | Named graphs become the graphs of the resources that name them; the default graph keeps its facts and counts |
| `SerializationBuild.FoldedFromParts` | jsonld-core/src/serialization.rs:66-73 | The same, as a fact about the graphs: what each graph stored is what the resource that names it stores |
| `ListFolding.FoldedIsCoherent` | jsonld-core/src/serialization.rs:288-321 | `reverse_rest` is the exact inverse of `rest`, and its size is bounded by `references`, on every dataset |
| `ListFolding.ChainDistinct` | jsonld-core/src/serialization.rs:326-363 | No cell occurs twice in a chain that ends at `rdf:nil`, cyclic graphs included; this is why the backward walk ends |
| `ListFolding.ChainUnique` | jsonld-core/src/serialization.rs:340-359 | From a given last cell there is one maximal chain, so every "take any element" of the walk is forced |
| `ListFolding.ListsDisjoint` | jsonld-core/src/serialization.rs:330-363 | Chains folded from different last cells share no cell and have different heads |
| `ListFolding.WalkBack` | jsonld-core/src/serialization.rs:332-363 | The walk returns the head and values of the maximal chain through the last cell, values being the `rdf:first` values met forward from that head to `rdf:nil` |
| `ListFolding.CollectLists` | jsonld-core/src/serialization.rs:326-365 | Exactly the maximal chains that end at `rdf:nil` are collected, whatever order the set is visited in |
| `ListFolding.StoreLists` | jsonld-core/src/serialization.rs:367-369 | The values are stored at the heads and nothing else changes |
| `ListFolding.FoldingUnique` | jsonld-core/src/serialization.rs:326-369 | Two runs of list folding over the same graph give the same table of lists |
| `RenderForest.PathDistinct` | jsonld-core/src/serialization.rs:371-376 | Along a path of nested resources, through folded lists too, no resource is met twice: rendering terminates on every dataset |
| `RenderForest.PathFits` | jsonld-core/src/serialization.rs:402-573 | A nesting path is no longer than the graph has resources, which bounds the recursion |
| `RenderForest.SiblingsDisjoint` | jsonld-core/src/serialization.rs:402-573 | What is nested under one value of a resource is not nested under another |
| `RenderForest.RootsDisjoint` | jsonld-core/src/serialization.rs:371-376 | What is nested under one top-level resource is not nested under another |
| `RenderForest.BelowSplits` | jsonld-core/src/serialization.rs:402-503 | The facts below a resource are its own and those below what it nests, each once |
| `SerializationBuild.LastTermsCover` | jsonld-core/src/serialization.rs:265-309 | The terms the pass is left with name `rdf:List`, `rdf:first` and `rdf:rest`, and there is one for every fact of every graph that needs it, so the unchecked unwraps of rendering are safe |
| `Rendering.StatesBelow` | jsonld-core/src/serialization.rs:402-503 | An object in which each type, value and link of its resource's record that has a name is written once under that name, nested or as a reference, states every fact below the resource once and no other, on any graph |
| `Rendering.ContentStates` | jsonld-core/src/serialization.rs:458-468 | The objects rendered for the roots of a named graph state everything written in it, each fact once |
| `Rendering.RenderedNeverFails` | jsonld-core/src/serialization.rs:575-595 | Nothing below a resource that was rendered is a literal that does not resolve: rendering fails only when something that has to be written does |
| `Render.RenderReference` | jsonld-core/src/serialization.rs:575-595 | A resource with an identifier is referred to by it, one with a literal as that value, one with neither as an empty node; the error is that of its literal |
| `Render.RenderObjectOrReference` | jsonld-core/src/serialization.rs:548-573 | A value that is referenced once and about which something is said is rendered in place; any other is exactly the reference to it |
| `Render.RenderObject` | jsonld-core/src/serialization.rs:402-503 | An empty resource gives its reference; any other the object `Renders` specifies: a list of exactly its values in order, or a node with its own identifier and each named type, graph and value of its record once; the error is that of a fact below the resource |
| `Render.RenderList` | jsonld-core/src/serialization.rs:420-429 | A folded list becomes a list object with exactly the values of the list, in order, each nested or as its reference |
| `Render.InsertProperty` | jsonld-core/src/serialization.rs:506-546 | Each value is added once under the identifier of the property, and none when it has no identifier; what the node had stays |
| `Render.RenderTypes` | jsonld-core/src/serialization.rs:437-456 | Each type with an identifier is written once under it, `rdf:List` under that of the resource recorded for it |
| `Render.RenderNode` | jsonld-core/src/serialization.rs:430-503 | A node has its identifier, its named types, its named graph, and its property, `rdf:first` and `rdf:rest` values, `rdf:first` and `rdf:rest` under the identifiers of the recorded terms |
| `Render.RenderGraph` | jsonld-core/src/serialization.rs:458-468 | A named graph holds one object for each of its roots, rendered without folded lists |
| `Render.RenderRoot` | jsonld-core/src/serialization.rs:371-376 | A top-level resource is written as a node object under its own identifier, never as a list or a value |
| `Document.RenderingUnique` | jsonld-core/src/serialization.rs:402-503 | Two renderings of a resource are equal as the document compares objects, whatever order sets are iterated in |
| `Document.SaysItsFacts` | jsonld-core/src/serialization.rs:402-595 | Read by its identifiers, values and nesting alone, a rendering says exactly the facts below its resource, each once, spelled with the names the interpretation gives |
| `Document.ContentSays` | jsonld-core/src/serialization.rs:458-468 | So does the content of a named graph |
| `Document.SameSays` | jsonld-core/src/object/node/mod.rs:769-782 | Objects that compare equal say the same things |
| `ObjectEquality.CompareObject` | jsonld-core/src/object/node/mod.rs:769-782 | The comparison as it runs, greedy over types, graphs and values and in order over lists, decides equality up to the order of what is unordered |
| `ObjectEquality.CompareObjects` | jsonld-core/src/object/node/multiset.rs:177-193 | Greedy matching of two sequences of objects succeeds exactly when they hold the same objects as often |
| `ObjectEquality.InsertObject` | jsonld-core/src/document/expanded.rs:371-408 | An object is added unless an equal one is there |
| `Serialization.RenderDocument` | jsonld-core/src/serialization.rs:371-379 | The document holds an object for each root, one for those rendered the same and no two that are the same; the error is that of a written fact |
| `Serialization.StatedExactlyWhen` | jsonld-core/src/document/expanded.rs:371-408 | The document states every written fact once if and only if no root with something to say is rendered the same as another; otherwise facts are lost and none is made up |
| `Serialization.FoldLists` | jsonld-core/src/serialization.rs:326-369 | After folding, the graph is the one the quads describe with the maximal lists folded |
| `Serialization.FromInterpretedQuads` | jsonld-core/src/serialization.rs:252-379 | End to end: a successful result is a document of the graph the quads describe, says exactly the facts it states, and states each written fact once if and only if no root with something to say has a twin; it succeeds if and only if no written fact has a literal that does not resolve |
| `Conservation.StoredFacts` | jsonld-core/src/serialization.rs:274-324 | The default graph stores one fact for each quad and one for each graph name, and no other |
| `Conservation.ConservedExactlyWhen` | jsonld-core/src/serialization.rs:371-376 | Every stored fact is stated exactly once if and only if each can be named and is led to by a path of nesting from a resource whose count is not one, and no such root with something to say is rendered the same as another |
| `Conservation.NamedGraphConservedExactlyWhen` | jsonld-core/src/serialization.rs:458-468 | In a named graph, where nothing is merged, if and only if each fact can be named and is led to |
| `Contents.RenderedContent` | jsonld-core/src/serialization.rs:402-595 | Any rendering of a resource compares as the content computed from its record and those of the resources nested in it: name, named types, graph and named values |
| `Contents.TwinsExactlyWhen` | jsonld-core/src/document/expanded.rs:371-374 | Two top-level resources are merged if and only if these contents are equal |
| `Contents.ConservedExactlyWhenApart` | jsonld-core/src/serialization.rs:371-379 | `ConservedExactlyWhen` by a condition on the graph alone |
| `ListLaw.PredicateReadsAs` | jsonld-core/src/serialization.rs:170-183 | A predicate is a type, a first or a rest if and only if the first of `rdf:type`, `rdf:first` and `rdf:rest` among its IRIs is that one, and a property of its own if and only if it has none of the three |
| `ListLaw.QuadReadsAs` | jsonld-core/src/serialization.rs:274-309 | What a quad is filed as, by the IRIs of its predicate and object |
| `ListLaw.CellExactlyWhen` | jsonld-core/src/serialization.rs:132-134 | A resource is a cell with this value and next cell if and only if, by the quads, it has no IRI or literal, one quad points at it, it names no graph, and the one value, the one next cell and `rdf:List` are all that is said of it |
| `ListLaw.FoldedExactlyWhen` | jsonld-core/src/serialization.rs:326-369 | A resource is folded into a list with these values if and only if the quads encode that list from it: cells one after the other, the last leading to the first `rdf:nil` met, and no cell before them |
| `ListLaw.RenderedDenotes` | jsonld-core/src/serialization.rs:548-595 | Whatever a value is written as denotes it, lists in lists to any depth: its literal or reference when nothing is said of it, or else a node with its identifier or a list it is the first cell of |
| `ListLaw.ListInDocument` | jsonld-core/src/serialization.rs:326-379 | End to end: an encoded list that a path of nesting facts leads to is in the document, as a list of items that denote its values, in order |
| `ListLaw.ListUnderNode` | jsonld-core/src/serialization.rs:326-379 | By the quads alone: when the one quad that points at the list has a named property of its own and a subject that is not referred to once, the list is under that property of the node with that name |
| `Conservation.DocumentUnique` | jsonld-core/src/serialization.rs:371-379 | Two documents for the same quads hold equal objects, in some order |
| `Conservation.ReachedByPath` | jsonld-core/src/serialization.rs:371-376 | A resource is rendered exactly when such a path ends at it |
| `Conservation.ReachedExactlyWhen` | jsonld-core/src/serialization.rs:371-376 | The same, one step at a time |
| `Losses.CycleIsLost` | jsonld-core/src/serialization.rs:372-376 | Resources with one reference each that only lead to one another are never rendered |
| `Losses.TypeOnlyIsLost` | jsonld-core/src/serialization.rs:437-452 | A resource whose one reference is as the object of `rdf:type` is never rendered |
| `Losses.NilBehindListIsLost` | jsonld-core/src/serialization.rs:420-429 | What is said about `rdf:nil` is not rendered when its one reference is the end of a folded list |
| `Losses.CycleVanishes` | jsonld-core/src/serialization.rs:371-376 | A concrete dataset of two quads whose document states nothing |
| `Losses.UnreachedExactlyWhen` | jsonld-core/src/serialization.rs:371-379 | A resource is never rendered if and only if going up from it leads round a cycle of sole references, or ends at a resource whose one reference is as a type, through a property without an identifier, or as the end of a folded list |
| `Losses.TwinsAreMerged` | jsonld-core/src/document/expanded.rs:371-408 | A concrete dataset: two resources without a name of which the same is said are written once, and a fact is lost |
| `Conservation.ForestUnique` | jsonld-core/src/serialization.rs:326-376 | The graph that is rendered depends on the quads alone |
| `Quads.Quads.Next` | jsonld-core/src/quad.rs:112-216 | Returns the first quad of the recursive traversal of what is left and leaves the rest, or returns nothing exactly when nothing is left; a measure on the frame stack decreases |
| `Quads.Quads.Step` | jsonld-core/src/quad.rs:116-211 | One turn of the loop, over the nine kinds of frame, hands out at most one quad and leaves the rest of the traversal |
| `Quads.Quads.PushNode` | jsonld-core/src/quad.rs:90-110 | Pushing a node puts its whole traversal before what was left: types, properties, reverse, included, its graph; nothing when it has no identifier |
| `Quads.Quads.PushObject` | jsonld-core/src/quad.rs:82-88 | The same for an object; a value contributes nothing |
| `Quads.Quads.FromNodeMap` | jsonld-core/src/quad.rs:55-65 | The graphs of a node map are read last pushed first |
| `Quads.Drain` | jsonld-core/src/quad.rs:112-216 | Repeated calls give, in order, the whole traversal, and then nothing |
| `QuadPlaces.ExpandedQuads` | jsonld-core/src/quad.rs:39-45 | The quads are those at the places of the document, each place once and in their order; and a quad is given if and only if a node with an identifier says it, in the graph named by the innermost node whose graph it is in, at the end of a path that goes through lists and nodes with identifiers alone |
| `QuadPlaces.FlattenedQuads` | jsonld-core/src/quad.rs:47-53 | The same for a flattened document |
| `QuadPlaces.NodeMapDocumentQuads` | jsonld-core/src/quad.rs:55-65 | The same for a node map, its graphs from the last to the first, each in its own graph |
| `QuadPlaces.ExpandedQuadsExactlyWhen` | jsonld-core/src/quad.rs:82-216 | What the traversal gives is what is said at the end of such a path: a type, a value, or a node being the value of another under a reverse property |
| `QuadPlaces.ListingUnique` | jsonld-core/src/quad.rs:112-216 | The places alone determine the quads, their number and their order |
| `QuadPlaces.OwnGraphComesLast` | jsonld-core/src/quad.rs:90-110 | What a node says, and what is nested in it, comes before the content of its own graph |
| `Compare.CompareValues` | jsonld-syntax/src/compare.rs:15-58 | The comparison as it runs, with its vector of selected items, computes the specification `Equal` |
| `Compare.FindFree` | jsonld-syntax/src/compare.rs:27-33 | The inner loop finds the first item that is not selected and equal |
| `Compare.EqualIsSameNormalForm` | jsonld-syntax/src/compare.rs:15-58 | When the left value has no duplicate key at any depth, it compares equal exactly to the values without duplicates that have the same normal form, arrays as multisets and objects as maps |
| `Compare.GreedyIsComplete` | jsonld-syntax/src/compare.rs:22-38 | Greedy matching succeeds exactly when the free items have the normal forms that are wanted |
| `Compare.ArraysEqualWhenPaired` | jsonld-syntax/src/compare.rs:6-11 | Two arrays are equal exactly when each item of one can be paired with an equal item of its own of the other |
| `Compare.EqualIsEquivalence` | jsonld-syntax/src/compare.rs:4-12 | On values without duplicate keys, comparison is reflexive, symmetric and transitive |
| `Compare.SameKeys` | jsonld-syntax/src/compare.rs:40-53 | Matching every key of a left operand without duplicates leaves no room for one on the right |
| `Compare.DuplicateOnTheLeft` | jsonld-syntax/src/compare.rs:10-11 | The documentation says an object with a duplicate key never compares equal; with the duplicate on the left it can, and then comparison is not symmetric |
| `Symmetry.EqualIsSymmetricExactlyWhen` | jsonld-syntax/src/compare.rs:15-58 | Values that compare equal do so the other way round if and only if the left one has no duplicate key at any depth |
| `Symmetry.CircleIsFree` | jsonld-syntax/src/compare.rs:22-53 | On a circle of values, each equal to the next, none has a duplicate key at any depth |
| `Json.GetUniqueFinds` | jsonld-syntax/src/compare.rs:44-52 | A key is reported absent exactly when it does not occur, and a value that is returned is one stored under the key |
| `SharedContexts.MeansUnique` | jsonld-core/src/context/mod.rs:232-260 | A context in shared memory stands for one content |
| `SharedContexts.MeansKept` | jsonld-context-processing/src/cache.rs:38-47 | Changing or freeing a cell nobody else has a handle to changes no other content |
| `SharedContexts.Recounted` | jsonld-core/src/context/mod.rs:735-757 | Reference counts stay exact through any change that accounts for the handles gained and lost |
| `SharedContexts.ChangedInPlace` | jsonld-core/src/context/mod.rs:563-574 | A cell is changed in place only when its one handle is the holder's |
| `ProcessingCache.DefinitionsChanged` | jsonld-core/src/context/mod.rs:563-592 | In-place change by the only holder: that context gets the new definitions, every other context and cache entry keeps its content |
| `ProcessingCache.CopySound` | jsonld-core/src/context/mod.rs:563-592 | Copy on write otherwise: the same, with the copy at any free address |
| `ProcessingCache.FreeSound` | jsonld-context-processing/src/cache.rs:42-47 | A freed address may be given out again, and no entry or context is affected |
| `ProcessingCache.EntrySound` | jsonld-context-processing/src/cache.rs:163-182 | An inserted entry retains handles to the active context and to the result |
| `ProcessingCache.MatchIsContent` | jsonld-context-processing/src/cache.rs:88-99 | Equal addresses and scalars are equal contents, up to the case of the language tag and the mode, whatever has been allocated, changed and freed since |
| `ProcessingCache.MatchesItself` | jsonld-context-processing/src/cache.rs:88-99 | An unchanged active context with the same other inputs is recognised |
| `ProcessingCache.Program.Get` | jsonld-context-processing/src/cache.rs:143-158 | In every run, a hit returns what the entry's own inputs are processed to, and these are the inputs given up to the mode and the case of tags; it is what the inputs given are processed to, whatever processing does, when the scalars and the local contexts are equal, and so whenever one use covers all the entries and these inputs; a colliding key is a miss |
| `ProcessingCache.OneUseIsEqual` | jsonld-context-processing/src/cache.rs:88-99 | When every entry was made, and the lookup is, under one mode and with one spelling of each tag, a match leaves nothing open: the inputs are equal |
| `ProcessingCache.UseKept` | jsonld-context-processing/src/cache.rs:143-182 | Such a use lasts: no operation adds entries but an insert, and that one for the inputs it is given |
| `ProcessingCache.Program.Insert` | jsonld-context-processing/src/cache.rs:163-182 | Every entry's result is that of processing the entry's inputs; a colliding entry is replaced |
| `ProcessingCache.Program.SetTerm` | jsonld-core/src/context/mod.rs:563-592 | Changing a term changes the content of that context alone |
| `ProcessingCache.Program.Clone` | jsonld-core/src/context/mod.rs:735-757 | A clone has the content of the original, and the two then change independently |
| `ProcessingCache.Program.SetPrevious` | jsonld-core/src/context/mod.rs:618-621 | The previous context is kept as the content it had |
| `ProcessingCache.Program.Free` | jsonld-context-processing/src/cache.rs:42-47 | Giving an address back changes no content |
| `ProcessingCache.Program.Drop` | jsonld-context-processing/src/cache.rs:42-47 | A context that is gone gives up its handles; no other context or entry changes |
| `ProcessingCache.Program.Clear` | jsonld-context-processing/src/cache.rs:127-129 | Clearing empties the cache and leaves every other context as it was |
| `CacheModes.ModeIsNotCompared` | jsonld-context-processing/src/cache.rs:88-99 | An entry matches an active context that differs in its processing mode |
| `CacheModes.HitAcrossModesExactlyWhen` | jsonld-context-processing/src/algorithm/mod.rs:234-254 | For an empty local context, a hit across modes is right exactly when the context propagates, or there is a previous context already, or the modes agree |
| `CacheModes.HitRightExactlyWhen` | jsonld-context-processing/src/cache.rs:88-99 | On any local context, a matching entry's inputs are processed to what those given are, by every way of processing, if and only if the scalars, mode included, and the local contexts are equal |
| `CacheModes.WrongHit` | jsonld-context-processing/src/algorithm/mod.rs:250-254 | A run of eight operations, from an empty program, that ends in a hit whose result is not that of processing the inputs given |
| `TermExpansion.ModeMattersExactlyWhen` | jsonld-context-processing/src/algorithm/iri.rs:338-436 | The mode changes what a term expands to if and only if the term is a compact IRI whose prefix is defined without the prefix flag, and reads otherwise without it |
| `TermExpansion.UndefinedTerm` | jsonld-context-processing/src/algorithm/iri.rs:338-436 | A term without a colon and without a definition is relative to the vocabulary, or an invalid identifier without one |
| `TermExpansion.CompactIri` | jsonld-context-processing/src/algorithm/iri.rs:338-436 | A compact IRI is what its prefix is defined as, followed by its suffix |
| `TermExpansion.AbsoluteIri` | jsonld-context-processing/src/algorithm/iri.rs:338-436 | A blank node identifier is itself, and so is an absolute IRI whose scheme is no usable prefix |
| `ContextMemos.Contexts.Expand` | jsonld-context-processing/src/algorithm/iri.rs:303-336 | The memoised answer, or the expansion, which is then memoised in the cell for all who share it |
| `ContextMemos.Contexts.SetTerm` | jsonld-core/src/context/mod.rs:547-569 | The context changes; its cell is replaced exactly when it is filled |
| `ContextMemos.Contexts.SetVocabulary` | jsonld-core/src/context/mod.rs:600-603 | The same for the vocabulary |
| `ContextMemos.Contexts.CopyPrivately` | jsonld-core/src/context/mod.rs:328-350 | A copy means the same and has a cell of its own |
| `ContextMemos.Contexts.DropContext` | jsonld-core/src/context/mod.rs:260 | A context that is gone shares its cell no more, and the cell stays for the others |
| `ContextMemos.Contexts.SetProcessingMode` | jsonld-core/src/context/mod.rs:360-362 | The mode changes and the cell stays |
| `ContextMemos.Contexts.CloneContext` | jsonld-core/src/context/mod.rs:735-757 | The clone means the same and shares the cell, filled or not |
| `ContextMemos.AnswersRightExactlyWhen` | jsonld-context-processing/src/algorithm/iri.rs:303-336 | In any state, every sequence of questions is answered as without the memo if and only if what is memoised for a context is what it expands to and contexts that share a cell expand every term alike |
| `ContextMemos.SafeExactlyWhen` | jsonld-core/src/context/mod.rs:547-625 | An operation keeps this if and only if it is safe: a change finds the cell filled, or shared by none, or has no effect on terms; the mode is set where it matters to no memoised term, nor to any when the cell is shared |
| `ContextMemos.RunIsRightExactlyWhen` | jsonld-core/src/context/mod.rs:735-757 | Over a run of any length, from no contexts: answers are right all along if and only if every operation is safe where it happens |
| `ContextMemos.MisledByClone` | jsonld-core/src/context/mod.rs:547-557 | A run: a clone is given a term and asked for it, and the original is then given the clone's answer |
| `ContextMemos.MisledByMode` | jsonld-core/src/context/mod.rs:360-362 | A run: a clone set to mode 1.0 is given the answer of 1.1 |
| `ShardedMemo.StoreKeeps` | jsonld-core/src/context/memo.rs:94-109 | Within a shard keys stay distinct, the bound holds, and the stored value is found |
| `ShardedMemo.InsertKeeps` | jsonld-core/src/context/memo.rs:75-109 | An insert puts the key in the shard its hash picks, once, and every other key keeps its value unless its full shard was cleared |
| `ShardedMemo.ShardedMemo.InsertKey` | jsonld-core/src/context/memo.rs:94-109 | The insert as it runs |
| `ShardedMemo.ShardedMemo.GetKey` | jsonld-core/src/context/memo.rs:85-89 | The lookup as it runs |
| `ShardedMemo.ShardedMemo.Len` | jsonld-core/src/context/memo.rs:63-65 | The number of entries, never more than `MAX_ENTRIES` |
| `ShardedMemo.InsertMemoises` | jsonld-core/src/context/memo.rs:91-109 | If everything memoised is what the function gives, it still is after an insert of the function's value, cleared shards included |
| `ShardedMemo.CompactIri` | jsonld-compaction/src/iri.rs:148-170 | Memoised compaction returns what the run without the memo returns, errors included |
| `ShardedMemo.StepKeepsInv` | jsonld-core/src/context/memo.rs:75-109 | Every lock-protected step of every thread keeps keys placed, values right and counts bounded |
| `ShardedMemo.EverySchedule` | jsonld-core/src/context/memo.rs:75-109 | The same over every interleaving |
| `ShardedMemo.FreshMemo` | jsonld-core/src/context/memo.rs:85-109 | From an empty memo, under every interleaving, every call returns what the unmemoised run gives, and a count taken one shard at a time never exceeds the bound |
| `Resolve.Resolver.ResolveTerm` | jsonld-vocab/src/resolve.rs:310-373 | Terminates on any term table; returns the value at the end of the chain of local references, or an error that explains why there is none, whatever is in the memo |
| `Resolve.Resolver.Resolve` | jsonld-vocab/src/resolve.rs:310-373 | Succeeds exactly when the chain reaches an absolute IRI or a known prefix |
| `Resolve.LandsUnique` | jsonld-vocab/src/resolve.rs:332-368 | A chain has at most one value |
| `Resolve.LandsExactlyWhen` | jsonld-vocab/src/resolve.rs:332-368 | A chain ends in an absolute IRI as it is, or in what a known prefix stands for followed by the suffix |
| `Resolve.CycleNeverLands` | jsonld-vocab/src/resolve.rs:323-330 | A chain that comes back to a term never reaches a value |
| `Resolve.ExplainedNeverLands` | jsonld-vocab/src/resolve.rs:322-368 | Each of the four kinds of error is a proof that the chain has no value |
| `Resolve.PartitionTerms` | jsonld-vocab/src/resolve.rs:262-307 | Success depends on the table alone, not on the order of terms or on the memo: every term resolves, has a name, and no two of a kind share one |
| `Resolve.PartitionUnique` | jsonld-vocab/src/resolve.rs:262-307 | So do the resolved terms |
| `CompactIriFallback.CandidateBeats` | jsonld-compaction/src/iri.rs:43-72 | The comparison that walks the candidate without building it is the order by length, then bytes |
| `CompactIriFallback.BeatsIsOrder` | jsonld-compaction/src/iri.rs:43-62 | That order is strict and total, so a least candidate is unique |
| `CompactIriFallback.BeatsExactlyWhen` | jsonld-compaction/src/iri.rs:43-72 | The shorter candidate wins, and of two as long the one with the smaller byte where they first differ |
| `CompactIriFallback.CompactWithPrefix` | jsonld-compaction/src/iri.rs:595-651 | The loop returns the least of all acceptable compact IRIs, although it looks a candidate up only after it beats the current best |
| `CompactIriFallback.BestInAnyOrder` | jsonld-compaction/src/iri.rs:603-646 | The result is the same in whatever order prefix terms are visited, or how often |
| `CompactIriFallback.BestReadsBack` | jsonld-compaction/src/iri.rs:605-646 | The prefix's mapping followed by the suffix is the IRI, and the compact IRI is no term that means something else |
| `CompactIriFallback.CompactFallback` | jsonld-compaction/src/iri.rs:564-701 | Vocabulary suffix, then best compact IRI, then the error or a relative or full form |
| `CompactIriFallback.WrittenReadsBack` | jsonld-compaction/src/iri.rs:577-701 | Where the vocabulary applies, what is written stands for the IRI |
| `CompactIriFallback.WrittenByPreference` | jsonld-compaction/src/iri.rs:564-701 | Where the vocabulary applies, a suffix that completes it and is no term is preferred to any compact IRI; else the best compact IRI; else it is an error for the IRI to start like a compact IRI of a term, and it is written relative to the base, or in full |
| `CompactIriFallback.BaseIsWritten` | jsonld-compaction/src/iri.rs:660-701 | The base itself is written as what follows its last slash, or as "./" |
| `CompactIriFallback.VocabSuffix` | jsonld-compaction/src/iri.rs:577-590 | A suffix is used only when it is not empty, completes the vocabulary to the IRI, and is no term |
| `TermSelection.ComputeListShape` | jsonld-compaction/src/value_hint.rs:281-332 | Stopping the loop over the items early loses nothing |
| `TermSelection.CommonTypeIsCommon` | jsonld-compaction/src/value_hint.rs:292-318 | A list has a common type exactly when all its items have that type |
| `TermSelection.CommonLangDirAgrees` | jsonld-compaction/src/value_hint.rs:292-318 | It has a common language and direction exactly when the first item with any has them and every value after it agrees |
| `TermSelection.CommonLangDirNeedsOrder` | jsonld-compaction/src/value_hint.rs:292-318 | So a typed item before the first language string does not count and the same item after it does |
| `TermSelection.HintReadsAsObject` | jsonld-compaction/src/value_hint.rs:230-272 | A hint that describes an object is read as that object, list items included |
| `TermSelection.HintSelectsAsObject` | jsonld-compaction/src/iri.rs:257-275 | So it selects the same term |
| `TermSelection.SelectUpToCase` | jsonld-compaction/src/iri.rs:110-113 | Selections that the memo takes for equal, tags compared without case, select the same term |
| `TermSelection.CompactIriMemo.CompactIriWithMemo` | jsonld-compaction/src/iri.rs:318-550 | With the memo, the result and the errors are those of compaction without it |
| `TermSelection.CompactRun` | jsonld-compaction/src/property.rs:435-456 | The same over any sequence of values, pointwise |
| `SelectionLaws.SelectTakesBest` | jsonld-compaction/src/iri.rs:340-465 | Of the containers that will do for a value and have a term for it, the best is taken, by a rank given for each container and sort of value |
| `SelectionLaws.SelectedExactlyWhen` | jsonld-compaction/src/iri.rs:340-550 | The term selected is the one preferred in the best container that has any, read off the value and the inverse definition alone; the fallback is taken if and only if none has |
| `SelectionLaws.EveryValueWants` | jsonld-compaction/src/iri.rs:467-528 | This covers every value: each asks for an identifier, a type, a language and direction, neither, or anything |
| `SelectionLaws.AliasFails` | jsonld-compaction/src/iri.rs:485-490 | When compacting the identifier fails, that is the error |
| `SelectionLaws.VocabWinsExactlyWhen` | jsonld-compaction/src/iri.rs:479-502 | Of a `@vocab` and an `@id` term of the best container, the first is selected if and only if the identifier compacts to a term that means it |
| `SelectionLaws.OwnTypeWins` | jsonld-compaction/src/iri.rs:504-509 | A term of the value's own type wins over one for `@none`, and that over one for any |
| `SelectionLaws.OwnLanguageWins` | jsonld-compaction/src/iri.rs:512-518 | The same for its language and direction, tags without regard to case |
| `SelectionLaws.FirstChoiceWins` | jsonld-compaction/src/iri.rs:346-453 | A language string goes to a language map first, a list without an index to a list, a node to an id map, a graph to one by its index or identifier, and anything else with an index to an index map |
| `SelectionLaws.PlainValueGoesThereLast` | jsonld-compaction/src/iri.rs:455-465 | A value without type, index and language takes a language map only in 1.1, and only when no set, no plain term and no index map has a term for it |
| `ValueRoundTrip.CompactValue` | jsonld-compaction/src/value.rs:131-263 | The algorithm as it runs, with its result object and early returns, computes the printer `Compacted` |
| `ValueRoundTrip.ExpandValue` | jsonld-expansion/src/value.rs:86-260 | The loop over entries as it runs computes the parser `ExpandedValue` |
| `ValueRoundTrip.ComesBackExactlyWhen` | jsonld-compaction/src/value.rs:131-263 | In 1.1, a value, with its datatype or language and direction, and its index unless the term has an `@index` container, comes back from what was written for it if and only if a condition on the term and the value holds |
| `ValueRoundTrip.BareExactlyWhen` | jsonld-compaction/src/value.rs:174-256 | A value is written bare if and only if its index is none or goes to an `@index` container, and the type mapping, language and direction in force say what it carries |
| `ValueRoundTrip.IndexIsWrittenExactlyWhen` | jsonld-compaction/src/value.rs:258-261 | Otherwise it is an object, with the index as an entry if and only if there is one and the term has no `@index` container |
| `ValueRoundTrip.LangStringObject` | jsonld-expansion/src/value.rs:107-125 | A language string written in full comes back, except that a tag spelled "@none" is lost |
| `ValueRoundTrip.LiteralComesBack` | jsonld-expansion/src/literal.rs:160-230 | Literals come back unless null, bare or in full |
| `ValueRoundTrip.JsonComesBack` | jsonld-compaction/src/value.rs:245-256 | JSON written in full comes back with its index |
| `ValueRoundTrip.LangStringComesBack` | jsonld-compaction/src/value.rs:222-231 | A language string written bare comes back exactly when the term has no type mapping and no language or direction that the value lacks |
| `AddValue.AddedConserves` | jsonld-compaction/src/lib.rs:469-523 | The items under the key become the old items followed by the new value with its arrays opened at every depth; other entries and key uniqueness are kept; with `as_array` the entry is an array |
| `AddValue.JsonObject.Add` | jsonld-compaction/src/lib.rs:478-523 | The algorithm as it runs, in place |
| `AddValue.CompactPlain` | jsonld-compaction/src/property.rs:443-756 | Over a run, every term holds what it held followed by exactly the items routed to it, in order; a property without values leaves an array |
| `AddValue.RunConserves` | jsonld-compaction/src/property.rs:723-726 | The same as a fact about the entries |
| `PropertyRoundTrip.CompactProperty` | jsonld-compaction/src/property.rs:443-756 | The loop over the values of a property: each is compacted and added, an empty property leaves an array, and an error is that of a value |
| `PropertyRoundTrip.AddedStays` | jsonld-compaction/src/lib.rs:478-523 | Adding a JSON value under an unused key leaves it as it is if and only if it is an array of two or more values that are no arrays, or of any number with `as_array`, or no array without |
| `PropertyRoundTrip.PropertyComesBackExactlyWhen` | jsonld-compaction/src/property.rs:443-756 | In 1.1, under a term without a container but `@set`, the values of a property come back, in order and with their indices, if and only if a condition on the term and the values holds |
| `IndexMap.CompactIndexMap` | jsonld-compaction/src/property.rs:515-722 | Values are added to the map under the term, each under its index, or under the alias of `@none` without one; which error it is |
| `IndexMap.ExpandIndexEntries` | jsonld-expansion/src/node.rs:683-928 | The loop as it runs, over the entries of the map |
| `IndexMap.BuiltMapRead` | jsonld-expansion/src/node.rs:683-928 | What a map built from values is read as, in whatever order its entries are visited |
| `IndexMap.TripExactlyWhen` | jsonld-compaction/src/value.rs:131-263 | A value comes back from the map, with its index, if and only if a condition on it and the term holds |
| `IndexMap.MapComesBackExactlyWhen` | jsonld-compaction/src/property.rs:515-722 | The values of a property come back through an `@index` map, as often and with their indices, if and only if the term is no `@json` term and the condition holds of each |
| `LanguageMap.CompactLanguageMap` | jsonld-compaction/src/property.rs:488-722 | Values are grouped by tag in the map under the term and nothing else changes; it succeeds if and only if every value compacts and, if there are values, the term holds a map or nothing; which error it is |
| `LanguageMap.ExpandLanguageMap` | jsonld-expansion/src/node.rs:588-681 | The nested loops as they run |
| `LanguageMap.ReadStringsExactlyWhen` | jsonld-expansion/src/node.rs:625-676 | Under a language there may be strings and nulls and nothing else |
| `LanguageMap.StringsAreTagged` | jsonld-expansion/src/node.rs:625-676 | Nulls give nothing, and the strings are tagged in order with the language, unless it expands to `@none`, and the direction |
| `LanguageMap.MapReadsBack` | jsonld-expansion/src/node.rs:588-681 | What a map built from strings is read as, in whatever order its entries are visited |
| `LanguageMap.LanguageMapRoundTrip` | jsonld-compaction/src/property.rs:515-575 | A sequence of strings comes back as the same multiset if and only if each is untyped, has the direction of the term, and has no tag that expands to `@none` |
| `Expansion.ExpandElement` | jsonld-expansion/src/element.rs:78-557 | Terminates on the size of the element, and returns the outcome that the relation `Expands` gives it, errors included; in 1.0 a success holds no list directly in a list at any depth; a nest of scalars under a list term becomes one list for each array, and is refused in 1.0 exactly when it has an array in an array; nulls, and scalars with no property, give nothing |
| `ExpansionLaws.ListForEachArray` | jsonld-expansion/src/array.rs:65-72 | The items of a nest hold a list exactly when the nest has an array in an array |
| `Expansion.ExpandArray` | jsonld-expansion/src/array.rs:13-77 | The items of an array are those of its elements' outcomes, one after the other, up to the first that fails: one list under a list term, an array elsewhere |
| `Expansion.ExpandListObject` | jsonld-expansion/src/element.rs:387-432 | A list object holds the items of what its elements come to, in order, with the last index given, and has no other entries |
| `Expansion.ExpandProperty` | jsonld-expansion/src/node.rs:552-1010 | The value of a property is a JSON literal, a language map, an index map or an element, put in one list under a list term, once, and in a graph for each item under a graph term |
| `Expansion.ExpandNodeEntries` | jsonld-expansion/src/node.rs:140-1033 | Each entry does to the node what the relation says, in turn, up to the first that fails; nested entries included, it stays free of lists in lists in 1.0 |
| `Expansion.ExpandIndexMap` | jsonld-expansion/src/node.rs:683-928 | The items of an index, id or type map are those under its keys, one after the other, each with the index, property value, identifier or type that the key gives it |
| `Expansion.ExpandDocument` | jsonld-expansion/src/element.rs:78-557 | A document is what its element comes to, without the values that float free; a successful 1.0 expansion holds no list of lists |
| `Expansion.ExpandMap` | jsonld-expansion/src/element.rs:371-498 | A map is a list object, a set object, a value object or a node, looked for in this order |
| `Expansion.ExpandKeyword` | jsonld-expansion/src/node.rs:212-551 | What each keyword does to the node: identifier, types, graph, included nodes, index, reverse properties and nested entries |
| `ExpansionUnique.ExpandsUnique` | jsonld-expansion/src/element.rs:78-557 | An element has one outcome at most |
| `ExpansionUnique.DocumentUnique` | jsonld-expansion/src/element.rs:78-557 | And so has a document |
| `ListsOfLists.ExpandsClean` | jsonld-expansion/src/array.rs:65-72 | Whatever an element comes to in 1.0, no list in it holds a list |
| `ExpansionLaws.NestLaw` | jsonld-expansion/src/array.rs:13-77 | Under a list term a nest of scalars has the one outcome of a list for each array |
| `ExpansionLaws.FlatNestLaw` | jsonld-expansion/src/array.rs:13-77 | Under any other property a nest of scalars comes to its scalars, in order, at every depth, nulls left out |
| `ExpansionLaws.SetObjectLaw` | jsonld-expansion/src/element.rs:433-459 | So does a set object over such a nest |
| `ExpansionLaws.ListObjectItems` | jsonld-expansion/src/element.rs:387-432 | And a list object holds them as one list |
| `ExpansionLaws.MapLaw` | jsonld-expansion/src/element.rs:371-498 | Which of the four a map comes to |
| `ExpansionLaws.NodeLaw` | jsonld-expansion/src/node.rs:140-1033 | The entries of a node are, in order, those that the entries of its map give: one for each key that expands to a property, with the items of its value and none for null, one for each `@graph` and `@included`, those of `@reverse`, and those of nested maps at every depth |
| `ExpansionLaws.KeyHasEntry` | jsonld-expansion/src/node.rs:552-1010 | So each key that expands to a property has its entry, with the items of its value |
| `NestedLists.CompactEach` | jsonld-compaction/src/lib.rs:548-593 | Compacting a collection, with its nulls dropped and its single element unwrapped only where that is allowed |
| `NestedLists.CompactPropertyList` | jsonld-compaction/src/property.rs:40-110 | Under a list term the array is the entry; elsewhere a list object is added, with its index, and nothing else changes |
| `NestedLists.NestComesBack` | jsonld-compaction/src/lib.rs:372-420 | Compacting the list tree of a nest gives the nest without its nulls |
| `NestedLists.NestRoundTrip` | jsonld-compaction/src/lib.rs:372-420 | A nest of arrays of scalars under a list term, with any language and direction and no type mapping or a datatype, comes back identical if and only if it holds no null |

## Left out

- The order of types, properties and top-level nodes in a rendered document: objects are compared without it, because the source visits sets and maps.
- Objects carry what they were rendered for, which the source's do not; neither their equality nor their statements look at it. Entries are kept in one sequence where the source groups them by property.
- ObjectEquality.InsertObject: candidates are all the objects of the document, where the source first narrows them down by hash.
- Literal parsing and identifier handles that do not resolve in their vocabulary are results of the interpretation.
- Context processing, term definition creation, IRI expansion and the construction of inverse contexts are parameters; only selection in an inverse context is modelled.
- The other caches a context carries (inverse context, prefix terms, compact IRIs, keyword aliases), which are replaced on change in the same way as the memo of expanded terms, are not part of a context's content.
- ContextMemos.Contexts.Expand: identifiers are their text, so interning them in a vocabulary is not modelled; a cleared shard is a set of forgotten terms.
- ContextMemos.Contexts.CopyPrivately: previous contexts and their caches are left out.
- Warnings are not modelled.
- Freeing memory: a cell without handles is freed in a later step instead of at once, which allows more runs than the source has.
- ProcessingCache.Program.Clear: entries are dropped one by one where the source drops the table; nothing can be observed in between under the lock.
- ShardedMemo.FreshMemo: threads interleave at whole lock-protected operations; the locks themselves are not modelled.
- Resolve.PartitionTerms: constant names and letter case are parameters; reading files and collecting definitions from contexts are left out.
- CompactIriFallback.CompactFallback: relative IRI computation and the disambiguation of keyword-like references are parameters, so reading back is stated where the vocabulary applies.
- TermSelection.CompactRun: the run goes on after an error where the source stops at the first one.
- ValueRoundTrip.CompactValue: entries are appended, because aliases that read back to different keywords are different keys; scoped contexts of the term are left out.
- Compaction of nodes, graph objects, and id, type, graph and property-valued index maps.
- IndexMap.CompactIndexMap: the items are values, and the index mapping is `@index` itself.
- AddValue.CompactPlain: all items go to one nest target; the choice among nest targets, and of the term for each item, is left out.
- CacheModes.HitAcrossModesExactlyWhen: for the source's own processing, the exact condition is for a local context that is an empty array, because processing of other contexts is a parameter; `HitRightExactlyWhen` is for any local context, over all ways of processing.
- LanguageMap.CompactLanguageMap: values whose `@value` is not a string, for which the source writes a map that does not expand, are left out.
- Expansion.ExpandElement: contexts are entered through one parameter, keys are expanded when they are met, sorting of entries is left out, and policies on undefined keys are results of key expansion.
- Expansion.ExpandProperty: language maps are a parameter here; `LanguageMap` models them.
- NestedLists.NestRoundTrip: a list term's scoped context and a previous context are left out, as is a `@none` type mapping, under which scalars are written as value objects.
- Loaders, the command line, printing, sizes and code generation.
