# Verification of envoy-mesh

A Dafny model of the two parts of envoy-mesh whose correctness is not visible from any one
function, and proofs about them for all inputs and all runs.

**crd-gen** turns proto definitions into Kubernetes CRD schemas.

- `Parser` flattens nested declarations into a registry keyed by dotted names. The collector is a
  class that writes its two maps in place; what it writes is stated as a list of entries.
- `Resolve` resolves a type name by walking the scopes around its use. `DottedNames` has the string facts.
- `Compiler` is the schema compiler as a function of the message, the registry and the set of
  messages being expanded; Descriptions are left out of it.
- `Comments` is the compiler with Descriptions: which comments a conversion writes into the shared
  nodes of well-known types, and which comment each Description then shows.
- `SchemaHeap` is the compiler as it executes: schema nodes on the heap, the shared table of
  well-known nodes that comments are written through, and visited maps that are cloned and marked.
  Each method takes the chain of expansions above it as a ghost argument and requires that the
  visited map holds exactly that chain, so every call site proves it.
- `JsonSchema` is what the API server does with a schema: validation and structural pruning.
  `Meaning` says which values a compiled schema accepts and which it leaves unpruned.
- `Expansion` bounds how far the compiler unfolds a message graph.

**control-plane** reconciles custom resources into xDS snapshots.

- `Mesh`, `Eds`, `Snapshots`, `Collect` and `Watch` are the objects and the loops over them, each
  loop a method with a specification function.
- `Served` is what a snapshot serves, from the fields of the objects to its maps, stated by selection and
  position (`Selections`) and not through the functions that compute it.
- `Version` is about the hash input of a reconcile, whose List calls may see different moments, and
  `Precedence` about manual against synthesised endpoint assignments.
- `Coherence` is the reconciler as a state machine. A step is a change of an object, the delivery or
  the loss of a watch event, the start of a reconcile, one of its List calls, its end, or its failure.
  `Interleaving` is what its reconciles can have read, and when two of them have one version;
  `Liveness` is where its own steps lead once objects stop changing, status objects included.
- `Settle` is repeated reconciles with everything else frozen; `Streams` is connection tracking.

## Assumptions about libraries

- JSON parsing, protojson decoding, marshalling and the digest are arbitrary functions (`Codec`).
  `FaithfulMarshal` (a marshalled assignment decodes to a resource of its cluster name) and the
  injectivity of the digest are stated where they are used.
- The snapshot index is keyed by resource name, and the later resource wins.
- Lists and events come from one cache: an event is mapped against the lists of that moment. The
  order in which List returns objects changes only with the objects. An update event carries the
  old and the new object. A key that is queued while it is being processed is processed again. A
  reconcile that returns an error is queued again. A status write that changes nothing causes no event.
- A validator checks `int32` and `int64` formats as signed ranges; string formats are an arbitrary
  check; `float` and `double` formats are not checked, so a `float` field admits every number.

## Where the code departs from its description

- `control-plane/README.md:13-14` says manual assignments always take precedence. The name lookup
  reads `name`, which an assignment does not have, so `Precedence.SynthesisedWins` holds instead.
- `convert.go:154` says name resolution mirrors the scoping rules of proto. The bare name is tried
  first; for relative names `Resolve.ResolveIsInnermostFirst` says exactly when that makes no
  difference. Absolute names lose their dot and are searched for like relative ones;
  `Compiler.AbsoluteNameResolves` says exactly when that makes no difference.
- `envoyproxy_controller.go:251` says raw specs are hashed, and `snapshot.go:39` that the version must
  change whenever the configuration changes. Only resource versions are hashed, without separators, and
  the slices of each cluster are listed by a call of their own. Two things can go wrong.
  `Version.SufficientIffDecodable` says exactly which versions can be told apart without separators.
  `Interleaving.SufficientIffUnshared` says that then, over all runs, the version is enough exactly for
  clusters that share no Service. The version of a coherent snapshot is always its own.
- `server.go:74` says a node is connected while it is streaming. `Streams.ReportedDiffersIff` says
  exactly when a node is streaming and not reported.

## Model

| member | source | states |
|---|---|---|
| Meaning.SchemaPreservesMeaning | crd-gen/internal/schema/convert.go:19-151 | For every registry, cyclic or not, and every set of messages being expanded, each value in the JSON mapping of a message is accepted by the compiled schema and survives pruning unchanged |
| Meaning.AcceptsMsg | crd-gen/internal/schema/convert.go:19-49 | The compiled schema accepts exactly the values that fit the message, where fitting is defined on values and proto types |
| Meaning.AcceptsType | crd-gen/internal/schema/convert.go:55-151 | The same for a field type: scalar, well known, cut off, message, enum or unknown |
| Meaning.PruneFixesMsg | crd-gen/internal/schema/convert.go:26-48 | Pruning by the compiled schema leaves a value alone if and only if it is tight: objects standing for a message have only declared members, and objects where no message stands have none |
| Meaning.PruningIsTight | crd-gen/internal/schema/convert.go:26-48 | Whatever the value, after pruning it is tight outside free-form positions, at any depth |
| Meaning.UnsignedAcceptedBelowSignedLimit | crd-gen/internal/schema/convert.go:83-86 | A number of an unsigned type is accepted if and only if it is below the limit of the signed format |
| Meaning.LargeUnsignedRejected | crd-gen/internal/schema/convert.go:83-84 | 3000000000 is a uint32 value of a message that the message's own schema rejects |
| Meaning.ShapedTypeRenders | crd-gen/internal/schema/convert.go:71-127 | Every scalar and well-known type is compiled to a schema that stands for its JSON shape, and no other type is |
| JsonSchema.PruneIdempotent | crd-gen/internal/schema/convert.go:19-49 | Pruning twice is pruning once, for every schema and value |
| Compiler.PropertiesByName | crd-gen/internal/schema/convert.go:26-43 | The properties are the declared names, each compiled from the last field of that name with the message's own visited set, so no field sees what a sibling marked |
| Compiler.FieldOrderIrrelevant | crd-gen/internal/schema/convert.go:26-43 | For two registries of the same declarations with fields in different orders and distinct names, cyclic or not, the schema of a message is the same |
| Compiler.ExpansionShrinks | crd-gen/internal/schema/convert.go:131-139 | Each expansion strictly reduces the registered messages not yet visited, which is why the mutual recursion ends |
| Expansion.ExpandsToIsCompiled | crd-gen/internal/schema/convert.go:121-139 | The expansion relation is the compiler's: a field expands a message exactly when its compiled type is that message's schema with the message marked, and otherwise its type has no properties |
| Expansion.ExpansionsBounded | crd-gen/internal/schema/convert.go:15-49 | On every path of nested expansions below the root, a message other than the root is expanded at most once, the root at most twice, and there are at most one more expansions than messages |
| Expansion.MsgDepth | crd-gen/internal/schema/convert.go:19-151 | The depth of the compiled tree is at most twice the number of unvisited messages plus three |
| Expansion.RootExpandsTwice | crd-gen/internal/schema/convert.go:15-17 | A message with a field of its own type is expanded once more inside itself and cut off only there, so the bound on the root is reached |
| SchemaHeap.MsgSchemaNode | crd-gen/internal/schema/convert.go:19-49 | The heap form refines the function with Descriptions at every node and property copy; of what existed before it writes only Descriptions of shared nodes, which end as the function of writes says; the visited map stays as it was and holds exactly the chain of expansions above the call |
| SchemaHeap.FieldNode | crd-gen/internal/schema/convert.go:27-42 | One field against the function, its Description included, commented or not; a singular field of a well-known type yields the shared node itself |
| SchemaHeap.ResolveType | crd-gen/internal/schema/convert.go:55-67 | Array wrapping and element type against the function, and when the result is the shared node |
| SchemaHeap.ResolveMessageOrEnum | crd-gen/internal/schema/convert.go:121-151 | Lookup, cycle guard, marking and expansion on the mutable visited map against the function of the set it held; the map gains exactly the referenced message, and nothing for a well-known type |
| SchemaHeap.EnumNode | crd-gen/internal/schema/convert.go:141-147 | The loop yields the enum schema, whose values are the enum's names in quotation marks |
| SchemaHeap.CloneVisited | crd-gen/internal/schema/convert.go:189-195 | The clone is a new map with the same marks |
| SchemaHeap.WellKnowns.constructor | crd-gen/internal/schema/convert.go:95-119 | The shared table holds exactly the sixteen well-known types, each with its schema and no Description |
| SchemaHeap.ConvertAll | crd-gen/internal/schema/convert.go:15-17 | Over any sequence of conversions, every output is the function of its own message, the registry and the comments written before it; table entries keep all but Descriptions, and these end as the last comments written |
| Comments.EraseMsg | crd-gen/internal/schema/convert.go:19-49 | Descriptions erased, a conversion is the compiler function, whatever the shared nodes said when it started |
| Comments.OutputErased | crd-gen/internal/schema/convert.go:15-17 | Descriptions erased, each output of a run is the function of its own message and the registry alone |
| Comments.SharedDescription | crd-gen/internal/schema/convert.go:39-42 | The property of a well-known type shows the last comment written to the shared node so far, its own included |
| Comments.DescriptionDiffersIff | crd-gen/internal/schema/convert.go:26-43 | A property's Description is not its field's comment if and only if the field has none and takes over another: of the message it expands to, or, for a well-known type, one that an earlier field wrote into the shared node |
| Comments.CommentDisplacedIff | crd-gen/internal/schema/convert.go:39-41 | A shared node does not end with a comment written to it if and only if the last later write to it says something else |
| Comments.BorrowedInRunIff | crd-gen/internal/schema/convert.go:26-43 | Over a run, at any depth of any output, a property's Description is not its field's comment if and only if the field has none and takes over another: for a well-known type, if and only if any earlier field of the run, on any level, wrote to the same node |
| Comments.PointedDescriptionIff | crd-gen/internal/schema/convert.go:28-37 | The values of a map and the items of an array of a well-known type are the shared node, at any depth; when the output is written out they have a Description if and only if some field of the run so far wrote one |
| Comments.CommentShowsElsewhere | crd-gen/internal/schema/convert.go:39-42 | Both effects in one message: the comment of a field shows in the value schema of an earlier map field and in the property of a later uncommented field |
| Resolve.ResolveName | crd-gen/internal/schema/convert.go:156-181 | The two loops compute the resolution function |
| Resolve.WalkScopeIsInnermost | crd-gen/internal/schema/convert.go:163-171 | A walk finds the candidate under the longest enclosing scope that has one, and finds nothing only if no scope has one |
| Resolve.InnermostUnique | crd-gen/internal/schema/convert.go:153-155 | The innermost-first rule names at most one type |
| Resolve.ResolveDescribed | crd-gen/internal/schema/convert.go:156-181 | For any names: the bare name if registered, else the innermost candidate of the message's scopes, else of the package's, else the bare name |
| Resolve.PackageWalkIsRedundant | crd-gen/internal/schema/convert.go:172-180 | For parser-built names the package walk finds nothing the message walk missed, the empty package included |
| Resolve.ResolveIsInnermostFirst | crd-gen/internal/schema/convert.go:156-181 | For a relative name, resolution follows the innermost-first rule if and only if the bare name is unregistered or no enclosing scope defines the name |
| Compiler.AbsoluteNameResolves | crd-gen/internal/schema/convert.go:121-129 | An absolute name stands for itself if and only if it is registered or no enclosing scope defines it; otherwise it is taken for the type of the nearest scope that does |
| Compiler.AbsoluteNameTakenAsRelative | crd-gen/internal/schema/convert.go:121-129 | Inside `p.M`, with `p.T` registered and `T` not, `.T` is taken for `p.T` |
| Resolve.BareNameShadowsInnerScope | crd-gen/internal/schema/convert.go:157-159 | A registry in which the bare name is taken although the innermost-first rule names another type |
| Parser.Collector.CollectElements | crd-gen/internal/parser/parser.go:88-142 | The recursive in-place collection writes exactly the entries of the declaration tree, in order |
| Parser.Collector.ParseFile | crd-gen/internal/parser/parser.go:75-83 | From an empty registry, a file of well-named declarations is stored without loss under its first package declaration |
| Parser.CollectFields | crd-gen/internal/parser/parser.go:99-126 | In declaration order exactly one field for each normal field, map field and oneof member, with its name, type, repeated flag and comment; a map field has type "map", its key type and its value type |
| Parser.CollectValues | crd-gen/internal/parser/parser.go:134-138 | The names of the enum fields, all of them and in order |
| Parser.PackageDescribed | crd-gen/internal/parser/parser.go:75-81 | The package is the name of the first package declaration, and empty if there is none |
| Parser.FlatteningIsLossless | crd-gen/internal/parser/parser.go:88-154 | For a tree of any depth with identifiers and distinct sibling names, every declaration is stored under the dotted path to it with its names, comment, and fields or values position by position; stored names equal keys, no two declarations share a key, and entry counts equal declaration counts |
| Parser.EntriesDistinct | crd-gen/internal/parser/parser.go:144-154 | All qualified names of a declaration tree differ |
| Parser.FileOrderIrrelevant | crd-gen/internal/parser/parser.go:48-61 | Files with disjoint qualified names may be collected in any order |
| Parser.RegisteredNames | crd-gen/internal/parser/parser.go:144-154 | Every registered message lies in the scope of its package, and no key is empty or starts with a dot |
| Parser.ParsedNamesResolve | crd-gen/internal/schema/convert.go:156-181 | In a parsed registry resolution is innermost-first under exactly the condition above |
| Coherence.CacheCoherence | control-plane/internal/controller/envoyproxy_controller.go:60-117 | After any interleaving, each existing proxy is due, being reconciled, or has the from-scratch build of the current world in the cache, unless its request was dropped with an event and no reconcile of it began since |
| Coherence.StepKeeps | control-plane/internal/controller/envoyproxy_controller.go:60-346 | Every step keeps the invariant that relates world, undelivered events, queue, reads under way and cache |
| Coherence.EnvironmentKeeps | control-plane/internal/controller/envoyproxy_controller.go:287-346 | A change either requests a proxy or is invisible to its reads |
| Coherence.AwaitedSurvives | control-plane/internal/controller/envoyproxy_controller.go:295-326 | A slice event that no longer maps to a proxy because a Cluster changed is replaced by the request of that Cluster's own event |
| Coherence.UnrequestedLooksSame | control-plane/internal/controller/envoyproxy_controller.go:120-126 | A change whose event does not request a proxy leaves everything the proxy's collection reads as it was |
| Coherence.FinishedIsReadAll | control-plane/internal/controller/envoyproxy_controller.go:71-90 | Separate List calls with nothing missed add up to one atomic collection |
| Coherence.CommitKeepsOthers | control-plane/internal/controller/envoyproxy_controller.go:100-103 | Writing one proxy's snapshot leaves the other proxies coherent |
| Coherence.NothingMissed | control-plane/internal/controller/envoyproxy_controller.go:296-299 | While the mapper's List succeeds no request is missed |
| Coherence.LastGoodSnapshot | control-plane/internal/controller/envoyproxy_controller.go:92-103 | After any run each cached snapshot is the complete build of what one reconcile read, all of whose non-empty specs decoded |
| Coherence.OnlyGoodCommitsWrite | control-plane/internal/controller/envoyproxy_controller.go:94-103 | A cache entry changes only when its own proxy commits reads that all decode |
| Liveness.EventuallyCoherent | control-plane/internal/controller/envoyproxy_controller.go:60-117 | From every reachable state, if objects stay as they are, steps of the control plane alone lead to a state in which each proxy that builds and whose request was not dropped has the from-scratch build in the cache, and only requests of proxies that do not build are left |
| Liveness.InternalStepDescends | control-plane/internal/controller/envoyproxy_controller.go:60-117 | Every step of the control plane but the retry of a proxy that does not build lowers a well-founded measure, whatever the order; the status events it causes are those of the status updates it makes |
| Liveness.BudgetCovers | control-plane/internal/controller/envoyproxy_controller.go:107-117 | Status events stop by themselves: two for each proxy whose status is not settled, and four for each reconcile that may be out of date, bound all that are still to come |
| Liveness.EveryRunEnds | control-plane/internal/controller/envoyproxy_controller.go:60-117 | No infinite sequence of such steps exists |
| Liveness.StuckIsCoherent | control-plane/internal/controller/envoyproxy_controller.go:60-117 | Where no such step is left, every proxy that builds and whose request was not dropped is coherent |
| Mesh.NodeIdInjective | control-plane/internal/controller/envoyproxy_controller.go:68 | With dot-free namespaces node ids tell proxies apart |
| Mesh.NodeIdCollision | control-plane/internal/controller/envoyproxy_controller.go:68 | With dots in namespaces two proxies can share a node id |
| Version.VersionSufficient | control-plane/internal/controller/envoyproxy_controller.go:128-260 | For reads whose List calls saw any moments: if resource versions identify objects and none starts with another, equal hash inputs mean equal reads, slices per cluster included, provided the clusters of one share no Service or one saw a single state |
| Version.VersionSufficientForFixedWidth | control-plane/internal/xds/snapshot.go:39 | For such reads with fixed-width versions and an injective digest, snapshots of equal version are equal |
| Version.SliceListsInjective | control-plane/internal/controller/envoyproxy_controller.go:243-246 | Slice lists of one moment put end to end determine the list of each cluster, also when clusters share a Service |
| Version.ConcatInjective | control-plane/internal/controller/envoyproxy_controller.go:252-260 | Un-delimited concatenation can be undone when no text is empty or starts with another |
| Version.SufficientIffDecodable | control-plane/internal/controller/envoyproxy_controller.go:252-260 | For any set of version texts: equal hash inputs mean equal reads, for all reconciles of which one has no shared Service or saw a single state, if and only if equal concatenations of texts from the set come from equal sequences |
| Version.ProperSufficientIffDecodable | control-plane/internal/controller/envoyproxy_controller.go:252-260 | For lists without two objects of one name, at whatever moments, and clusters without shared Services: if and only if equal concatenations of different texts come from equal sequences |
| Version.VariableWidthCollides | control-plane/internal/controller/envoyproxy_controller.go:252-260 | Whenever two different sequences of versions make up the same text, worlds of Listeners with those versions have different specs and the same hash input |
| Version.CollisionInstance | control-plane/internal/controller/envoyproxy_controller.go:252-260 | Listeners of versions "1" and "2" against one of version "12", and "1" and "12" against "11" and "2": properly named worlds with different reads and the same hash input |
| Interleaving.NamedRunIsRun | control-plane/internal/controller/envoyproxy_controller.go:60-117 | The runs in which names stay unique are runs of the reconciler's state machine |
| Interleaving.ObtainableIffListed | control-plane/internal/controller/envoyproxy_controller.go:71-90 | A run of the machine in which names stay unique ends a reconcile with given reads if and only if these are item lists for the proxy and one slice list per cluster that needs one, of its Service, each properly named |
| Interleaving.SufficientIffUnshared | control-plane/internal/controller/envoyproxy_controller.go:215-246 | With uniquely decodable versions, over all runs: equal hash inputs of two reconciles of a proxy with the given clusters mean equal reads if and only if no two of those with a synthesised assignment share a Service |
| Interleaving.SharedServiceRun | control-plane/internal/controller/envoyproxy_controller.go:215-246 | Whenever two clusters share a Service, and for any new slice of it, one run reconciles the proxy twice with different reads and the same hash input |
| Interleaving.SharedServiceInstance | control-plane/internal/controller/envoyproxy_controller.go:215-246 | A slice with one address and versions of width one: the endpoints of a cluster change, the hash input does not |
| Interleaving.UnsharedVersionUnique | control-plane/internal/xds/snapshot.go:39 | After any two runs, snapshots cached for a proxy with one version are the same, if the clusters of one of them share no Service |
| Interleaving.CoherentVersionUnique | control-plane/internal/xds/snapshot.go:39 | After any two runs, a snapshot cached with the version of a coherent one is that snapshot, shared Services or not |
| Collect.CollectItems | control-plane/internal/controller/envoyproxy_controller.go:128-192 | The collecting loops yield specs, versions and items of the objects that target the proxy, in list order |
| Collect.CollectEndpoints | control-plane/internal/controller/envoyproxy_controller.go:194-249 | Manual specs first, then one synthesised spec per cluster with a Service whose name is not claimed; a marshalling error ends it |
| Collect.ComputeVersion | control-plane/internal/controller/envoyproxy_controller.go:252-260 | The version is the digest of all groups put end to end |
| Collect.Pass | control-plane/internal/controller/envoyproxy_controller.go:71-98 | A reconcile against one world yields the from-scratch build, or the error of that build |
| Served.FromScratchServes | control-plane/internal/controller/envoyproxy_controller.go:60-103 | From the fields of the objects: each map of the snapshot holds exactly what the specs of its kind for the proxy decode to, where endpoints are the manual assignments and then one synthesised for each cluster with a Service and an unclaimed name; otherwise the first spec that does not decode is named, or an assignment does not marshal |
| Served.ServedUnique | control-plane/internal/controller/envoyproxy_controller.go:60-103 | That description and the version determine the snapshot |
| Served.BuildsIff | control-plane/internal/controller/envoyproxy_controller.go:60-103 | A proxy builds if and only if the assignments it needs marshal and every spec for it decodes |
| Served.ServedByPosition | control-plane/internal/controller/envoyproxy_controller.go:128-192 | A name is served under a kind if and only if an object of that kind for the proxy decodes to it, and then as the last such object in the list says |
| Served.CacheServesWorld | control-plane/internal/controller/envoyproxy_controller.go:60-117 | After any run with nothing left to do, the cache holds under a proxy's node id what the world has for the proxy, unless its request was dropped |
| Precedence.ManualWinsUnlessUnclaimed | control-plane/internal/controller/envoyproxy_controller.go:194-249 | For any name lookup, the indexed endpoint resource of a manually assigned cluster is a manual one if and only if the lookup does not leave the name of a cluster with a Service unclaimed |
| Precedence.RightLookupClaims | control-plane/internal/controller/envoyproxy_controller.go:202-210 | With a lookup that returns the assignment's cluster name, no manually assigned name is unclaimed |
| Precedence.ManualInSnapshot | control-plane/internal/controller/envoyproxy_controller.go:208-224 | In the built snapshot the resource was decoded from a manual spec if the name is claimed, and from a synthesised one if not |
| Precedence.SynthesisedWins | control-plane/internal/xds/eds.go:31-42 | When assignments have no `name` member, the synthesised assignment wins for every manually assigned cluster with a Service |
| Precedence.SynthesisedWinsInstance | control-plane/internal/xds/eds.go:31-42 | A concrete world in which that happens |
| Watch.MapXDSResourceToProxy | control-plane/internal/controller/envoyproxy_controller.go:330-346 | One request: the referenced name, in the referenced namespace or, if there is none, the object's |
| Watch.MappedIffCollected | control-plane/internal/controller/envoyproxy_controller.go:120-126 | An object maps to a proxy exactly when the proxy's collection includes it |
| Watch.MapEndpointSliceToProxies | control-plane/internal/controller/envoyproxy_controller.go:287-326 | Without duplicates, exactly the proxies for which a cluster refers to the Service in the slice's label, in the slice's namespace, where the reference's namespace defaults to the cluster's |
| Mesh.SlicesListedForCluster | control-plane/internal/controller/envoyproxy_controller.go:226-234 | The slices listed for a cluster are, in order, exactly those with the reference's name as label, in the reference's namespace or, if it has none, the cluster's |
| Mesh.MatchingIsSelection | control-plane/internal/controller/envoyproxy_controller.go:120-126 | The items collected for a proxy are, in order, exactly those that name it and its namespace, which defaults to their own |
| Watch.SliceMappedIffQueried | control-plane/internal/controller/envoyproxy_controller.go:226-234 | The mapper's and the collector's namespace defaults coincide |
| Snapshots.UnmarshalAll | control-plane/internal/xds/snapshot.go:82-95 | The decoding loop with its early exit |
| Snapshots.DecodeAllOrNothing | control-plane/internal/xds/snapshot.go:82-95 | A list decodes if and only if every non-empty spec does; otherwise the first bad item is reported |
| Snapshots.BuildSnapshot | control-plane/internal/xds/snapshot.go:40-80 | There is a snapshot if and only if every non-empty spec of all five kinds decodes; each of its maps holds a name if and only if a spec of its own kind decodes to it, with what the last such spec decodes to; otherwise the first bad spec in the order of kinds is named |
| Snapshots.IndexHoldsLast | control-plane/internal/xds/snapshot.go:69-79 | The index holds the last resource of each name |
| Eds.SynthesizeCLA | control-plane/internal/xds/eds.go:51-98 | The assignment has the cluster's name and, in at most one locality and no empty one, in order exactly one endpoint for each non-empty address of an endpoint not marked unready in a slice with a port |
| Eds.SynthesisUnique | control-plane/internal/xds/eds.go:51-98 | That description determines the assignment |
| Eds.SynthesisIsComprehension | control-plane/internal/xds/eds.go:57-90 | In order, exactly one weight-1 endpoint per non-empty address of an endpoint not marked unready in a slice with a port, on the slice's port, and on the wanted port if one is given |
| Eds.SynthesisDistributes | control-plane/internal/xds/eds.go:57-90 | Synthesis distributes over concatenation of slice lists |
| Eds.TotalWeightIsCount | control-plane/internal/xds/eds.go:86 | The total weight is the number of endpoints |
| Eds.ResolvePort | control-plane/internal/xds/eds.go:103-116 | The early-return loop computes the resolved port |
| Eds.WantedPort | control-plane/internal/xds/eds.go:103-116 | A wanted port is resolved if and only if the slice offers it |
| Eds.AnyPort | control-plane/internal/xds/eds.go:103-110 | Without a wanted port the first port that is set is resolved, zero included |
| Settle.Reconciler.SetCondition | control-plane/internal/controller/envoyproxy_controller.go:262-280 | The first condition of the type is replaced or one is appended, with all fields given; the others stay; the transition time is kept exactly if the status is; an event is caused exactly if the status object changed |
| Settle.Reconciler.Reconcile | control-plane/internal/controller/envoyproxy_controller.go:60-117 | On the fields of the status: after a success the snapshot is cached under the node id, Connected says whether the node is connected and Ready is true with the cached version; after a bad spec Ready is false with the error, and Connected and the cache are as before; after a marshalling error or without the proxy nothing changes |
| Settle.Reconciler.ReconcileOn | control-plane/internal/controller/envoyproxy_controller.go:107-112 | With the xDS server: a proxy that builds is reported connected if and only if a request of its node follows the last close of any of its streams |
| Settle.Reconciler.Drain | control-plane/internal/controller/envoyproxy_controller.go:107-117 | Self-caused events end after at most two reconciles, at whatever times these happen; then the Ready message names the cached version and no further reconcile changes anything |
| Settle.ReconcileIsIdempotent | control-plane/internal/controller/envoyproxy_controller.go:92-117 | With world, list order and connection frozen, a second reconcile changes nothing, whether it succeeds or fails |
| Settle.TransitionTime | control-plane/internal/controller/envoyproxy_controller.go:262-280 | After any sequence of updates of conditions of any types, the transition time of a type is that of the update which brought the present status: the one before it had another status, and all later ones agree |
| Streams.ConnectedIffLiveRequest | control-plane/internal/xds/server.go:75-97 | Over all traces a node is reported connected if and only if one of its streams sent a request after the last close of any of them |
| Streams.ConnectedHasStream | control-plane/internal/xds/server.go:75-97 | Reported connected implies an open stream of the node that has sent a request |
| Streams.ConnectedIffStream | control-plane/internal/xds/server.go:75-97 | With at most one open stream per node the two are equivalent |
| Streams.ReportedDiffersIff | control-plane/internal/xds/server.go:75-97 | On every legal trace the report differs from the truth if and only if a stream serves the node and some stream of the node was closed with no request of the node since |
| Streams.SecondStreamForgotten | control-plane/internal/xds/server.go:91-95 | With two streams of one node, closing one makes the node count as gone |
| Streams.Server.StreamRequest | control-plane/internal/xds/server.go:83-90 | A request is recorded, and the map stays the function of all events so far |
| Streams.Server.StreamClosed | control-plane/internal/xds/server.go:91-96 | A close is recorded, and the map stays the function of all events so far |
| Streams.Server.IsConnected | control-plane/internal/xds/server.go:75-78 | True exactly when a request of the node follows the last close of any of its streams |

## Left out

- How the parser makes comment texts; the compiler takes them as they are.
- ProperSufficientIffDecodable: does not cover clusters that share a Service, where a slice is hashed more than once; SufficientIffUnshared says what holds there.
- The difference between a map field and a field whose type is named "map": the parser stores both the same way, and the model reads a stored "map" as a map field.
- The rule of proto that only the first component of a dotted name is searched for: the innermost-first rule is stated for whole names, as the code searches.
- `ClusterName` matches the key `name` exactly; Go also matches other letter cases.
- NaN and infinities, which the JSON mapping writes as strings, and enums written as numbers.
- The condition `SnapshotSetFailed`: in `Coherence` a failing write is a failed reconcile, in `Settle` writes succeed.
- Status objects in `Coherence`, where a reconcile causes any number of events for its own proxy; `Liveness` has them.
- Reordering of a list without a change of an object, which changes the version.
- Directory walking, the proto grammar, `extend` and groups, the CRD generator, gRPC serving, manager wiring: plumbing or easy members.
- Service port against target port, and Envoy's use of the snapshot.
