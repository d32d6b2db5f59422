# data-cap runtime kernel: a verified model

A Dafny model of the runtime kernel of data-cap, an optimistic, ownership-checked state store driven by interleaved
asynchronous calls, with machine-checked proofs of what the kernel keeps over all its runs.

| file | models |
|---|---|
| `Text.dfy`, `Canonical.dfy` | `src/core/canonicalize.ts`: the encoder over a heap graph, a decoder, cycle and depth guards |
| `Identity.dfy` | `src/core/identity.ts`: composite item identities and reconciliation of array info |
| `Values.dfy`, `Patch.dfy` | `src/core/patch.ts`: structurally shared merging, commits, projection |
| `Freeze.dfy` | `src/core/patch.ts`: deep freezing as marking of an object graph |
| `Schema.dfy`, `SchemaGraph.dfy` | `src/core/schema.ts`, `src/core/build.ts`: defaults, shape checks, the initial state |
| `Ownership.dfy` | `src/core/ownership.ts`: the ownership boundary |
| `Info.dfy`, `Capability.dfy`, `MutatorFailures.dfy`, `CapabilityObject.dfy` | `src/runtime/capability.ts`: the life of getter, mutator and subscription calls, the errors they record |
| `Notifying.dfy` | `src/runtime/capability.ts` on `src/runtime/store.ts`: when a capability's listeners are notified |
| `Operations.dfy`, `OperationKeys.dfy` | `src/runtime/capability.ts`: the per-operation history, its snapshot cache and its keys |
| `Store.dfy` | `src/runtime/store.ts`: authoritative, pending and visible state |
| `Dedupe.dfy`, `Subscriptions.dfy` | `src/runtime/coordinator.ts`: execution dedup and shared subscriptions |
| `Cache.dfy` | `src/runtime/cache.ts`: the bounded least-recently-used cache |
| `Glob.dfy` | `src/_ipc/glob.ts`: the glob compiler |

`dafny verify dfyconfig.toml` checks the whole project.

## How the model reads the source

- **Identity.** A value of the state layer carries the reference of its object: allocation number and path. Dafny
  equality is then `===`, except that NaN is not `===` to itself (`Values.StrictEquals`). `Values.Strip` forgets the
  references; statements about "contents" are about stripped values.
- **Loops and state.** What the source does step by step is a method or a class here (`PatchIntoLoop`, `WalkLoop`,
  `DataStore`, `DataCapability`, `Coordinator`, `SharedSubscriptions`, `DataCache`, `OperationRecord`, `KeySource`), each
  proved equal to a function of its inputs or of the old state. The theorems are about those functions.
- **Runs.** A call is two atomic steps, its start up to the `await` and its settlement. The environment chooses the
  order of all steps, every outcome, and when promises deliver, abort and clean up. A run is any sequence of such
  events; an event that is not enabled changes nothing.
- **Text of leaves.** A finite number, a Date, a URL and a RegExp stand for the text the source prints for them, so two
  of them with the same text are one leaf (+0 and -0 in particular). Integers of type bigint are printed and read back.
- **Assumptions.** Field names differ from the metadata keys `status`, `optimistic`, `error`, `source` and
  `subscription`; no schema declares `__proto__`; records are maps of own enumerable keys; listeners and handlers do not
  throw and do not re-enter; values handed over are not mutated afterwards. `Freeze` alone covers objects handed over
  already frozen.

## Where the code differs from its documentation

The model follows the code. Each difference has a lemma with a concrete case, and one that says exactly when the
documented behaviour holds.

- An accepted `undefined` never takes effect (`Ownership.OptionalFieldIsNotCleared`; exactly:
  `Ownership.OfferedLeafLands`).
- A record offered for a leaf that holds a record is merged into it, not set: keys it leaves out stay
  (`Ownership.UnmentionedKeyStays`), and a Date changes nothing (`Ownership.DateIsNotSet`; exactly:
  `Ownership.OfferedContentsLand`).
- A part of a nullable object that is reset leaves no entry among the field errors, where
  `src/core/ownership.ts:39` has one for every sanitized field (`Ownership.ResetBelowMarkerIsNotRecorded`; exactly:
  `Ownership.LeafErrorMeaning` with `Ownership.AcceptedAsOfferedIffConforms`). And two errors whose paths have one
  dotted text share an entry (`Ownership.TwoErrorsOneEntry`; exactly: `Ownership.EntriesPerErrorIff`, and a text stands for one
  path only exactly when it has no dot: `Ownership.TextNamesOnePathIff`; never when no key of the output has one:
  `Ownership.DotFreeErrorsAreApart`).
- The wrong-shape reset writes defaults over fields the operation does not own (`Ownership.ResetReachesUnownedField`;
  exactly: `Ownership.UnownedUntouchedIffNoReset`).
- Optimistic patches are not checked against the schema (`Capabilities.OptimisticPatchIsNotChecked`; exactly:
  `Capabilities.VisibleConformsIffSuits`).
- A recorded error is never cleared, where `src/core/types.ts:127-132` says the next success clears it
  (`Capabilities.ErrorOutlivesSuccess`; a path is without error exactly when no failure was ever recorded there:
  `Capabilities.ErrorAfterRun`). Nor is it the latest error, where `src/core/types.ts:101` says so: a second plain
  `Error` changes the operation named but not the error (`Capabilities.FirstPlainErrorStays`; exactly:
  `Capabilities.RecordedIsLatestIff`, `Capabilities.LatestObjectIsRecordedIff`).
- The error of a connection stays beside any later status, where `src/core/types.ts:121` has it for the status "error"
  (`Capabilities.ConnectedWithError`; exactly: `Capabilities.ConnectionErrorIsCurrentIff`). The error of a call stays
  in its operation state beside a later success with the same params, where `src/runtime/capability.ts:60-61` has it for
  a call that failed (`Operations.ErrorSeenWithSuccess`; exactly: `Operations.PropertySeenIff`).
- A throwing optimistic callback leaves its status at "loading" (`Capabilities.ThrowingCallbackLeavesLoading`; exactly:
  `Capabilities.Quiescence`).
- A NaN in a record makes every patch of that record a new object (`Patch.NaNDefeatsSharing`; exactly:
  `Patch.SameObjectIffAbsorbed`, `Patch.ReapplyingIsTheSameObject`).
- An object handed over frozen shallowly has parts that a published snapshot leaves unfrozen, where
  `src/core/patch.ts:80-81` says everything reachable is frozen (`Freeze.ShallowlyFrozenPart`; exactly which objects
  are: `Freeze.Publish`).
- While a transition is pending that changes something, every recomputation notifies, also one that changes nothing,
  where `src/runtime/store.ts:63` says otherwise (`Stores.NotifiedWithoutChange`; exactly: `Stores.StepNotifiesIff`,
  over the runs of a capability `Notifying.ListenersAreNotified`).
- A late joiner can be told a stale status (`Subscriptions.StaleStatusForJoiner`; exactly:
  `Subscriptions.JoinersAreToldTheOpeningStatus`).
- Acquiring twice with one handlers object leaks a transport for good (`Subscriptions.RepeatedHandlersLeak`,
  `Subscriptions.SurplusCannotBeClosed`; exactly: `Subscriptions.RefCountMeaning`, `Subscriptions.OpenWhileAttached`).
- `**` does not match a path with a line terminator (`Glob.NewlineIsNotMatched`; exactly which paths, and which
  patterns, mean what is documented: `Glob.PathMatchedAsDocumentedIff`, `Glob.PatternMeansAsDocumentedIff`).
- An identity component that is `undefined` or cannot be encoded is taken for an absent one without a warning
  (`Identity.MissingAndUndefinedCollide`, `Identity.FunctionsCollideSilently`), and `null` is not, where
  `src/core/identity.ts:51-60` says the contrary of both (`Identity.NullDoesNotDegrade`; exactly:
  `Identity.DegradedMeaning`, `Identity.SharedIdentityMeansEqualComponents`).

## Model

| member | source | states |
|---|---|---|
| Text.SortKeysByContents | src/core/canonicalize.ts:103-104 | the sorted key list depends on the set of keys alone, not on the order they were inserted in |
| Text.ReadDigits | src/core/canonicalize.ts:21-23 | the decimal length at the head of an atom is read back exactly, whatever follows it |
| Canonical.SplitAtom | src/core/canonicalize.ts:21-23 | an atom is self-delimiting: tag, payload and rest come back from any string that starts with it |
| Canonical.DecodeScalarAtom | src/core/canonicalize.ts:44-76 | every supported scalar and built-in is recovered from its atom; no two kinds share a text |
| Canonical.DecodeEncode | src/core/canonicalize.ts:8-18 | unique decodability: the key-sorted tree is recovered from any string that starts with its encoding |
| Canonical.EncodePrefixFree | src/core/canonicalize.ts:8-18 | no encoding is a prefix of another and none is shared by two trees, so concatenations need no separator |
| Canonical.DenotesUnique | src/core/canonicalize.ts:95-113 | a value unfolds to at most one tree |
| Canonical.CanonSound | src/core/canonicalize.ts:116-146 | a successful encoding is the encoding of a tree the value denotes, at most 200 deep |
| Canonical.CanonComplete | src/core/canonicalize.ts:100-110 | the visited set rejects nothing the depth bound accepts: a value that denotes a bounded tree is encoded, whatever is being visited above it |
| Canonical.CanonicalizeMeaning | src/core/canonicalize.ts:148-159 | `canonicalize` returns a string exactly when the value denotes a bounded tree, and then that tree's encoding; shared references encode as their unfolding |
| Canonical.EqualEncodingsMeanEqualValues | src/core/canonicalize.ts:148-156 | two encodable values, each in its own heap, get the same string exactly when they are structurally equal |
| Canonical.CyclesAreRejected | src/core/canonicalize.ts:131 | a value from which any cycle can be reached is never encoded |
| Canonical.RefusedAreRejected | src/core/canonicalize.ts:79-98 | a value from which a class instance, a record with an unsafe key, or a function, symbol or invalid Date can be reached is never encoded |
| Canonical.CanonicalizeIgnoresKeyOrder | src/core/canonicalize.ts:103-104 | reordering the keys of any objects, at any depth, changes no result, accepted or rejected |
| Canonical.CanonicalizeInner | src/core/canonicalize.ts:116-146 | the walk with its array loop and growing payload computes the guarded encoding |
| Canonical.CanonicalizeObject | src/core/canonicalize.ts:79-114 | the object branch: instances and unsafe keys rejected, entries encoded in sorted order |
| Canonical.Canonicalize | src/core/canonicalize.ts:157-159 | the exported entry point |
| Identity.ComputeItemIdentity | src/core/identity.ts:61-83 | the loop joins the components in key order and warns once per missing key, or once for a malformed item |
| Identity.SharedIdentityMeansEqualComponents | src/core/identity.ts:51-83 | two items of any shape share an identity exactly when component for component they stand for equal trees, a missing or unencodable component standing for `undefined` |
| Identity.MissingAndUndefinedCollide | src/core/identity.ts:75-80 | a missing key and an `undefined` value do share an identity, with different warnings |
| Identity.DegradedMeaning | src/core/identity.ts:67-83 | a component is the "no value" token exactly when a warning is recorded for it or its value is `undefined` or unencodable, and never both |
| Identity.FunctionsCollideSilently | src/core/identity.ts:80 | items with different functions as id share an identity without any warning |
| Identity.NullDoesNotDegrade | src/core/identity.ts:80 | a `null` component has a token of its own |
| Identity.ReconciledKeys | src/core/identity.ts:93-101 | the reconciled map has exactly the identities of the new items as keys: no orphans, nothing dropped |
| Identity.ReconciledMeaning | src/core/identity.ts:119-133 | a surviving identity that was not touched and has a previous entry keeps it; any other slot is made from the last item that has the identity |
| Identity.DuplicatesAreRecordedIff | src/core/identity.ts:122-124 | an item is reported as a duplicate exactly when an item before it has its identity |
| Identity.ReconcileArrayInfo | src/core/identity.ts:108-136 | the loop computes that map, with every warning in order, duplicates included |
| Glob.ParseEmitted | src/_ipc/glob.ts:17-37 | the emitted text parses to the intended expression: every syntax character is escaped and no fragment is taken for a quantifier |
| Glob.CompiledMatches | src/_ipc/glob.ts:20-36 | the compiled expression accepts exactly what direct recursive matching accepts, from any position in the pattern |
| Glob.CompilationPreservesMeaning | src/_ipc/glob.ts:12-40 | for every pattern and every string the anchored expression and the glob with one-line `**` agree |
| Glob.PathsMatchAsDocumented | src/_ipc/glob.ts:3-11 | on paths without line terminators `**` is any number of segments, including zero |
| Glob.PathMatchedAsDocumentedIff | src/_ipc/glob.ts:3-11 | a path is matched as documented by every pattern exactly when it has no line terminator |
| Glob.PatternMeansAsDocumentedIff | src/_ipc/glob.ts:20-27 | a pattern means what is documented on every string exactly when it has no `**` |
| Glob.LeadingSegmentsMayBeAbsent | src/_ipc/glob.ts:4-6 | whatever a pattern matches it still matches behind a leading `**` segment |
| Glob.NewlineIsNotMatched | src/_ipc/glob.ts:26 | `**` does not match a lone newline |
| Glob.GlobToRegExp | src/_ipc/glob.ts:12-40 | the loop that skips to `resume` writes exactly the anchored fragments of the pattern |
| Patch.PatchIntoLoop | src/core/patch.ts:30-77 | the loop over the union of keys, with its `changed` flag, computes the merge, reusing `prev` when nothing changed |
| Patch.SameObjectIffAbsorbed | src/core/patch.ts:16-20 | `prev` itself is returned exactly when no key is added, no merged leaf differs and no merged record holds NaN |
| Patch.UntouchedBranchesAreShared | src/core/patch.ts:17-18 | every path the patch does not reach is the same object as before |
| Patch.ReapplyingIsTheSameObject | src/core/patch.ts:19-20 | applying a patch to its own result returns that object, exactly when the records it reaches hold no NaN |
| Patch.NaNDefeatsSharing | src/core/patch.ts:71-73 | an empty patch on a record with a NaN makes a new object with the same contents |
| Patch.PatchedBelow | src/core/patch.ts:59-76 | new objects are new: everything in the result is older than the next allocation |
| Patch.PatchIntoRefinesMerge | src/core/patch.ts:30-77 | forgetting identities, the structurally shared merge is a plain recursive merge |
| Patch.ContentsReplacedIffOverwritten | src/core/patch.ts:59-76 | after a merge the contents are those of the patch exactly when it overwrites what it met, all keys included |
| Patch.DisjointPatchesCommute | src/core/patch.ts:64-74 | two patches that write no common path commute on every base |
| Patch.CommitContents | src/core/patch.ts:115-130 | fields and info of a commit are the two merges, together, whether or not a snapshot was made |
| Patch.CommitIsNoOpIffAbsorbed | src/core/patch.ts:109-113 | `next === prev` exactly when both patches are absorbed (and no tree is NaN itself) |
| Patch.ProjectLoop | src/core/patch.ts:137-146 | the loop folds every pending transition in order |
| Patch.LeafAfterPatch | src/core/patch.ts:59-76 | a leaf is what the patch writes there, or the very object that was there |
| Patch.LastWriterWins | src/core/patch.ts:132-146 | a leaf of the projection is what the last pending transition that writes it put there, else the authoritative one, as the same object |
| Freeze.DeepFreezeNewNodes | src/core/patch.ts:95-106 | on any finite graph, cyclic or not, freezing terminates, freezes the root, thaws nothing, leaves every newly frozen object with frozen parts, and touches only what is reached through unfrozen objects |
| Freeze.FrozenAllTheWay | src/core/patch.ts:82-83 | when frozen objects refer only to frozen ones, everything a frozen object leads to is frozen |
| Freeze.Publish | src/core/patch.ts:127-129 | on any heap, exactly what was frozen and what the snapshot reaches through unfrozen objects is frozen afterwards; on a downward closed heap that is everything reachable, and the heap stays downward closed |
| Freeze.ShallowlyFrozenPart | src/core/patch.ts:98-101 | a part of an object that was handed over frozen shallowly stays unfrozen although the snapshot reaches it |
| Schemas.CheckPlainObject | src/core/schema.ts:131-146 | the loop keeps declared keys, drops unknown ones and resets invalid nested values |
| Schemas.CheckValueAgainstSchema | src/core/schema.ts:159-173 | the dispatch over markers, built-ins, arrays, plain objects and primitives |
| Schemas.DefaultMeaning | src/core/schema.ts:15-21 | a default is `null` for a nullable, `undefined` for an optional field, and otherwise a copy of what is declared, at every depth and with exactly the declared keys |
| Schemas.CheckMeaning | src/core/schema.ts:148-173 | the check accepts exactly what has the outermost shape; the value becomes itself without undeclared keys and with the default wherever a shape is wrong, at every depth |
| Schemas.DefaultConforms | src/core/schema.ts:15-21 | defaults have the declared shape with every key present |
| Schemas.CheckedConforms | src/core/schema.ts:148-158 | whatever the check accepts, after nested resets, has the declared shape |
| Schemas.ConformingPassesUnchanged | src/core/schema.ts:148-158 | a value of the declared shape passes the check with its contents unchanged |
| Schemas.PatchKeepsConforming | src/core/patch.ts:22-28 | merging a patch of the declared shape keeps a state in it, and dense trees dense |
| Schemas.PatchConformsIffSuits | src/core/patch.ts:30-77 | merging an arbitrary patch into a conforming value gives a conforming value exactly when every replacement and every added key has the declared shape |
| SchemaGraph.ResolveSound | src/core/schema.ts:35-90 | what is accepted is the default of a finite schema the declaration denotes |
| SchemaGraph.ResolveComplete | src/core/schema.ts:64-66 | the stack rejects nothing the depth bound would accept |
| SchemaGraph.ResolveMeaning | src/core/schema.ts:35-90 | a declaration is accepted exactly when it unfolds to a schema without functions at most 200 deep; aliasing is no cycle |
| SchemaGraph.AcceptedPartsResolve | src/core/ownership.ts:152 | a part of an accepted declaration is no function, and resolves again from an empty stack, at any path no longer than it is deep, so a reset never throws |
| SchemaGraph.ResolveFieldDefaults | src/core/schema.ts:68-89 | the walk with its shared stack computes that, and restores the stack on accepting and rejecting exits |
| SchemaGraph.BuildData | src/core/build.ts:34-49 | the initial state exists exactly for accepted declarations, holds the defaults, conforms, and has empty info |
| Ownership.WalkLoop | src/core/ownership.ts:96-183 | the recursive loop computes the accepted tree, `hasAny` says whether it is empty, and the shared map gains exactly the errors of the walked paths, which `ErrorMeaning` gives |
| Ownership.ResolveOperationPatch | src/core/ownership.ts:78-196 | nothing from a non-object output; no declaration means the whole schema; otherwise the accepted patch, and an entry for exactly the dotted texts of the paths dropped or reset, with the reason of such a path; whatever is offered for a leaf that is not owned has an error saying so, at the leaf or above it |
| Ownership.ErrorMeaning | src/core/ownership.ts:108-182 | which error any path carries, from the whole path: none unless the output has a value there in a record the walk goes into; then unsafe key, undeclared, not owned or invalid shape, in this order |
| Ownership.LeafIsBlamedIff | src/core/ownership.ts:38-39 | nothing offered for a leaf is dropped or reset in silence: there is an error at it or above it exactly when it is not owned, its path is unsafe or its shape is wrong; and "not owned" when that is so under safe keys |
| Ownership.DottedApart | src/core/ownership.ts:112 | paths of keys without dots have different texts, so each error has its own entry |
| Ownership.TextNamesOnePathIff | src/core/ownership.ts:112 | the dotted text of a path is the text of no other exactly when there is no dot in it |
| Ownership.EntriesPerErrorIff | src/core/ownership.ts:39 | never more entries than errors, and as many exactly when no two errors have one text |
| Ownership.DotFreeErrorsAreApart | src/core/ownership.ts:39 | an output without dots in its keys leaves one entry for each error |
| Ownership.TwoErrorsOneEntry | src/core/ownership.ts:112-115 | an output with an undeclared key `a.b` and an undeclared `b` within `a` loses both and leaves one entry |
| Ownership.AcceptedConforms | src/core/ownership.ts:71-77 | whatever an operation outputs, the accepted patch has the declared shape |
| Ownership.OperationKeepsConforming | src/core/ownership.ts:71-77 | committing any operation's output keeps a state of the declared shape in it |
| Ownership.AcceptedAtLeaf | src/core/ownership.ts:105-182 | a leaf is in the patch exactly when a reset above it put its default there or the operation owns it and the output has a value at that path; then it holds the checked value |
| Ownership.LeafAfterOperation | src/core/ownership.ts:105-182 | after a commit each leaf is the old one with what was offered there merged in; with nothing offered, the same object; nothing is offered at unowned leaves unless a reset above fires |
| Ownership.UnreachedBranchIsTheSameObject | src/core/ownership.ts:105-182 | after a commit every declared branch the walk does not get to, interior ones too, is the very object it was |
| Ownership.UnownedUntouchedIffNoReset | src/core/ownership.ts:148-154 | an unowned leaf is unchanged in every conforming state exactly when no wrong-shape reset fires above it or its default is `undefined` |
| Ownership.ResetReachesUnownedField | src/core/ownership.ts:148-154 | an operation owning one field of an object resets its sibling by returning null for the object |
| Ownership.OfferedLeafLands | src/core/ownership.ts:172-179 | unless a record meets a record, an offered value lands exactly when it is not `undefined`, or `undefined` was there already |
| Ownership.OfferedContentsLand | src/core/ownership.ts:172-179 | for any offered value, records too, the leaf ends with the offered contents exactly when the offer overwrites the old value |
| Ownership.DateIsNotSet | src/core/patch.ts:53-76 | a Date offered for a leaf that holds a plain object is accepted and changes nothing |
| Ownership.UnmentionedKeyStays | src/core/patch.ts:59-76 | a nullable object offered without a key is accepted and keeps the key |
| Ownership.OptionalFieldIsNotCleared | src/core/ownership.ts:74-76 | a mutator that owns everything cannot clear an optional field |
| Ownership.LeafErrorMeaning | src/core/ownership.ts:172-179 | an owned leaf carries no error exactly when the check accepts the offered value, and else "invalid shape" |
| Ownership.AcceptedAsOfferedIffConforms | src/core/schema.ts:148-158 | what is accepted for a leaf has the offered contents exactly when the offered value has the declared shape |
| Ownership.ResetBelowMarkerIsNotRecorded | src/core/ownership.ts:39 | a part of a nullable object is reset without an error |
| Ownership.UnownedOutputDoesNotMatter | src/core/ownership.ts:121-130 | outputs that agree on owned leaves and the shapes above them give the same accepted patch |
| Ownership.AcceptedContents | src/core/ownership.ts:185-195 | the contents of an accepted patch depend on schema, ownership and output alone |
| Info.BuildInfoPatch | src/runtime/capability.ts:269-282 | the recursive loop places the metadata at every path declared `true` |
| Info.MetaAfterPatch | src/runtime/capability.ts:269-282 | a commit merges an operation's metadata in at exactly its declared paths, and leaves all metadata above, below and beside them |
| Info.StatusAfterPatch | src/runtime/capability.ts:269-282 | a status is replaced exactly where the operation declares it |
| Stores.RunKeepsProjected | src/runtime/store.ts:61-68 | after any run the visible snapshot is the projection of the current authoritative state through the current transitions |
| Stores.NothingPendingMeansSameObject | src/core/patch.ts:134-135 | with nothing pending, visible is the very object that is authoritative |
| Stores.RunMeaning | src/runtime/store.ts:83-102 | after any run: pending is the live transitions, authoritative the commits folded in order, visible those with the live transitions on top |
| Stores.OptimisticTraceErasure | src/runtime/store.ts:7-13 | deleting an added-then-removed transition from a run changes neither final snapshot's contents nor what is pending |
| Stores.StepNotifiesIff | src/runtime/store.ts:61-102 | exactly when an operation on a reachable store notifies: a commit unless absorbed, an added transition unless it and all others are unheeded, a removed one unless all were |
| Stores.PublishedMeaning | src/runtime/store.ts:61-68 | over a run from any reachable store listeners are notified exactly as often as that |
| Stores.NotifiedWithoutChange | src/runtime/store.ts:63 | while a heeded transition is pending, adding one that says nothing notifies with unchanged contents |
| Notifying.StepIsStoreRun | src/runtime/capability.ts:529-598 | each event of a capability is a run of at most two store operations: its commit, and an optimistic transition that comes or goes |
| Notifying.ListenersAreNotified | src/runtime/store.ts:61-68 | over every run of a capability, whatever its operations return, listeners are notified exactly as often as the store operations behind its events notify |
| Stores.DataStore.constructor | src/runtime/store.ts:46-53 | the store starts with its initial state authoritative and visible, nothing pending |
| Stores.DataStore.RecomputeVisibleState | src/runtime/store.ts:61-68 | recomputes the projection, notifying exactly on a changed snapshot |
| Stores.DataStore.CommitAuthoritative | src/runtime/store.ts:83-89 | folds a patch onto what is currently authoritative |
| Stores.DataStore.AddPendingTransition | src/runtime/store.ts:90-95 | appends a transition under an id that is not pending |
| Stores.DataStore.RemovePendingTransition | src/runtime/store.ts:96-102 | removes exactly the transition with that id, nothing when there is none |
| Capabilities.StepWrites | src/runtime/capability.ts:495-500 | the single commit each event makes, or none for a superseded getter, and its effect on both authoritative trees |
| Capabilities.SettlementsLand | src/runtime/capability.ts:487-509 | every settlement, but a superseded getter's, and every subscription event merges the accepted part of its output into the fields and shows "success" at each declared path, or leaves the fields alone and shows "error"; nothing else touches the fields |
| Capabilities.CallMetaAfterRun | src/runtime/capability.ts:570-590 | after any run a path has the status of the last start, success or failure concerning it, as source the operation that succeeded last, and `optimistic: false` exactly from the first settlement of a mutator on |
| Capabilities.OptimisticWhileInFlight | src/runtime/capability.ts:546-552 | in every reachable state a path is visible as optimistic exactly while a mutator with an optimistic update that declares it is in flight; it is then visible as loading, and else with its authoritative status |
| Capabilities.CallsWereStarted | src/runtime/capability.ts:470-477 | a call in flight is of the operation and with the transition that the event which started it says |
| Capabilities.FieldsAlwaysConform | src/runtime/capability.ts:487-500 | type soundness over all runs: authoritative fields conform and keep every declared key under any interleaving and any outputs |
| Capabilities.UnownedLeafKeepsItsDefault | src/core/ownership.ts:1-8 | a leaf no operation owns has the contents of its default after any run, whatever resets reach it |
| Capabilities.UnresetLeafIsTheSameObject | src/core/ownership.ts:1-8 | and is the very same object after any run in which no reset reaches it |
| Capabilities.AlwaysPaired | src/runtime/capability.ts:541-553 | in every reachable state pending transitions and optimistic mutators in flight are in one-to-one correspondence |
| Capabilities.LoadingMeaning | src/runtime/capability.ts:428-429 | a path at "loading" has a call in flight that will settle it, or its last status came from a start whose optimistic callback threw |
| Capabilities.Quiescence | src/runtime/capability.ts:592-597 | with no call in flight: nothing pending, visible is the object that is authoritative, and a path is at "loading" exactly when such a throw was its last status |
| Capabilities.QuietWhenNothingThrows | src/runtime/capability.ts:470-514 | when no optimistic callback throws, a quiescent capability shows "loading" nowhere |
| Capabilities.ThrowingCallbackLeavesLoading | src/runtime/capability.ts:541-546 | one throwing callback leaves its path at "loading" with no call in flight |
| Capabilities.ErrorAfterRun | src/runtime/capability.ts:502-509 | after any run a path has an error record exactly when a failure was recorded there; it names the operation that failed last, and its error is the failures' errors patched into one another: with plain errors the very first |
| Capabilities.RecordedIsLatestIff | src/core/types.ts:101 | the recorded error has the latest error's contents exactly when that is the only one or overwrites what was left |
| Capabilities.LatestObjectIsRecordedIff | src/core/types.ts:101 | a further failure's error, another than the recorded one, becomes the recorded one exactly when it is not `undefined` and not both are records |
| Capabilities.FirstPlainErrorStays | src/runtime/capability.ts:580-591 | after two failures with plain errors the record names the second operation beside the first one's error |
| Capabilities.ErrorOutlivesSuccess | src/core/types.ts:127-132 | after a failure and then a success the status is "success" and the error is still recorded |
| Capabilities.ErrorIsNeverCleared | src/runtime/capability.ts:504-509 | once a path has an error recorded, no sequence of further events of any kind removes it |
| Capabilities.SuccessKeepsTheOldError | src/runtime/capability.ts:495-500 | a success of a getter, a mutator or a subscription sets the status and leaves the error of an earlier failure, as the same object |
| Capabilities.ConnectionAfterRun | src/runtime/capability.ts:624-658 | after any run a path's connection record has the status reported last, and an error exactly when some report so far carried one |
| Capabilities.ConnectionErrorIsCurrentIff | src/core/types.ts:121 | the record has an error for no status but "error" exactly when that is the last status or no report carried an error |
| Capabilities.ConnectedWithError | src/runtime/capability.ts:651-657 | a connection that failed and is connected again is recorded as "connected" with the error |
| Capabilities.VisibleConforms | src/core/patch.ts:137-146 | visible fields conform when every live optimistic patch does |
| Capabilities.VisibleConformsIffSuits | src/runtime/capability.ts:541-552 | one more optimistic patch leaves visible fields with the declared shape exactly when it suits the visible value it meets |
| Capabilities.OptimisticPatchIsNotChecked | src/runtime/capability.ts:546-551 | an optimistic patch of the wrong type shows in visible fields |
| Capabilities.GettersLinearize | src/runtime/capability.ts:463-512 | under any settle order a getter's field-level commits are in strictly increasing start order, and once its last-started call has settled that call is the last one committed |
| MutatorFailures.FieldsAreTheSuccesses | src/runtime/store.ts:9-12 | after any run the fields are the defaults with the accepted parts of the outputs of the successes merged in, in settle order |
| MutatorFailures.RunsStayRelated | src/runtime/capability.ts:580-598 | along any feasible run, the run without its failed mutator calls is feasible and stays in step |
| MutatorFailures.FailedMutatorsAreInvisible | src/runtime/capability.ts:580-598 | deleting failed mutator calls from a run changes neither the final authoritative fields nor the final visible fields nor the calls in flight |
| CapabilityObject.DataCapability.constructor | src/runtime/capability.ts:316 | the store of a capability starts with the defaults of its accepted schema, and no call is in flight |
| CapabilityObject.DataCapability.BeginOperationCall | src/runtime/capability.ts:429 | commits "loading" at the declared paths |
| CapabilityObject.DataCapability.GetterStart | src/runtime/capability.ts:470-481 | takes the start step and hands out a newer start token |
| CapabilityObject.DataCapability.GetterSettle | src/runtime/capability.ts:483-514 | commits only for the last-started call, its status and the accepted part of its output; its caller gets that accepted part, or the error, either way |
| CapabilityObject.DataCapability.MutatorStart | src/runtime/capability.ts:529-553 | takes the start step, adding a transition exactly for a callback that returned a patch; a throw starts nothing |
| CapabilityObject.DataCapability.MutatorSettle | src/runtime/capability.ts:555-598 | commits the accepted part of the output with "success", or nothing with "error", and then removes the transition; the caller gets the accepted part or the error |
| CapabilityObject.DataCapability.OnSubscriptionEvent | src/runtime/capability.ts:635-650 | commits the accepted part of the processed event with status "success" |
| CapabilityObject.DataCapability.OnSubscriptionStatus | src/runtime/capability.ts:624-632 | records a connection status without touching any field |
| Operations.OperationRecord.SetOperationState | src/runtime/capability.ts:358-384 | records a call's state merged over its previous one, newest last, evicting down to the cap, and drops the cached snapshot |
| Operations.OperationRecord.MaterializeOperationsSnapshot | src/runtime/capability.ts:344-356 | the snapshot handed out, cached or rebuilt, is always the one the working histories give |
| Operations.RecordedIsSeen | src/runtime/capability.ts:358-384 | after recording, a reader sees the call's merged state (nothing under a non-positive cap) and every other operation unchanged |
| Operations.OtherCallsAreSeen | src/runtime/capability.ts:370-381 | and the operation's other calls unchanged, except those since which as many calls were recorded as the cap allows |
| Operations.PropertySeenIff | src/runtime/capability.ts:369 | a property of a call's state is seen exactly when the last record has it or it was seen before |
| Operations.ErrorSeenWithSuccess | src/runtime/capability.ts:60-61 | a failure and then a success with the same params are seen as a success with the error |
| OperationKeys.EncodingIsNotSynthetic | src/runtime/capability.ts:393-395 | a made-up key is the encoding of no tree |
| OperationKeys.SameKeyIff | src/runtime/capability.ts:386-397 | two calls are recorded under one key exactly when both have a canonical form, and the same |
| OperationKeys.KeySource.ComputeOperationKey | src/runtime/capability.ts:386-397 | takes the canonical form, else makes up a key from the counter |
| Dedupe.AlwaysCoherent | src/runtime/coordinator.ts:93-142 | entries lead to live executions of their function and key, live keyed executions are registered, and callers wait on fitting executions, in every reachable state |
| Dedupe.AtMostOneExecution | src/runtime/coordinator.ts:5-6 | a function and canonical key never have two executions that are running or yet to clean up |
| Dedupe.CleanupRemovesOnlyItsOwn | src/runtime/coordinator.ts:124-133 | the cleanup, which deletes by key, always removes the settled execution's own entry and no other |
| Dedupe.AnswersFitTheParams | src/runtime/coordinator.ts:58-63 | a caller is answered only with a result of its function computed for structurally equal params |
| Dedupe.DeliveryAnswers | src/runtime/abort.ts:57-61 | a caller that still waits when its promise delivers is answered with what its execution settled with |
| Dedupe.ResultsWereSettled | src/runtime/abort.ts:57-68 | in every reachable state an execution has no result but one it settled with |
| Dedupe.CallersAreTheCalls | src/runtime/coordinator.ts:93-142 | every call has its caller, in order, with its function, params and signal |
| Dedupe.UnkeyedCallsAreNeverShared | src/runtime/coordinator.ts:98-104 | a call with non-canonicalizable params shares its execution with no other call |
| Dedupe.EqualParamsShare | src/runtime/coordinator.ts:106-110 | a call whose params denote the same bounded tree as those of a live execution of its function joins that execution and starts none |
| Dedupe.SharedExecutionsAreNeverCancelled | src/runtime/coordinator.ts:112-116 | a keyed execution runs under a signal that is never aborted, so it is never cancelled |
| Dedupe.CancelledByItsCaller | src/runtime/coordinator.ts:103 | a cancelled execution is unkeyed, and the aborted signal is that of its one caller |
| Dedupe.AbortRejectsItsCallers | src/runtime/abort.ts:40-54 | in every reachable state no caller whose signal was aborted, before its call or since, still waits, and none is rejected for an abort whose signal was not |
| Dedupe.AnswersAreFinal | src/runtime/abort.ts:55-68 | an answer once given never changes, whatever is aborted or settles later |
| Dedupe.AbortIsPrivate | src/runtime/coordinator.ts:65-67 | the run without a signal's aborts ends with the same registry, the same executions but those run under the signal itself, and the same answers for all callers with other signals |
| Dedupe.Coordinator.DedupeCall | src/runtime/coordinator.ts:93-142 | joins or starts and registers an execution, under its own controller's signal if keyed and the caller's if not, as the step says |
| Dedupe.Coordinator.CleanUp | src/runtime/coordinator.ts:126-133 | the `finally` handler, as the step says |
| Dedupe.Coordinator.OnAbort | src/runtime/abort.ts:40-70 | an abort rejects each caller that waits under the signal, keeps every other answer, and leaves executions alone |
| Subscriptions.AlwaysCoherent | src/runtime/coordinator.ts:144-213 | registered entries have an open transport of their function, torn-down ones are unregistered, and no transport is torn down twice |
| Subscriptions.ConsumersAreTheAttached | src/runtime/coordinator.ts:192-201 | the registered consumers are the handlers acquired and not released since |
| Subscriptions.RefCountMeaning | src/runtime/coordinator.ts:185-186 | the reference count is the number of attached consumers plus the acquires repeated with attached handlers |
| Subscriptions.OpenWhileAttached | src/runtime/coordinator.ts:75-81 | at most one open transport a function, at most one teardown a transport, and one is open exactly while a consumer is attached or a repeat is left over |
| Subscriptions.FreshHandlersOpenExactlyWhileAttached | src/runtime/coordinator.ts:75-81 | with fresh handlers, a transport is open exactly while somebody is attached and the count is their number |
| Subscriptions.EventsReachTheAttached | src/runtime/coordinator.ts:164-176 | the set a transport's fan-out closed over holds exactly the attached consumers while it is open, and is empty once it is torn down |
| Subscriptions.PublishedStatus | src/runtime/coordinator.ts:170-183 | after any run an entry has the status its transport reported last while it was opened, "connecting" if none |
| Subscriptions.WhoIsToldWhat | src/runtime/coordinator.ts:164-189 | exactly which statuses each event of any run hands out and to whom: every report while opening to the first consumer, the opening status to a joiner alone, and a later report to the consumers attached |
| Subscriptions.ReleaseIsIdempotent | src/runtime/coordinator.ts:193-199 | a second release, even after the entry was torn down and rebuilt, changes nothing |
| Subscriptions.RepeatedHandlersLeak | src/runtime/coordinator.ts:185-186 | one handlers object acquired twice and released twice leaves a transport open |
| Subscriptions.SurplusCannotBeClosed | src/runtime/coordinator.ts:185-201 | once there was a repeated acquire the transport stays open and registered whatever happens later |
| Subscriptions.JoinersAreToldTheOpeningStatus | src/runtime/coordinator.ts:182-189 | a joiner alone is told, at once, the last status the transport reported while it was opened; that is its last report exactly when it has reported nothing since or that very status last |
| Subscriptions.StaleStatusForJoiner | src/runtime/coordinator.ts:170-171 | a second consumer is told "connecting" after the first was told "connected" |
| Subscriptions.SharedSubscriptions.AcquireSubscription | src/runtime/coordinator.ts:144-190 | opens the first transport, publishing the status it reported last meanwhile, or joins the entry, telling the joiner its status, as the step says |
| Subscriptions.SharedSubscriptions.ReleaseSubscription | src/runtime/coordinator.ts:193-212 | removes the consumer, and tears down and unregisters when the count reaches zero |
| Subscriptions.SharedSubscriptions.FanOut | src/runtime/coordinator.ts:165-169 | each consumer in the transport's set hears an event exactly once |
| Cache.AlwaysBounded | src/runtime/cache.ts:66-76 | after any run keys are distinct and the size bound holds |
| Cache.OrderedByLastTouch | src/runtime/cache.ts:49-57 | after any run the entries stand in the order of their last get or set |
| Cache.EvictedIsOldest | src/runtime/cache.ts:68-75 | a key a set pushes out was last used before every key that stays |
| Cache.RecentlyUsedIsRetained | src/runtime/cache.ts:60-76 | a key set or found by a get stays while fewer than `maxEntries` other keys are used and it is not dropped or set anew |
| Cache.RetainedIffNeverPushedOut | src/runtime/cache.ts:60-76 | under any gets, and any sets and deletes of other keys, a used key keeps its value exactly as long as there never were `maxEntries` other keys in use since it was last read |
| Cache.RetainedIffFewerSets | src/runtime/cache.ts:66-76 | under sets of other keys a value is retained exactly while fewer than `maxEntries` different ones were set |
| Cache.EvictOldest | src/runtime/cache.ts:70-75 | the loop counting `excess` down drops exactly the oldest entries |
| Cache.DataCache.GetEntry | src/runtime/cache.ts:60-65 | returns the stored value and makes the key the newest |
| Cache.DataCache.SetEntry | src/runtime/cache.ts:66-76 | stores the value as the newest and evicts down to the bound |
| Cache.DataCache.DeleteEntry | src/runtime/cache.ts:77-79 | removes exactly that key |
| Cache.DataCache.ClearEntries | src/runtime/cache.ts:80-82 | removes everything |

## Left out

- `toJSON` of class instances: it recurses without raising the depth, so it need not end; instances here have none and are not encodable.
- Error values: the text, path and kind of a thrown `InvalidFieldDefaultError` depend on key order; a rejected declaration is just rejected here.
- Ownership.ResolveOperationPatch: of several errors with one dotted text the source keeps the last in key order; records are unordered here, so the entry gives the reason of one of them.
- CapabilityObject.DataCapability.constructor: takes the schema an accepted declaration denotes; that a bad declaration is rejected is `SchemaGraph.BuildData`.
- CapabilityObject.DataCapability.BeginOperationCall: the commit of the shared set-up only; the operation record and the params key are `Operations.OperationRecord` and `OperationKeys.KeySource`, on their own, and merging of params and the composed signal are not modelled.
- Promises, microtasks and `AbortSignal`: settling, delivering, aborting and cleaning up are separate events in any order; `composeSignals` is not modelled, and a signal is known by number.
- Synchronous throws of `fn` and `subscribeFn`: they leave no entry behind and are the absence of an event here; a throwing teardown still removes its entry and is modelled as an ordinary one.
- Freezing and committing are modelled separately: values of the state layer are immutable as they are.
- Listener registration, re-entrant and throwing listeners; the composed capability snapshot of store and operations.
- `matchesAllowList`: expressions over strings around the compiler.
- `describe` (lists the declared operations with their ownership), `runGetters` (awaits several getters and pairs each with its outcome), timestamps on operation states, development-mode console warnings, and the merging of default and given params.
- Retry policy, helpers, evidence projection, ESLint rules, CLI, file-system access, document generation, examples.
