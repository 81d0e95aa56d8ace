# A verified model of the Soroban host's core

This project models the parts of the Soroban smart-contract environment whose correctness is
hardest to see from the code, and proves what they are for.

- **Authorization** (`AuthTypes`, `AuthTree`, `InvocationTracking`, `AuthMachine`,
  `AuthRecording`, `AuthInvariant`, `AuthPreservation`, `AuthSteps`, `AuthTheorems`,
  `AuthNonces`, `AuthDecisions`, `AuthRecordingRuns`, `AuthReplay`, `AuthRecordEnforce`,
  `AuthRecordTheorem`; the mutable objects in `AuthTrackers` and `AuthManager`). Trees of
  pre-authorized calls are matched against the call stack as it runs. The manager is a state
  machine: an event is one call into it, and an authentication, which may call back, is a scope
  that any balanced run may fill before the answer comes. A state carries history: the log of
  account matches, each invoker tracker's own matches and the depth it was made at, and the
  states that open scopes were entered from. After an `Err` of a request the frame fails, and
  can only be popped with rollback. One invariant covers both modes of the manager, enforcing
  and recording. The main theorems: a rollback is exact although snapshots keep flags only; no
  node is used twice; disjoint entries never cover one call tree; no nonce is accepted twice;
  scopes; a tracker is verified only by its own successful authentication; exactly when a run
  ends with an internal error; exactly when a request is refused, in either mode, and which node
  it uses otherwise; and every recorded run is accepted when enforced.
- **Footprinted storage** (`StorageModel`, `StorageReplay`, `StorageLedger`, `LedgerChanges`;
  the mutable object in `StorageObject`). A recording cache and an enforcing map are both the
  plain ledger, the recorded footprint is the least one under which the run goes through, and
  life is extended exactly when, and as far as, the limits allow.
- **Expression compiler** (`WasmMachine`, `ExprCompiler`, `ExprTheorems`, `ExprMeaning`,
  `ExprModule`; the mutable emitters in `SynthEmitters`). Typed expression trees become
  WebAssembly. The target follows sections 2.5, 3.3, 3.4, 4.4.1, 4.4.3 and 4.4.5 of the
  WebAssembly Core Specification 1.0. Compiled code means what the expression means, for any
  interpretation of the host functions.
- **Budget** (`BudgetModel`, `BudgetTheorems`, `BudgetObject`). Saturating 64-bit counters,
  shadow mode and the depth guard; what a charge costs, over the models' fields.
- **Rent fees** (`RentModel`, `RentTheorems`). Saturating 64-bit arithmetic, ceiling
  division, what an entry pays, over the configuration's fields, and the extraction of rent
  changes from ledger changes.
- **Small symbols** (`SymbolCodec`, `SymbolTheorems`). The six-bit packing, the decoding
  iterator over a shifting word, and the order.
- **Object handles** (`ObjectTables`). Relative and absolute handles and their tables.

Where the source mutates objects, a class with those fields does, and every method's contract
equates its new state and answer with a function on values; the theorems are about those
functions, over every input and every run. `Wrappers` holds optional values and results,
`Arithmetic` the machine integers and what is needed about products and quotients.

Check everything with `dafny verify dfyconfig.toml` (Dafny 4.11).

## Where the code says something else than its documentation

- `auth.rs:1648` subtracts one from the length of the match stack. A tracker that a contract
  creates for its own subsequent calls has an empty stack until the next frame is pushed; if
  the contract then requires, of itself, the authorization of the very call it authorized, the
  subtraction underflows. The model makes this an internal error;
  `AuthTheorems.RequireErrorExactly` states when it happens, and
  `AuthTheorems.RequireErrorHappens` is a run in which it does.
- `auth.rs:1216`: a rollback is an internal error if the failing frame authorized calls as an
  invoker and its trackers are still there. `AuthTheorems.RollbackIsExact` and
  `AuthTheorems.RollbackErrorExactly` are therefore equivalences, and
  `AuthTheorems.RollbackErrorHappens` is a run that ends with the error.
- `host_object.rs:251`: `checked_shl` guards the shift amount only, so indices from 2^31 on
  share handles. `ObjectTables.HandleRoundTrip` is an equivalence, and
  `ObjectTables.HandlesCollide` says which indices share one.
- `e2e_invoke.rs:171-201` promises to skip no-op changes only, but skips every extension of a
  read-only entry: `RentTheorems.ExtractedExactly` gives the exact condition, and
  `RentTheorems.ReadOnlyExtensionPaysNoRent` the runs with one such entry.
- `expr.rs:42-51` cannot make a valid module whose function is called `memory`, which is the
  name the memory is exported under: `ExprModule.SingleFunctionModule`.
- `symbol.rs:154-166` accepts bodies with zero codes below nonzero ones; such a body compares
  equal to another one: `SymbolTheorems.OrderEqual` and `SymbolTheorems.GapsCompareEqual`.

## Model

Theorems and the lemmas they rest on come first. From `AuthTrackers` on, the rows are the
methods of the mutable objects and the loops, each proved equal to the function on values that
the theorems are about.

| member | source | states |
|---|---|---|
| AuthTheorems.PathRefinement | soroban-env-host/src/auth.rs:415-424 | In every reachable state of either mode, for every tracker of an account or of an invoker: its match stack has at most one root match and no sub-match below it; every matched frame stands for a used node, reached by folding the sub-match indices from the root match, whose function is that frame's; the loop-and-recursion search never fails and finds the node of the whole fold. Account trackers mirror the call stack, or what of it lies below their own authentication; invoker trackers the frames above the one that made them. |
| AuthTheorems.Conservation | soroban-env-host/src/auth.rs:1618-1661 | Over any run of either mode with arbitrary rollbacks, the used nodes of every tracker, of an account or of an invoker, are exactly its matches, or recorded requests, not undone by rollback: equal in number, no node backing two of them, and closed under parents. |
| AuthTheorems.RollbackIsExact | soroban-env-host/src/auth.rs:1168-1242 | In either mode: pushing a contract frame, running anything that comes back to it and popping with rollback either restores every account tracker (flags, verification, match stack, root frame, progress), the recording's trees and handles, the nonces, the surviving matches and every invoker tracker in use to what they were before the push, or is an internal error; it succeeds exactly when no invoker tracker is left that the frame itself has made. |
| AuthTheorems.TopLevelRollbackIsExact | soroban-env-host/src/auth.rs:1314-1372 | In either mode rolling back the host function frame at the bottom of the stack always succeeds and restores the whole state. |
| AuthTheorems.NoDisjointCover | soroban-env-host/src/auth.rs:911-975 | In either mode two distinct trackers of one address that are both active, with roots at frames i and j, are both matched at frame max(i, j): disjoint entries never share a call tree. |
| AuthTheorems.VerifiedMeansUsed | soroban-env-host/src/auth.rs:1818-1863 | In either mode, outside a failing frame an unborrowed tracker is verified exactly when its root is used; a borrowed one is not verified yet; a verified tracker with address credentials has its nonce in the ledger and shares it with no other verified tracker of the address. |
| AuthTheorems.ActivityIsRootMatch | soroban-env-host/src/auth.rs:1591-1600 | In either mode a tracker is active, as its two flags say, exactly when a root match is on its stack. |
| AuthTheorems.InvokerScope | soroban-env-host/src/auth.rs:1345-1369 | In either mode each invoker tracker was made by a frame that is still on the call stack, a frame of the tracker's contract; its match stack is as long as the frames above that one, creation depths never decrease along the vector, and so the trailing pops after a frame remove exactly the trackers that went out of scope. |
| AuthTheorems.AuthorizedInContext | soroban-env-host/src/auth.rs:823-845 | When, enforcing, an account tracker answers a request, exactly one match is added: an unused node whose function is the current frame's, by contract and name, with exactly the arguments asked for, and whose parent is the node matched last; a root only if the tracker was not active and no active tracker of the address is unmatched here; a tracker not yet verified goes into its authentication. |
| AuthTheorems.DirectInvokerExactly | soroban-env-host/src/auth.rs:866-889 | In either mode a request leaves the whole state as it was exactly when it asks for the authorization of the contract that called the current frame. |
| AuthTheorems.InvokerAuthorizedInContext | soroban-env-host/src/auth.rs:891-905 | In either mode, when an invoker tracker answers a request, it was made by a frame below the current one, a frame of the contract asked for, and it alone changes: it uses an unused node, for the current frame's function with exactly the arguments asked for, below the node matched last. |
| AuthDecisions.EnforcingDecidesExactly | soroban-env-host/src/auth.rs:911-975 | In every reachable enforcing state a request is refused exactly when the address is not the direct invoker's, no invoker tracker of it answers, and no account tracker of the address, outside its authentication, has an unused node for exactly this call, below the node matched last, or its root if no started tree of the address waits for this frame. Otherwise, if no invoker answers, the first account tracker with such a node uses the first it has. |
| AuthDecisions.InvokersAnswerExactly | soroban-env-host/src/auth.rs:866-908 | In every reachable state of either mode, invokers answer exactly the requests for the direct invoker, which change nothing, and those for which a tracker made by a contract at the address has an unused node for exactly this call below the node matched last; then the first such tracker uses the first such node, and nothing else changes. |
| AuthDecisions.MatchExactly | soroban-env-host/src/auth.rs:1618-1661 | A tracker matches a call exactly when, the frame being unmatched, it has an unused node for it below the node matched last, or at the root if nothing is matched and a root may be used; it uses the first. |
| AuthDecisions.AuthenticationEnds | soroban-env-host/src/auth.rs:1834-1860 | In every reachable state the end of an authentication verifies the tracker and consumes its nonce exactly if nothing failed within, and the account is the source account or was authenticated, the nonce may be accessed, is not consumed yet, and its expiration neither passed nor beyond the ledger's limit. Otherwise the frame fails, and neither happens. Nothing else changes. |
| AuthDecisions.VerifiedOnlyByAuthentication | soroban-env-host/src/auth.rs:1834-1860 | In either mode, whatever the event, rollbacks included: a tracker turns verified only by the end of its own authentication, with nothing failed, and for the source account or with authenticated, admissible credentials. |
| AuthDecisions.EntriesAreHeld | soroban-env-host/src/auth.rs:1727-1763 | Every submitted entry makes one tracker, in order, unused and unverified, whose tree converts back to the very tree submitted, with the entry's address, nonce and expiration. |
| AuthDecisions.AuthorizationsAreHeld | soroban-env-host/src/auth.rs:847-863 | A contract's authorizations add exactly one tracker each, in order, of the calling contract, unused, whose tree converts back to the one submitted; older trackers and everything else stay. |
| AuthNonces.CredentialsAreFresh | soroban-env-host/src/auth.rs:1929-1969 | Over any enforcing run with any rollbacks, nonces consumed before the run stay consumed, and no entry is ever verified with one of them or with an expiration that has passed or lies beyond the ledger's limit. |
| AuthNonces.RecordedNoncesAreFresh | soroban-env-host/src/auth.rs:1766-1810 | Over any recording run with any rollbacks, consumed nonces stay consumed, and every recorded tracker with address credentials has consumed a nonce of its own, none consumed before the run. |
| AuthNonces.StepNoReplay | soroban-env-host/src/auth.rs:2127-2184 | Every event of either mode keeps this, for the state and for every state a rollback may restore. |
| AuthTheorems.InternalErrorExactly | soroban-env-host/src/auth.rs:1216-1222 | A run of either mode ends with an internal error exactly on the rollback of a frame that has made invoker trackers still there, on a request outside of any frame, and on a request of a frame for its own contract's authorization of the call it has just authorized; in particular searches, borrows and recording handles never fail. |
| AuthTheorems.RequireErrorExactly | soroban-env-host/src/auth.rs:1618-1661 | In either mode a request is an internal error exactly when the current frame, a contract's and not called by that contract, asks for its own contract's authorization, and the first tracker of that contract to answer has an empty match stack and authorizes this very call. |
| AuthTheorems.RollbackErrorExactly | soroban-env-host/src/auth.rs:1216-1222 | In either mode a rollback is an internal error exactly when some invoker tracker has an empty match stack, which one can check before the pop; equivalently, when the numbers of invoker trackers before and after differ. |
| AuthTheorems.EmptyStackIsOwn | soroban-env-host/src/auth.rs:847-863 | An invoker tracker's match stack is empty exactly when the current frame made it, and then that frame is its contract's. |
| AuthTheorems.MadeTrackerCounts | soroban-env-host/src/auth.rs:847-863 | Inside a frame the invoker trackers with an empty match stack are those made since its push: there is one exactly when there are more trackers than before. |
| AuthTheorems.RollbackErrorHappens | soroban-env-host/src/auth.rs:1216-1222 | The error of a rollback happens: a contract that authorizes a call, makes none, and fails. |
| AuthTheorems.RequireErrorHappens | soroban-env-host/src/auth.rs:1648-1648 | The error of a request happens: a contract called by another authorizes the call it is in and then asks for its own authorization of it. |
| AuthTheorems.InScopeIsPrefix | soroban-env-host/src/auth.rs:1345-1369 | The invoker trackers with a non-empty stack are a prefix of the vector. |
| AuthRecordingRuns.RefusedExactly | soroban-env-host/src/auth.rs:980-1063 | Over any recording run, with any handles and rollbacks, a request is refused exactly when the address is not that of the direct invoker, no invoker tracker of the address has an unused node for the call below the node it matched last, and either the tracker its handle leads to is active and has already matched the frame, or its handle leads to no active tracker, no tracker of the address is active and unmatched here, and a new one may not be made: outside the root frame if that is disabled, or with a nonce already taken. |
| AuthRecordingRuns.RecordedInContext | soroban-env-host/src/auth.rs:980-1087 | When a request is recorded, either the active tracker its handle leads to, or else the first one of the address that has started and is unmatched here, gets one new used node, for the current frame's function with exactly the arguments asked for, below the node matched last; or a new tracker of the address gets it as its root, with a fresh nonce. The handle then leads to the new tracker, and nowhere if another tracker than its own was used. |
| AuthRecordingRuns.RecordingState | soroban-env-host/src/auth.rs:985-1031 | In every reachable recording state every tracker is verified, wholly used and not borrowed, and every known handle leads to one: the internal errors of the look-up cannot occur. |
| AuthRecordingRuns.HandlesLeadToTheirAddress | soroban-env-host/src/auth.rs:1210-1240 | If each handle stands for one address throughout a recording run, each known handle leads to a tracker of its address, also after any rollbacks: trackers and handles are put back together. |
| AuthRecordTheorem.RecordThenEnforce | soroban-env-host/src/auth.rs:980-1087 | Any rollback-free run that recording accepts with one handle per address, replayed in enforcing mode with the recorded payloads and successful authentication, is accepted at every event, with every request answered by the same tracker at the same node, and ends with every recorded node used and every tracker verified. |
| AuthRecordTheorem.ReplayLoop | soroban-env-host/src/auth.rs:911-975 | The same for every intermediate state: enforcing state and recorded state stay in the relation that makes unused exactly the nodes recorded later. |
| AuthRecordTheorem.RequireSim | soroban-env-host/src/auth.rs:911-1087 | One request, recorded and then enforced, keeps the relation. |
| AuthRecordTheorem.OtherSim | soroban-env-host/src/auth.rs:1245-1372 | Frames and invoker authorizations keep the relation. |
| AuthRecordTheorem.PayloadsAreFresh | soroban-env-host/src/auth.rs:1378-1400 | The recorded payloads make the trackers the replay starts from: the recorded trees with every flag cleared, in order. |
| AuthRecordEnforce.RecordingChoice | soroban-env-host/src/auth.rs:985-1051 | With one handle per address a request is recorded by the tracker its handle leads to if that one is active, and starts a new tracker otherwise, no other tracker of the address being active. |
| AuthRecording.ReplayMatch | soroban-env-host/src/auth.rs:1669-1700 | Enforcing a recorded request on the tree recorded in the end, with later nodes unused, matches the very node recording appended. |
| AuthRecording.XdrRoundTrip | soroban-env-host/src/auth.rs:634-693 | A tree converted to its external form and back is the same tree with every flag cleared. |
| AuthRecording.XdrBack | soroban-env-host/src/auth.rs:634-693 | And an external tree, converted and back, is the very tree it was. |
| AuthRecording.UsedPart | soroban-env-host/src/auth.rs:675-690 | Of a tree whose root is used and whose used nodes have used parents, the exported part has as many nodes as are used; all of it if all are. |
| AuthRecording.RecordOk | soroban-env-host/src/auth.rs:1669-1700 | Recording under an active tracker never misses a node; it adds exactly one used node, marks the current frame, and keeps everything else consistent with the call stack. |
| AuthReplay.StepGrows | soroban-env-host/src/auth.rs:1669-1700 | Every recording step only appends to the recorded trees. |
| AuthReplay.RunGrows | soroban-env-host/src/auth.rs:1669-1700 | So does every recording run. |
| AuthSteps.StepInv | soroban-env-host/src/auth.rs:823-1372 | Every event of either mode keeps the invariant of runs: mirrored call stack, verification, nonces, invoker scopes, disjointness, conservation and, while recording, that everything recorded is used, for the state and for every state an open frame may be rolled back to. |
| AuthSteps.RunInv | soroban-env-host/src/auth.rs:823-1372 | So does every run. |
| AuthSteps.InitInv | soroban-env-host/src/auth.rs:768-790 | The state an enforcing manager is created in has the invariant. |
| AuthSteps.InitRecordingInv | soroban-env-host/src/auth.rs:805-815 | So has the state a recording manager is created in. |
| AuthSteps.RequireRecordingInv | soroban-env-host/src/auth.rs:980-1087 | A request to a recording manager is never an internal error and keeps the invariant. |
| AuthSteps.RecordingStep | soroban-env-host/src/auth.rs:985-1051 | What a request is recorded with: the tracker its handle leads to if that is active, otherwise one of the address that is active and unmatched here, otherwise a new one. |
| AuthSteps.RequireEnforcingInv | soroban-env-host/src/auth.rs:911-975 | A request answered by account trackers keeps the invariant. |
| AuthSteps.AuthDoneInv | soroban-env-host/src/auth.rs:1818-1863 | The end of an authentication keeps the invariant, whether it succeeds or fails. |
| AuthSteps.MatchDisjoint | soroban-env-host/src/auth.rs:917-955 | A match under the rule that a new tree may start only if no active tracker of the address is unmatched keeps entries disjoint. |
| AuthSteps.NewDisjoint | soroban-env-host/src/auth.rs:1026-1080 | So does a recorded tree, started only where every active tracker of the address has already matched the frame. |
| AuthSteps.NoAccountFault | soroban-env-host/src/auth.rs:1553-1571 | No account tracker's search ever fails. |
| AuthSteps.ConsumeKeepsNonces | soroban-env-host/src/auth.rs:2127-2184 | Consuming a nonce keeps verified trackers' nonces in the ledger and distinct. |
| AuthPreservation.PushFrameInv | soroban-env-host/src/auth.rs:1245-1312 | Pushing a frame keeps the invariant, and the snapshot taken stands for the state before. |
| AuthPreservation.PopInv | soroban-env-host/src/auth.rs:1314-1372 | Popping a frame keeps the invariant. |
| AuthPreservation.PopInvokersSpec | soroban-env-host/src/auth.rs:1345-1369 | What popping does to the vector of invoker trackers. |
| AuthPreservation.RollbackResult | soroban-env-host/src/auth.rs:1168-1242 | A rollback to an open scope's snapshot goes through exactly when the invoker trackers are as many as before, and then restores the state the scope was entered from. |
| AuthPreservation.RollbackAccountsExact | soroban-env-host/src/auth.rs:1175-1213 | A snapshot brings back every account tracker: by flags alone when enforcing, as copies of the vector when recording. |
| AuthPreservation.RollbackFlagsExact | soroban-env-host/src/auth.rs:2059-2067 | Flag-only snapshots bring back every account tracker of an enforcing run. |
| AuthPreservation.RollbackInvokersExact | soroban-env-host/src/auth.rs:1216-1230 | In either mode flag-only snapshots bring back every invoker tracker that was in use. |
| InvocationTracking.ActiveIffRootMatched | soroban-env-host/src/auth.rs:1591-1600 | The two flags behind activity, against the match stack; root matches are unique and lowest. |
| InvocationTracking.LastIsFold | soroban-env-host/src/auth.rs:1553-1571 | The search for the last matched node never fails and returns the plain fold over the stack. |
| InvocationTracking.MatchOk | soroban-env-host/src/auth.rs:1618-1661 | A match uses exactly one unused node whose parent is used, for the requested function, marks the current frame, and keeps everything else. |
| InvocationTracking.PushOk | soroban-env-host/src/auth.rs:1574-1579 | A pushed frame keeps the tracker consistent with the call stack. |
| InvocationTracking.PopOk | soroban-env-host/src/auth.rs:1581-1589 | So does a popped one, whether or not it removes the root match. |
| InvocationTracking.RollbackRestores | soroban-env-host/src/auth.rs:1712-1722 | Although the snapshot omits match stack, root frame and progress, rolling back and popping gives the tracker back. |
| AuthTree.WalkIsFold | soroban-env-host/src/auth.rs:695-723 | The walk that skips unmatched frames in a loop and recurses at sub-matches is the fold over the sub-match indices. |
| AuthTree.RollbackExact | soroban-env-host/src/auth.rs:726-754 | A snapshot of flags alone brings back the whole tree, whatever was used since. |
| AuthTree.ParentClosedPaths | soroban-env-host/src/auth.rs:1618-1661 | If parents of used nodes are used, every prefix of a used path is used. |
| AuthTree.ExhaustClosed | soroban-env-host/src/auth.rs:1618-1661 | Using a node whose parent is used keeps that. |
| AuthTree.ExhaustEffect | soroban-env-host/src/auth.rs:1618-1661 | Using a node changes its flag and no other. |
| AuthTree.AppendUses | soroban-env-host/src/auth.rs:1669-1700 | Appending a used node adds one path to the used ones, raises their number by one and changes nothing else. |
| AuthTree.CountExhaust | soroban-env-host/src/auth.rs:1618-1661 | Using an unused node raises the number of used nodes by one. |
| AuthMachine.NewAccounts | soroban-env-host/src/auth.rs:768-790 | One tracker per entry, in order, or a failure. |
| AuthMachine.RollbackAccounts | soroban-env-host/src/auth.rs:1188-1212 | Each tracker is rolled back to its own snapshot; fails exactly if one of them does. |
| AuthMachine.RollbackInvokers | soroban-env-host/src/auth.rs:1216-1230 | Likewise for invoker trackers. |
| AuthMachine.FindInvoker | soroban-env-host/src/auth.rs:891-905 | The first invoker tracker of the address that matches. |
| AuthMachine.FindAccount | soroban-env-host/src/auth.rs:930-975 | The first unborrowed account tracker of the address that matches. |
| StorageReplay.RecordThenEnforce | soroban-env-host/src/storage.rs:223-315 | Any operations, in any nesting of committed and aborted frames, recorded and then enforced with the recorded footprint over the ledger restricted to it, answer the same at every step and end with the same entry at every footprint key. |
| StorageReplay.RecordedIsLeast | soroban-env-host/src/storage.rs:92-140 | The same operations meet no footprint error under a footprint exactly when the recorded footprint is pointwise at most that one. |
| StorageReplay.RunGrows | soroban-env-host/src/storage.rs:92-114 | Along any recording run the footprint only grows and no access is downgraded. |
| StorageReplay.SameMapWithoutFrames | soroban-env-host/src/storage.rs:469-494 | Without frames the two modes end with the very same map. |
| StorageReplay.RecordingAccess | soroban-env-host/src/storage.rs:469-494 | A recording operation adds exactly its one access and never fails on the footprint. |
| StorageReplay.EnforcingRefuses | soroban-env-host/src/storage.rs:116-140 | An enforcing operation whose access the footprint lacks fails with the footprint error. |
| StorageReplay.StoreSim | soroban-env-host/src/storage.rs:223-467 | An operation the footprint allows answers alike in both modes and keeps the maps matching. |
| StorageLedger.RecordingIsTheLedger | soroban-env-host/src/storage.rs:223-467 | A recording storage answers every operation as the plain ledger would, written to directly and put back on aborts, and its cache over the source ends as that ledger. |
| StorageLedger.EnforcingIsTheLedger | soroban-env-host/src/storage.rs:223-467 | So does an enforcing storage under the recorded footprint, ending with the ledger's entries at the footprint's keys. |
| StorageLedger.ExtensionGuarantees | soroban-env-host/src/storage.rs:382-467 | A successful extension keeps the entry, never shortens its life, stays within limit and request, and leaves an entry below the threshold living as long as requested, within the limit; temporary entries get all that was requested. |
| StorageLedger.ExtensionExactly | soroban-env-host/src/storage.rs:382-467 | An extension succeeds exactly when the key is supported, the threshold is at most the request, the entry is there with a live-until ledger not passed, the sums fit in 32 bits, and the ledger asked for is within the limit or the key is persistent; it then changes the live-until ledger alone, to the smaller of request and limit, exactly if that is later and the remaining life is within the threshold. |
| StorageLedger.ExtensionErrors | soroban-env-host/src/storage.rs:382-467 | Which error each failing extension gives; the ledger is then as it was. |
| StorageModel.RecordIsLeast | soroban-env-host/src/storage.rs:92-140 | Recording an access yields the least footprint that grants what was granted and the new access. |
| LedgerChanges.BuildFootprint | soroban-env-host/src/e2e_invoke.rs:366-390 | Keys of both lists, read-only winning; fails exactly on unsupported keys. |
| LedgerChanges.BuildStorageMap | soroban-env-host/src/e2e_invoke.rs:392-461 | Exactly the footprint's keys, each with its last submitted entry or none; fails exactly on malformed input. |
| LedgerChanges.LastForIsLast | soroban-env-host/src/e2e_invoke.rs:392-461 | The entry and the live-until ledger a key gets are those submitted at the last index with that key; it gets none exactly if no index has it. |
| LedgerChanges.AcceptedExactly | soroban-env-host/src/e2e_invoke.rs:392-461 | An entry is accepted exactly if its key is supported and in the footprint and it has a live-until ledger not passed, which only entries other than contract data and code may lack. |
| LedgerChanges.BuildsValidMap | soroban-env-host/src/e2e_invoke.rs:392-461 | In a built map every entry sits at its own key and lives at least until the current ledger. |
| LedgerChanges.GetLedgerChanges | soroban-env-host/src/e2e_invoke.rs:86-164 | Exactly one change per key of the map, in its order; fails exactly when one of them cannot be reported. |
| LedgerChanges.RunFramed | soroban-env-host/src/storage.rs:294-467 | Any enforcing run keeps the map's keys those of the footprint, keeps read-only entries' data and at most lengthens their life. |
| LedgerChanges.RunCarriesTtl | soroban-env-host/src/storage.rs:294-467 | If puts carry live-until ledgers, every entry that needs one keeps one. |
| LedgerChanges.EnforcingChanges | soroban-env-host/src/e2e_invoke.rs:86-164 | After any enforcing run from a built map the changes can be reported exactly if every surviving entry that needs a live-until ledger has one; each is then faithful to the maps before and after: old size, durability and old live-until ledger are those before the run, a surviving entry's new live-until ledger is the later of the two, a removed one's is zero, and a read-only key gets no new value. |
| LedgerChanges.InvokeHostFunction | soroban-env-host/src/e2e_invoke.rs:222-319 | Build, run and report: a failed invocation reports nothing; a successful one reports exactly if the input is well-formed and every surviving entry that needs a live-until ledger has one; then there is exactly one change per submitted key, faithful to the last submitted entry and to the entry after the run, and read-only entries have kept their data. |
| ExprMeaning.EmitMeans | soroban-env-macros/src/synth_wasm_expr_type.rs:199-261 | From any state the code so far leads to, the code emitted for an expression makes the host calls left-to-right evaluation makes, traps when it traps, leaves the operand stack as it was and every earlier value in place, and the returned operand denotes the expression's value; for any interpretation of the host functions. |
| ExprMeaning.EmitAllMean | soroban-env-macros/src/synth_wasm_expr_type.rs:241-259 | The same for the arguments of a call, in order. |
| ExprMeaning.CallMeans | soroban-synth-wasm/src/host_funcs.rs:54-60 | Import, pushes and call reach the named function with the pushed values in order; the answer lands in a local out of the way of every value in use. |
| ExprMeaning.CallExec | soroban-synth-wasm/src/mod_emitter.rs:228-249 | A call index handed out by the import table resolves to the named function at its arity, also in every later module. |
| ExprMeaning.PoolMatches | soroban-synth-wasm/src/func_emitter.rs:197-214 | The locals chosen from by type are those holding the values stored under the type. |
| ExprModule.FunctionEvaluates | soroban-synth-wasm/src/expr.rs:42-51 | Calling the function of a single-function module evaluates the expression with the arguments at hand under their types: same host calls, same traps, and the value as the one result. |
| ExprModule.SingleFunctionModule | soroban-synth-wasm/src/expr.rs:42-51 | Making the module never panics before validation; it defines one function of the right type behind its imports and exports it; it is valid exactly when the name is not the one the memory is exported under. |
| ExprModule.FunctionTyped | soroban-synth-wasm/src/expr.rs:1-28 | Well-typed arguments give a result of the expression's type, and every host function is only ever called with arguments of its declared types. |
| ExprModule.FunctionAssignsOnce | soroban-synth-wasm/src/expr.rs:12-17 | The function writes each local it uses once, before any read, and uses no more than announced. |
| ExprModule.EvalTyped | soroban-env-macros/src/synth_wasm_expr_type.rs:20-49 | Evaluation respects types, whatever existing values an expression picks up, subtype wrappers included. |
| ExprModule.EmitChecks | soroban-synth-wasm/src/mod_emitter.rs:301-344 | Emitted code validates and leaves the operand types as they were. |
| ExprModule.AllocArgsTags | soroban-synth-wasm/src/func_emitter.rs:163-175 | Allocating the arguments tags them in order and never runs out. |
| ExprTheorems.ImportFuncInterns | soroban-synth-wasm/src/mod_emitter.rs:228-249 | Importing fails only after a function has been defined; it yields the one index that stands for the name and arity, keeps all indices handed out, and is idempotent. |
| ExprTheorems.GetFnTypeInterns | soroban-synth-wasm/src/mod_emitter.rs:206-226 | The type table is interned and only grows. |
| ExprTheorems.EmitOk | soroban-env-macros/src/synth_wasm_expr_type.rs:262-295 | Emission allocates at most the announced number of locals, keeps the tables in order and returns a constant or a slot in use. |
| ExprTheorems.LiteralIsCast | soroban-synth-wasm/src/func_emitter.rs:38-56 | A signed literal becomes itself, a payload the one 64-bit value with the same bits. |
| ExprTheorems.EmitTakesAll | soroban-env-macros/src/synth_wasm_expr_type.rs:304-308 | An expression that picks no existing value takes exactly the announced number of locals. |
| ExprTheorems.NewTakesOne | soroban-env-macros/src/synth_wasm_expr_type.rs:304-308 | And a value made for want of an existing one takes exactly the one announced. |
| ExprTheorems.EmitNeverPanics | soroban-synth-wasm/src/func_emitter.rs:177-189 | With the announced number of locals free, emission does not panic. |
| ExprTheorems.EmitAssignsOnce | soroban-synth-wasm/src/func_emitter.rs:191-195 | Every local is written exactly once, in order of allocation, and read only afterwards. |
| ExprTheorems.StackTopExactly | soroban-synth-wasm/src/func_emitter.rs:225-253 | Operands can be pushed exactly if none but the first is the stack top, which then needs no push. |
| ExprTheorems.CallAndStoreOk | soroban-synth-wasm/src/func_emitter.rs:191-195 | A call takes exactly one local and panics only for want of one. |
| ExprTheorems.ChosenIsSettled | soroban-synth-wasm/src/func_emitter.rs:197-214 | A chosen slot is allocated to the type asked for. |
| ExprTheorems.AllocLocalOk | soroban-synth-wasm/src/func_emitter.rs:177-189 | Allocation takes the first free local and panics exactly when there is none. |
| BudgetTheorems.ShadowBlocksAreInvisible | soroban-env-host/src/budget.rs:738-769 | Leaving every shadow block out of a run changes no outcome, counter, tracker or limit, even for a run that fails. |
| BudgetTheorems.ShadowWorkIsConfined | soroban-env-host/src/budget.rs:166-215 | Work in shadow mode changes the shadow totals and nothing else. |
| BudgetTheorems.ModeAndDepthRestored | soroban-env-host/src/budget/limits.rs:71-80 | Whatever runs, and however it fails, shadow mode and depth limit are as before. |
| BudgetTheorems.EveryRunConserves | soroban-env-host/src/budget.rs:166-215 | After any run from a new budget each dimension's total is the 64-bit-capped sum of what the cost types have used, saturation included. |
| BudgetTheorems.RunConserves | soroban-env-host/src/budget.rs:166-215 | The same from any such state. |
| BudgetTheorems.RefusalIsFinal | soroban-env-host/src/budget/dimension.rs:109-121 | A charge let through leaves both totals within their limits; after one refused for a limit every later charge is refused, whatever was caught in between. |
| BudgetTheorems.ExhaustionIsFinal | soroban-env-host/src/budget/dimension.rs:129-156 | Once over a limit, always over it. |
| BudgetTheorems.BatchingIsExact | soroban-env-host/src/budget.rs:712-737 | One charge of n iterations goes through exactly when n single charges do, in either mode, with equal counters except the number of charges. |
| BudgetTheorems.ChargeIsTotal | soroban-env-host/src/budget.rs:166-215 | A charge goes through exactly when both totals stay within their limits, and then every counter has been charged. |
| BudgetTheorems.ChargeExactly | soroban-env-host/src/budget.rs:166-215 | The whole effect of a charge outside shadow mode, over the cost model's fields: each total, and the tracker at the type, grow by iterations times the constant and linear cost of their own dimension's model at the type, saturating; no other tracker and no shadow total changes; what is left undone on each failure. |
| BudgetTheorems.ShadowChargeExactly | soroban-env-host/src/budget.rs:166-215 | In shadow mode the same costs go to the shadow totals, against the shadow limits, and to nothing else. |
| BudgetTheorems.ShadowBlockExactly | soroban-env-host/src/budget.rs:747-769 | A shadow block with one charge never fails: it adds the costs to the shadow totals, or does nothing if a shadow limit was exceeded before. |
| BudgetTheorems.OneCharge | soroban-env-host/src/budget.rs:166-215 | Without saturation, one charge of a new budget makes each total exactly iterations times constant term plus linear term times input over 128, rounded down, and goes through exactly if both are within their limits. |
| BudgetTheorems.DepthGuard | soroban-env-host/src/budget/limits.rs:71-103 | k nested levels go through exactly if the depth left is at least k, and the budget is then as before. |
| BudgetTheorems.NewBudgetLimits | soroban-env-host/src/budget.rs:145-164 | A new budget admits exactly a hundred nested levels, and each shadow limit is the limit. |
| BudgetTheorems.EmptyBatch | soroban-env-host/src/budget/dimension.rs:109-121 | An empty batch is refused exactly when a limit has been passed already. |
| BudgetTheorems.CostIsLinear | soroban-env-host/src/budget/model.rs:112-126 | Without saturation the linear part is the exact product to within one, rounded down, and exact for whole coefficients. |
| BudgetTheorems.CostGrows | soroban-env-host/src/budget/model.rs:112-126 | A larger input never costs less. |
| RentTheorems.EntryFeeExactly | soroban-env-host/src/fees.rs:345-398 | Over the configuration's fields, saturation included: an entry pays rent at its new size for the ledgers added, or from the current one on if it is new, and rent at its growth for the ledgers paid before, where rent is the one number that is bytes times fee times ledgers over 1024 times the denominator of the durability, rounded up. |
| RentTheorems.RentIsUnique | soroban-env-host/src/fees.rs:379-398 | There is always exactly one such number. |
| RentTheorems.RentFeeExactly | soroban-env-host/src/fees.rs:275-306 | The rent fee is the sum of the entry fees, the write fee of each extended entry, and the fee for 48 bytes for each, rounded up to the kilobyte; saturation included. |
| RentTheorems.ResizeThenExtend | soroban-env-host/src/fees.rs:345-377 | Growing an entry and then extending it costs exactly what doing both at once costs, with or without saturation. |
| RentTheorems.ExtendThenResize | soroban-env-host/src/fees.rs:345-377 | Extending and then growing is within one unit of doing both at once, if the products fit in 64 bits. |
| RentTheorems.SaturatedOrderMatters | soroban-env-host/src/fees.rs:345-377 | If they do not fit, the two orders may differ by far more than one unit: an example. |
| RentTheorems.SplitExtension | soroban-env-host/src/fees.rs:345-398 | An extension split into k steps, made whenever, costs at least the one-step fee and at most k - 1 more. |
| RentTheorems.CreateThenExtend | soroban-env-host/src/fees.rs:319-330 | A new entry pays for every ledger from the current one on; creating and then extending costs the one-step fee or one more. |
| RentTheorems.OrderIsIrrelevant | soroban-env-host/src/fees.rs:275-306 | The rent fee is the same for every order of the entries, even where it saturates. |
| RentTheorems.AccumulateIsSum | soroban-env-host/src/fees.rs:280-290 | Saturating step by step is saturating the sums once: of fees, of extensions and of their bytes. |
| RentTheorems.RentBounds | soroban-env-host/src/fees.rs:379-398 | A fee is never negative and two of them never saturate. |
| RentTheorems.CeilSum | soroban-env-host/src/fees.rs:397-397 | Rounding up two parts costs at most one more than rounding up the whole. |
| RentTheorems.SkippingIsFree | soroban-env-host/src/e2e_invoke.rs:171-201 | The changes of written entries that extraction skips would have cost nothing. |
| RentTheorems.ExtractedExactly | soroban-env-host/src/e2e_invoke.rs:171-201 | Which surviving entries reach the rent computation: those extended or grown, under read-write keys only; and with which sizes, live-until ledgers and durability. |
| RentTheorems.ReadOnlyExtensionPaysNoRent | soroban-env-host/src/e2e_invoke.rs:171-201 | For one, a run of one extension, of the one entry of a map built under a read-only key, whatever the entry: the change reports the longer life, and no rent change is extracted for it. |
| SymbolTheorems.DecodeEncode | soroban-env-common/src/symbol.rs:246-263 | Decoding gives back every string that has a small symbol. |
| SymbolTheorems.EncodeDecodeExactly | soroban-env-common/src/symbol.rs:154-166 | A well-formed body always decodes to an encodable string, and comes back from it exactly when no zero code lies below a nonzero one. |
| SymbolTheorems.EncodableExactly | soroban-env-common/src/symbol.rs:246-263 | Exactly the strings of at most nine symbol characters are encoded; the others fail on their first bad character if it comes among the first nine, and otherwise on their length. |
| SymbolTheorems.OrderIsLexicographic | soroban-env-common/src/symbol.rs:192-196 | Small symbols of strings are ordered as the strings, byte by byte, and equal only if they are the same. |
| SymbolTheorems.OrderEqual | soroban-env-common/src/symbol.rs:192-196 | Two symbols compare equal exactly when their nonzero codes agree, which for canonical bodies is equality. |
| SymbolTheorems.GapsCompareEqual | soroban-env-common/src/symbol.rs:192-196 | Two different well-formed bodies that compare equal. |
| SymbolTheorems.LexTransitive | soroban-env-common/src/symbol.rs:192-196 | The order is transitive. |
| SymbolTheorems.LexEqual | soroban-env-common/src/symbol.rs:192-196 | And antisymmetric. |
| SymbolTheorems.AsStr | soroban-env-common/src/symbol.rs:324-336 | An unpacked symbol reads back as its string. |
| SymbolCodec.ShiftCodes | soroban-env-common/src/symbol.rs:428-428 | A shift drops the highest code of the window and brings in a zero, whatever lies above the window. |
| SymbolCodec.ShiftsDecrease | soroban-env-common/src/symbol.rs:420-432 | Every nonzero word is used up by finitely many shifts. |
| SymbolCodec.CodesOfPacked | soroban-env-common/src/symbol.rs:246-263 | The codes of a packed word are the codes packed, behind leading zeros. |
| SymbolCodec.BodyIsPacked | soroban-env-common/src/symbol.rs:154-166 | A body within 54 bits is its nine codes, packed. |
| SymbolCodec.CodesAreConsecutive | soroban-env-common/src/symbol.rs:235-244 | The codes run from one on through the underscore, the digits, the capital and the small letters, each class in its order; nothing else has one. |
| SymbolCodec.CharsAndCodes | soroban-env-common/src/symbol.rs:235-244 | Symbol characters and nonzero codes correspond one to one. |
| ObjectTables.ExportIsStable | soroban-env-host/src/host_object.rs:313-341 | An exported object keeps its relative handle while its frame lasts, whatever happens above, and no other export of that frame gets the same one. |
| ObjectTables.OnlyExportedObjects | soroban-env-host/src/host_object.rs:263-311 | Contract code reaches exactly the objects exported to its frame, under their own tag; anything else, and everything in a new frame, is refused. |
| ObjectTables.HandlesKeptApart | soroban-env-host/src/host_object.rs:263-341 | Objects are exported, and found in the object table, under absolute handles only; outside of contract code nothing is translated; small values always pass. |
| ObjectTables.CreatedIsStable | soroban-env-host/src/host_object.rs:347-359 | A created object is found under its handle for good, with its tag. |
| ObjectTables.HandleRoundTrip | soroban-env-host/src/host_object.rs:245-258 | A handle leads back to its index exactly for indices below 2^31: the shift's overflow check covers only the shift amount. |
| ObjectTables.HandleParity | soroban-env-host/src/host_object.rs:245-258 | Relative handles are the even ones. |
| ObjectTables.HandlesCollide | soroban-env-host/src/host_object.rs:245-258 | Two indices share a handle exactly when they are 2^31 apart; the first such pair is 0 and 2^31. |
| AuthTrackers.InvocationTracker.PushFrame | soroban-env-host/src/auth.rs:1574-1579 | Pushes an unmatched frame. |
| AuthTrackers.InvocationTracker.PopFrame | soroban-env-host/src/auth.rs:1581-1589 | Pops a frame, and marks the tracker processed when its root match goes. |
| AuthTrackers.InvocationTracker.WalkDown | soroban-env-host/src/auth.rs:695-723 | The loop and recursion in place computes the walk. |
| AuthTrackers.InvocationTracker.LastAuthorizedInvocation | soroban-env-host/src/auth.rs:1553-1571 | Finds the node the match stack leads to. |
| AuthTrackers.InvocationTracker.MaybeExtendInvocationMatch | soroban-env-host/src/auth.rs:1618-1661 | Matches, fails to match or faults as specified, in place, and says which node it used. |
| AuthTrackers.InvocationTracker.Record | soroban-env-host/src/auth.rs:1669-1700 | Appends a node under the last matched one, reports an already matched frame, or fails with the internal error of a missing node. |
| AuthTrackers.InvocationTracker.HasMatchedInvocationsInStack | soroban-env-host/src/auth.rs:1702-1705 | Whether any frame is matched. |
| AuthTrackers.InvocationTracker.Rollback | soroban-env-host/src/auth.rs:1712-1722 | Restores flags, match stack and progress. |
| AuthTrackers.AccountTracker.Rollback | soroban-env-host/src/auth.rs:2059-2067 | Restores verification as well. |
| AuthManager.AuthorizationManager.Enforcing | soroban-env-host/src/auth.rs:768-790 | The new manager stands for the machine's initial state. |
| AuthManager.AuthorizationManager.Recording | soroban-env-host/src/auth.rs:805-815 | The new recording manager stands for the machine's initial recording state. |
| AuthManager.AuthorizationManager.PushContractFrame | soroban-env-host/src/auth.rs:1278-1312 | New state and snapshot are those of the machine's step. |
| AuthManager.AuthorizationManager.PushCreateContractFrame | soroban-env-host/src/auth.rs:1263-1276 | Likewise, without a snapshot. |
| AuthManager.AuthorizationManager.PushHostFnFrame | soroban-env-host/src/auth.rs:1278-1312 | Likewise, without a call stack entry. |
| AuthManager.AuthorizationManager.TakeSnapshotOfAll | soroban-env-host/src/auth.rs:1113-1165 | The snapshot of all trackers. |
| AuthManager.AuthorizationManager.RollbackManager | soroban-env-host/src/auth.rs:1168-1242 | In-place rollback, against the specification; fails exactly when it does. |
| AuthManager.AuthorizationManager.PopFrame | soroban-env-host/src/auth.rs:1314-1372 | Rollback if asked for, pop, and removal of out-of-scope invoker trackers are the machine's step. |
| AuthManager.AuthorizationManager.DropInvokers | soroban-env-host/src/auth.rs:1345-1369 | The trailing-pop loop. |
| AuthManager.AuthorizationManager.MaybeCheckInvokerContractAuth | soroban-env-host/src/auth.rs:866-908 | The invoker check in place. |
| AuthManager.AuthorizationManager.HasActiveTracker | soroban-env-host/src/auth.rs:917-928 | Whether an active tracker of the address is unmatched here. |
| AuthManager.AuthorizationManager.FindMatchingTracker | soroban-env-host/src/auth.rs:930-975 | The search over account trackers in place. |
| AuthManager.AuthorizationManager.RequireAuthEnforcing | soroban-env-host/src/auth.rs:911-978 | Answer and new state are the machine's. |
| AuthManager.AuthorizationManager.RequireAuthRecording | soroban-env-host/src/auth.rs:980-1087 | Answer and new state are the machine's. |
| AuthManager.AuthorizationManager.RequireAuth | soroban-env-host/src/auth.rs:823-845 | Answer and new state are the machine's step, in both modes. |
| AuthManager.AuthorizationManager.FinishAuthentication | soroban-env-host/src/auth.rs:1818-1863 | Answer and new state after an authentication are the machine's step. |
| AuthManager.AuthorizationManager.AddInvokerContractAuth | soroban-env-host/src/auth.rs:847-863 | The new invoker trackers are the machine's. |
| StorageObject.Storage.Access | soroban-env-host/src/storage.rs:92-140 | Records or enforces one access. New state and answer are the specification's. |
| StorageObject.Storage.PrepareReadOnlyAccess | soroban-env-host/src/storage.rs:469-494 | Reads through to the source in recording mode. New state and answer are the specification's. |
| StorageObject.Storage.ReadFull | soroban-env-host/src/storage.rs:223-248 | The full read. New state and answer are the specification's. |
| StorageObject.Storage.GetEntry | soroban-env-host/src/storage.rs:250-259 | Get. New state and answer are the specification's. |
| StorageObject.Storage.TryGetEntry | soroban-env-host/src/storage.rs:261-276 | Get, absent entries allowed. New state and answer are the specification's. |
| StorageObject.Storage.GetWithLiveUntilLedger | soroban-env-host/src/storage.rs:284-292 | Get with the live-until ledger. New state and answer are the specification's. |
| StorageObject.Storage.HasEntry | soroban-env-host/src/storage.rs:360-372 | Has. New state and answer are the specification's. |
| StorageObject.Storage.PutOrDelete | soroban-env-host/src/storage.rs:294-315 | Put and delete. New state and answer are the specification's. |
| StorageObject.Storage.ExtendEntryTtl | soroban-env-host/src/storage.rs:382-467 | Extension of the live-until ledger, with all its failures. New state and answer are the specification's. |
| SynthEmitters.ModEmitter.constructor | soroban-synth-wasm/src/mod_emitter.rs:69-82 | A default module exports its memory. |
| SynthEmitters.ModEmitter.GetFnType | soroban-synth-wasm/src/mod_emitter.rs:206-226 | Interns a function type. |
| SynthEmitters.ModEmitter.ImportFunc | soroban-synth-wasm/src/mod_emitter.rs:228-249 | Interns an import. |
| SynthEmitters.ModEmitter.DefineFunc | soroban-synth-wasm/src/mod_emitter.rs:261-271 | Appends a function; its index comes after all imports. |
| SynthEmitters.ModEmitter.ExportFunc | soroban-synth-wasm/src/mod_emitter.rs:273-278 | Appends an export. |
| SynthEmitters.FuncEmitter.constructor | soroban-synth-wasm/src/func_emitter.rs:147-161 | Argument and local slots with their indices, none allocated. |
| SynthEmitters.AllocSlot | soroban-synth-wasm/src/func_emitter.rs:163-189 | The in-place search for a free slot, or a panic. |
| SynthEmitters.FuncEmitter.AllocArg | soroban-synth-wasm/src/func_emitter.rs:163-175 | Allocates an argument. |
| SynthEmitters.FuncEmitter.AllocLocal | soroban-synth-wasm/src/func_emitter.rs:177-189 | Allocates a local. |
| SynthEmitters.FuncEmitter.AllocAndStoreLocal | soroban-synth-wasm/src/func_emitter.rs:191-195 | Allocates a local and stores into it. |
| SynthEmitters.ChooseInOnePass | soroban-synth-wasm/src/func_emitter.rs:202-208 | One pass of the cycling filter: the match after a number of others, or how many are left to skip. |
| SynthEmitters.FuncEmitter.MaybeChooseLocal | soroban-synth-wasm/src/func_emitter.rs:197-214 | The cycling search picks the matching slot at the index modulo the number of slots, modulo the number of matches. |
| SynthEmitters.FuncEmitter.PushFull | soroban-synth-wasm/src/func_emitter.rs:240-253 | Pushes an operand; the stack top only as a first argument. |
| SynthEmitters.FuncEmitter.Finish | soroban-synth-wasm/src/func_emitter.rs:325-333 | Ends the code and defines the function. |
| SynthEmitters.FuncEmitter.CallFn | soroban-synth-wasm/src/host_funcs.rs:54-60 | The generated call emitters, in place. |
| SynthEmitters.FuncEmitter.Emit | soroban-env-macros/src/synth_wasm_expr_type.rs:199-261 | The generated expression emitters, in place. |
| SynthEmitters.AsSingleFunctionModule | soroban-synth-wasm/src/expr.rs:42-51 | The whole pipeline over mutable emitters makes the module specified. |
| BudgetObject.BudgetDimension.Charge | soroban-env-host/src/budget/dimension.rs:129-156 | Charges the total or the shadow total. |
| BudgetObject.BudgetDimension.CheckBudgetLimit | soroban-env-host/src/budget/dimension.rs:109-121 | Refuses exactly over the limit. |
| BudgetObject.BudgetImpl.constructor | soroban-env-host/src/budget.rs:145-164 | A new budget. |
| BudgetObject.BudgetImpl.Charge | soroban-env-host/src/budget.rs:166-215 | Charge in place: new state and outcome as specified, also on failure. |
| BudgetObject.BudgetImpl.Enter | soroban-env-host/src/budget/limits.rs:83-94 | Enters a level of recursion. |
| BudgetObject.BudgetImpl.Leave | soroban-env-host/src/budget/limits.rs:98-103 | Leaves it. |
| BudgetObject.BudgetImpl.WithLimitedDepth | soroban-env-host/src/budget/limits.rs:71-80 | Runs a closure one level down. |
| BudgetObject.BudgetImpl.WithShadowMode | soroban-env-host/src/budget.rs:747-769 | Runs a closure in shadow mode, swallowing its errors. |
| BudgetObject.BudgetImpl.Execute | soroban-env-host/src/budget.rs:719-769 | A closure, as what it does with the budget. |
| RentModel.RentFeePerEntryChange | soroban-env-host/src/fees.rs:345-377 | The accumulating computation for one entry. |
| RentModel.ComputeRentFee | soroban-env-host/src/fees.rs:275-306 | The accumulating loop over all entries. |
| SymbolTheorems.TryFromBytes | soroban-env-common/src/symbol.rs:246-263 | The encoding loop. |
| SymbolTheorems.SymbolSmallIter.Next | soroban-env-common/src/symbol.rs:416-435 | Yields the next character of what the word stands for, in order; already read bits above the window never make another; the loop ends with the word used up. |
| SymbolTheorems.Compare | soroban-env-common/src/symbol.rs:192-196 | Comparing two iterators is the lexicographic order of the strings. |
| SymbolTheorems.ToStr | soroban-env-common/src/symbol.rs:285-292 | Unpacks into a zeroed buffer. |
| SymbolTheorems.Len | soroban-env-common/src/symbol.rs:306-314 | The length of a buffer's contents. |
| ObjectTables.Host.AddHostObject | soroban-env-host/src/host_object.rs:347-359 | Appends to the object table. |
| ObjectTables.Host.AbsoluteToRelative | soroban-env-host/src/host_object.rs:313-341 | Appends to the frame's table. |
| ObjectTables.Host.RelativeToAbsolute | soroban-env-host/src/host_object.rs:263-311 | Looks up the frame's table. |

## Left out

- Metering inside authorization and storage operations: budget errors there are not modelled; any of them ends the host function.
- XDR encoding, hashing, signatures and account contracts: values are compared as values, and an authentication is any balanced run followed by a yes or no.
- What follows an internal error of the authorization manager: the run ends there, and the half-updated state is not described.
- Authorization conversion errors: malformed entries, and the host's checks of them, come before the model starts.
- Emulated authentication, listings for tests, tracing and diagnostics of the authorization manager.
- AuthRecordTheorem.RecordThenEnforce: is about runs without rollbacks and with one object handle per address: what a rolled back frame has recorded is not in the payloads, so that enforcing may refuse it, and with several handles for one address recording chooses trackers by a best-effort heuristic that promises no replay.
- The mutable reference the tree search returns in the source: it is a path in the model, and an update through it is an update at that path. A tree of nodes is a value; its update in place is not modelled.
- The process that ends on a panic: in the emitters a panic is the result None, and nothing is said about the state after it.
- Snapshot source failures of the storage, and the order of the ordered maps, which is a parameter where it shows.
- Footprint rollback: like the source, an aborted frame puts back the map and not the footprint.
- LedgerChanges.GetLedgerChanges: encoded entries are stood for by the entries and a function giving their encoded size, which fits in 32 bits.
- Emitter methods that expressions do not use: control flow, memory, numeric and adversarial instructions, tables, data segments and globals.
- The enumeration of expression types from `env.json`: expressions are generic over any set of host functions and subtype pairs, of which the generated enumerations are an instance.
- ExprModule.SingleFunctionModule: validity is the specification's; limits an implementation adds, such as the number of locals or the size of a body, are not part of it, nor is the overflow of 32-bit counts of locals, imports and types, which takes expressions of more than four billion nodes.
- Calls of functions defined in the same module, and linear memory: expression code has none.
- Wasm fuel conversion, wall-clock tracking and test-only resets of the budget.
- BudgetModel.NewBudget: the set of cost types that count inputs is a parameter.
- Transaction resource fees and the write fee curve: single formulas over their inputs.
- RentTheorems.ExtendThenResize: asks that the product of size, fee and ledgers fits in 64 bits; beyond it the saturated fees of the two orders may differ by more, as SaturatedOrderMatters shows.
- Symbol objects and comparisons of values across representations: object comparison is in a file that is not part of this model.
- Object contents, metered cloning and the visitor closures around the object table; a host object is its kind and a content.
