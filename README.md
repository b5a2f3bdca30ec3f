# Rewind bookkeeping, transient GPU buffers and engine object queries — a Dafny model

This project models six pieces of an Unreal Engine runtime in Dafny and proves properties of the model.

- **Chaos physics rewind data** (`RewindData.cpp`). `FRewindData` keeps a frame counter (`CurFrame`, `LatestFrame`, `FramesSaved`), a pending-save flag, and registries of tracked particles and joints. Each tracked object has per-property histories keyed by (frame, phase). The model covers:
  - ingestion from the game thread and the physics thread;
  - bounded rewind, with its rejection rules;
  - the per-frame advance that retires stale objects, and the end-of-frame step during a resimulation;
  - the desync test, application of externally supplied targets, and the downward search for a frame to resimulate from.
  The model is a `RewindData` class over a `Solver` collaborator that owns the live particle and joint handles. The loops over the registries are proved against the pure passes in `registry_passes.dfy` and `rewind_steps.dfy`.
- **Transient GPU buffers** (`GlobalRenderResources.cpp`).
  - Vertex buffers come from a pool with live, free and reclaim lists, and a per-frame allocator bump-allocates from them.
  - Index buffers are kept in two per-width pools and age out at the end of each frame.
  - All buffer sizes are whole 64 KB blocks.
- **Object utility queries** (`UObjectBaseUtility.cpp`). Path names, full names, outermost object, package, template, typed-outer, is-in and nearest-common-base queries, over finite outer and superclass chains.
- **Metal surface readback** (`MetalRenderTarget.cpp`). The default resolve rectangle, the `uint32` bit trick that rounds a row stride up to the alignment, staging-buffer sizes, and the copy of padded rows into the output array, on byte arrays.
- **Substrate (Strata) visualization modes** (`StrataVisualizationData.cpp`). The full mode table, the one-time filtered copy into the menu table, and the lookups with their defaults for unknown names.
- **The sequencer's object component** (`BuiltInComponentTypes.h`). A strong or weak object reference, with its equality and hash rules.

Shared modules:
- `Wrappers` holds `Option`.
- `Sequences` holds list removal.
- `FramePhase` holds the (frame, phase) key order.

## Model

| member | source | states |
|---|---|---|
| FramePhase.PhaseIndex | Source/Runtime/Experimental/Chaos/Private/RewindData.cpp:279-280 | PrePushData is the first phase and PostCallbacks the last of the fixed number of phases in a frame |
| FramePhase.BeforeIsStrictTotalOrder | Source/Runtime/Experimental/Chaos/Private/RewindData.cpp:279-280 | the (frame, phase) key order is irreflexive, transitive, total and asymmetric |
| FramePhase.FrameBoundary | Source/Runtime/Experimental/Chaos/Private/RewindData.cpp:428 | every phase of frame f comes before PrePushData of f + 1; within a frame the order is the phase order |
| PropertyHistory.EmptyChannel | Source/Runtime/Experimental/Chaos/Private/RewindData.cpp:855 | a new channel is empty, sorted and clean at every key |
| PropertyHistory.FirstAtOrAfter | Source/Runtime/Experimental/Chaos/Private/RewindData.cpp:287 | the position found is the first entry whose key is not before the requested key |
| PropertyHistory.Read | Source/Runtime/Experimental/Chaos/Private/RewindData.cpp:287 | a read yields nothing exactly when the channel is clean at the key, and otherwise a value recorded at or after it |
| PropertyHistory.ReadIsEarliestAtOrAfter | Source/Runtime/Experimental/Chaos/Private/RewindData.cpp:287 | in a sorted channel a read returns the value of the earliest entry at or after the key |
| PropertyHistory.ReadAtRecordedKey | Source/Runtime/Experimental/Chaos/Private/RewindData.cpp:298 | in a sorted channel, reading at a recorded key returns the value recorded there |
| PropertyHistory.WriteAccessMonotonic | Source/Runtime/Experimental/Chaos/Private/RewindData.cpp:297 | a write at a key at or after the latest recorded key is accepted: it overwrites a value recorded at that key and appends otherwise, so the written entry is the latest; a write behind recorded data is dropped |
| PropertyHistory.WriteKeepsSorted | Source/Runtime/Experimental/Chaos/Private/RewindData.cpp:297 | a write keeps a sorted channel sorted, and in a sorted channel an accepted write into a dirty key can only replace the latest entry |
| PropertyHistory.CleanHasNothingAfter | Source/Runtime/Experimental/Chaos/Private/RewindData.cpp:767-769 | a channel clean at a key has nothing recorded after it and nothing at it, so a write there is accepted |
| PropertyHistory.NothingAfterSorted | Source/Runtime/Experimental/Chaos/Private/RewindData.cpp:767-769 | in a sorted channel with nothing after a key every entry but the latest is before it, and the channel is clean there unless the latest entry is at the key |
| PropertyHistory.WriteAccessNonDecreasing | Source/Runtime/Experimental/Chaos/Private/RewindData.cpp:769 | the non-decreasing write reports success exactly when nothing is recorded after the key; it then writes as the monotonic write does, and otherwise leaves the channel unchanged |
| PropertyHistory.WriteKeepsEarlierReads | Source/Runtime/Experimental/Chaos/Private/RewindData.cpp:295-298 | a write at k never changes what a read at an earlier key k0 returns when a value is recorded between k0 and k |
| PropertyHistory.WriteKeepsDirty | Source/Runtime/Experimental/Chaos/Private/RewindData.cpp:295-298 | a write keeps every recorded key, so a channel dirty at a key stays dirty there |
| PropertyHistory.WriteThenRead | Source/Runtime/Experimental/Chaos/Private/RewindData.cpp:297 | a write is read back at its key when the channel was clean there, or in a sorted channel with nothing recorded after the key, including over a value already at the key |
| PropertyHistory.InsertSorted | Source/Runtime/Experimental/Chaos/Private/RewindData.cpp:909 | insertion adds the entry, brings in nothing else and keeps every entry at another key |
| PropertyHistory.Insert | Source/Runtime/Experimental/Chaos/Private/RewindData.cpp:909 | inserting at a key stores the entry there, replacing only an entry at the same key |
| PropertyHistory.InsertSortedKeepsOrder | Source/Runtime/Experimental/Chaos/Private/RewindData.cpp:909 | insertion keeps the entries sorted by key |
| PropertyHistory.InsertThenRead | Source/Runtime/Experimental/Chaos/Private/RewindData.cpp:907-909 | insertion keeps a sorted channel sorted and a read at the key returns the inserted value |
| PropertyHistory.KeepBefore | Source/Runtime/Experimental/Chaos/Private/RewindData.cpp:824 | the kept entries are exactly the entries before the key |
| PropertyHistory.ClearPhaseAndFuture | Source/Runtime/Experimental/Chaos/Private/RewindData.cpp:454 | after clearing from a key the channel is clean there, and exactly the entries before the key remain |
| ChaosObjects.EmptyParticleHistory | Source/Runtime/Experimental/Chaos/Private/RewindData.cpp:623 | a new particle history is clean in every channel at every key |
| ChaosObjects.EmptyJointHistory | Source/Runtime/Experimental/Chaos/Private/RewindData.cpp:801 | a new joint history is clean at every key |
| ChaosObjects.OutOfSyncMeansRecordedMismatch | Source/Runtime/Experimental/Chaos/Private/RewindData.cpp:98-142 | without network prediction a particle history is out of sync exactly when some channel has a recorded value at the key that differs from the live property; the sync test is `ParticleHistoryInSync` (`IsInSync`, RewindData.cpp:87-153), fed by `IsResimFrameValid` (RewindData.cpp:70-84) |
| ChaosObjects.ClearParticleHistory | Source/Runtime/Experimental/Chaos/Private/RewindData.cpp:454 | clearing a particle history from a key leaves every channel clean there |
| ChaosObjects.ClearJointHistory | Source/Runtime/Experimental/Chaos/Private/RewindData.cpp:454 | clearing a joint history from a key leaves it clean there |
| ChaosObjects.CleanHistoryIsInSync | Source/Runtime/Experimental/Chaos/Private/RewindData.cpp:87-152 | a history with nothing recorded at or after the key agrees with any live particle; stated of `ParticleHistoryInSync` (RewindData.cpp:87-153) |
| ChaosObjects.IndexOf | Source/Runtime/Experimental/Chaos/Private/RewindData.cpp:623 | the position found is the first entry tracking the object, or the registry length exactly when it is not tracked |
| ChaosObjects.FindOrAddDirtyObj | Source/Runtime/Experimental/Chaos/Private/RewindData.cpp:623 | the entry returned tracks the object; an untracked object is appended with a new entry (`NewDirtyInfo`: dirty at the current frame, a follower, no pending dynamics), otherwise the registry is unchanged; ids stay unique |
| ChaosObjects.UniqueEntry | Source/Runtime/Experimental/Chaos/Private/RewindData.cpp:623 | in a registry that tracks every object once, an entry is determined by its object |
| ChaosObjects.SetEntryKeepsIds | Source/Runtime/Experimental/Chaos/Private/RewindData.cpp:624 | replacing an entry by one for the same object keeps the tracked ids and their uniqueness |
| ChaosObjects.SameIds | Source/Runtime/Experimental/Chaos/Private/RewindData.cpp:517-546 | registries that track the same object position by position track the same ids |
| ChaosObjects.RemoveAtSwapIds | Source/Runtime/Experimental/Chaos/Private/RewindData.cpp:517-546 | swap-removing an entry keeps every object tracked at most once and adds no object |
| Sequences.RemoveAt | Source/Runtime/RenderCore/Private/GlobalRenderResources.cpp:762 | removal keeps the order of the other elements and removes exactly one occurrence |
| Sequences.RemoveAtSwap | Source/Runtime/RenderCore/Private/GlobalRenderResources.cpp:1104 | swap-removal moves the last element into the gap: the prefix is kept and the rest is a permutation of what followed the removed element |
| Sequences.Without | Source/Runtime/RenderCore/Private/GlobalRenderResources.cpp:821 | the result holds exactly the elements not dropped, in order |
| Sequences.WithoutConcat | Source/Runtime/RenderCore/Private/GlobalRenderResources.cpp:821 | removing values distributes over concatenation |
| Sequences.WithoutTwice | Source/Runtime/RenderCore/Private/GlobalRenderResources.cpp:821 | removing two value sets one after the other removes their union |
| Sequences.WithoutDistinct | Source/Runtime/RenderCore/Private/GlobalRenderResources.cpp:821 | removing values keeps a list free of duplicates |
| Sequences.RemoveAtDistinct | Source/Runtime/RenderCore/Private/GlobalRenderResources.cpp:820 | ordered removal from a duplicate-free list keeps it duplicate-free and the removed element is gone |
| RegistryPasses.PassAll | Source/Runtime/Experimental/Chaos/Private/RewindData.cpp:307-352 | a forward pass keeps the registry length and the set of live objects |
| RegistryPasses.PassUnfold | Source/Runtime/Experimental/Chaos/Private/RewindData.cpp:307-352 | the pass over a registry is the pass over all but the last entry followed by the step of the last |
| RegistryPasses.PassPerObject | Source/Runtime/Experimental/Chaos/Private/RewindData.cpp:307-352 | with unique ids, every entry and its live object end up as the step applied to that entry on the object's original value; untracked objects are untouched |
| RegistryPasses.PassFlags | Source/Runtime/Experimental/Chaos/Private/RewindData.cpp:430-464 | with unique ids, the pass flags exactly the objects whose own step flags them |
| RegistryPasses.RetirePass | Source/Runtime/Experimental/Chaos/Private/RewindData.cpp:517-546 | the retiring pass keeps the set of live objects and never grows the registry |
| RegistryPasses.RetireUnfold | Source/Runtime/Experimental/Chaos/Private/RewindData.cpp:517-546 | the retiring pass from position i is the pass from i + 1 followed by the removal or step of entry i |
| RegistryPasses.RetirePassPerObject | Source/Runtime/Experimental/Chaos/Private/RewindData.cpp:517-546 | a retained object is stepped on its original value and its stepped entry survives; a stale object is dropped with its live value untouched |
| RegistryPasses.RetirePassSurvivors | Source/Runtime/Experimental/Chaos/Private/RewindData.cpp:517-546 | every entry left after retiring is what the step made of a retained entry of the registry |
| RegistryPasses.RetirePassFlags | Source/Runtime/Experimental/Chaos/Private/RewindData.cpp:536-544 | the retiring pass reports exactly the retained objects whose step flags them |
| RegistryPasses.RetirePassIds | Source/Runtime/Experimental/Chaos/Private/RewindData.cpp:522-527 | the ids still tracked after retiring are exactly those changed at or after the earliest kept frame |
| RewindSteps.DesyncObject | Source/Runtime/Experimental/Chaos/Private/RewindData.cpp:371-386 | desyncing clears the whole history from the key and marks the object hard-desynced, changing nothing else |
| RewindSteps.DesyncParticle | Source/Runtime/Experimental/Chaos/Private/RewindData.cpp:378-385 | the desync test acts only on an in-sync particle whose history disagrees at the key, and not when the desync test is skipped; it never resyncs; the test is `ParticleHistoryInSync` with `IsResimFrameValid` (RewindData.cpp:70-153) |
| RewindSteps.DesyncJoint | Source/Runtime/Experimental/Chaos/Private/RewindData.cpp:378-385 | the joint desync test acts only on an in-sync joint whose history disagrees at the key, and not when the test is skipped; the test is `JointHistoryInSync` (the joint `IsInSync`, RewindData.cpp:155-163) |
| RewindSteps.DesyncIsIdempotent | Source/Runtime/Experimental/Chaos/Private/RewindData.cpp:378-385 | a particle the test desynced is not changed by testing it again at the same key |
| RewindSteps.RewindChannel | Source/Runtime/Experimental/Chaos/Private/RewindData.cpp:282-305 | a property the handle has is head-saved (a non-follower with a value recorded at or after the rewind key first writes its live value at the head key) and then restored to the value the channel holds at the rewind key; it reports a change exactly in the head-save case |
| RewindSteps.RewoundToRecorded | Source/Runtime/Experimental/Chaos/Private/RewindData.cpp:282-305 | the restored value is the one recorded at the rewind key before the rewind whenever the head save cannot have overwritten it: for a follower, a clean channel, a value recorded between the two keys or nothing recorded from the head key on |
| RewindSteps.DirtyThenCleanIsBetween | Source/Runtime/Experimental/Chaos/Private/RewindData.cpp:282-305 | a channel dirty at the rewind key and clean at the later head key has a value recorded between them |
| RewindSteps.RewindSavesHead | Source/Runtime/Experimental/Chaos/Private/RewindData.cpp:295-298 | after rewinding a changed property of a sorted channel with nothing recorded after the head key, the pre-rewind value is readable at the head key, overwriting a value recorded there |
| RewindSteps.RewindParticle | Source/Runtime/Experimental/Chaos/Private/RewindData.cpp:307-352 | all seven channels are head-saved under the casts the handle supports (position and non-frequent data always; velocities and kinematic target when kinematic; dynamics, misc and mass when rigid) and each property is restored from its saved channel at the rewind key; targets, other entry fields and other particle fields are unchanged; a non-follower with any such change has pending dynamics reset and is enabled for the resim, otherwise both stay; a non-follower initialized after the frame ends disabled |
| RewindSteps.RewindCommon | Source/Runtime/Experimental/Chaos/Private/RewindData.cpp:320-321 | position and non-frequent data are head-saved and restored, nothing else changes, and a change is reported exactly when a non-follower has either recorded at or after the rewind key |
| RewindSteps.RewindKinematic | Source/Runtime/Experimental/Chaos/Private/RewindData.cpp:322-323 | velocities and kinematic target are head-saved and restored when the handle is kinematic, nothing else changes, and a change is reported exactly when a kinematic non-follower has either recorded |
| RewindSteps.RewindRigid | Source/Runtime/Experimental/Chaos/Private/RewindData.cpp:324-326 | dynamics, misc state and mass properties are head-saved and restored when the handle is rigid, nothing else changes, and a change is reported exactly when a rigid non-follower has any of them recorded |
| RewindSteps.RewindRestoresRecorded | Source/Runtime/Experimental/Chaos/Private/RewindData.cpp:307-352 | with nothing recorded from the head key on, a rewind returns every property the handle has to its value recorded at the rewind key |
| RewindSteps.ApplyTargetState | Source/Runtime/Experimental/Chaos/Private/RewindData.cpp:211-250 | applying a target state sets the enable flag and object state, marks inertia conditioning when the state changes, and sets the resim type from the new state |
| RewindSteps.ApplyTargetsParticle | Source/Runtime/Experimental/Chaos/Private/RewindData.cpp:186-258 | a follower is untouched; a non-follower moves to the target position, velocities and state recorded at the rewind key when present; only the position, velocities, misc state, resim type and inertia-conditioning flag can change, and the last three stay put when no target state is recorded at the key |
| RewindSteps.FinishParticle | Source/Runtime/Experimental/Chaos/Private/RewindData.cpp:430-464 | followers and partial resims are untouched; on the final resim a full-resim particle is in sync, no longer enabled for resim, its future history cleared and its error recorded when it exceeds the threshold; before that it is tested for desync |
| RewindSteps.FinishJoint | Source/Runtime/Experimental/Chaos/Private/RewindData.cpp:430-464 | the joint counterpart of the finish step, without error recording |
| RewindSteps.FinalResimRestoresSync | Source/Runtime/Experimental/Chaos/Private/RewindData.cpp:444-455 | after the final resim every full-resim non-follower is in sync and has no history from the next frame on |
| RewindSteps.ParticleStep | Source/Runtime/Experimental/Chaos/Private/RewindData.cpp:307-352 | every pass step keeps the entry on its object, and only the finish pass flags an object, one whose error exceeds the threshold |
| RewindSteps.AdvanceParticle | Source/Runtime/Experimental/Chaos/Private/RewindData.cpp:517-573 | the follower flag is refreshed; during a resim a non-follower in sync whose history disagrees at PostCallbacks has its history cleared from there and becomes hard-desynced, and nothing else of the history changes; a particle out of sync during a resim is reported and enabled, exactly then; dynamics pending from this frame on a rigid particle not resimulating in sync are written at PostCallbacks and mark the frame dirty, otherwise dynamics and the dirty frame stay |
| RewindSteps.AdvanceRecordsDynamics | Source/Runtime/Experimental/Chaos/Private/RewindData.cpp:521-571 | when the dynamics channel is clean at PostCallbacks, as the advance step expects, recorded dynamics read back there |
| RewindSteps.AdvanceJoint | Source/Runtime/Experimental/Chaos/Private/RewindData.cpp:517-546 | the follower flag is refreshed; during a resim a non-follower joint in sync whose settings history disagrees at PostCallbacks has it cleared from there and becomes hard-desynced; a joint out of sync during a resim is enabled for it; nothing else changes |
| RewindSteps.AdvanceParticlesOutcome | Source/Runtime/Experimental/Chaos/Private/RewindData.cpp:517-573 | advancing keeps exactly the recently changed particles, each advanced by the step with a refreshed follower flag; a particle the desync test catches ends hard-desynced, enabled and reported, a particle is reported exactly when its step reports it, and reported particles are enabled and out of sync; outside a resim nothing live changes and nothing is reported |
| RewindSteps.AdvancedParticlesPerObject | Source/Runtime/Experimental/Chaos/Private/RewindData.cpp:517-573 | every retained particle's entry and live value are what its advance step makes of them, and it is reported exactly when its step reports it |
| RewindSteps.AdvanceJointsOutcome | Source/Runtime/Experimental/Chaos/Private/RewindData.cpp:517-546 | advancing keeps exactly the recently changed joints, each advanced by the step; a joint the desync test catches ends hard-desynced and enabled with its history cleared from PostCallbacks; no joint is reported; outside a resim no live joint changes |
| RewindSteps.RecordGTParticle | Source/Runtime/Experimental/Chaos/Private/RewindData.cpp:599-698 | the frame is marked dirty (`AddFrame`); for a particle initialized before this frame each of the six dirty properties the handle supports saves its live value at PrePushData (a conditional write, `WriteIf`) and the others are untouched; pushed dynamics are written at PostPushData and become pending; targets and the other entry fields are unchanged |
| RewindSteps.GTPushSavesPrePushValue | Source/Runtime/Experimental/Chaos/Private/RewindData.cpp:627-651 | with the history clean at PrePushData, as the push expects, each dirty property the handle supports reads back its value from before the push there and every other property stays clean |
| RewindSteps.WriteIfFromClean | Source/Runtime/Experimental/Chaos/Private/RewindData.cpp:644-651 | from a clean channel, a conditional write is read back at its key when it happens, and the channel stays clean otherwise |
| RewindSteps.RecordGTJoint | Source/Runtime/Experimental/Chaos/Private/RewindData.cpp:699-709 | a joint push marks the frame dirty and saves the live settings at PrePushData when they are dirty |
| RewindSteps.GuardedWrite | Source/Runtime/Experimental/Chaos/Private/RewindData.cpp:767-769 | while recording the write succeeds exactly when nothing is recorded after the key, overwriting a value at the key; otherwise it happens only into a clean channel, where it appends; a write behind recorded data never happens |
| RewindSteps.GuardedWriteThenRead | Source/Runtime/Experimental/Chaos/Private/RewindData.cpp:767-772 | a guarded write is read back at its key when the channel was clean there, or, while recording into a sorted channel, when nothing was recorded after the key |
| RewindSteps.RecordPTParticle | Source/Runtime/Experimental/Chaos/Private/RewindData.cpp:750-797 | a callback marks the frame dirty and dynamics pending, and writes position, velocities and misc state at PostPushData as guarded writes for the casts the particle supports; every other channel and entry field is unchanged |
| RewindSteps.RecordPTJoint | Source/Runtime/Experimental/Chaos/Private/RewindData.cpp:799-818 | a joint callback marks the frame dirty and writes its settings at PostPushData as a guarded write (GuardedWrite); no other field of the entry changes |
| RewindSteps.RecordPTPush | Source/Runtime/Experimental/Chaos/Private/RewindData.cpp:929-963 | the end of a push writes position, pre-callback velocities and misc state with the pre-callback object state of a rigid particle at PostCallbacks as guarded writes and marks the frame dirty; every other channel and entry field is unchanged |
| RewindSteps.TargetState | Source/Runtime/Experimental/Chaos/Private/RewindData.cpp:924-925 | a target state is never disabled and is sleeping or dynamic as requested |
| RewindSteps.RecordTargets | Source/Runtime/Experimental/Chaos/Private/RewindData.cpp:898-927 | each target channel gets the value inserted at the key while recording or when it is still clean there, and is unchanged otherwise; no other channel or entry field changes |
| RewindSteps.RecordedTargetsReadBack | Source/Runtime/Experimental/Chaos/Private/RewindData.cpp:907-925 | target position, velocities and state recorded while recording are read back at their key |
| ChaosRewind.RewindData.constructor | Source/Runtime/Experimental/Chaos/Private/RewindData.cpp:266 | rewind data starts at the given frame with no saved frames, nothing tracked and no pending save |
| RegistryPasses.VisitAll | Source/Runtime/Experimental/Chaos/Private/RewindData.cpp:307-352 | the forward loop over a registry leaves the registry, the live objects and the flagged ids exactly as the forward pass defines |
| ChaosRewind.RewindData.VisitParticles | Source/Runtime/Experimental/Chaos/Private/RewindData.cpp:307-352 | the particle loop leaves the registry and live particles as the forward pass defines and returns the flagged ids |
| ChaosRewind.RewindData.VisitJoints | Source/Runtime/Experimental/Chaos/Private/RewindData.cpp:466-467 | the joint loop leaves the registry and live joints as the forward pass defines |
| RegistryPasses.RetireAll | Source/Runtime/Experimental/Chaos/Private/RewindData.cpp:517-546 | the backward loop with swap-removal leaves the registry (as a multiset) and the live objects as the retiring pass defines, returns the reported ids in visiting order, and keeps the ids unique and live |
| ChaosRewind.RewindData.RewindToFrame | Source/Runtime/Experimental/Chaos/Private/RewindData.cpp:260-368 | a rewind below the earliest frame, or to it with a pending save and a full buffer, fails and changes nothing; otherwise every particle is rewound, the current frame becomes the target and no save is pending |
| ChaosRewind.RewindData.ApplyTargets | Source/Runtime/Experimental/Chaos/Private/RewindData.cpp:186-258 | applying targets leaves the registry alone and moves every live particle as the target pass defines |
| ChaosRewind.RewindData.FinishFrame | Source/Runtime/Experimental/Chaos/Private/RewindData.cpp:422-473 | the current frame advances by one and the latest frame becomes the maximum of the two; during a resim every object goes through the finish step and exceeded errors are recorded; otherwise nothing else changes |
| ChaosRewind.RewindData.AdvanceFrameImp | Source/Runtime/Experimental/Chaos/Private/RewindData.cpp:508-584 | the saved-frame count grows to at most capacity - 1, stale objects are retired and the rest advanced, and the desynced particles are returned |
| ChaosRewind.RewindData.ExtendHistoryWithFrame | Source/Runtime/Experimental/Chaos/Private/RewindData.cpp:827-830 | the saved-frame count only grows, and afterwards the history reaches back to the frame |
| ChaosRewind.RewindData.BufferPhysicsResults | Source/Runtime/Experimental/Chaos/Private/RewindData.cpp:735-748 | the accumulated errors are handed over and forgotten |
| ChaosRewind.RewindData.TrackParticle | Source/Runtime/Experimental/Chaos/Private/RewindData.cpp:623 | the particle's registry entry is found or added as FindOrAddDirtyObj defines |
| ChaosRewind.RewindData.TrackJoint | Source/Runtime/Experimental/Chaos/Private/RewindData.cpp:801 | the joint's registry entry is found or added as FindOrAddDirtyObj defines |
| ChaosRewind.RewindData.SetParticleInfo | Source/Runtime/Experimental/Chaos/Private/RewindData.cpp:624 | exactly one particle entry is replaced, for the same object |
| ChaosRewind.RewindData.SetJointInfo | Source/Runtime/Experimental/Chaos/Private/RewindData.cpp:805 | exactly one joint entry is replaced, for the same object |
| ChaosRewind.RewindData.PushGTDirtyData | Source/Runtime/Experimental/Chaos/Private/RewindData.cpp:590-715 | a save is always marked pending; an in-sync object during a resim and an unsupported proxy record nothing; otherwise the object's entry records the push |
| ChaosRewind.RewindData.PushGTParticle | Source/Runtime/Experimental/Chaos/Private/RewindData.cpp:655-697 | a particle out of sync is re-enabled when reinitialized this frame during a resim, and its entry (found or added) records this frame's dirty properties of the new value |
| ChaosRewind.RewindData.PushGTJoint | Source/Runtime/Experimental/Chaos/Private/RewindData.cpp:699-710 | a joint out of sync is re-enabled when reinitialized this frame during a resim, and its entry (found or added) records this frame's dirty settings |
| ChaosRewind.RewindData.SpawnProxyIfNeeded | Source/Runtime/Experimental/Chaos/Private/RewindData.cpp:717-732 | a proxy initialized in the future is tracked, enabled (`EnableParticle` clears its disabled flag), desynced from its initialization step and reinitialized at the current frame; otherwise nothing changes |
| ChaosRewind.RewindData.MarkDirtyFromPT | Source/Runtime/Experimental/Chaos/Private/RewindData.cpp:750-797 | the particle's entry records what a callback changed as RecordPTParticle defines |
| ChaosRewind.RewindData.MarkDirtyJointFromPT | Source/Runtime/Experimental/Chaos/Private/RewindData.cpp:799-818 | the joint's entry records what a callback changed as RecordPTJoint defines |
| ChaosRewind.RewindData.PushPTDirtyData | Source/Runtime/Experimental/Chaos/Private/RewindData.cpp:929-963 | the rigid particle's entry records its post-callback state as RecordPTPush defines |
| ChaosRewind.RewindData.PushStateAtFrame | Source/Runtime/Experimental/Chaos/Private/RewindData.cpp:898-927 | the particle's entry records the targets as RecordTargets defines |
| ChaosRewind.RewindData.ClearPhaseAndFuture | Source/Runtime/Experimental/Chaos/Private/RewindData.cpp:820-825 | the particle is tracked and its history is clean from the given frame and phase on |
| ChaosRewind.RewindData.HasTargetHistory | Source/Runtime/Experimental/Chaos/Private/RewindData.cpp:844-886 | the frame passes exactly when every particle's targets, every input history and every state history cover it (`FrameIsValidResimFrame`, with `ParticleHasTargetHistory` for each particle, RewindData.cpp:844-886) |
| ChaosRewind.RewindData.FindValidResimFrame | Source/Runtime/Experimental/Chaos/Private/RewindData.cpp:832-895 | INDEX_NONE for a non-positive request; otherwise the latest frame in the searched range that passes, with none passing above it, or the frame below the range when none passes (`FrameIsValidResimFrame`, RewindData.cpp:844-888) |
| DynamicBuffers.Align | Source/Runtime/RenderCore/Private/GlobalRenderResources.cpp:680 | rounding up to 64 KB gives the least multiple of 64 KB at or above the request |
| DynamicBuffers.DynamicBufferSize | Source/Runtime/RenderCore/Private/GlobalRenderResources.cpp:680 | a dynamic buffer's size is a multiple of 64 KB, at least the request and at least 64 KB |
| DynamicBuffers.DynamicBufferSizeIsLeast | Source/Runtime/RenderCore/Private/GlobalRenderResources.cpp:922 | no smaller multiple of 64 KB that is at least the request and 64 KB exists |
| DynamicVertexBuffers.SumSizesConcat | Source/Runtime/RenderCore/Private/GlobalRenderResources.cpp:786 | the memory total of two lists is the sum of their totals |
| DynamicVertexBuffers.SumSizesSameSizes | Source/Runtime/RenderCore/Private/GlobalRenderResources.cpp:786 | the memory total depends only on the listed buffers' sizes |
| DynamicVertexBuffers.TopmostFit | Source/Runtime/RenderCore/Private/GlobalRenderResources.cpp:756-766 | the search finds the topmost free buffer large enough, with none above it; no result means no free buffer is large enough |
| DynamicVertexBuffers.SweepAsWritten | Source/Runtime/RenderCore/Private/GlobalRenderResources.cpp:812-824 | the collection loop as written only ever drops buffers from the live list |
| DynamicVertexBuffers.SweepAsWrittenKeepsExpiredNeighbour | Source/Runtime/RenderCore/Private/GlobalRenderResources.cpp:812-824 | with two neighbouring expired buffers the loop as written deletes the first and keeps the second |
| DynamicVertexBuffers.VertexBufferPool.constructor | Source/Runtime/RenderCore/Private/GlobalRenderResources.cpp:734-742 | the pool starts with no buffers, empty lists and no memory |
| DynamicVertexBuffers.VertexBufferPool.AlarmCountsLiveBuffers | Source/Runtime/RenderCore/Private/GlobalRenderResources.cpp:827-830 | allocations are reported exactly when a limit is set and the live buffers' sizes reach it (`IsRenderAlarmLoggingEnabled`, GlobalRenderResources.cpp:827-830) |
| DynamicVertexBuffers.VertexBufferPool.Lock | Source/Runtime/RenderCore/Private/GlobalRenderResources.cpp:688-694 | locking maps an idle buffer and changes nothing else |
| DynamicVertexBuffers.VertexBufferPool.Unlock | Source/Runtime/RenderCore/Private/GlobalRenderResources.cpp:699-706 | unlocking unmaps the buffer and resets its allocated count to zero |
| DynamicVertexBuffers.VertexBufferPool.TakeFree | Source/Runtime/RenderCore/Private/GlobalRenderResources.cpp:762 | the free buffer taken is removed from the free list in order, and is idle and on no other idle list |
| DynamicVertexBuffers.VertexBufferPool.CreateBuffer | Source/Runtime/RenderCore/Private/GlobalRenderResources.cpp:768-773 | a new buffer sized for the request joins the live list and its size the memory total, under the next handle, which then advances |
| DynamicVertexBuffers.VertexBufferPool.FindTopmostFit | Source/Runtime/RenderCore/Private/GlobalRenderResources.cpp:756-766 | the loop from the top finds the position TopmostFit defines |
| DynamicVertexBuffers.VertexBufferPool.Acquire | Source/Runtime/RenderCore/Private/GlobalRenderResources.cpp:744-793 | the buffer returned is locked, empty, stamped with the frame and holds at least max(request, 64 KB); `AcquiredFrom` pins the whole new pool: the topmost fitting free buffer leaves the free list, or else a new buffer under the next handle joins the live list and memory total; no other buffer changes |
| DynamicVertexBuffers.VertexBufferPool.AcquireFree | Source/Runtime/RenderCore/Private/GlobalRenderResources.cpp:756-766 | the reuse path takes the fitting free buffer off the free list, locks it and stamps it |
| DynamicVertexBuffers.VertexBufferPool.AcquireNew | Source/Runtime/RenderCore/Private/GlobalRenderResources.cpp:768-790 | the creation path adds a locked, stamped buffer of the dynamic size to the live list and memory total under the next handle, which then advances |
| DynamicVertexBuffers.VertexBufferPool.Stamp | Source/Runtime/RenderCore/Private/GlobalRenderResources.cpp:789-790 | an idle buffer is locked and stamped with the frame |
| DynamicVertexBuffers.VertexBufferPool.Bump | Source/Runtime/RenderCore/Private/GlobalRenderResources.cpp:871 | the buffer's allocated count grows by the size |
| DynamicVertexBuffers.VertexBufferPool.Forfeit | Source/Runtime/RenderCore/Private/GlobalRenderResources.cpp:795-804 | the buffers handed back are unlocked and emptied and appended to the reclaim list; no other buffer changes |
| DynamicVertexBuffers.UnlockAll | Source/Runtime/RenderCore/Private/GlobalRenderResources.cpp:797-800 | each handed-back buffer ends unlocked and empty, every other buffer unchanged, and no buffer is added or removed |
| DynamicVertexBuffers.VertexBufferPool.ReclaimAll | Source/Runtime/RenderCore/Private/GlobalRenderResources.cpp:809-810 | every reclaimed buffer is appended to the free list and the reclaim list is emptied |
| DynamicVertexBuffers.VertexBufferPool.DeleteLive | Source/Runtime/RenderCore/Private/GlobalRenderResources.cpp:818-822 | a deleted buffer leaves the live list, every place on the free list, the table and the memory total |
| DynamicVertexBuffers.VertexBufferPool.SweepStep | Source/Runtime/RenderCore/Private/GlobalRenderResources.cpp:814-823 | one visit keeps the collection invariant and makes progress |
| DynamicVertexBuffers.VertexBufferPool.SweepDelete | Source/Runtime/RenderCore/Private/GlobalRenderResources.cpp:818-822 | deleting an expired buffer keeps the collection invariant at the same position |
| DynamicVertexBuffers.VertexBufferPool.GarbageCollect | Source/Runtime/RenderCore/Private/GlobalRenderResources.cpp:806-825 | reclaimed buffers become free, then every expired live buffer is deleted from the live and free lists, the table and the memory total, and no expired buffer remains |
| DynamicVertexBuffers.GlobalDynamicVertexBuffer.Allocate | Source/Runtime/RenderCore/Private/GlobalRenderResources.cpp:856-873 | a new buffer is acquired only when none is held or the last cannot fit the request, and then the pool ends as `AcquiredFrom` states for that request with the request's bytes counted; otherwise only the last buffer's count changes and the live list, free list, memory total and next handle are unchanged; the allocation starts at the previous count of the last buffer and never runs past its size |
| DynamicVertexBuffers.GlobalDynamicVertexBuffer.AllocateFromLast | Source/Runtime/RenderCore/Private/GlobalRenderResources.cpp:865-872 | when the last held buffer fits the request, the allocation starts at its count and only that count grows, by the request |
| DynamicVertexBuffers.GlobalDynamicVertexBuffer.AllocateFromNew | Source/Runtime/RenderCore/Private/GlobalRenderResources.cpp:860-872 | a newly acquired buffer is held last and the allocation starts at its beginning; the pool ends as `AcquiredFrom` states with the request's bytes counted |
| DynamicVertexBuffers.GlobalDynamicVertexBuffer.BumpHeld | Source/Runtime/RenderCore/Private/GlobalRenderResources.cpp:871 | growing a held buffer's count keeps the held buffers locked and live; only that count changes (`Bumped`) |
| DynamicVertexBuffers.AcquiredThenBumped | Source/Runtime/RenderCore/Private/GlobalRenderResources.cpp:862-871 | counting bytes in the just-acquired buffer, whose count started at 0, leaves `AcquiredFrom` holding with that count |
| DynamicVertexBuffers.GlobalDynamicVertexBuffer.AcquireNext | Source/Runtime/RenderCore/Private/GlobalRenderResources.cpp:862 | the acquired buffer is appended to the held buffers, is new to them, and the pool ends as `AcquiredFrom` states (topmost fit or a new buffer, nothing else changed) |
| DynamicVertexBuffers.GlobalDynamicVertexBuffer.Commit | Source/Runtime/RenderCore/Private/GlobalRenderResources.cpp:880-884 | every held buffer is unlocked and emptied and appended to the reclaim list, none is held, every other buffer is unchanged and no buffer is added or removed |
| DynamicIndexBuffers.FirstFit | Source/Runtime/RenderCore/Private/GlobalRenderResources.cpp:1047-1055 | the search finds the first buffer with room, with none before it; no result means none has room |
| DynamicIndexBuffers.CommitAllConcat | Source/Runtime/RenderCore/Private/GlobalRenderResources.cpp:1090-1109 | the end-of-frame survivors of two lists are the survivors of each |
| DynamicIndexBuffers.CommitAllUnlocks | Source/Runtime/RenderCore/Private/GlobalRenderResources.cpp:1093-1096 | after the end of a frame every remaining buffer is unlocked, empty and well formed |
| DynamicIndexBuffers.CommitAllWithoutThresholdKeepsAll | Source/Runtime/RenderCore/Private/GlobalRenderResources.cpp:1097 | a zero threshold releases nothing |
| DynamicIndexBuffers.CommitAllAgesIdle | Source/Runtime/RenderCore/Private/GlobalRenderResources.cpp:1097-1100 | an idle pool ages by one frame, every survivor having been below the threshold |
| DynamicIndexBuffers.IdlePoolEmptiesAfterThreshold | Source/Runtime/RenderCore/Private/GlobalRenderResources.cpp:1090-1109 | a pool receiving no allocations is empty after threshold + 1 ends of frame |
| DynamicIndexBuffers.CommitAllReleasesAll | Source/Runtime/RenderCore/Private/GlobalRenderResources.cpp:1100-1107 | an idle pool whose buffers all reach the threshold is released entirely |
| DynamicIndexBuffers.IdleAging | Source/Runtime/RenderCore/Private/GlobalRenderResources.cpp:1097-1107 | an idle pool empties once its unused count plus the frames that pass reach the threshold |
| DynamicIndexBuffers.IndexBufferPool.constructor | Source/Runtime/RenderCore/Private/GlobalRenderResources.cpp:998-1002 | a pool starts with its stride, no buffers and no current buffer |
| DynamicIndexBuffers.IndexBufferPool.FindFirstFit | Source/Runtime/RenderCore/Private/GlobalRenderResources.cpp:1047-1055 | the loop finds the position FirstFit defines |
| DynamicIndexBuffers.IndexBufferPool.AddBuffer | Source/Runtime/RenderCore/Private/GlobalRenderResources.cpp:1058-1063 | a new buffer (NewIndexBuffer: sized for the request, unlocked and empty) is appended at the end of the list |
| DynamicIndexBuffers.IndexBufferPool.Allocate | Source/Runtime/RenderCore/Private/GlobalRenderResources.cpp:1041-1079 | AllocatedFrom: the current buffer is used when the indices fit, else the first buffer with room, else a new one; only the chosen buffer changes, becoming locked with its count grown by the request; it becomes current; the first index times the stride is the previous count |
| DynamicIndexBuffers.IndexBufferPool.SwitchBuffer | Source/Runtime/RenderCore/Private/GlobalRenderResources.cpp:1043-1071 | the first buffer with room, or a new buffer when none has, becomes current and locked |
| DynamicIndexBuffers.IndexBufferPool.Bump | Source/Runtime/RenderCore/Private/GlobalRenderResources.cpp:1078-1079 | the count grows by the size and the first index times the stride is the previous count |
| DynamicIndexBuffers.IndexBufferPool.Commit | Source/Runtime/RenderCore/Private/GlobalRenderResources.cpp:1088-1110 | the survivors are the buffers CommitAll keeps, in some order, all unlocked and empty; no buffer is current (`CommitAll` applies `CommitBuffer`, the per-buffer step at GlobalRenderResources.cpp:1093-1107) |
| DynamicIndexBuffers.CommitBuffers | Source/Runtime/RenderCore/Private/GlobalRenderResources.cpp:1090-1109 | after the loop the pool holds, as a multiset, exactly what the end of a frame makes of each buffer, all unlocked, empty and well formed |
| DynamicIndexBuffers.CommitAt | Source/Runtime/RenderCore/Private/GlobalRenderResources.cpp:1092-1108 | one visit keeps the end-of-frame invariant, staying at the same position after a release |
| DynamicIndexBuffers.UnlockAt | Source/Runtime/RenderCore/Private/GlobalRenderResources.cpp:1093-1096 | unlocking a locked buffer keeps the invariant and moves on |
| DynamicIndexBuffers.AgeAt | Source/Runtime/RenderCore/Private/GlobalRenderResources.cpp:1097-1107 | ageing an idle buffer keeps the invariant, releasing it by swap-removal at the threshold |
| DynamicIndexBuffers.MultipleOfStride | Source/Runtime/RenderCore/Private/GlobalRenderResources.cpp:1041 | a request of whole indices is a multiple of the stride |
| DynamicIndexBuffers.FirstFitIsFirst | Source/Runtime/RenderCore/Private/GlobalRenderResources.cpp:1047-1055 | a position with no buffer with room before it is the one FirstFit finds |
| DynamicIndexBuffers.ReleaseKeepsCommitted | Source/Runtime/RenderCore/Private/GlobalRenderResources.cpp:1104-1106 | swap-removing a released buffer leaves the same survivors still to come |
| DynamicIndexBuffers.GlobalDynamicIndexBuffer.constructor | Source/Runtime/RenderCore/Private/GlobalRenderResources.cpp:1015-1019 | two fresh empty pools are created, for 16-bit and 32-bit indices |
| DynamicIndexBuffers.GlobalDynamicIndexBuffer.PoolFor | Source/Runtime/RenderCore/Private/GlobalRenderResources.cpp:1039 | stride 2 selects the 16-bit pool and stride 4 the 32-bit pool |
| DynamicIndexBuffers.GlobalDynamicIndexBuffer.Allocate | Source/Runtime/RenderCore/Private/GlobalRenderResources.cpp:1030-1082 | any stride other than 2 or 4 gives an empty allocation and changes nothing; otherwise the pool of that width changes exactly as AllocatedFrom states (selection rule, untouched other buffers, first index) and the other pool is unchanged |
| DynamicIndexBuffers.GlobalDynamicIndexBuffer.Commit | Source/Runtime/RenderCore/Private/GlobalRenderResources.cpp:1084-1112 | both pools end the frame as IndexBufferPool.Commit states |
| ObjectUtility.OutersAreAbove | Source/Runtime/CoreUObject/Private/UObject/UObjectBaseUtility.cpp:172-188 | every strict outer is higher up the chain, so no object is its own outer |
| ObjectUtility.GetPathName | Source/Runtime/CoreUObject/Private/UObject/UObjectBaseUtility.cpp:54-80 | "None" for no object or the stop outer; otherwise the outer's path (omitted for no outer or the stop outer), the delimiter and the name |
| ObjectUtility.PathNameRelativeToStop | Source/Runtime/CoreUObject/Private/UObject/UObjectBaseUtility.cpp:54-80 | the full path is the stop outer's full path, its delimiter and the path relative to it |
| ObjectUtility.PathNameDirectlyUnder | Source/Runtime/CoreUObject/Private/UObject/UObjectBaseUtility.cpp:59-72 | the full path of an object is its outer's full path, the delimiter and the path relative to the outer |
| ObjectUtility.PathNameThroughOuter | Source/Runtime/CoreUObject/Private/UObject/UObjectBaseUtility.cpp:59-72 | the relative path composes through the outer chain |
| ObjectUtility.PathNameIgnoresForeignStop | Source/Runtime/CoreUObject/Private/UObject/UObjectBaseUtility.cpp:54-80 | a stop outer not on the chain leaves the full path |
| ObjectUtility.GetFullName | Source/Runtime/CoreUObject/Private/UObject/UObjectBaseUtility.cpp:109-128 | "None" for no object; otherwise the class name or path, a space and the path name |
| ObjectUtility.GetOutermostObject | Source/Runtime/CoreUObject/Private/UObject/UObjectBaseUtility.cpp:172-188 | none exactly for a package |
| ObjectUtility.OutermostFromIsBelowPackage | Source/Runtime/CoreUObject/Private/UObject/UObjectBaseUtility.cpp:172-188 | the walk stops at an object whose outer is a package, with no package before it |
| ObjectUtility.GetOutermostObjectIsBelowPackage | Source/Runtime/CoreUObject/Private/UObject/UObjectBaseUtility.cpp:172-188 | the outermost object lies on the chain, its outer is a package, and no package comes before it |
| ObjectUtility.GetPackage | Source/Runtime/CoreUObject/Private/UObject/UObjectBaseUtility.cpp:195-207 | the result is a package |
| ObjectUtility.GetPackageIsFirstPackage | Source/Runtime/CoreUObject/Private/UObject/UObjectBaseUtility.cpp:195-207 | without external packages, the package is the first package on the chain, the object included |
| ObjectUtility.IsTemplateOnChain | Source/Runtime/CoreUObject/Private/UObject/UObjectBaseUtility.cpp:354-363 | an object is a template exactly when it or an outer has one of the flags (`IsTemplate`, UObjectBaseUtility.cpp:354-363) |
| ObjectUtility.GetTypedOuter | Source/Runtime/CoreUObject/Private/UObject/UObjectBaseUtility.cpp:372-385 | the result is the first strict outer that is of the class; none means no outer is |
| ObjectUtility.IsInOuterOnChain | Source/Runtime/CoreUObject/Private/UObject/UObjectBaseUtility.cpp:425-435 | an object is in an outer exactly when the outer is null or on its strict chain (`IsInOuter`, UObjectBaseUtility.cpp:425-435) |
| ObjectUtility.IsInPackageMeansPackage | Source/Runtime/CoreUObject/Private/UObject/UObjectBaseUtility.cpp:440-443 | only a package can contain an object, and no package is in itself (`IsInPackage`, UObjectBaseUtility.cpp:440-443) |
| ObjectUtility.IsInAOnChain | Source/Runtime/CoreUObject/Private/UObject/UObjectBaseUtility.cpp:450-460 | true exactly when the class is null or the object or an outer is of it (`IsInA`, UObjectBaseUtility.cpp:450-460) |
| ObjectUtility.IsChildOfTransitive | Source/Runtime/CoreUObject/Private/UObject/UObjectBaseUtility.cpp:483-518 | derivation is transitive (`IsChildOf`, the class derivation test called at UObjectBaseUtility.cpp:493-506) |
| ObjectUtility.AncestorsAreOrdered | Source/Runtime/CoreUObject/Private/UObject/UObjectBaseUtility.cpp:483-518 | of two bases of a class, one derives from the other |
| ObjectUtility.FirstCommonSuperIsNearest | Source/Runtime/CoreUObject/Private/UObject/UObjectBaseUtility.cpp:504-511 | the loop's answer is a base of both classes and derives from every other common base |
| ObjectUtility.NearestCommonBaseIsNearest | Source/Runtime/CoreUObject/Private/UObject/UObjectBaseUtility.cpp:483-518 | with a test class, the result is a common base deriving from every common base; none exactly without a test class (`FindNearestCommonBaseClass`, UObjectBaseUtility.cpp:483-518) |
| ObjectUtility.GetParentNativeClass | Source/Runtime/CoreUObject/Private/UObject/UObjectBaseUtility.cpp:599-607 | the result is the first native class on the chain; none means there is no native class |
| ObjectUtility.GetParentNativeClassIsFirst | Source/Runtime/CoreUObject/Private/UObject/UObjectBaseUtility.cpp:599-607 | every class on the chain from the start up to, but not including, the result is not native, so the result is the first native ancestor |
| ObjectUtility.IsChildOfAntisymmetric | Source/Runtime/CoreUObject/Private/UObject/UObjectBaseUtility.cpp:599-607 | two classes each a child of the other are the same class: the super chain has no cycles |
| ReadbackLayout.GetDefaultRect | Source/Runtime/Apple/MetalRHI/Private/MetalRenderTarget.cpp:16-26 | the rectangle is kept exactly when every corner is given, else the whole default-sized surface |
| ReadbackLayout.Alignment | Source/Runtime/Apple/MetalRHI/Private/MetalRenderTarget.cpp:227 | the row alignment is 1 on Mac and 64 otherwise |
| ReadbackLayout.Sub32 | Source/Runtime/Apple/MetalRHI/Private/MetalRenderTarget.cpp:228 | uint32 subtraction stays below 2^32 |
| ReadbackLayout.Add32 | Source/Runtime/Apple/MetalRHI/Private/MetalRenderTarget.cpp:228 | uint32 addition stays below 2^32 |
| ReadbackLayout.AlignUpByOne | Source/Runtime/Apple/MetalRHI/Private/MetalRenderTarget.cpp:228 | with alignment 1 the bit trick returns the stride, zero included |
| ReadbackLayout.AlignUpOfZero | Source/Runtime/Apple/MetalRHI/Private/MetalRenderTarget.cpp:321-322 | with alignment 64 a zero stride wraps to a zero pitch |
| ReadbackLayout.AlignUpBySixtyFour | Source/Runtime/Apple/MetalRHI/Private/MetalRenderTarget.cpp:321-322 | with alignment 64 a nonzero stride is rounded up to the next multiple of 64 (`AlignUp`, the bit trick at MetalRenderTarget.cpp:228 and 322) |
| ReadbackLayout.AlignedStrideBounds | Source/Runtime/Apple/MetalRHI/Private/MetalRenderTarget.cpp:386-387 | the pitch holds the row and wastes less than one alignment unit |
| ReadbackLayout.AlignedStrideIsLeastMultiple | Source/Runtime/Apple/MetalRHI/Private/MetalRenderTarget.cpp:227-228 | the pitch is the least multiple of the alignment that holds the row; on Mac the stride; zero for a zero stride (`AlignedStride`, MetalRenderTarget.cpp:227-228 and 321-322) |
| ReadbackLayout.RoundedUpIsLeast | Source/Runtime/Apple/MetalRHI/Private/MetalRenderTarget.cpp:321-322 | rounding up gives the least multiple of 64 above the value |
| ReadbackLayout.PaddedLayout | Source/Runtime/Apple/MetalRHI/Private/MetalRenderTarget.cpp:225-229 | the staging stride is pixel bytes times width, the pitch its aligned value and the image size pitch times height |
| ReadbackLayout.ColorReadLayout | Source/Runtime/Apple/MetalRHI/Private/MetalRenderTarget.cpp:156-229 | with the texture-bytes switch and a colour format the layout is tight (`TightLayout`: stride and pitch BlockBytes * SizeX, image size `ImageBytes`, pitch * SizeY); otherwise it is the padded staging layout, with one byte per pixel when stencil is read from a depth-stencil surface |
| ReadbackLayout.RowsCopiedKept | Source/Runtime/Apple/MetalRHI/Private/MetalRenderTarget.cpp:338-347 | copied rows stay copied when a prefix covering them is kept |
| ReadbackLayout.CopyBytes | Source/Runtime/Apple/MetalRHI/Private/MetalRenderTarget.cpp:344 | a byte copy fills the target range and leaves the rest of the output |
| ReadbackLayout.CopyRows | Source/Runtime/Apple/MetalRHI/Private/MetalRenderTarget.cpp:338-347 | the row loop copies the bytes of each row from the padded source and leaves the rest |
| ReadbackLayout.CopyRow | Source/Runtime/Apple/MetalRHI/Private/MetalRenderTarget.cpp:342-346 | one iteration copies one more row and leaves the others |
| ReadbackLayout.RowCopyBytes | Source/Runtime/Apple/MetalRHI/Private/MetalRenderTarget.cpp:320 | the bytes filled per row never exceed the stride or the output row, and equal the stride when it fits |
| ReadbackLayout.ContiguousCopyCopiesRows | Source/Runtime/Apple/MetalRHI/Private/MetalRenderTarget.cpp:348-352 | one contiguous copy of equally pitched rows copies every row |
| ReadbackLayout.FloatRGBALayout | Source/Runtime/Apple/MetalRHI/Private/MetalRenderTarget.cpp:320-324 | for FloatRGBA the stride is the output row, and on Mac the pitch is too |
| ReadbackLayout.CopyPackedBuffer | Source/Runtime/Apple/MetalRHI/Private/MetalRenderTarget.cpp:348-352 | the Mac single copy fills the output with the staging bytes up to the shorter length |
| ReadbackLayout.CopyPaddedSlices | Source/Runtime/Apple/MetalRHI/Private/MetalRenderTarget.cpp:403-415 | the nested slice and row loops copy every row of every slice |
| ReadbackLayout.ReadSurfaceFloatData | Source/Runtime/Apple/MetalRHI/Private/MetalRenderTarget.cpp:283-356 | no output without a texture; otherwise SizeX*SizeY pixels, each row the first bytes of its padded source row, all of it for FloatRGBA |
| ReadbackLayout.ReadPaddedRows | Source/Runtime/Apple/MetalRHI/Private/MetalRenderTarget.cpp:338-347 | the 64-byte aligned row loop fills every output row from its padded source row |
| ReadbackLayout.ReadPackedRows | Source/Runtime/Apple/MetalRHI/Private/MetalRenderTarget.cpp:348-352 | the Mac copy puts every source row in its output row for FloatRGBA |
| ReadbackLayout.Read3DSurfaceFloatData | Source/Runtime/Apple/MetalRHI/Private/MetalRenderTarget.cpp:358-424 | no output without a texture; otherwise SizeX*SizeY*SizeZ pixels, row r of slice z at output row z*SizeY + r |
| ReadbackLayout.ReadPaddedSlices | Source/Runtime/Apple/MetalRHI/Private/MetalRenderTarget.cpp:403-415 | the 64-byte aligned slice loop fills every output row of every slice |
| ReadbackLayout.ReadSurfaceDataWithoutTexture | Source/Runtime/Apple/MetalRHI/Private/MetalRenderTarget.cpp:130-138 | with no texture the output holds SizeX*SizeY zero pixels |
| ReadbackLayout.WideFormatOverrunsOutput | Source/Runtime/Apple/MetalRHI/Private/MetalRenderTarget.cpp:338-352 | as written, a format wider than 8 bytes per pixel is copied past the end of the output |
| ReadbackLayout.FloatCopyEndAsWritten | Source/Runtime/Apple/MetalRHI/Private/MetalRenderTarget.cpp:338-352 | as written, the float copy reaches one past the last byte written: nothing for no rows, and at least one full source row of BlockBytes * SizeX bytes otherwise |
| ReadbackLayout.OneWidePixelOverruns | Source/Runtime/Apple/MetalRHI/Private/MetalRenderTarget.cpp:338-347 | as written, one 16-byte pixel is written into an 8-byte output |
| StrataVisualization.AddVisualizationMode | Source/Runtime/Engine/Private/StrataVisualizationData.cpp:41-63 | the record stored under the mode name holds exactly the arguments, and every other entry is kept |
| StrataVisualization.AvailableModes | Source/Runtime/Engine/Private/StrataVisualizationData.cpp:155-161 | the menu holds exactly the records whose console command is available, under the same names |
| StrataVisualization.DecalClassificationNeverAvailable | Source/Runtime/Engine/Private/StrataVisualizationData.cpp:111-119 | the decal classification mode is registered but never offered |
| StrataVisualization.AdvancedModeFollowsFeature | Source/Runtime/Engine/Private/StrataVisualizationData.cpp:91-99 | the advanced material properties mode is offered exactly when advanced visualization is enabled |
| StrataVisualization.RoughRefractionModeFollowsFeature | Source/Runtime/Engine/Private/StrataVisualizationData.cpp:121-129 | the rough refraction mode is offered exactly when opaque rough refraction is enabled |
| StrataVisualization.BasicModesAlwaysAvailable | Source/Runtime/Engine/Private/StrataVisualizationData.cpp:70-149 | the five basic modes are always offered (`AllModes`, the registrations at StrataVisualizationData.cpp:71-149) |
| StrataVisualization.StrataVisualizationData.constructor | Source/Runtime/Engine/Private/StrataVisualizationData.cpp:202-210 | the table starts uninitialized and empty |
| StrataVisualization.StrataVisualizationData.Initialize | Source/Runtime/Engine/Private/StrataVisualizationData.cpp:65-164 | the menu is filled with the available modes only on the first call with Strata enabled; afterwards the data is initialized and never offers the decal mode |
| StrataVisualization.StrataVisualizationData.CopyAvailableModes | Source/Runtime/Engine/Private/StrataVisualizationData.cpp:155-161 | the copy loop leaves the menu equal to the available modes |
| StrataVisualization.StrataVisualizationData.GetModeDisplayName | Source/Runtime/Engine/Private/StrataVisualizationData.cpp:166-176 | the stored text for a known name, empty text otherwise |
| StrataVisualization.StrataVisualizationData.GetViewMode | Source/Runtime/Engine/Private/StrataVisualizationData.cpp:178-188 | the stored view mode for a known name, None otherwise |
| StrataVisualization.StrataVisualizationData.GetModeDefaultComposited | Source/Runtime/Engine/Private/StrataVisualizationData.cpp:190-200 | the stored flag for a known name, false otherwise |
| StrataVisualization.GetStrataVisualizationData | Source/Runtime/Engine/Private/StrataVisualizationData.cpp:202-210 | initializes exactly when not yet initialized, returning the same data; an initialized table is unchanged |
| StrataVisualization.MenuNeverOffersDecalClassification | Source/Runtime/Engine/Private/StrataVisualizationData.cpp:111-119 | looking up the decal mode gives the missing-name defaults |
| ObjectComponents.PointerValue | Source/Runtime/MovieScene/Public/EntitySystem/BuiltInComponentTypes.h:262-265 | a pointer's value is zero exactly for null |
| ObjectComponents.KeyOf | Source/Runtime/MovieScene/Public/EntitySystem/BuiltInComponentTypes.h:256-259 | only the null pointer has the default key |
| ObjectComponents.DefaultComponent | Source/Runtime/MovieScene/Public/EntitySystem/BuiltInComponentTypes.h:239-242 | the default component is invalid and has the default key |
| ObjectComponents.Null | Source/Runtime/MovieScene/Public/EntitySystem/BuiltInComponentTypes.h:244-247 | the null component is invalid and equals the default one |
| ObjectComponents.Strong | Source/Runtime/MovieScene/Public/EntitySystem/BuiltInComponentTypes.h:250-253 | a strong component is valid exactly for a non-null object, compares equal to it and has the default key (`IsValid`, BuiltInComponentTypes.h:262-265; `EqualsObject`, 268-271) |
| ObjectComponents.Weak | Source/Runtime/MovieScene/Public/EntitySystem/BuiltInComponentTypes.h:256-259 | a weak component is valid exactly for a non-null object, compares equal to it and carries its key |
| ObjectComponents.NotEqualsIsNegation | Source/Runtime/MovieScene/Public/EntitySystem/BuiltInComponentTypes.h:268-277 | != with a raw pointer is the negation of == (`NotEqualsObject` and `EqualsObject`, BuiltInComponentTypes.h:268-277) |
| ObjectComponents.EqualsIsEquivalence | Source/Runtime/MovieScene/Public/EntitySystem/BuiltInComponentTypes.h:280-288 | component equality is reflexive, symmetric and transitive (`Equals`, BuiltInComponentTypes.h:280-288) |
| ObjectComponents.EqualComponentsHashEqual | Source/Runtime/MovieScene/Public/EntitySystem/BuiltInComponentTypes.h:280-299 | equal components have equal hashes (`Equals` and `GetTypeHash`, BuiltInComponentTypes.h:280-299) |
| ObjectComponents.StrongEqualsByPointer | Source/Runtime/MovieScene/Public/EntitySystem/BuiltInComponentTypes.h:280-288 | strong components are equal exactly when their pointers are |
| ObjectComponents.WeakEqualsByKey | Source/Runtime/MovieScene/Public/EntitySystem/BuiltInComponentTypes.h:280-288 | weak components are equal exactly when their keys are |
| ObjectComponents.ReusedAddressDistinguishedByKey | Source/Runtime/MovieScene/Public/EntitySystem/BuiltInComponentTypes.h:280-288 | an object at a reused address equals the old pointer, but weak components to the two differ while strong ones are equal |
| ObjectComponents.StrongNeverEqualsWeak | Source/Runtime/MovieScene/Public/EntitySystem/BuiltInComponentTypes.h:280-288 | strong and weak components to the same object are never equal, though both compare equal to it |
| ObjectComponents.WeakNullIsNull | Source/Runtime/MovieScene/Public/EntitySystem/BuiltInComponentTypes.h:244-259 | a weak component to null is the null component |

## Left out

- The history channel type, `GetEarliestFrame_Internal`, `IsResim`, `IsFinalResim`, `FDirtyParticleInfo`, `FindOrAddDirtyObj`, `DesyncObject` and `ClearPhaseAndFuture` are declared in the rewind data header, which is not part of this model. Their behaviour follows from the comments and call sites in `RewindData.cpp`:
  - `Read(k)` returns the earliest entry at or after `k`, and `IsClean(k)` means nothing is recorded at or after `k` (RewindData.cpp:278 and 453 rely on this).
  - A monotonic write at a key at or after the latest recorded key is accepted: it overwrites the value recorded at that key, or appends. A write behind recorded data, which the channel refuses, is modelled as a dropped write.
  - The earliest frame is `CurFrame - FramesSaved`. A resimulation is `CurFrame < LatestFrame`, and the final resim step is `CurFrame + 1 == LatestFrame`.
  - A new registry entry is dirty at the current frame, is a follower, and has no pending dynamics. `FindOrAddDirtyObj` without an initialization step uses `INDEX_NONE`.
  - Registry removal moves the last entry into the gap, and the retiring loop runs backwards.
  - Desyncing an object clears all of its channels from the key and marks it hard-desynced.
  - Enabling a particle for the resimulation clears its disabled flag.
  - A property whose handle cast fails is left alone.
  - Accumulating a correction error is a no-op for joints.
- `AccumulateErrorIfNecessary` (RewindData.cpp:389-420) is floating-point vector and quaternion arithmetic. It is abstracted as the set `exceedsError` of particles whose error exceeds the threshold.
- The solver, evolution and island-manager calls are left out: resim-frame validity, particle enabling and inertia conditioning (RewindData.cpp:70-84, 223-240, 335, 348-349, 724). The solver's state stands in for them.
- The input and state histories in `FindValidResimFrame` are modelled as the sets of frames for which each history holds valid data.
- `SimWritablePropsMayChange`, `GetPastStateAtFrame`, `ApplyInputs`/`RewindStates` (the fan-out over weak pointers), the resim cache, and network-prediction debugging are not modelled.
- `DumpHistory_Internal` (RewindData.cpp:475-503) is file I/O. The `#if 0` bodies (RewindData.cpp:26-48, 53-61) are compiled out.
- The `ensure` checks of `RewindData.cpp` are diagnostics and are not modelled. For example, the joint sync check during a rewind (RewindData.cpp:354-362) and the clean-channel checks in `PushGTDirtyData`.
- The RHI work is not modelled: `InitRHI`, `ReleaseRHI`, locking and unlocking a GPU buffer, and the mapped pointer. A mapped buffer is a flag. The pool's critical section and the atomic memory counter are not modelled, because the model is single-threaded.
- Console variables and the render-thread frame counter are parameters. Their defaults (30 unused frames and 32 MB per frame, GlobalRenderResources.cpp:11 and 18) are constants.
- `uint32` and `uint64` overflow of buffer sizes, allocated counts and frame numbers is not modelled.
- `DynamicIndexBuffers.WellFormed` admits only strides 2 and 4. `FGlobalDynamicIndexBuffer` builds only those two pools.
- RewindSteps.TargetState: the source sets only the object state and the disabled flag on the slot that `Insert` returns (RewindData.cpp:921-925), and the slot's other misc fields keep whatever the property pool left in it. The model gives those other fields (`DynamicMisc.other`) the value 0.
- The alarm log message itself is not modelled. `IsRenderAlarmLoggingEnabled` is.
- `GetFullGroupName`, `GetVersePath`, `MarkPackageDirty`, `GetImplementingOuterObject`, `GetInterfaceAddress`, `IsDefaultSubobject` and the other functions of `UObjectBaseUtility.cpp` outside the queries above are not modelled.
- `SUBOBJECT_DELIMITER_CHAR` comes from a header that is not part of this model. It is taken to be `':'`.
- `FName` comparison is case-insensitive and `FText` is localised. Names and texts are modelled as plain strings.
- `ConfigureConsoleCommand` and the console-variable help text (StrataVisualizationData.cpp:14-38) are not modelled.
- Whether Substrate, its advanced visualization shaders and opaque rough refraction are enabled are parameters.
- The texture-to-buffer copies, `GetBytes`, `ConvertSurfaceDataToFColor`, command-buffer submission and surface formats other than a block size are Metal and engine calls. They are not modelled. The staging buffer is given as its bytes.
- The uninitialised-texture return of `RHIReadSurfaceData` (MetalRenderTarget.cpp:150-154) leaves the output uninitialised. It is not modelled.
- `ReadbackLayout.PaddedLayout`, `ReadbackLayout.ColorReadLayout`, `ReadbackLayout.ReadSurfaceFloatData` and `ReadbackLayout.Read3DSurfaceFloatData` require `BlockBytes * SizeX <= 0xFFFFFFC0`. The source computes the stride in `uint32`, and the wrap-around beyond that is not modelled.
- The conversion of `Rect.Width()` and `Rect.Height()` to `uint32` is not modelled; sizes are natural numbers. The 3D depth `ZMinMax.Y - ZMinMax.X` is likewise a natural number.
- `FObjectComponent::GetObject`, `AddReferencedObjectForComponent` and the pointer operators are defined in a `.cpp` file that is not part of this model. Object keys and the hash functions of keys and pointers are parameters.

## Findings

| source | as written | input that shows it | evidently intended | confidence | as-written member | corrected member |
|---|---|---|---|---|---|---|
| Source/Runtime/RenderCore/Private/GlobalRenderResources.cpp:812-824 | after `LiveList.RemoveAt(Index)` the loop still increments `Index`, so the buffer moved into the visited slot is never examined in that pass | live list `[A, B]`, both unused for the threshold: `A` is deleted and `B` stays alive until the next collection | every expired live buffer is deleted in the same pass | high, not executed | DynamicVertexBuffers.SweepAsWritten, DynamicVertexBuffers.SweepAsWrittenKeepsExpiredNeighbour | DynamicVertexBuffers.VertexBufferPool.GarbageCollect |
| Source/Runtime/Apple/MetalRHI/Private/MetalRenderTarget.cpp:320-420 | each row copies `Stride = BlockBytes * SizeX` bytes into output rows of `SizeX * sizeof(FFloat16Color)` bytes, and the format check at 300-303 only logs | a surface with 16 bytes per pixel and `SizeX = SizeY = 1`: 16 bytes are written into an 8-byte output | the copy never writes past the output array | medium, not executed | ReadbackLayout.FloatCopyEndAsWritten, ReadbackLayout.WideFormatOverrunsOutput, ReadbackLayout.OneWidePixelOverruns | ReadbackLayout.ReadSurfaceFloatData, ReadbackLayout.Read3DSurfaceFloatData |
