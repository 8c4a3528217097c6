# Verification model of a Docker engine's storage stack

This project models the parts of a Docker engine fork that keep images and layers consistent, and
proves what they promise. It is written for Dafny 4.11; `dafny verify dfyconfig.toml` checks all of
it.

## What is modelled

- **Layer store** (`ChainIDs`, `Pointers`, `LayerModel`, `LayerInvariant`, `LayerRuns`,
  `LayerReachability`, `LayerMounts`, `LayerReports`, `LayerDepth`, `LayerMetadata`, `LayerRestart`,
  `LayerStore`). Read-only layers keyed by ChainID, their reference counts and handles, writable
  mounts, and the metadata they leave on disk. Operations that let go of the lock in between (registration, creating and releasing a mount) are
  split into their critical sections; a *run* is any interleaving of such sections, with any driver
  or metadata call failing. The main results: reference counts are exact in every run and no panic
  of `releaseLayer` can be reached; counting references keeps exactly the reachable layers; a restart
  gives back what was stored. The class `LayerStore` has the methods that update the maps in place,
  each proved against its critical section.
- **Image store** (`ImageModel`, `ImageNames`, `ImageStore`, `StorageStack`, `StackBackend`,
  `StackRestart`). The parent/children index, the persisted parents and one layer handle per image, on top of the layer
  store and interleaved with its other users. Create writes its configuration before it takes the
  lock, so it is two steps of a run.
- **Image deletion** (`ImageDeletion`, `ImageDeleteExact`, `ImageDaemon`). The conflict check, the
  recursive prune and deletion by identifier or reference, over both stores.
- **Pull and push** (`Manifests`, `Downloads`, `PushV1`, `PushV2`). The repair of schema 1
  manifests, the resumable blob download as a state machine over attempts, and the two ways of
  putting layer chains in upload order.
- **Small pieces** (`EventQueue`, `ImageFilter`, `Ports`, `EscapableCopy`). The per-container event
  queue, the ancestor filter of container listings, the port range display and the copy loop that
  looks for detach keys.

## How to read it

A function named after an operation (`LayerModel.Commit`, `ImageModel.Delete`, ...) says what the
operation does to a value of the state, including every error exit; the theorems are about these
functions and about runs made of them. The method of the same name in a class does the same work by
updating fields and is proved equal to the function. Failures of the graph driver, the metadata
store, the image backend and the network are parameters (`commitOK`, `fault`, `failing`, `work`,
...), so a theorem over all parameters covers all failures. `InvOwing(core, holds, owed)` is the
invariant of the layer store with one use of layer `owed` in the hands of the running operation.

ChainIDs are symbolic: `Base(diff)` or `Chained(parent, diff)`, after the "Layer ChainID" definition
of the image configuration document of the OCI Image Format Specification.
`ChainIDs.RenderInjective` shows that a concrete digest function distinguishes the chains of
registered layers as the symbolic identifiers do, unless two of the texts it actually hashed collide.
Their diffs are digests of tar streams, which are told from chain texts by their length: it is never
that of two digests and a space. The diff list of an image configuration may be any list of strings;
the field `top` of a configuration is the chain that the ChainID string of its list stands for, and
`ImageNames` says how the two are related.

Some promises do not hold of the code without a condition; each has a lemma with a concrete case and
lemmas with the exact condition:

- An image, and the manifest of a push, has the diffs of its configuration if and only if these are
  well-formed digests and the first is not the identifier of several of the layers; Create checks
  neither (`ImageNames.ImageDiffsExactly`, `PushV2.ManifestListsDiffs`,
  `ImageNames.IdentifierAsDiff`).
- A failed registration or mount creation leaves the layers as they were if and only if its parent is
  not a layer that an earlier failed removal left behind and that can now go
  (`LayerStores.RegistrationAllOrNothing`, `MountCreationAllOrNothing`,
  `FailedRegistrationTakesLeftover`).
- The limit on the depth of chains holds if and only if no migration starts on a chain that has
  reached it (`LayerDepth.MigrationKeepsBoundExactly`, `MigrationPassesLimit`).
- A restart brings back the same mounts if and only if the metadata holds nothing that no mount has;
  a mount creation leaves such metadata if and only if a write of `saveMount` other than the first
  fails (`LayerRestart.RestartRestores`, `SaveMountStaysUntornExactly`, `TornMountComesBack`).
- A Create that a Delete of the same image overtakes leaves an image without configuration, on which
  SetParent puts the index out of step (`StackBackend.CreationKeepsConfigurationExactly`,
  `NextKeepsIndexExactly`, `OvertakenCreation`). That every image keeps its layers does not depend on
  this.
- A restart brings back the same images if and only if the backend holds exactly their
  configurations; a Create whose top layer is missing leaves one behind, and makes the next restore
  fail (`StackRestart.StackRestartExactly`, `ImageModel.CreateKeepsBackendExactly`,
  `StackRestart.MissingLayerBlocksRestart`).
- A download whose temporary file cannot be positioned continues with a new file but the old
  verifier: it may reject a correct blob or accept a wrong one (`Downloads.SeekFailureLosesSync`,
  `SeekFailureReturnsWrongContent`, `SeekFailureExactly`, `SeekFailureSuccess`).
- The port display can be read back if and only if no grouped port has a slash in its address or
  protocol (`Ports.SlashIsReadAsAddress`, `Ports.DisplayExpandsExactly`).
- Detach keys are recognised if and only if they arrive where a chunk begins
  (`EscapableCopy.DetachesExactly`, `KeysAfterPartialMatch`).

Where comments and code differ, the model follows the code: the comment of `imageDeleteHelper`
says that a quiet call ignores any conflict, while the code still reports some; `QuietNeverConflicts`
shows that the two agree because the reporting branch is never taken.

## Model

| member | source | states |
|---|---|---|
| `ChainIDs.FromParentAppends` | layer/layer.go:242-252 | extending an identifier by a list of diffs appends exactly that list to its diff list, and the identifier is empty only if nothing was given |
| `ChainIDs.ChainIDRoundTrip` | layer/layer.go:238-252 | CreateChainID and reading the diff list off an identifier are inverse to each other, in both directions |
| `ChainIDs.ChainIDInjective` | layer/layer.go:238-252 | two diff lists with the same identifier are the same list |
| `ChainIDs.AncestorsArePrefixes` | layer/layer.go:242-252 | a layer is an ancestor of another if and only if its diff list is a prefix of the other's |
| `ChainIDs.StringFromParentRenders` | layer/layer.go:242-252 | the digest strings the engine computes are the written-out form of the symbolic identifiers, for any function that writes digests of one length |
| `ChainIDs.RenderEqualExactly` | layer/layer.go:242-252 | for chains of well-formed diffs: the strings are equal if and only if the chains are, or one is the other with some first layers replaced by the identifier of their chain, unless two of the chain texts hashed for them collide |
| `ChainIDs.RenderInjective` | layer/layer.go:242-252 | chains of registered layers, whose diffs are digests of tar streams, are written out as different strings unless two of the texts hashed for them collide |
| `ChainIDs.StringChainIDExactly` | layer/layer.go:238-252 | two lists of well-formed diffs have the same ChainID string if and only if they are equal or one is the other with some first layers taken together, unless two chain texts collide |
| `ChainIDs.NameExactly` | layer/layer.go:238-252 | any list of strings with the ChainID of a chain of registered layers is its diff list if and only if its members are well-formed digests and the first is not the identifier of an ancestor with a parent |
| `ChainIDs.StringChainIDInjective` | layer/layer.go:238-252 | the diff lists of registered layers are told apart by their ChainID strings |
| `ChainIDs.StringChainIDCollision` | layer/layer.go:242-252 | a list of one diff that is the identifier of a longer chain has the same ChainID as that chain |
| `ChainIDs.SpelledTarCollision` | layer/layer.go:242-252 | so has the list of the two parts of a tar stream cut at a space, which are no digests, as the layer of that tar stream |
| `LayerInvariant.HoldMakesToken` | layer/layer_store.go:331-346 | a lookup leaves every count exact except for one use of the layer that the caller now owns |
| `LayerInvariant.TokenToHandle` | layer/ro_layer.go:84-91 | turning an owned use into a handle makes all counts exact again |
| `LayerInvariant.HandleToToken` | layer/ro_layer.go:102-104 | taking a handle back leaves one owned use of its layer to be released |
| `LayerInvariant.CommitKeepsInv` | layer/layer_store.go:313-329 | committing a registration: a new layer takes over its parent's use, an existing layer or a failed transaction leaves that use to be released; all else stays exact and the metadata mirrors the layers |
| `LayerInvariant.SaveMountKeepsInv` | layer/layer_store.go:557-577 | saving a mount takes over the use of its parent; a write that fails at any field leaves the use to be released and no metadata that contradicts a known mount |
| `LayerInvariant.GetMountKeepsInv` | layer/layer_store.go:487-496 | another reference to a mount changes no layer count |
| `LayerInvariant.ReleaseMountKeepsInv` | layer/layer_store.go:510-546 | counts stay exact; what the mount held on its parent is left to be released if the mount went, and otherwise nothing is |
| `LayerInvariant.RemoveFreesParent` | layer/layer_store.go:360-379 | a layer without uses has no handle, child, mount or operation in flight pointing at it, so its removal leaves nothing dangling and exactly one use of its parent to be released |
| `LayerInvariant.ReleaseStepKeepsInv` | layer/layer_store.go:381-414 | no iteration of the release loop panics, and the use being released moves up to the parent |
| `LayerInvariant.ReleaseKeepsInv` | layer/layer_store.go:381-414 | releasing an owned use never panics, keeps every count exact, only lowers counts and removes layers without handles, reports exactly the layers it removed, and with working storage leaves no unused layer |
| `LayerRuns.RegisterBeginKeepsInv` | layer/layer_store.go:241-266 | starting a registration keeps the invariant of runs: the operation in flight accounts for its use of the parent |
| `LayerRuns.RegisterCommitKeepsInv` | layer/layer_store.go:313-329 | the locked end of a registration keeps the invariant of runs in all three outcomes |
| `LayerRuns.ReleaseHandleKeepsInv` | layer/layer_store.go:416-430 | Release of any handle value, stale or forged ones included, keeps the invariant and does not panic; an outstanding handle is never refused |
| `LayerRuns.MountBeginKeepsInv` | layer/layer_store.go:432-462 | starting a mount keeps the invariant; a taken name or a missing parent changes nothing |
| `LayerRuns.MountCommitKeepsInv` | layer/layer_store.go:464-485 | the end of a mount creation keeps the invariant whichever metadata write fails |
| `LayerRuns.ReleaseRWKeepsInv` | layer/layer_store.go:510-546 | releasing a mount keeps the invariant, with the use of its parent handed to the operation in flight |
| `LayerRuns.UnwindKeepsInv` | layer/layer_store.go:253-260 | giving back the parent of an operation keeps the invariant, whichever storage removals fail |
| `LayerRuns.NextKeepsInv` | layer/layer_store.go:241-555 | every critical section, enabled or not and failing or not, keeps the invariant of runs |
| `LayerRuns.Run` | layer/layer_store.go:241-555 | every state of every interleaving satisfies the invariant |
| `LayerRuns.ReferenceCountsAreExact` | layer/layer_store.go:241-555 | in every interleaving of registrations (migration included), lookups, releases and mount operations, with any driver or metadata call failing, each reference count is the number of outstanding handles, child layers, mounts and operations in flight, and no release has panicked; from the empty store and from any restarted one |
| `LayerReachability.ChainsAreComplete` | layer/layer_store.go:381-414 | all ancestors of a stored layer are stored |
| `LayerReachability.LayersAreTheNeededOnes` | layer/layer_store.go:381-430 | if no layer is unused, layerMap is exactly the set of ancestors of layers with a handle, a mount or an operation in flight |
| `LayerReachability.RunLeavesNoGarbage` | layer/layer_store.go:381-430 | runs whose removals succeed never leave a layer without a use |
| `LayerReachability.ReferenceCountingIsReachability` | layer/layer_store.go:381-430 | from the empty store, at every point of every run whose removals succeed, reference counting keeps exactly the reachable layers |
| `LayerReachability.ReleaseRemovesTheUnneeded` | layer/layer_store.go:416-430 | Release succeeds and removes exactly the layers that nobody else needs |
| `LayerReachability.ReleaseKeepsOtherHandles` | layer/layer_store.go:416-430 | releasing one handle leaves every other handle outstanding |
| `LayerReachability.HandleStays` | layer/layer_store.go:241-555 | no event except the release of this very handle takes a handle from its owner |
| `LayerReachability.HeldChainsStay` | layer/layer_store.go:241-555 | along every run that does not release a handle, the whole chain below it stays in the store |
| `LayerMounts.GetMountRetains` | layer/layer_store.go:487-496 | every known name, and no other, gets a new reference, which its mount then holds beside all others; nothing else changes |
| `LayerMounts.ReleaseMountExactly` | layer/layer_store.go:510-546 | releasing a held reference removes the mount if and only if it was the last one and the removal works; while others remain the mount keeps exactly those; a failed removal changes nothing; no layer and no other mount is touched |
| `LayerMounts.ReleaseMountRefuses` | layer/layer_store.go:510-520 | a reference that is not held is refused, an unknown name is no error, and both change nothing |
| `LayerMounts.MountRefStays` | layer/layer_store.go:241-555 | no event except its own release takes a mount reference from its owner, or changes the layer the mount is on |
| `LayerMounts.MountedChainsStay` | layer/layer_store.go:241-555 | along every run that does not release a mount reference, the mount and all layers below it stay in the store |
| `LayerReports.SizeIsSum` | layer/ro_layer.go:61-70 | the size of a layer is the sum of the sizes of all layers of its chain |
| `LayerReports.ReleaseReports` | layer/layer_store.go:360-430 | entry k of the report of Release is the k-th layer from the top, with its own diff and size and the sum of the sizes of its chain; a failed removal reports nothing; a stale handle is refused and an unknown layer is no error, both without effect |
| `LayerReports.UncountedReleasePanics` | layer/layer_store.go:381-414 | what the panics are: the release of a layer without a use, or of the last use of a layer that still has a handle |
| `LayerDepth.DepthIsChainLength` | layer/ro_layer.go:106-111 | the depth compared with the limit is the number of diffs of the chain |
| `LayerDepth.ChainsStayBounded` | layer/layer_store.go:261-265 | in every interleaving without migration no chain ever has more than 125 layers |
| `LayerDepth.MigrationKeepsBoundExactly` | layer/migration.go:147-180 | the start of a migration keeps that bound if and only if it is not on a stored chain of 125 layers |
| `LayerDepth.MigrationPassesLimit` | layer/migration.go:147-229 | the condition is needed: a migration makes a chain of 126 layers |
| `LayerMetadata.NextKeepsMetadata` | layer/layer_store.go:241-577 | every critical section keeps the metadata of layers a mirror of the store, if it was one, and filed under chain identifiers |
| `LayerRestart.RestartCounts` | layer/layer_store.go:73-104 | whatever metadata is unreadable, every count after a restart is the number of loaded children and mounts, and nothing loaded points at something not loaded |
| `LayerRestart.LoadableExactly` | layer/layer_store.go:106-158 | exactly those layers load whose whole chain is in the metadata and readable |
| `LayerRestart.MountLoadableExactly` | layer/layer_store.go:160-201 | exactly those mounts load whose own metadata is readable and below which all layers load |
| `LayerRestart.RestartedStoreRuns` | layer/layer_store.go:73-104 | whatever metadata is unreadable, the restarted store satisfies the invariant that all runs keep |
| `LayerRestart.CountsAreExactAcrossRestarts` | layer/layer_store.go:73-555 | over any number of restarts, each with any metadata unreadable and any run after it, counts stay exact and no release panics |
| `LayerRestart.RestartRestores` | layer/layer_store.go:73-201 | restart round trip from any state of any run: the same layers with parent, diff, size, cache identifier and descriptor, every mount with its parent, exact counts; the mounts are the same if and only if the metadata holds nothing that no mount has |
| `LayerRestart.SaveMountStaysUntornExactly` | layer/layer_store.go:557-577 | saving a mount leaves metadata that no mount has if and only if a write other than the first fails |
| `LayerRestart.NextStaysUntorn` | layer/layer_store.go:241-577 | an event leaves metadata that no mount has if and only if it is the end of a mount creation that is cut short after the first write |
| `LayerRestart.RunStaysUntorn` | layer/layer_store.go:557-577 | in runs whose mount writes succeed or fail at once the mount metadata is always exactly that of the mounts |
| `LayerRestart.TornMountComesBack` | layer/layer_store.go:557-577 | the condition is needed: a mount creation that fails at the second write is a mount after the next restart |
| `LayerRestart.RestartAfterRun` | layer/layer_store.go:73-201 | a restart after any run from the empty store whose mount writes succeed or fail at once gives back exactly the layers and mounts of that run, in a state that further runs may start from |
| `LayerStores.HoldThenRelease` | layer/layer_store.go:331-414 | looking up a used layer and releasing it again restores the store exactly |
| `LayerStores.RegistrationIsARun` | layer/layer_store.go:241-329 | a registration without interference, as the method below performs it, is the run of its three events |
| `LayerStores.HoldReleaseExactly` | layer/layer_store.go:331-414 | holding a layer and giving it back leaves the store as it was if and only if that does not remove a layer left over from an earlier failed removal |
| `LayerStores.RegistrationAllOrNothing` | layer/layer_store.go:241-329 | a failed registration leaves the store as it was if and only if its parent is not such a leftover that can now be removed; a successful one hands out a handle on the layer of its content |
| `LayerStores.RegistrationSucceedsExactly` | layer/layer_store.go:241-329 | a registration succeeds if and only if its parent is stored, its work does not fail, it is a migration or the parent has fewer than 125 layers, and the layer is stored already or the transaction commits |
| `LayerStores.RegistrationStores` | layer/layer_store.go:241-329 | a successful registration stores a new layer with exactly the diff, parent, size, cache identifier and descriptor given, one use and the new handle, and no other new layer; a layer that was there keeps its own fields and gets the handle |
| `LayerStores.CommitStores` | layer/layer_store.go:313-329 | the same of the locked section alone: the layer that was there wins, otherwise the given one is stored |
| `LayerStores.FailedRegistrationTakesLeftover` | layer/layer_store.go:253-260 | the condition is needed: a run that leaves such a layer, and a failing registration that takes it away |
| `LayerStores.MountCreationIsARun` | layer/layer_store.go:432-485 | a mount creation without interference is the run of its events |
| `LayerStores.MountCreationAllOrNothing` | layer/layer_store.go:432-485 | a failed mount creation leaves layers and mounts as they were if and only if its parent is not a removable leftover, and everything as it was if and only if moreover its save was not cut short after the first write; a successful one mounts what was asked for |
| `LayerStores.MountRemovalIsARun` | layer/layer_store.go:510-555 | a mount removal without interference is the run of its events |
| `LayerStores.MountRemovalExactly` | layer/layer_store.go:510-555 | a whole mount removal: the mounts afterwards in all cases, layers change only when the mount goes with its last reference, and with working storage no layer is left unused |
| `LayerStores.LayerStore.GetWithoutLock` | layer/layer_store.go:331-340 | adds one use of a stored layer and nothing else; reports whether the layer is stored |
| `LayerStores.LayerStore.GetReference` | layer/ro_layer.go:84-91 | adds a fresh handle to the layer |
| `LayerStores.LayerStore.Get` | layer/layer_store.go:348-358 | a handle and one more use, or nothing for an unknown layer |
| `LayerStores.LayerStore.ReleaseLayer` | layer/layer_store.go:381-414 | the loop performs the release of the specification, for every starting state, with the same report and the same ending, panics included |
| `LayerStores.LayerStore.Release` | layer/layer_store.go:416-430 | the specified release for any handle value: unknown layer, stale handle, or release of the use |
| `LayerStores.LayerStore.Commit` | layer/layer_store.go:313-329 | the specified commit, with its three outcomes; what it stores is CommitStores |
| `LayerStores.LayerStore.Register` | layer/layer_store.go:241-329 | the specified registration, with rollback through the parent's release on every failing path (RegisterByGraphID is the variant without the depth limit); when it succeeds and what it stores are RegistrationSucceedsExactly and RegistrationStores |
| `LayerStores.LayerStore.SaveMount` | layer/layer_store.go:557-577 | the metadata fields are written one after the other, and the mount appears only if all writes succeed |
| `LayerStores.LayerStore.CreateRWLayer` | layer/layer_store.go:432-485 | the specified mount creation, with rollback |
| `LayerStores.LayerStore.GetRWLayer` | layer/layer_store.go:487-496 | a fresh reference to a known mount, or nothing |
| `LayerStores.LayerStore.ReleaseRWLayer` | layer/layer_store.go:510-555 | the specified mount removal: not mounted, not retained, still mounted, taken back after a failed removal, or removed with its parent released; which of these when is ReleaseMountExactly and ReleaseMountRefuses |
| `LayerStores.LayerStore.LoadLayer` | layer/layer_store.go:106-158 | loads a layer with all its ancestors if and only if all their metadata is there and readable, touching no layer loaded before; it ends because parents have shorter chains |
| `LayerStores.LayerStore.LoadMount` | layer/layer_store.go:160-201 | loads a mount if and only if its metadata is readable and its parent can be loaded, and counts it on its parent |
| `LayerStores.LayerStore.LoadLayers` | layer/layer_store.go:83-95 | for every order of listing, all loadable layers are loaded and counted by their children |
| `LayerStores.LayerStore.Restore` | layer/layer_store.go:73-104 | for every order of listing layers and mounts, the rebuilt store is the one the restart theorems are about |
| `ImageModel.CreateKeepsIndex` | image/store.go:106-165 | Create leaves children and persisted parents in agreement; a new image starts without children, also one that was deleted before |
| `ImageModel.CreateExactly` | image/store.go:106-165 | each of the seven endings of a Create without interference exactly, and what the backend and the images hold then; images that were there stay as they were |
| `ImageModel.SetParentSucceedsExactly` | image/store.go:230-242 | SetParent succeeds if and only if the parent is stored, the configuration of the image is in the backend and the write succeeds; an unknown parent changes nothing |
| `ImageModel.CreateKeepsBackendExactly` | image/store.go:106-165 | after a Create without interference the backend holds exactly the configurations of the images if and only if it gave up before storing, the image was there, or its top layer was found and its identifier accepted |
| `ImageModel.SetParentKeepsIndex` | image/store.go:230-242 | SetParent on a stored image moves it from the children of its old parent to those of the new one, in index and metadata alike |
| `ImageModel.SetParentKeepsIndexExactly` | image/store.go:230-242 | SetParent on a stored image leaves index and metadata in agreement if and only if the parent is unknown or the same as before, or the configuration is in the backend and the write succeeds |
| `ImageModel.SetParentKeepsCovered` | image/store.go:230-242 | even on an image whose configuration is gone, SetParent leaves every persisted link in the index |
| `ImageModel.DeleteKeepsIndex` | image/store.go:203-228 | Delete takes the image out of its parent's children and orphans exactly its own children, in index and metadata alike |
| `ImageModel.DeleteKeepsCovered` | image/store.go:203-228 | in any state, Delete leaves no persisted link to the deleted image and every other link in the index |
| `ImageModel.CreateCommitKeepsOwning` | image/store.go:136-165 | whatever happened since the configuration was stored, the locked part of Create gives a new image a handle of its own and an image that is there already none |
| `ImageModel.CreateKeepsOwning` | image/store.go:106-165 | a created image owns a handle of its own on its top layer; creating the same configuration again takes no second handle |
| `ImageModel.SetParentKeepsOwning` | image/store.go:230-242 | linking images changes no layer ownership |
| `ImageModel.DeleteKeepsOwning` | image/store.go:203-228 | Delete gives back the handle of the deleted image only, its release never panics and is never refused |
| `ImageModel.ImageHasItsLayers` | image/store.go:138-151 | an image holds the layer that its ChainID stands for, and all layers below it are stored |
| `ImageNames.EveryConfigIsNamed` | image/store.go:138-151 | every list of strings stands for at most one chain of registered layers, by its ChainID string |
| `ImageNames.LookupFindsTop` | image/store.go:138-151 | looking a layer up by the ChainID string of a configuration finds exactly that chain |
| `ImageNames.ImageDiffsExactly` | image/store.go:106-151 | the layers an image holds have exactly the diffs of its configuration if and only if these are well-formed digests and the first is not the identifier of several of the layers |
| `ImageNames.IdentifierAsDiff` | image/store.go:106-151 | the condition is needed: a configuration whose only diff is the identifier of a stored longer chain is accepted, and its image holds layers with other diffs |
| `ImageModel.ImageLayersStay` | image/store.go:138-151 | any run of other users of the layer store leaves every image in possession of its layer |
| `ImageModel.DeleteRemovesOnlyUnneeded` | image/store.go:203-228 | Delete removes a layer if and only if no other handle, mount or operation needs it; no layer of another image goes |
| `ImageStores.RestoreRebuildsIndex` | image/store.go:63-104 | restore gives back the same images if and only if the backend holds exactly their configurations, and the same children if and only if moreover the index was in step with the metadata |
| `ImageStores.ImageStore.StoreConfig` | image/store.go:106-134 | stores a configuration that parses, has enough layers and that the backend takes, and says why otherwise |
| `ImageStores.ImageStore.CommitImage` | image/store.go:136-165 | the specified locked part, with its error exits |
| `ImageStores.ImageStore.Create` | image/store.go:106-165 | the specified creation over the shared layer store, both parts without interference |
| `ImageStores.ImageStore.SetParent` | image/store.go:230-242 | the specified relinking; an unknown parent changes nothing |
| `ImageStores.ImageStore.ForgetChildren` | image/store.go:211-213 | removes the persisted parent of exactly the given children |
| `ImageStores.ImageStore.Delete` | image/store.go:203-228 | the specified deletion over the shared layer store |
| `ImageStores.ImageStore.RestoreImages` | image/store.go:64-92 | whatever the order of the walk, every readable image gets its own handle; the pass fails exactly when a readable image misses its layer |
| `ImageStores.ImageStore.RestoreChildren` | image/store.go:94-101 | every loaded image enters the children of its loaded parent, in any order |
| `ImageStores.ImageStore.Restore` | image/store.go:63-104 | restore succeeds exactly when no readable image misses its layer, and then images, handles and children are those the metadata says |
| `StorageStack.StackNextKeepsInv` | image/store.go:106-242 | image operations, with the two parts of Create apart, and the critical sections of other layer users, interleaved in any order, keep every image in possession of its layer, every persisted parent valid and every identifier tied to one configuration |
| `StorageStack.EveryImageKeepsItsLayers` | image/store.go:106-228 | in every interleaving: every image with layers owns a handle of its own on the layer its ChainID stands for, that layer and all below it are stored, the backend has no wrong configuration, and every persisted parent is a stored image that has the child |
| `StorageStack.CreateIsARun` | image/store.go:106-165 | a Create without interference is the run of its two parts |
| `StackBackend.NextKeepsBackedExactly` | image/store.go:106-228 | an event leaves an image without its configuration if and only if it completes a creation whose configuration has been deleted meanwhile |
| `StackBackend.NextKeepsIndexExactly` | image/store.go:106-242 | an event puts index and metadata out of step if and only if it sets a stored parent on an image whose configuration is gone |
| `StackBackend.BackendKeepsConfiguration` | image/store.go:130-228 | in every interleaving a stored configuration is still there if and only if every deletion of its image was followed by another store |
| `StackBackend.CreationKeepsConfigurationExactly` | image/store.go:130-165 | whatever happens between the two parts of a Create, the backend has the configuration of the new image if and only if every deletion of that identifier in between was followed by another store of it |
| `StackBackend.OrderlyRunKeepsBackend` | image/store.go:106-242 | in every run that deletes no image while a creation of it is pending, every image has its configuration, and a child is in the index if and only if its persisted parent says so |
| `StackBackend.OvertakenCreation` | image/store.go:130-165 | the condition is needed: a Create overtaken by a Delete of the same image leaves an image without configuration, and SetParent on it a child that no metadata knows of |
| `StackRestart.RestoreSucceedsExactly` | image/store.go:63-92 | in any state of any run, restore succeeds after a restart if and only if every configuration without an image finds its top layer |
| `StackRestart.StackRestartExactly` | image/store.go:63-104 | in any state of any run, restarting both stores succeeds with the same images if and only if the backend holds exactly their configurations, and with the same children if and only if moreover index and metadata agree |
| `StackRestart.RestartedStackRunsExactly` | image/store.go:63-104 | further runs may start from the restarted stores if and only if every persisted parent has its configuration, and then index and metadata agree |
| `StackRestart.RunIsMirrored` | image/store.go:106-242 | in every run of both stores the layer store can be restarted in full |
| `StackRestart.StackRestartRoundTrip` | image/store.go:63-104 | after any run that deletes no image while it is being created, in which every creation finds its layer and none is left pending, the restart gives back the same images with the same children, and further runs may start from it |
| `StackRestart.MissingLayerBlocksRestart` | image/store.go:130-151 | the condition is needed: a Create that fails because its top layer is missing leaves its configuration behind, and the next restore fails because of it |
| `ImageDeletion.UnusedConflictIsNotDangling` | daemon/image_delete.go:297-307 | in every state and for every mask, a conflict that is not about containers means that the image is not dangling |
| `ImageDeletion.ConflictExactly` | daemon/image_delete.go:349-397 | for every mask, there is a conflict if and only if the image has a child, a running container, a reference or a stopped container that the mask asks for, and it is the first of these |
| `ImageDeletion.QuietNeverConflicts` | daemon/image_delete.go:290-341 | a quiet imageDeleteHelper never returns a conflict, in any state of the stores |
| `ImageDeletion.DeleteNowRemoves` | daemon/image_delete.go:309-331 | deleting a childless image takes out exactly it and its references; no surviving image loses its parent or its layer |
| `ImageDeletion.DeleteNow` | daemon/image_delete.go:309-331 | a completed deletion leaves fewer images, which is why the prune recursion ends |
| `ImageDeletion.DeleteHelperIsSafe` | daemon/image_delete.go:290-341 | every image deleted has at that moment no child and no running container, and, unless it is the named image under force, no reference and no stopped container; each next one is the parent of the one before; exactly these images and their references go; a reported conflict means that nothing changed |
| `ImageDeletion.SecondCheckPasses` | daemon/image_delete.go:147-171 | after the references have been removed the second conflict check cannot find a conflict the first one let through |
| `ImageDeletion.DeleteByIDAllOrNothing` | daemon/image_delete.go:144-171 | deletion by identifier: a conflict and nothing changed, or the image and all references to it gone; with working storage nothing else; every deletion on the way is safe at its moment, and exactly these images go |
| `ImageDeletion.UnforcedKeepsReferences` | daemon/image_delete.go:335-341 | pruning removes no reference |
| `ImageDeletion.DeleteByReferenceIsSafe` | daemon/image_delete.go:73-143 | deletion by reference: a conflict and nothing changed, or the reference gone, with it only digest references of the same repository, references to other images untouched, and the image only if no reference to it is left; every deletion on the way is safe at its moment, and exactly these images go |
| `ImageDeleteExact.DeleteByIDConflictsExactly` | daemon/image_delete.go:144-171 | deletion by identifier is refused if and only if the image has a child or a running container, or, without force, a stopped container or references of several repositories or several tags |
| `ImageDeleteExact.DeleteByReferenceExactly` | daemon/image_delete.go:73-171 | deletion by reference is refused if and only if, without force, a container uses an image with this single reference; otherwise a digest reference goes along if and only if it is of the same repository and no other tag of it points at the image, and the image goes if and only if no reference is left and it has no child, no running container and, without force, no stopped one |
| `ImageDeleteExact.OrphanedExactly` | daemon/image_delete.go:106-136 | which digest references go with a tag, said with the references themselves |
| `ImageDeleteExact.PruneIsComplete` | daemon/image_delete.go:331-341 | with working storage pruning goes as far as it can: after the last image deleted there is no parent, or the parent is in conflict in the state that is left |
| `ImageDeleteExact.HelperRecords` | daemon/image_delete.go:290-341 | the records are the images deleted, in order, each followed by exactly the layers that left the store with it, from its top layer down |
| `ImageDeleteExact.DeleteByIDRecords` | daemon/image_delete.go:144-171 | the same of the records of a deletion by identifier; a conflict records nothing |
| `ImageDeleteExact.DeleteByReferenceRecords` | daemon/image_delete.go:73-171 | the same of the records of a deletion by reference |
| `ImageDaemons.IsSingleReference` | daemon/image_delete.go:176-197 | true if and only if there is a reference, all are of one repository and at most one is a tag |
| `ImageDaemons.SingleInListIsSingle` | daemon/image_delete.go:176-197 | the answer does not depend on the order in which the references are listed |
| `ImageDaemons.ImageDaemon.RemoveRefs` | daemon/image_delete.go:241-257 | removes and records exactly the listed references |
| `ImageDaemons.ImageDaemon.DeleteNow` | daemon/image_delete.go:309-331 | the specified deletion, recording the image, then the layers that went with it, and exactly the references dropped |
| `ImageDaemons.ImageDaemon.DeleteHelper` | daemon/image_delete.go:290-341 | the specified recursive deletion; the records list exactly what was deleted, in order, and exactly the references dropped |
| `ImageDaemons.ImageDaemon.DeleteByID` | daemon/image_delete.go:144-171 | the specified deletion by identifier, with exact records |
| `ImageDaemons.ImageDaemon.DigestsOf` | daemon/image_delete.go:109-131 | finds whether a tag of the repository is left, and lists exactly its digest references |
| `ImageDaemons.ImageDaemon.RemoveReference` | daemon/image_delete.go:90-135 | drops and records the reference, and the digest references that lose their last tag with it, which are those of OrphanedExactly |
| `ImageDaemons.ImageDaemon.DeleteByReference` | daemon/image_delete.go:73-143 | the specified deletion by reference, with exact records; when it conflicts and what goes is DeleteByReferenceExactly |
| `Manifests.KeptExactly` | distribution/pull_v2.go:826-838 | the entries kept are exactly the last ones of runs of equal identifiers |
| `Manifests.KeepLastIsKept` | distribution/pull_v2.go:826-838 | layers and history keep the entries at the same positions, so they stay aligned |
| `Manifests.KeptFormsAChain` | distribution/pull_v2.go:797-841 | what is kept is not empty, has pairwise distinct identifiers, and forms one parent chain that ends in an empty parent |
| `Manifests.FixIsIdempotent` | distribution/pull_v2.go:797-841 | a repaired manifest decodes to the kept images, is accepted by a second repair, and is not changed by it |
| `Manifests.Manifest.Verify` | distribution/pull_v2.go:763-793 | which manifests are accepted, and which of the four errors the others get |
| `Manifests.Manifest.Decode` | distribution/pull_v2.go:799-809 | decodes every entry, or fails exactly when some entry does not decode or has an invalid identifier |
| `Manifests.Manifest.CheckRepeats` | distribution/pull_v2.go:815-824 | succeeds if and only if no identifier occurs again after another one came between |
| `Manifests.Manifest.RemoveRepeats` | distribution/pull_v2.go:826-838 | deleting from both slices while going backwards leaves exactly the last entry of each run, and fails exactly on a broken parent link |
| `Manifests.Manifest.Fix` | distribution/pull_v2.go:797-841 | for every accepted manifest: it succeeds exactly on linked chains without split runs (and, except on Windows, with a parentless base), and then keeps the last entry of each run; which of the errors the others get is exact too |
| `Downloads.AttemptKeepsSync` | distribution/pull_v2.go:151-319 | a failed attempt leaves the verifier fed with exactly the bytes of the temporary file; a successful one returns content with the requested digest |
| `Downloads.OutcomeExactly` | distribution/pull_v2.go:151-293 | which attempts succeed and with what content, which are given up, and so which are retried, exactly, from the state of the file and what the attempt meets |
| `Downloads.OversizedStartsOver` | distribution/pull_v2.go:206-226 | a file larger than the blob is truncated: an attempt that then completes returns what was delivered alone, if it verifies |
| `Downloads.RetryKeepsBytes` | distribution/pull_v2.go:151-319 | what is left for the next attempt: nothing after a truncation, otherwise all bytes so far, in the file and in the verifier |
| `Downloads.FirstSuccessIsVerified` | distribution/pull_v2.go:151-319 | the same over any sequence of failed attempts before the first success |
| `Downloads.SeekFailureLosesSync` | distribution/pull_v2.go:165-177 | a failed seek in the temporary file loses this: a new file with the old verifier makes a correct blob fail |
| `Downloads.SeekFailureReturnsWrongContent` | distribution/pull_v2.go:165-177 | or, worse, makes an attempt succeed with content that does not have the requested digest |
| `Downloads.SeekFailureExactly` | distribution/pull_v2.go:165-177 | when the seek fails and the attempt does not succeed, exactly under which circumstances file and verifier stay in step |
| `Downloads.SeekFailureSuccess` | distribution/pull_v2.go:165-293 | when the seek fails, exactly when the attempt succeeds; if one content only has the digest, what it returns is that content if and only if nothing had been fed to the verifier |
| `Downloads.FixedBlobAlwaysVerifies` | distribution/pull_v2.go:151-319 | if the registry serves one fixed blob, the file is always a prefix of it, and a copy that completes, resumed or not, is accepted and returns the blob |
| `Downloads.FixedBlobArrives` | distribution/pull_v2.go:151-319 | over any sequence of attempts served from one blob, the first success returns that blob, and the first attempt whose copy completes is one |
| `Downloads.LayerDescriptor.TruncateDownloadFile` | distribution/pull_v2.go:304-319 | drops the verifier, and the bytes of the file if truncating works |
| `Downloads.LayerDescriptor.Download` | distribution/pull_v2.go:151-293 | the specified attempt, for every state of the descriptor and everything that can go wrong; its outcome is that of OutcomeExactly |
| `PushV1.MissingKeepsUploadable` | distribution/push_v1.go:236-262 | appending the unseen layers of a chain keeps parents first and every layer once, because the seen layers are closed under parent |
| `PushV1.TagKeepsUploadable` | distribution/push_v1.go:202-234 | appending the entries of one image keeps the list in upload order |
| `PushV1.SingleTagIsUploadable` | distribution/push_v1.go:146-156 | the list for a single tag is in upload order and has exactly the layers below the image |
| `PushV1.TagsOfExactly` | distribution/push_v1.go:171-178 | the tags of an image are exactly those of the associations that point at it, in their order |
| `PushV1.Pusher.GenerateDependencyImages` | distribution/push_v1.go:236-262 | yields the unseen layers of the chain, root first, and marks the whole chain as seen |
| `PushV1.Pusher.ImageListForTag` | distribution/push_v1.go:202-234 | the unseen layers below the top layer, then the image; fails exactly when the image or its top layer is unknown |
| `PushV1.GetImageList` | distribution/push_v1.go:140-200 | over all tags of a repository: fails exactly when nothing is tagged or something is unknown; otherwise every tagged image once, exactly the layers below them, each once, parents before children, and every image with all its tags in order |
| `PushV2.PrefixParent` | layer/layer.go:238-252 | the chain of the first n diffs has the chain of the first n-1 as its parent |
| `PushV2.StoredLayer` | distribution/push_v2.go:122-152 | a stored layer of an image has the diff and the parent its position in the image says |
| `PushV2.CollectDescriptors` | distribution/push_v2.go:145-152 | the walk from the top layer runs off the chain if and only if there are more diffs than layers, and otherwise reads the diffs of the layers, top first |
| `PushV2.ManifestFromBuilder` | distribution/push_v2.go:215-225 | the references are the descriptors in reverse; fails exactly when the builder refuses one |
| `PushV2.BuildManifest` | distribution/push_v2.go:122-225 | exactly when the top layer is missing, the walk runs off, or the builder refuses; otherwise the manifest lists the diffs of as many layers as the configuration has diffs, in order |
| `PushV2.ManifestListsDiffs` | distribution/push_v2.go:122-225 | these are the diffs of the configuration if and only if those are well-formed digests and the first is not the identifier of several of the layers; with well-formed digests the walk never runs off |
| `EventQueues.NextKeepsInv` | libcontainerd/queue_linux.go:10-29 | every step of every goroutine keeps the chain of channels in append order, per key |
| `EventQueues.OneAtATime` | libcontainerd/queue_linux.go:10-29 | two functions of one key never run at the same time |
| `EventQueues.FunctionsRunInAppendOrder` | libcontainerd/queue_linux.go:10-29 | in every interleaving, when a function starts, every function appended before it under its key has finished, and none of their steps comes later |
| `EventQueues.OldestIsEnabled` | libcontainerd/queue_linux.go:10-29 | the oldest unfinished function of a key can always take its next step |
| `EventQueues.QueueNeverDeadlocks` | libcontainerd/queue_linux.go:10-29 | while a function is unfinished, some function of its key that is not younger can go on |
| `EventQueues.QueueDrains` | libcontainerd/queue_linux.go:10-29 | every step without an append brings the end nearer, and a queue in which nothing can move is finished |
| `EventQueues.Queue.Append` | libcontainerd/queue_linux.go:10-29 | the new function waits for the channel it replaces, and the invariant is kept |
| `ImageFilters.ClosedHasDescendants` | daemon/list.go:606-613 | a set closed under children that has an image has all its descendants, so skipping marked images is sound |
| `ImageFilters.MarkedWithChildren` | daemon/list.go:607-611 | marking an image after its children makes the marked set exactly larger by its descendants, and closed again |
| `ImageFilters.Filter.PopulateChildren` | daemon/list.go:608-610 | marks exactly the descendants of the children |
| `ImageFilters.Filter.Populate` | daemon/list.go:606-613 | on an acyclic children relation the recursion ends and adds exactly the image and its descendants |
| `ImageFilters.Filter.PopulateAll` | daemon/list.go:272-290 | the filter is exactly the union of the descendants of the requested images |
| `Ports.LessIsTotal` | api/common.go:39-53 | of two different ports exactly one comes first |
| `Ports.LessTransitive` | api/common.go:39-53 | the order of ports is transitive |
| `Ports.LessExactly` | api/common.go:39-53 | the order is that of private port, then address, then public port, then protocol |
| `Ports.StringLessExactly` | api/common.go:44-52 | addresses and protocols are compared at the first character where they differ, a prefix coming first |
| `Ports.FormGroupInvertsKey` | api/common.go:102-118 | formGroup gives back address and protocol of a group key if and only if neither has a slash |
| `Ports.SinglePort` | api/common.go:69-100 | one port is shown as a host mapping if it is published at an address under another number, and otherwise, published or not, as a range of itself |
| `Ports.SlashIsReadAsAddress` | api/common.go:102-118 | a protocol with a slash is shown as an address and another protocol |
| `Ports.ShowAddsThePort` | api/common.go:69-94 | one pass of the loop adds exactly the port it handles to what the display stands for |
| `Ports.DisplayExpandsToPorts` | api/common.go:58-100 | reading ranges and host mappings back gives every port as often as it was given |
| `Ports.DisplayExpandsExactly` | api/common.go:58-118 | that holds for a list of ports if and only if no grouped port has a slash in its address or protocol |
| `Ports.RangesAreApart` | api/common.go:69-97 | with no port repeated, two ranges of one address and protocol are more than one port apart, lower one first |
| `Ports.RangesAreMaximal` | api/common.go:58-100 | with no port repeated, neither neighbour of a range was given, so ranges are maximal runs |
| `Ports.GroupPorts` | api/common.go:69-94 | the loop over the sorted ports computes the specified groups, closed ranges and host mappings |
| `Ports.CloseGroups` | api/common.go:95-98 | closes the open groups in the order in which their keys appeared |
| `Ports.DisplayablePorts` | api/common.go:58-100 | sorts the ports in place, as a permutation; the entries stand for exactly the given ports if and only if no grouped port has a slash; with no port repeated the ranges are maximal runs of the given ports |
| `EscapableCopy.MatchKeysIsExact` | container/container.go:493-507 | the key loop preserves exactly what it reads until a key fails to match, or has read exactly the remaining keys, one per read |
| `EscapableCopy.CopyIsExact` | container/container.go:485-537 | however the input is cut into reads: without a detach exactly the bytes up to the first error or the end are written, in order; on detach exactly the keys are left out and nothing else |
| `EscapableCopy.TypedKeysDetach` | container/container.go:493-507 | keys that arrive one per read at the start of a chunk always detach |
| `EscapableCopy.DetachesExactly` | container/container.go:485-537 | the copy detaches if and only if the keys arrive, one per read, where a chunk begins |
| `EscapableCopy.KeysAfterPartialMatch` | container/container.go:493-507 | keys typed right after a failed match do not detach |
| `EscapableCopy.MatchLoop` | container/container.go:493-507 | the loop over the keys does what the specification says, and closes the source exactly on detach |
| `EscapableCopy.CopyChunk` | container/container.go:491-535 | one pass writes a chunk of the specified output and goes on with the rest of the input, or ends |
| `EscapableCopy.CopyEscapable` | container/container.go:485-537 | with a writer that does not fail, output, count and ending are the specified ones for the keys given, or for ctrl-p ctrl-q if none are given; it detaches if and only if these keys arrive, one per read, where a chunk begins; with any writer, what is written is a prefix of that and is counted; a detach returns a count of zero |

## Left out

- Graph driver, tar streams, compression, digest computation and file access: parameters that say what they yield or that they fail.
- Clean-up on the driver's side after a failed registration or mount, and temporary metadata transactions: nothing is stated about them.
- Layers are named by their ChainID, not by pointer; the invariant that a counted layer is always in `layerMap` makes the two the same.
- `CreateRWLayerByGraphID`: it repeats the mount creation for a directory that exists already.
- LayerStores.LayerStore.Restore: metadata that cannot be read stays unreadable during the whole restart, and metadata that can be read is filed under its chain identifier, as the store files it.
- ImageNames.ImageDiffsExactly: the diffs of stored layers are digests of tar streams, as registration computes them; a migration is given its diff by the caller.
- LayerStores.LayerStore.ReleaseLayer: a removal that fails leaves the entry and its metadata as they were, as if the driver and the metadata store failed before changing anything.
- LayerStores.LayerStore.Register: the depth limit, the work and the commit of one registration are shown without interference; interference is covered by `LayerRuns.NextKeepsInv`.
- ImageStores.ImageStore.SetParent: the theorems about runs are about stored images and metadata writes that fail only for a missing configuration; on an image that is not stored the code leaves a residue in the index.
- ImageStores.ImageStore.Restore: the digest set accepts every identifier.
- StorageStack.StackNextKeepsInv: backend deletions succeed. SetParent and Delete are one event each: they hold the lock of the image store, and the unlocked steps that can run beside them (storing a configuration, layer operations) may be moved before or after them.
- ImageDaemons.ImageDaemon.DeleteHelper: other image operations do not interleave with a deletion (layer operations in flight do); the reference store never fails; references keep the name they are stored under.
- Parsing of image names and identifier prefixes, and the order of untagging records within one image.
- Downloads.LayerDescriptor.Download: writes to the temporary file succeed; progress output and cancellation are not modelled; which errors of the registry are final is a parameter.
- PushV1.GetImageList: the upload itself and the release of the referenced layers afterwards.
- PushV2.BuildManifest: the upload of blobs, and the fallback from schema 2 to schema 1, which runs the same code again.
- Ports.DisplayablePorts: the text of an entry and the joining of entries; `sort.Sort` is given by what it leaves in the slice.
- EscapableCopy.CopyEscapable: the size of the read buffer, and the branch for an empty preserved chunk, which is never taken.
- `linkIndex`, `State.WaitStop`, health monitoring, networking, command line, registry protocol, stats, and the Windows and Solaris variants.
