# mSL-SysFS: a verified model of the kext core

This project models, in Dafny, the parts of the sysfs kernel extension whose correctness does
not show in any one function, and proves what they promise.

* **The node cache** (`NodeCache*.dfy`): find-or-create over a hash table whose lock is dropped
  three times in the middle, with sleeping waiters, failing creators and concurrent reclaim. Any
  number of calls interleave; one step is one critical section. `NodeCacheCode` is the same
  critical sections as code on a table, each proved to be the step the theorems are about.
  `NodeCacheOutcomes` says when a call fails, `NodeCacheProgress` that calls can succeed.
* **The IORegistry snapshot** (`Registry`, `SnapshotIndex`, `SnapshotBuild`, `SnapshotChildren`,
  `ChildLists`, `SnapshotTree`, `SnapshotMake`, `Snapshot`, `SnapshotPath`, `Names`, `DevicePath`,
  `Growth`, `ClassListing`, `RegistryListing`): the open-addressing index, the counting sort into child ranges and the precomputed
  name ordinals, as loops on arrays, against the plain meaning of a registry walk; display names
  and device paths, and when they lead back; and what device and class directories list, said on the
  walk itself.
* **The refresh machine** (`Refresh*.dfy`): the published snapshot, the flags, the generation, the
  rate limit, prime and teardown, with concurrent readers and a registry that changes in the middle
  of a walk. `RefreshCode` is its critical sections as code on the globals; `RefreshFirst`,
  `RefreshGrowth`, `RefreshAges`, `RefreshPaths`, `RefreshTruncation` and `RefreshLeak` say what the
  first snapshot holds, how snapshots grow and age, when one can be replaced, and show the runs in
  which a promise fails.
* **The static tree** (`ReleaseOrder`, `StructureMemory`, `Planting`, `Layout`, `StructureBuild`,
  `StructureLife`): building it node by node, just as laid out in one table (`Layout.SysTree`), and
  freeing it with a bounded stack.
* **Directories** (`Dirents`, `Directories`, `Readdir`, `Lookup`, `LookupCode`, `LinkTarget`,
  `ClassLinks`, `MountPaths`): the four resumable listings, name lookup, the targets of class
  symlinks, the way from a listed class member to its device, and the fixed paths of a mount.

The kernel around the kext is nondeterministic: VFS, `OSMalloc`, `msleep`, `thread_call`, the
clock, the registry iterator and the allocator appear as arguments of a step or of a method. The
registry walk is a sequence of (id, parent id, name, class, flags) records; the list of loaded
kernel extensions is a sequence of (name, load tag) pairs.

Four assumptions are about that environment. A vnode with an iocount is not reclaimed, and
`vnode_getwithvid` succeeds only for the same live incarnation. Every registry change bumps the
generation count, and an iterator over a registry that has not changed yields the registry. The
registry iterator can always be created. No filesystem operation and no prime runs during teardown.

## What turned out not to hold

Where the code does not do what its comments say, the model follows the code; the exact condition
under which the promise holds is proved beside a counterexample.

* Display names are meant to be unique. "foo", "foo", "foo@1" collide
  (`Names.DisplayNamesCanCollide`); they are distinct exactly when no sibling's name is another's
  followed by "@" and an ordinal that is in use (`Names.DistinctIffNoCollision`).
* Paths keep at most 64 components, so an entry 65 or more deep loses its top
  (`DevicePath.DeepPathIsLost`); a path leads back exactly when the entry is not that deep and no
  earlier sibling, of it or of an entry above it, is stored under the name the other gets by its
  suffix (`DevicePath.PathRoundTrip`).
* A truncated snapshot is said not to stay short for good, because the next build starts from a
  doubled estimate. The doubled estimate is overwritten when the build is published, and never sizes
  a build (`RefreshTheorems.SizedFromPublished`). And there is no next build while the registry does
  not change: sysfs_snap_ensure() returns as soon as the recorded generation is current. A snapshot
  with room for 66 nodes is published for any chain of 66 entries or more (`RefreshTruncation.TruncationHappens`),
  and it stays published until the registry changes, teardown takes it, or a vnode operation comes
  with a sample older than the last change (`RefreshTruncation.StaysPublished`, `OlderSampleReplaces`).
  Without such a sample, a published snapshot can be replaced exactly when it is of another
  generation or a refresh is already under way (`RefreshTruncation.ReplaceableIff`). When publications
  do keep coming and each has seen the same registry, which fits the cap, the snapshot is complete
  after 253 of them at the latest, 254 if there was none (`RefreshGrowth.CompleteAfterPublications`).
* Teardown cancels a queued refresh and then waits for `g_building`, which only that refresh would
  have cleared: it then waits forever (`RefreshTheorems.CancelStrandsIff`, `StuckForever`,
  `TeardownCanStick`).
* A build that cannot allocate all three arrays strands those it got. After teardown every array is
  freed exactly when no build failed with one or two in hand (`RefreshTheorems.BytesConserved`); a
  run in which one does is `RefreshLeak.ArraysCanBeLost`.
* `sysfs_is_class_dir()` also holds of every `cpuN` and its `topology` for N >= 1
  (`StructureLife.Init`). They list the members of class N, none of which can be looked up
  (`Lookup.CpuDirectoriesAreOpaque`).
* ".." from a device leads back to where it was listed exactly when its parent was recorded; an
  orphan is listed under the root and names a parent that is not there
  (`Lookup.DotDotLeadsBackIff`, `OrphanDoesNotLeadBack`).
* A name is listed with the type of the node it is looked up to, except where listing cannot tell: a
  symlink or module node put into devices would be listed as a file (`Lookup.TypesAgreeIff`). The tree a mount builds has no such node (`MountPaths.TypesAgreeOnMount`).

## Model

| member | source | states |
|---|---|---|
| `NodeCacheTheorems.StepKeepsInv` | kext/sysfs_node.c:97-363 | every step of every interleaving of any number of calls, create failures and reclaims keeps the cache invariant |
| `NodeCacheTheorems.IdentityIsUnique` | kext/sysfs_node.c:118-339 | in every reachable state no two table nodes have one (mount id, node id), and each node is in the bucket its id hashes to |
| `NodeCacheTheorems.ResultIsRight` | kext/sysfs_node.c:238-280 | a successful call holds an iocount on a live vnode linked to a table node of the identity it asked for |
| `NodeCacheTheorems.OneVnodePerIdentity` | kext/sysfs_node.c:289-338 | two callers holding results for one identity hold the same node and vnode |
| `NodeCacheTheorems.AttachedOrAttaching` | kext/sysfs_node.c:282-328 | with the mutex free a table node has a vnode or exactly one attaching call, never both, never neither |
| `NodeCacheTheorems.WakeupIsNotLost` | kext/sysfs_node.c:219-314 | a sleeper sleeps on an attaching table node with its waiting flag set; if the attaching call is back from the create callback its next critical section wakes the sleeper, and if not, that is so after whatever outcome it comes back with |
| `NodeCacheTheorems.NodesAreConserved` | kext/sysfs_node.c:151-204 | live counter = table size; every allocated node is in the table or the spare of exactly one call; no exit leaks or frees twice; freed memory is never touched |
| `NodeCacheOutcomes.ErrorIffRefused` | kext/sysfs_node.c:97-363 | over every run, a call that has returned has failed exactly when the last answer the kernel gave it was a refusal: of memory, and then with ENOMEM, or of a vnode, and then with that error |
| `NodeCacheOutcomes.StepCarries` | kext/sysfs_node.c:144-363 | every step keeps it that a call carries the error of its last answer once it is on its way out, and is still going on only if that answer was no refusal |
| `NodeCacheProgress.CallsCanSucceed` | kext/sysfs_node.c:97-363 | every run that ends with an identity not cached can go on so that a new call for it returns error 0 with a new vnode, and a second call then the same vnode |
| `NodeCacheProgress.FirstCallsCanSucceed` | kext/sysfs_node.c:97-363 | so it is for every identity from every initial state |
| `NodeCacheTable.FindDecides` | kext/sysfs_node.c:131-142 | the bucket walk finds a node exactly when the table has one of that identity |
| `NodeCacheTable.LiveIsTableSize` | kext/sysfs_node.c:200-202 | the total length of the buckets is the number of table nodes |
| `NodeCacheProtocol.GetVnodeOk` | kext/sysfs_node.c:249-280 | a granted iocount keeps the protocol invariant |
| `NodeCacheSteps.InsertOk` | kext/sysfs_node.c:186-204 | inserting the spare keeps the protocol invariant |
| `NodeCacheSteps.SleepStepOk` | kext/sysfs_node.c:219-236 | going to sleep keeps the protocol invariant |
| `NodeCacheSteps.LinkVnodeOk` | kext/sysfs_node.c:331-338 | linking the created vnode keeps the protocol invariant |
| `NodeCacheSteps.AbandonOk` | kext/sysfs_node.c:316-329 | abandoning a node whose vnode could not be created keeps the protocol invariant |
| `NodeCacheSteps.ReclaimOk` | kext/sysfs_vnops.c:1286-1318 | reclaim keeps the protocol invariant |
| `NodeCacheCode.NodeTable.constructor` | kext/sysfs_node.c:64-76 | the empty table satisfies the invariant |
| `NodeCacheCode.NodeTable.FindNode` | kext/sysfs_node.c:129-142 | the loop over a bucket is the search of the transition system |
| `NodeCacheCode.NodeTable.FreeNode` | kext/sysfs_node.c:370-376 | unlinking and freeing is the step of the transition system |
| `NodeCacheCode.NodeTable.Insert` | kext/sysfs_node.c:186-204 | the spare joins the table: it is the one node more, in the bucket its identity hashes to, the counter still counts the table, and a search for the identity now finds it |
| `NodeCacheCode.NodeTable.LoopTop` | kext/sysfs_node.c:121-295 | from the loop top to the release of the mutex, by way of search, insertion, and sleeping, getting the vnode or attaching, the code is the step of the transition system, of which `ErrorIffRefused` and `CallsCanSucceed` say when a call may fail and that it can succeed; and it keeps the invariant |
| `NodeCacheCode.NodeTable.RetryAfterGet` | kext/sysfs_node.c:250-271 | the critical section after a failed get is the step, and keeps the invariant |
| `NodeCacheCode.NodeTable.EndAttach` | kext/sysfs_node.c:302-314 | clearing the flags wakes every sleeper on the node |
| `NodeCacheCode.NodeTable.FinishCreate` | kext/sysfs_node.c:297-339 | the critical section after the create callback is the step, and keeps the invariant |
| `NodeCacheCode.NodeTable.Leave` | kext/sysfs_node.c:341-363 | leaving frees an unused spare, once, and keeps the invariant |
| `NodeCacheCode.NodeTable.Reclaim` | kext/sysfs_vnops.c:1286-1306 | reclaim's critical section is the step, and keeps the invariant |
| `SnapshotIndex.Find` | kext/sysfs_iokit.cpp:320-338 | linear probing answers what the map says; an absent id gives NONE |
| `SnapshotIndex.Insert` | kext/sysfs_iokit.cpp:301-317 | probing to an empty slot adds the pair to the map; a present id stays |
| `SnapshotIndex.FillRepresents` | kext/sysfs_iokit.cpp:301-317 | filling the first empty slot of a probe keeps every other id findable |
| `SnapshotBuild.LoadFactor` | kext/sysfs_iokit.cpp:490-494 | at most half the slots are taken, so an empty one always exists |
| `SnapshotBuild.RecordEntry` | kext/sysfs_iokit.cpp:529-590 | one entry is recorded just if its id is not 0 and not there yet |
| `SnapshotBuild.Walk` | kext/sysfs_iokit.cpp:516-594 | the table holds the root and the first occurrences of non-zero ids in walk order, up to its capacity, and the index represents it |
| `Registry.NodeOf` | kext/sysfs_iokit.cpp:543-588 | names fit their fields; what exactly is stored is said by `ClassListing.Stored` |
| `ClassListing.Stored` | kext/sysfs_iokit.cpp:543-588 | an entry keeps its ids and 127 characters of its name, or "unknown"; it is a member of a class just if it is of that kind and has a device name or is a power source, of whole disks just if it is a whole block device; its device name is the BSD name cut at 31 characters, or a power source's entry name |
| `ClassListing.MembersAreListed` | kext/sysfs_iokit.cpp:1014-1050 | the members of a class a snapshot of a walk lists are the recorded entries of the walk that belong to it, in walk order, with their device names and ids |
| `ClassListing.ClassListsWalk` | kext/sysfs_vnops.c:930-996 | a class directory lists, after "." and "..", a symlink for each of them and nothing else |
| `RegistryListing.ChildrenAreListed` | kext/sysfs_iokit.cpp:606-695 | the root and every recorded entry have as children exactly the recorded entries of the walk that name them as parent, and the root those whose parent was not recorded, in walk order, numbered "@k" from the second of a name on; none if the child lists could not be built |
| `RegistryListing.DeviceListsWalk` | kext/sysfs_vnops.c:808-922 | a device directory lists "." and ".." with its own id, then its attribute, or the static entries of devices, and then a directory for each of those children |
| `Registry.RecordedDistinct` | kext/sysfs_iokit.cpp:533-535 | the ids of a recorded table are distinct, the root's first |
| `Registry.TableIds` | kext/sysfs_iokit.cpp:528-591 | the table carries exactly the ids the walk has met, and 0 |
| `Registry.IndexMapInverts` | kext/sysfs_iokit.cpp:320-338 | looking up the id of node i gives i |
| `Registry.OrdinalInList` | kext/sysfs_iokit.cpp:681-695 | a node's ordinal is the number of equal names before it in its parent's list |
| `SnapshotChildren.CountChildren` | kext/sysfs_iokit.cpp:622-629 | the counts are the numbers of children, orphans counted under the root |
| `SnapshotChildren.TotalChildren` | kext/sysfs_iokit.cpp:631-641 | the total is one less than the number of nodes, so the abort is unreachable |
| `SnapshotChildren.AssignRanges` | kext/sysfs_iokit.cpp:643-649 | every node's range starts where the ranges before it end |
| `SnapshotChildren.FillChildren` | kext/sysfs_iokit.cpp:651-671 | every child is placed in its parent's range at its rank; no write leaves the array |
| `ChildLists.RangeIsChildren` | kext/sysfs_iokit.cpp:643-671 | a node's range lists exactly its children, in walk order |
| `ChildLists.ArrayIsPermutation` | kext/sysfs_iokit.cpp:663-670 | every position of the child array holds a node, at that node's place |
| `ChildLists.ArrayIsBijection` | kext/sysfs_iokit.cpp:663-670 | the child array is a permutation of the nodes 1..count-1 |
| `SnapshotTree.CountSameName` | kext/sysfs_iokit.cpp:686-692 | the inner loop counts the earlier siblings of the same name |
| `SnapshotTree.AssignOrdinals` | kext/sysfs_iokit.cpp:681-695 | every stored ordinal is the number of earlier siblings of the same stored name |
| `SnapshotMake.LinkChildren` | kext/sysfs_iokit.cpp:606-695 | child lists and ordinals are right, or the tree is childless if scratch memory was missing; the abort is never taken |
| `SnapshotMake.Build` | kext/sysfs_iokit.cpp:463-701 | a build gives the recorded table at the chosen capacity with index, child lists and ordinals, or nothing just if an array could not be allocated; the first build, counting what it then walks, records every node, or the first 16384 |
| `Snapshot.DropChildren` | kext/sysfs_iokit.cpp:613-617 | only the links change, and no node has children |
| `Snapshot.Snapshot.constructor` | kext/sysfs_iokit.cpp:463-701 | a finished snapshot is valid |
| `Snapshot.Snapshot.IndexOf` | kext/sysfs_iokit.cpp:320-338 | the index of an id, or NONE just if it was not recorded |
| `Snapshot.Snapshot.Parent` | kext/sysfs_iokit.cpp:989-1012 | the parent id as recorded, captured or not |
| `Snapshot.Snapshot.ChildDisplay` | kext/sysfs_iokit.cpp:819-838 | the index-th child of the plain tree under its display name |
| `Snapshot.Snapshot.ChildAt` | kext/sysfs_iokit.cpp:941-957 | the same, by the id of the parent |
| `Snapshot.Snapshot.ChildNamed` | kext/sysfs_iokit.cpp:959-987 | the first child of that display name in the plain tree |
| `Snapshot.FullDisplay` | kext/sysfs_iokit.cpp:972-982 | no display name is cut in either caller's buffer |
| `Snapshot.Snapshot.ClassChildAt` | kext/sysfs_iokit.cpp:1014-1050 | the index-th member of the class in table order |
| `Snapshot.Snapshot.ClassChildNamed` | kext/sysfs_iokit.cpp:1052-1080 | the first member of that device name |
| `SnapshotPath.ClimbUp` | kext/sysfs_iokit.cpp:1100-1108 | the indices on the way up, through the hash, at most 64 |
| `SnapshotPath.Render` | kext/sysfs_iokit.cpp:1110-1129 | the names joined top down, whole or not at all |
| `SnapshotPath.Path` | kext/sysfs_iokit.cpp:1082-1130 | the path of an entry, orphans included, and nothing for an unknown id or a short buffer |
| `SnapshotPath.PathAtIsPathOf` | kext/sysfs_iokit.cpp:1114-1119 | with child lists built, the stored ordinals spell the display names |
| `Names.DistinctIffNoCollision` | kext/sysfs_iokit.cpp:830-835 | sibling display names are distinct exactly when no name is another's with "@" and an ordinal in use |
| `Names.DisplayNamesCanCollide` | kext/sysfs_iokit.cpp:830-835 | "foo", "foo", "foo@1" collide |
| `Names.DisplayFits` | kext/sysfs_iokit.cpp:972-975 | a display name fits 144 and 256 bytes |
| `Names.DecimalReadsBack` | kext/sysfs_iokit.cpp:834-834 | the decimal of a number, read digit by digit, is the number again |
| `DevicePath.ChildNamedInverts` | kext/sysfs_iokit.cpp:942-987 | looking up every listed name finds the child it was listed for, exactly when names do not collide |
| `DevicePath.ComponentsResolveBack` | kext/sysfs_iokit.cpp:1100-1126 | the names met climbing from a node lead back to it exactly when the climb reaches the root and no earlier sibling on the way is stored under the name the other gets by its suffix |
| `DevicePath.FoundIffNotHidden` | kext/sysfs_iokit.cpp:959-987 | a node is found by its display name exactly when no earlier sibling takes that name: one of the two is stored under what the other gets by its ordinal |
| `DevicePath.NoCollisionNoShadow` | kext/sysfs_iokit.cpp:830-835 | without collisions nothing is shadowed |
| `DevicePath.PathRoundTrip` | kext/sysfs_iokit.cpp:1082-1130 | a rendered path, cut at its slashes and walked from the root, leads back under exactly those conditions |
| `DevicePath.DeepPathIsLost` | kext/sysfs_iokit.cpp:1105-1108 | in the table recorded for any chain of entries up to the cap, the last is found by its path exactly when the chain has at most 64 entries |
| `DevicePath.SplitJoin` | kext/sysfs_iokit.cpp:1114-1119 | cutting a joined path gives back slash-free names |
| `Growth.Capacity` | kext/sysfs_iokit.cpp:484-488 | a capacity exceeds its estimate, up to the cap |
| `Growth.SizeInNumbers` | kext/sysfs_iokit.cpp:481-488 | a build has room for n + n/4 + 65 nodes, at most 16384, n being the last node count, or the entries counted up to 16384 |
| `Growth.RoomyRecordsAll` | kext/sysfs_iokit.cpp:344-357 | room for one node more than there are entries, or for 16384, is enough to record every node, or the first 16384 |
| `Growth.HashSize` | kext/sysfs_iokit.cpp:490-494 | the smallest power of two from 16 that is at least twice the capacity |
| `Growth.LaterGrows` | kext/sysfs_iokit.cpp:481-488 | builds of one registry, each sized by the node count of the one before, record all of it or 65 nodes more every time |
| `Growth.CompleteInTheEnd` | kext/sysfs_iokit.cpp:481-488 | so they record all of a registry of at most 16384 nodes once 65 per build make up for the rest |
| `RefreshTheorems.StepKeepsInv` | kext/sysfs_iokit.cpp:715-923 | every step of every interleaving of refreshes, vnode operations, readers, prime, teardown, registry changes and time keeps the invariant |
| `RefreshTheorems.OneRefreshAtATime` | kext/sysfs_iokit.cpp:803-811 | at most one refresh is scheduled, queued or running before its publication, and `g_building` is set while one is |
| `RefreshTheorems.NothingFreedIsUsed` | kext/sysfs_iokit.cpp:707-748 | neither the published snapshot, nor a reader's, nor one about to be freed has been freed |
| `RefreshTheorems.TeardownIsSafe` | kext/sysfs_iokit.cpp:878-923 | the lock is there for every publication, and teardown passes its wait only with no refresh in flight |
| `RefreshTheorems.CacheCoherence` | kext/sysfs_iokit.cpp:719-739 | a published snapshot of the current generation holds what a fresh walk would record at its capacity |
| `RefreshTheorems.PublicationsAreSpaced` | kext/sysfs_iokit.cpp:791-801 | two publications that install a snapshot, with no teardown between them, are at least 30_000_000_000 ns apart |
| `RefreshTheorems.EnsureSchedules` | kext/sysfs_iokit.cpp:766-811 | after ensure a refresh is in flight exactly when one was, or there is no snapshot, or its recorded generation is another, its date over 2_000_000_000 ns ago and the last build 30_000_000_000 ns ago or more |
| `RefreshAges.EnsureGoesByAge` | kext/sysfs_iokit.cpp:766-811 | over every run, that generation is the one the published snapshot's refresh sampled, that date the time its walk ended, and that last build the time it was published |
| `RefreshTheorems.BytesConserved` | kext/sysfs_iokit.cpp:267-290 | the byte counter is the sum over unfreed snapshots; after teardown and the last free it is 0, and every array is freed just if no allocation failed with one or two arrays in hand |
| `RefreshTheorems.SizedFromPublished` | kext/sysfs_iokit.cpp:481-488 | over every run, a build has room for n + n/4 + 65 nodes, at most 16384, n being the published snapshot's node count, or the entries counted up to 16384 if there is none; never for a doubled estimate |
| `RefreshFirst.FirstIsComplete` | kext/sysfs_iokit.cpp:463-604 | over every run, a publication that finds no snapshot and sampled the generation still current publishes every node of the registry, or the first 16384 |
| `RefreshFirst.StepKeepsRoomy` | kext/sysfs_iokit.cpp:481-488 | every step keeps it that a build with nothing published to replace, and a current sample, has room for the whole registry |
| `RefreshGrowth.StepKeepsFitted` | kext/sysfs_iokit.cpp:481-511 | every step keeps finished tables non-empty and the table being built sized to replace the published one |
| `RefreshGrowth.TableAfterInstalls` | kext/sysfs_iokit.cpp:715-748 | over a run without teardown whose publications saw one registry, what is published is the table of that many builds in a row |
| `RefreshGrowth.CompleteAfterPublications` | kext/sysfs_iokit.cpp:594-604 | after 253 such publications, or 254 without a snapshot to begin with, a registry that fits the cap is published whole |
| `RefreshGrowth.NextBuildIsLarger` | kext/sysfs_iokit.cpp:594-604 | a build that is to replace a published table has room for more nodes than it, up to the cap |
| `RefreshPaths.Arrives` | kext/sysfs_iokit.cpp:715-748 | a refresh that has not failed can always be brought to its publication with the registry unchanged; if it saw the current generation it publishes the registry at its capacity |
| `RefreshTruncation.StaysPublished` | kext/sysfs_iokit.cpp:776-782 | over every run, a snapshot of the current generation stays published until a registry change, a teardown, or an ensure with an older sample |
| `RefreshTruncation.ReplaceableIff` | kext/sysfs_iokit.cpp:776-811 | with the registry unchanged and samples current, a published snapshot can be replaced exactly when it is of another generation or a refresh is under way; being truncated is no reason |
| `RefreshTruncation.OlderSampleReplaces` | kext/sysfs_iokit.cpp:772-782 | an ensure that sampled an older generation can have a current snapshot replaced, by the table of the next larger build |
| `RefreshTruncation.TruncationHappens` | kext/sysfs_iokit.cpp:596-600 | for any chain of 66 to 16383 entries, a run that leaves a truncated snapshot of the current registry published for good |
| `RefreshLeak.ArraysCanBeLost` | kext/sysfs_iokit.cpp:496-511 | a run that ends with teardown over, every refresh over, and one or two arrays still allocated |
| `RefreshTheorems.CancelStrandsIff` | kext/sysfs_iokit.cpp:890-899 | teardown is stranded exactly when it cancels a queued refresh |
| `RefreshTheorems.StuckForever` | kext/sysfs_iokit.cpp:894-896 | a stranded teardown never gets past its wait |
| `RefreshTheorems.TeardownCanStick` | kext/sysfs_iokit.cpp:803-809 | a run that strands teardown |
| `RefreshControl.StepKeepsControl` | kext/sysfs_iokit.cpp:715-923 | every step keeps the exclusion, flag and lock-lifetime invariant |
| `RefreshOwners.StepKeepsAccounts` | kext/sysfs_iokit.cpp:267-290 | every step keeps each unfreed snapshot with exactly one owner, and the counters right |
| `RefreshCoherence.StepKeepsCoherent` | kext/sysfs_iokit.cpp:719-734 | every step keeps what was seen since the sampled generation a prefix of the registry |
| `RefreshCoherence.StoppedWalk` | kext/sysfs_iokit.cpp:528-594 | a walk that stopped at the end or at a full table recorded what the whole registry records |
| `RefreshTiming.StepKeepsPaced` | kext/sysfs_iokit.cpp:791-801 | every step keeps publications apart |
| `RefreshTiming.StepKeepsSizing` | kext/sysfs_iokit.cpp:736-736 | outside the stretch from a build's end to its publication, the estimate is the published node count |
| `RefreshCode.SnapshotGlobals.constructor` | kext/sysfs_iokit.cpp:196-231 | all globals start cleared |
| `RefreshCode.SnapshotGlobals.PublishLocked` | kext/sysfs_iokit.cpp:724-744 | from a reachable state, the globals end up as the machine's step says and its invariant holds: what is published belongs to the globals, what it replaced to the publishing refresh |
| `RefreshCode.SnapshotGlobals.EnsureLocked` | kext/sysfs_iokit.cpp:774-811 | the globals end up as the machine's step says and its invariant holds; the caller enters the thread call just if its refresh is now in flight, and then no other is |
| `RefreshCode.SnapshotGlobals.PrimeLocked` | kext/sysfs_iokit.cpp:866-871 | the globals end up as the machine's step says and its invariant holds; the caller builds just if its refresh is now in flight, and leaves just if there is a snapshot or another refresh is in flight |
| `RefreshCode.SnapshotGlobals.TakeLocked` | kext/sysfs_iokit.cpp:903-918 | the globals end up as the machine's step says and its invariant holds; teardown is left the one owner of what it took, no refresh holds it, and none is in flight |
| `ReleaseOrder.ReleaseIsCompleteIff` | kext/sysfs_structure.c:460-525 | no node is freed twice; every node is freed exactly once just if the tree's peak fits the stack |
| `ReleaseOrder.DrainFreesAllIff` | kext/sysfs_structure.c:492-525 | the same for any stack of trees |
| `ReleaseOrder.DrainFreesOnce` | kext/sysfs_structure.c:492-525 | nothing is freed more often than it occurs |
| `StructureMemory.Memory.constructor` | kext/sysfs_structure.c:66-71 | the nodes in memory |
| `StructureMemory.Memory.DetachFirst` | kext/sysfs_structure.c:501-503 | the first child leaves the list and forgets its parent |
| `StructureMemory.Memory.Free` | kext/sysfs_structure.c:521-524 | frees an allocated node |
| `StructureMemory.Memory.PushChildren` | kext/sysfs_structure.c:500-519 | the children move to the stack while there is room; nothing else changes but their parent links |
| `StructureMemory.Memory.FreeTop` | kext/sysfs_structure.c:492-525 | one round frees the top and leaves its children in its place |
| `StructureMemory.Memory.DrainStack` | kext/sysfs_structure.c:490-525 | the loop frees in the order of the drained stack |
| `StructureMemory.Memory.Detach` | kext/sysfs_structure.c:485-488 | the root leaves its parent's list |
| `StructureMemory.Memory.ReleaseNode` | kext/sysfs_structure.c:460-525 | frees exactly the drained nodes, touches only allocated ones, and leaves everything outside the tree alone |
| `Planting.PlantLeaf` | kext/sysfs_structure.c:375-415 | appending a leaf keeps the tree well linked, the dynamic flag inherited, and within its stack budget |
| `Planting.WholeTree` | kext/sysfs_structure.c:375-415 | the tree from the root has every node exactly once and peaks within the root's budget |
| `Layout.Append` | kext/sysfs_structure.c:375-415 | a directory that looks as laid out, and gets one more child that does, looks like the layout with that child at its end |
| `StructureBuild.Builder.constructor` | kext/sysfs_structure.c:101-106 | the root with its "." and ".." |
| `StructureBuild.Builder.AddNode` | kext/sysfs_structure.c:375-415 | one node at the tail of its parent's list, with the next id and the inherited flag; nothing else changes |
| `StructureBuild.Builder.SetInstance` | kext/sysfs_structure.c:279-279 | sets the instance and nothing else |
| `StructureBuild.Builder.AddDirectory` | kext/sysfs_structure.c:423-440 | a directory with its "." and ".." |
| `StructureBuild.Builder.AddClass` | kext/sysfs_structure.c:163-172 | a class directory with its class, its "." and "..", and then its one symlink marker, as laid out |
| `StructureBuild.Builder.AddEachClass` | kext/sysfs_structure.c:162-172 | the class directories of the table, in order, as laid out |
| `StructureBuild.Builder.AddCpu` | kext/sysfs_structure.c:277-300 | cpuN and its topology, both dynamic and numbered N, without a marker, with their files as laid out |
| `StructureBuild.Builder.AddEachCpu` | kext/sysfs_structure.c:272-301 | one cpuN per CPU, at most 64 |
| `StructureBuild.Builder.AddFront` | kext/sysfs_structure.c:137-179 | the first top-level directories and all below them are as laid out; the class directories among them are block and the four of class, each with its marker |
| `StructureBuild.Builder.AddDevices` | kext/sysfs_structure.c:189-301 | devices with system as its one static child, and node0 and every cpuN with their files below it, as laid out; no class directories there but those of the CPUs |
| `StructureBuild.Builder.AddBack` | kext/sysfs_structure.c:303-345 | the last top-level directories, module with its marker and kernel with mm and its counters among them, are as laid out; no class directories among them |
| `StructureLife.Init` | kext/sysfs_structure.c:94-347 | for every CPU count the tree is exactly the layout: names, types, flags, instances and order, directory by directory; the exact set of directories `sysfs_is_class_dir()` holds of; the first child of the root named devices is the device node |
| `StructureLife.InitAndFree` | kext/sysfs_structure.c:354-365 | for every CPU count, init followed by free leaves no node allocated |
| `StructureLife.BaseIdsDiffer` | kext/sysfs_structure.c:66-66 | base ids of one build differ as long as the 16-bit counter does not wrap |
| `MountPaths.PathsAreLaidOut` | kext/sysfs_structure.c:94-347 | for every path, the tree has it just if the layout has it, and then what is there looks as laid out |
| `MountPaths.CpuIsLaidOut` | kext/sysfs_structure.c:272-301 | the layout has "cpu" followed by its number for every CPU up to 64, with its files and topology |
| `MountPaths.ModuleDirectory` | kext/sysfs_structure.c:316-319 | in the tree of a mount /sys/module lists, after the dots, exactly the loaded modules in order, and resolves a name to the directory of the first module of that name, and no other name |
| `MountPaths.ClassDirectoryLists` | kext/sysfs_structure.c:137-172 | in the tree of a mount /sys/block lists the recorded whole disks of the walk, and net, block, tty and power_supply in /sys/class the recorded members of classes 1 to 4, in walk order, under their device names and with their ids |
| `MountPaths.TypesAgreeOnMount` | kext/sysfs_vnops.c:702-760 | in the tree of a mount, in every directory and for every name that can be looked up, the listed type is that of the vnode |
| `MountPaths.DotsOnMount` | kext/sysfs_vnops.c:734-756 | in the tree of a mount every static directory lists "." first, with its own id, and then ".." with the id of the directory it leads to |
| `Dirents.DirentSize` | kext/sysfs_vnops.c:1003-1008 | a record holds its fixed part and the terminated name |
| `Dirents.DirentSizeIsTight` | kext/sysfs_vnops.c:1003-1008 | it is a multiple of 8 and wastes less than 8 bytes |
| `Dirents.RecordsCarryItems` | kext/sysfs_vnops.c:1016-1038 | a record has the name, type and id of its entry and its length, and its seek offset is that of the record before it and its own length |
| `Dirents.CallEmitsStretch` | kext/sysfs_vnops.c:702-778 | a call emits exactly the stretch of the listing from the first entry at or after its offset |
| `Dirents.CallAdvances` | kext/sysfs_vnops.c:780-799 | a call that returns 0 advances the offset or reports the end |
| `Dirents.EinvalIff` | kext/sysfs_vnops.c:787-796 | EINVAL just if the next entry does not fit |
| `Dirents.SeekoffResumes` | kext/sysfs_vnops.c:1016-1038 | resuming at a record's seek offset yields exactly the rest |
| `Dirents.FirstInverts` | kext/sysfs_vnops.c:763-773 | an entry's own offset leads back to it |
| `Dirents.ScanDeliversListing` | kext/sysfs_vnops.c:695-799 | at every point of any sequence of calls, what was delivered is the listing so far: nothing lost, nothing repeated |
| `Dirents.ScanProgresses` | kext/sysfs_vnops.c:787-796 | every call of a scan succeeds and gets further until all is delivered |
| `Dirents.ScanEnds` | kext/sysfs_vnops.c:780-785 | a scan reports the end within one call more than there are entries, with everything delivered |
| `Readdir.DirReader.constructor` | kext/sysfs_vnops.c:696-700 | nothing has been walked yet |
| `Readdir.DirReader.Copyout` | kext/sysfs_vnops.c:1016-1038 | a record is copied whole or not at all |
| `Readdir.DirReader.Emit` | kext/sysfs_vnops.c:763-773 | walks one entry, or stops at one that is wanted and does not fit |
| `Readdir.DirReader.EmitDots` | kext/sysfs_vnops.c:826-838 | "." and ".." without a check for room |
| `Readdir.DirReader.Conclude` | kext/sysfs_vnops.c:905-921 | offset, end flag and EINVAL as every call has to answer |
| `Readdir.DirReader.ReadStatic` | kext/sysfs_vnops.c:695-799 | answers right for the listing of a static directory, whose types, ids and dots are those `TypesAgreeIff`, `LookupAgreesWithListing` and `StaticDots` state |
| `Readdir.DirReader.ReadDevices` | kext/sysfs_vnops.c:808-922 | answers right for dots, attributes or static children, then registry children |
| `Readdir.DirReader.ReadClass` | kext/sysfs_vnops.c:930-996 | answers right for dots, then members |
| `Readdir.DirReader.ReadModules` | kext/sysfs_vnops.c:1336-1431 | answers right for dots, then modules or a module's attributes |
| `Readdir.DirReader.Read` | kext/sysfs_vnops.c:664-799 | whatever the directory is, the answer is right for its listing |
| `Directories.PlantedIsWellFormed` | kext/sysfs_structure.c:375-415 | a tree built by appending is one that listing and lookup can work on |
| `Directories.FirstOfKind` | kext/sysfs_vnops.c:510-513 | the first child of a kind, or none just if there is none |
| `Lookup.LookupAgreesWithListing` | kext/sysfs_vnops.c:493-646 | in a static, device or module directory a name resolves to the first entry listed under it, with the same id, and to nothing just if none is |
| `Lookup.ClassLookup` | kext/sysfs_vnops.c:533-555 | in a class directory it resolves to the first member of that name, listed as the symlink it is, with the marker's base id; without a marker to nothing |
| `Lookup.TypesAgreeIff` | kext/sysfs_vnops.c:1513-1521 | in every kind of directory a name is listed with the type of the vnode it is looked up to, exactly when that is no symlink or module node put into devices, and no device or module node in a static directory whose own id has an object part |
| `Lookup.StaticDots` | kext/sysfs_vnops.c:702-756 | a static directory lists every child under its name, files as files, symlinks as symlinks and all else as directories; its "." with its own id and its ".." with the id its ".." is looked up to |
| `Lookup.ModuleFiles` | kext/sysfs_vnops.c:171-176 | a module directory has refcnt, coresize, initstate and version, with object ids 1 to 4, and no other file |
| `Lookup.DeviceFile` | kext/sysfs_vnops.c:156-158 | a device directory has name, with object id 1, and no other attribute |
| `Lookup.ClassListingIsUsableIff` | kext/sysfs_vnops.c:533-555 | a class directory can look up all it lists just if it has a marker, or lists nothing but dot names |
| `Lookup.CpuDirectoriesAreOpaque` | kext/sysfs_vnops.c:116-122 | cpuN and its topology, N >= 1, list the members of class N and can look up none |
| `Lookup.DotDotLeadsBackIff` | kext/sysfs_vnops.c:426-470 | ".." from a directory found by name gives back the directory; for a registry child just if its parent was recorded |
| `Lookup.OrphanDoesNotLeadBack` | kext/sysfs_vnops.c:449-462 | for every walk of one entry whose parent it does not yield: the entry is found in devices, and ".." leads from it to an id that was not recorded |
| `Lookup.ChildNamesParent` | kext/sysfs_iokit.cpp:989-1012 | a listed child names the entry it is listed under as its parent just if its parent was recorded |
| `Lookup.ResolvedIsProper` | kext/sysfs_vnops.c:606-617 | what lookup gives out carries the base id of its structure node, and no registry id in the static tree |
| `LookupCode.FindChild` | kext/sysfs_vnops.c:605-617 | the loop over children finds the first of that name |
| `LookupCode.FindPair` | kext/sysfs_vnops.c:586-594 | the loop over a table finds the first of that name |
| `LookupCode.FindKind` | kext/sysfs_vnops.c:546-549 | the loop for the marker finds the first of that kind |
| `LookupCode.ResolveInDevice` | kext/sysfs_vnops.c:556-603 | static children first at the root, attributes first below, then registry children |
| `LookupCode.ResolveInClass` | kext/sysfs_vnops.c:533-555 | members by device name, through the marker |
| `LookupCode.ResolveInContainer` | kext/sysfs_vnops.c:501-520 | modules by name, through the marker |
| `LookupCode.ResolveName` | kext/sysfs_vnops.c:493-617 | all branches together |
| `LookupCode.ResolveParent` | kext/sysfs_vnops.c:426-470 | the parent of a module, a device, or a static node |
| `LookupCode.VnopLookup` | kext/sysfs_vnops.c:387-650 | EINVAL, ".", "..", a node, or ENOENT, each exactly when it should be |
| `LinkTarget.TargetLeadsToDeviceIff` | kext/sysfs_vnops.c:1134-1157 | a target resolved name by name from the link's directory is the device, exactly when the device is not too deep, unshadowed, and hidden by no static entry or attribute |
| `LinkTarget.ComponentsLeadToDeviceIff` | kext/sysfs_vnops.c:556-603 | the same for the path below devices/ |
| `LinkTarget.UpToRoot` | kext/sysfs_vnops.c:1142-1151 | as many ".." as the link's directory is deep lead to the root |
| `LinkTarget.SplitTarget` | kext/sysfs_vnops.c:1148-1152 | cutting a target gives the "..", "devices", and the names of the path |
| `LinkTarget.CountDepth` | kext/sysfs_vnops.c:1142-1146 | the loop counts the directories above the link |
| `LinkTarget.ClimbOut` | kext/sysfs_vnops.c:1148-1151 | the loop writes as many "../" as the depth, or as it takes to fill the buffer |
| `LinkTarget.Render` | kext/sysfs_vnops.c:1134-1157 | for every depth and buffer, the target, or nothing if there is no path or it does not fit |
| `LinkTarget.TargetOfDevice` | kext/sysfs_vnops.c:1136-1140 | for a device of a complete snapshot, the rendered target is that of its display path |
| `ClassLinks.MemberLeadsToDeviceIff` | kext/sysfs_vnops.c:533-555 | in the tree init builds: every member listed in block or a class directory is found by its listed name, and its rendered target, followed from there, is its device exactly when the target fits, the device is not too deep, nothing on the way is shadowed, the path does not start with system, and no later name is name |
| `ClassLinks.FollowedIff` | kext/sysfs_vnops.c:1134-1157 | the same for any node of the snapshot |
| `ClassLinks.DeviceClassDirIsPlaced` | kext/sysfs_structure.c:137-172 | block and the class directories are below directories only, and their first symlink child is the marker |
| `ClassLinks.ClearIffUnobstructed` | kext/sysfs_vnops.c:556-603 | a static entry or attribute is in the way exactly if the path starts with system or a later name is name |

## Left out

- `SnapshotIndex.Find`: masking with a power of two is modelled as the remainder.
- `RefreshTheorems.CacheCoherence`: the generation is unbounded; a 32-bit count that wraps to the very value recorded would hide a change.
- `RefreshTheorems.EnsureSchedules`: says what holds at the end of ensure's critical section; that `thread_call_enter()` then queues the refresh is the step after it.
- `Dirents.DirentSize`: the fixed part of a record is XNU's 24 bytes; the header that declares it is not part of the repository.
- `Lookup.LookupAgreesWithListing`: the ids compared are the three parts of a file id; `sysfs_get_fileid()` is a function of them and not injective. "." and ".." are excluded: `Lookup.StaticDots` has them for static directories, and the dynamic ones list both with their own id.
- `LinkTarget.Render`: the text that is returned; what happens to memory when the "../" prefix alone is longer than the buffer is not modelled.
- `ClassLinks.MemberLeadsToDeviceIff`: for snapshots whose child lists could be allocated, and registry names that are not empty, "." or ".." and have no slash; a device name that is empty, "." or ".." is left to pathname resolution.
- `LinkTarget.TargetLeadsToDeviceIff`: excludes paths with an empty component or one named "." or "..", which pathname resolution treats specially.
- `LookupCode.VnopLookup`: the name is compared whole; VFS hands in at most 255 characters, below which the source cuts nothing.
- `StructureBuild.Builder.AddNode`: an allocation failure panics in the source and does not occur here.
- A listing across a snapshot swap: each call is answered from one snapshot.
- `uiomove()` faults, credentials, attributes, `read`, `getattr`, `pathconf` and the stubs.
- Mount, unmount, statfs, sysctl and module start and stop; at most one mount is modelled.
- The values of attribute files (`kext/sysfs_system.c`), and the capture of the kernel extension list.
- Liveness: that a running refresh or a created vnode eventually completes is not claimed; `RefreshPaths.Arrives` says that a refresh can.
