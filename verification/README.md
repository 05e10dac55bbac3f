# A verified model of the WEKA CSI driver's stateful core

The driver provisions Kubernetes volumes on WEKA filesystems. This project models, in Dafny, the
parts of it that keep state across calls or transform data in several steps, and proves what they
keep over every run and every input:

- **Capacity reservation** (`Capacity`, `CapacityProtocol`, `ControllerRuns`). The controller's ledger of confirmed
  and pending capacity, in int64 arithmetic, and the protocol between it and a Kubernetes store
  whose list it sees late. Directory volumes never over-provision a filesystem.
- **Trash collection** (`GarbageCollector`). Goroutines that meet in three critical sections, in
  every interleaving: trash is never stranded, flags never wedge, and the trash drains.
- **Reference-counted mounts** (`MountTable`, `MountPoints`, `Mounts`, `Sessions`). Counts agree with the closures
  handed out and with the kernel's mount table through failing mounts, failing unmounts, external
  unmounts and sweeps; a closure releases the key it was counted under, whatever happens to other
  options and mounts meanwhile.
- **Mount options** (`OptionAlgebra`, `OptionText`, `MountOptions`, `Publish`, with `Ordering`).
  Merging under mutually exclusive sets in any map order, layering, the printed form and its
  parser, shared mutable option maps, and the whole assembly of options for NodePublishVolume.
- **Identifiers and places** (`Ids`, `Provenance`, `Places`, with `Text` and `Paths`). Volume and
  snapshot identifiers are sliced back to what they were printed from, also through chains of
  snapshots and clones; where volumes live, what they are called, and which requests are refused.
- **Thin provisioning** (`Thin`). SSD limits rescaled by floor division over any number of
  expansions.
- **Repeated CreateVolume** (`CreateVolume`). What failures at any point leave behind and what the
  next attempt makes of it.

`Sums`, `Int64` and `Wrappers` are helpers. Objects that the driver updates in place are classes,
and each method is proved equal to a function of the old state; the theorems are about those
functions. Where the driver iterates over a Go map, the model takes an arbitrary order.

## Assumptions about the environment

- `CapacityProtocol.Allowed` lists them step by step: identifiers are not reused and name one
  filesystem; requests do not shrink; a PersistentVolume appears or grows only up to a granted
  size and vanishes only after DeleteVolume; the tracker's cache shows, of volumes that are not
  deleted, an earlier state of the store and does not go back in time (of deleted volumes it may
  show anything); AvailableSsd does not shrink; the sums that are checked fit in int64, for which
  `CapacityProtocol.SmallSizesDoNotOverflow` gives a condition on the sizes. A run starts after one
  successful refresh with nothing in flight, and its lists name every volume once; one refresh is
  specified for every list.
- Hashes are parameters. Only the shape of their output is assumed, and, for two mounts, that the
  two strings hashed do not collide.
- Mount points are told apart for filesystem names without `:` and container names none of which
  can pass for a hash followed by another, as no name under 32 characters can
  (`MountPoints.ClashExactly`, `MountPoints.ShortNamesAreNotConfusable`). Names of directories and
  containers hold no `^`.
- What a volume made from a snapshot or a clone inherits is part of the request.
- Clocks, lookups on the cluster, regular-expression checks, mount and unmount calls and list
  calls are inputs; each may fail.

## Where the code differs from what one would expect

Each is proved, with the exact condition.

- The capacity check adds in int64: a first request is granted more than is available exactly when
  its sum exceeds 63 bits (`CapacityProtocol.OverflowOverProvisions`, with the concrete run in
  `CapacityProtocol.OverflowGrants`).
- The check counts an existing reservation of a volume beside the new request, so a retry that fits
  is rejected (`CapacityProtocol.RetryIsRejected`). After a refresh the verdict says whether the
  volume fits exactly when no deleted volume is still listed and the request starts from the size
  granted before (`CapacityProtocol.VerdictMeansFitExactly`).
- A refresh counts every volume once exactly when none is listed twice (`Capacity.CountsOnceExactly`,
  with the two-entry list in `Capacity.TwiceListedIsTwiceCounted`).
- Two purges of one filesystem can be active at once (`GarbageCollector.PurgesCanOverlap`). At most
  one is under way, spawned or begun, exactly as long as no initiate call runs while a purge is
  spawned and has not begun (`GarbageCollector.NoOverlapExactly`).
- A failed last unmount leaves a reference that no later release removes (`MountTable.StuckExactly`,
  `MountTable.LastReleaseCleansUpExactly`, `MountTable.StuckMountsLeakForever`, and a reachable one in
  `MountTable.StuckIsReachable`).
- Different mounts can meet at one mount point without a collision of hashes exactly when a container
  name can pass for a hash followed by another (`MountPoints.ClashExactly`).
- Merging depends on the map order as soon as two of the merged options conflict and are not both
  excluded (`OptionAlgebra.MergeIsConfluentExactly`), and layering is associative only for transitive
  conflicts (`OptionAlgebra.LayeringIsAssociativeExactly`).
- Dropping an option with an override does not reach the defaults, which are merged back underneath,
  unless the option is foreign to them (`OptionAlgebra.DropReachesDefaultsExactly`).
- SELinux options bypass the exclusive sets (`Publish.SelinuxIsExclusiveExactly`).
- An option loses its value exactly when that holds a `=` (`OptionText.SecondEqualsLosesValue`), and
  options are read back from their print exactly when all are printable (`OptionText.ParsePrint`).
- The name filter keeps `:`, so the identifier of a filesystem- or snapshot-backed volume does not
  lead back to it when one of the first twelve kept characters of the CSI name is a colon; directory
  volumes are not affected (`Provenance.BlankVolumeRebuilds` and its siblings). A colon in the inner
  path makes a reservation that no list ever settles (`Provenance.ClassificationsAgree`,
  `Capacity.NeverSettledExactly`).
- A request for the same name and another size is refused exactly when the existence check is clean
  and the capacity can be read; otherwise it may take the volume over
  (`CreateVolume.OtherSizeIsRefusedExactly`, `CreateVolume.TakeoverChangesCapacity`).
- Repeating a request is never told of another volume exactly when the volume inherits no other
  capacity (`CreateVolume.NeverRefusedExactly`).
- Permissions and owner that could not be set by the first attempt are not set by a later one that
  can read the capacity (`CreateVolume.OwnedExactly`, `CreateVolume.UnownedForever`).

The capacity check compares with the free SSD space, although its error message names the total
capacity; the model follows the comparison.

## Model

| member | source | states |
|---|---|---|
| Capacity.CapacityTracker.constructor | pkg/wekafs/controllerserver.go:49-66 | a tracker starts with no confirmed capacity and no reservation |
| Capacity.CapacityTracker.Refresh | pkg/wekafs/controllerserver.go:516-586 | a successful refresh, from any list, confirms for each filesystem the wrapped sum of all entries and drops or re-bases each reservation by the sizes listed for it; a failing one changes nothing |
| Capacity.CapacityTracker.CountVolume | pkg/wekafs/controllerserver.go:562-580 | one entry moves the sums and the reservations from those of the entries before it to those with it |
| Capacity.CapacityTracker.UpdateReservation | pkg/wekafs/controllerserver.go:566-578 | a listed size that reached the target drops the reservation, a smaller one becomes its source |
| Capacity.OtherVolumesAreIgnored | pkg/wekafs/controllerserver.go:541-562 | a PersistentVolume of another driver, without CSI or without a storage capacity changes no entry, wherever it is listed |
| Capacity.RefreshIgnoresOtherVolumes | pkg/wekafs/controllerserver.go:541-580 | so the refreshed ledger is the same with and without it |
| Capacity.OwnVolumeIsCountedExactly | pkg/wekafs/controllerserver.go:546-563 | a listed volume of the driver is one entry, with its handle, its filesystem and its size, if and only if it is a directory not on a snapshot without a colon in its path |
| Capacity.RefreshSeesVolumesOnce | pkg/wekafs/controllerserver.go:539-580 | for lists that name every volume once, the refresh depends only on the listed sizes: confirmed capacities are sums over volumes and each reservation is settled by its own volume |
| Capacity.RefreshIgnoresOrder | pkg/wekafs/controllerserver.go:539-580 | for such lists the order does not matter |
| Capacity.CountsOnceExactly | pkg/wekafs/controllerserver.go:562-564 | for positive sizes and one filesystem per volume, the confirmed totals count every volume once, on every filesystem, if and only if no volume is listed twice |
| Capacity.ListCountsOnceExactly | pkg/wekafs/controllerserver.go:539-564 | the same for every list of PersistentVolumes with positive sizes |
| Capacity.TwiceListedIsTwiceCounted | pkg/wekafs/controllerserver.go:563 | the two-entry list that counts a volume twice |
| Capacity.NeverSettledExactly | pkg/wekafs/controllerserver.go:546-564 | a reservation survives every list if and only if the filter does not count its volume |
| Capacity.CapacityTracker.GetPendingCapacity | pkg/wekafs/controllerserver.go:608-616 | the pending capacity of a filesystem is the wrapped sum of its reservations' growth, in any map order |
| Capacity.CapacityTracker.TryReserve | pkg/wekafs/controllerserver.go:435-490 | the verdict and the new ledger, with wrap-around after every addition, are those of `Verdict` and `Reserve` on exact sums |
| Capacity.CapacityTracker.Release | pkg/wekafs/controllerserver.go:620-622 | exactly the reservation of one volume is dropped |
| Capacity.ControllerServer.ValidateAndReserve | pkg/wekafs/controllerserver.go:391-503 | volumes that are not plain directories are skipped; a missing tracker or filesystem is rejected with nothing changed; otherwise verdict and ledger are decided on the ledger after the refresh that is due, or on the stale one if that refresh fails; data that can be refreshed is at most five seconds old |
| Capacity.ControllerServer.ReleaseReservation | pkg/wekafs/controllerserver.go:506-512 | the reservation is dropped exactly when enforcement is on; confirmed capacity stays |
| Capacity.RefreshRefinesLedger | pkg/wekafs/controllerserver.go:539-580 | after a refresh, confirmed plus pending is the sum over listed volumes of max(size, pending target) plus the growth of unlisted reservations, each volume once |
| Capacity.ReservationEffect | pkg/wekafs/controllerserver.go:435-490 | a rejection changes nothing; a grant records filesystem, target and time, never lowers a target, keeps the first source, touches no other volume, and the total that was checked exceeds the new ledger by exactly old target minus current, or by zero for a new reservation |
| Capacity.CheckIsExactUntilOverflow | pkg/wekafs/controllerserver.go:467-470 | the check accepts exactly the requests that fit, and those whose sum exceeds 63 bits |
| CapacityProtocol.ApplyIsReserve | pkg/wekafs/controllerserver.go:391-503 | the reservation step of the protocol is the tracker's reservation |
| CapacityProtocol.ApplyIsRefreshed | pkg/wekafs/controllerserver.go:516-586 | the refresh step of the protocol is the tracker's refresh from any list of the cached volumes |
| CapacityProtocol.ReserveKeepsInv | pkg/wekafs/controllerserver.go:425-490 | a create or expand request keeps the invariant of the two views, granted or not |
| CapacityProtocol.RefreshIsExact | pkg/wekafs/controllerserver.go:539-580 | a refresh from any stale cache makes the ledger equal to what live volumes were granted plus what deleted volumes still listed hold |
| CapacityProtocol.RefreshKeepsInv | pkg/wekafs/controllerserver.go:516-586 | a refresh from a stale list keeps the invariant |
| CapacityProtocol.DeleteKeepsInv | pkg/wekafs/controllerserver.go:727-744 | deleting a volume and releasing its reservation keeps the invariant while its PersistentVolume lingers |
| CapacityProtocol.EnvironmentKeepsInv | pkg/wekafs/controllerserver.go:529-580 | PersistentVolumes that appear, grow or vanish, cache updates and filesystem growth keep the invariant |
| CapacityProtocol.StepKeepsInv | pkg/wekafs/controllerserver.go:391-622 | every step, including a failing refresh, keeps the invariant |
| CapacityProtocol.RunKeepsInv | pkg/wekafs/controllerserver.go:391-622 | every run keeps the invariant |
| CapacityProtocol.NeverOverProvisioned | pkg/wekafs/controllerserver.go:391-622 | in every reachable state, the sizes of live directory volumes on a filesystem sum to at most what was granted, and that to at most its AvailableSsd |
| CapacityProtocol.LedgerIsSandwiched | pkg/wekafs/controllerserver.go:425-490 | in every reachable state, confirmed plus pending is at least what was granted and at most AvailableSsd plus what deleted volumes still listed hold |
| CapacityProtocol.RefreshSettlesTheBooks | pkg/wekafs/controllerserver.go:516-586 | from every reachable state a refresh makes the ledger exact |
| CapacityProtocol.FreshVerdictIsExact | pkg/wekafs/controllerserver.go:425-490 | after a refresh, a first request, a retry or an expansion is granted if and only if the difference of its sizes fits beside everything granted or still listed |
| CapacityProtocol.VerdictMeansFitExactly | pkg/wekafs/controllerserver.go:435-470 | the verdict says whether the volume fits at its new size, for every free space, if and only if nothing deleted is still listed and the request starts from the granted size |
| CapacityProtocol.RetryIsRejected | pkg/wekafs/controllerserver.go:444-470 | a granted request that took all the space is rejected when repeated, although the ledger would not change |
| CapacityProtocol.OverflowOverProvisions | pkg/wekafs/controllerserver.go:467-470 | from every initial state, a first request makes the grants exceed what is available if and only if its sum exceeds 63 bits |
| CapacityProtocol.OverflowGrants | pkg/wekafs/controllerserver.go:467-470 | a concrete initial state with one byte available in which 2^63 bytes are granted after one request |
| CapacityProtocol.SmallSizesDoNotOverflow | pkg/wekafs/controllerserver.go:467-470 | in every reachable state, sizes of at most a quarter of the range on the filesystem, in the last list and in the request rule overflow out |
| ControllerRuns.CallTakesItsSteps | pkg/wekafs/controllerserver.go:425-490 | a call that reaches the tracker is the protocol's refresh step, if one is due, and its reservation step |
| ControllerRuns.PerformCall | pkg/wekafs/controllerserver.go:391-503 | after any call the tracker holds the ledger of the protocol after those steps, and the verdict is the protocol's |
| ControllerRuns.PerformDelete | pkg/wekafs/controllerserver.go:727-744 | a successful delete is the protocol's delete step |
| ControllerRuns.RunController | pkg/wekafs/controllerserver.go:391-622 | over every run of the server among legal steps of its environment, the tracker stays in step with the protocol and live directory volumes never exceed what is available |
| GarbageCollector.InnerPathVolGc.constructor | pkg/wekafs/gc.go:37-42 | no filesystem starts running or deferred |
| GarbageCollector.InnerPathVolGc.BeginPurge | pkg/wekafs/gc.go:112-114 | raises the running flag of one filesystem and no other |
| GarbageCollector.InnerPathVolGc.FinishPurge | pkg/wekafs/gc.go:120-135 | clears both flags and starts a chained purge, a delayed retry or nothing, by the deferral first and the outcome second |
| GarbageCollector.InnerPathVolGc.InitiateGarbageCollection | pkg/wekafs/gc.go:176-201 | a running filesystem gets a deferral; an idle one a purge, without raising the running flag |
| GarbageCollector.ActKeepsInv | pkg/wekafs/gc.go:54-201 | every atomic step of a move, initiate, purge or retry keeps coverage and the flags' meaning |
| GarbageCollector.RunKeepsInv | pkg/wekafs/gc.go:54-201 | so does every interleaving over all filesystems |
| GarbageCollector.TrashIsNeverStranded | pkg/wekafs/gc.go:54-201 | while a filesystem has trash, an initiate call, an unstarted or unfinished purge, a retry or a deferral that a finished purge will consume exists; deferred implies running, and running implies an unfinished purge |
| GarbageCollector.QuiescenceIsClean | pkg/wekafs/gc.go:105-201 | with no goroutine left, trash is empty and both flags are clear |
| GarbageCollector.InitiateIsNeverLost | pkg/wekafs/gc.go:176-201 | an initiate call starts a purge, or leaves a deferral that any finishing purge turns into one |
| GarbageCollector.FollowUpExactly | pkg/wekafs/gc.go:120-135 | leaving a purge adds one purge if there was a deferral, one delayed retry if it failed without one, and otherwise nothing |
| GarbageCollector.SkippingKeepsTrash | pkg/wekafs/gc.go:62-67 | with collection switched off, in every reachable state there are only movers, both flags are clear, no other step is possible and none removes trash |
| GarbageCollector.PurgesCanOverlap | pkg/wekafs/gc.go:112-199 | a reachable state has two active purges of one filesystem |
| GarbageCollector.SingleExactly | pkg/wekafs/gc.go:112-201 | with at most one purge under way, a step keeps it so if and only if it is not an initiate call while a purge is spawned and not begun |
| GarbageCollector.NoOverlapExactly | pkg/wekafs/gc.go:112-201 | over every run, no two purges of a filesystem are ever under way if and only if no initiate call runs in that window |
| GarbageCollector.DrainingProgresses | pkg/wekafs/gc.go:105-201 | every step of a goroutine that does not fail reduces the remaining work, or the trash at equal work |
| GarbageCollector.SomebodyCanAct | pkg/wekafs/gc.go:105-201 | while a goroutine is left, one of them has a step that does not fail |
| GarbageCollector.TrashDrains | pkg/wekafs/gc.go:105-201 | once purges stop failing and deletions stop coming, every schedule that keeps working ends with no goroutine, no trash and clear flags |
| GarbageCollector.ReachableTrashDrains | pkg/wekafs/gc.go:54-201 | the same from every reachable state |
| MountTable.RunKeepsInv | pkg/wekafs/wekafsmount.go:60-163 | the counting invariant of every key holds after every run |
| MountTable.CountsAreExact | pkg/wekafs/wekafsmount.go:60-126 | in every reachable state the count of a key is its open closures plus a stuck term of 0 or 1, its mount point is mounted at most once, and not at all when the count is zero |
| MountTable.SuccessfulMountIsMounted | pkg/wekafs/wekafsmount.go:60-92 | a successful request ends mounted exactly once, a failing one changes nothing, and only a failing mount call fails |
| MountTable.ReleaseSucceedsExactly | pkg/wekafs/wekafsmount.go:94-163 | a release succeeds if and only if it need not unmount or its unmount leaves nothing on the path; a failing one keeps the count, and one without a count does nothing |
| MountTable.ExternalUnmountTakesOne | pkg/wekafs/wekafsmount.go:77-82 | an unmount by somebody else takes one mount off its path and changes no count |
| MountTable.OnlyTheLastReleaseUnmounts | pkg/wekafs/wekafsmount.go:94-163 | the driver unmounts a path only in the release of the last open closure of its own key |
| MountTable.SweepKeepsExactly | pkg/wekafs/wekafsmounter.go:156-176 | a sweep keeps an entry if and only if a closure of its key is open or its last unmount failed, and changes no count and no mount |
| MountTable.StuckExactly | pkg/wekafs/wekafsmount.go:94-126 | a step makes a count stuck if and only if it is a failing unmount of the last open closure |
| MountTable.LastReleaseCleansUpExactly | pkg/wekafs/wekafsmount.go:94-126 | the last release leaves count zero and nothing mounted if and only if no earlier unmount failed and its own succeeds or is not needed |
| MountTable.StuckIsReachable | pkg/wekafs/wekafsmount.go:94-126 | a mount and a failing release reach a stuck key |
| MountTable.StuckMountsLeak | pkg/wekafs/wekafsmount.go:94-126 | a release of a stuck key leaves the kernel alone and the key stuck |
| MountTable.StuckMountsLeakForever | pkg/wekafs/wekafsmount.go:60-126 | over every run a stuck key stays stuck and counted, and its path stays mounted unless somebody else takes it away |
| Mounts.WekafsMounter.GcInactiveMounts | pkg/wekafs/wekafsmounter.go:156-176 | the sweep drops exactly the entries that count zero |
| Mounts.WekafsMount.GetRefcountIdx | pkg/wekafs/wekafsmount.go:56-58 | the key is the mount point and the canonical print of the options |
| Mounts.WekafsMount.MountArguments | pkg/wekafs/wekafsmount.go:216-222 | the mount call gets the print of the options with the container name added, and no existing option map changes |
| Mounts.ContainerIsHanded | pkg/wekafs/wekafsmount.go:216-219 | the container name arrives under `container_name` as it is, when it holds no `=`, and without one the options are handed unchanged |
| Mounts.WekafsMount.DoMount | pkg/wekafs/wekafsmount.go:194-236 | a mount stacks once on the mount point and leaves counts and the options alone |
| Mounts.WekafsMount.DoUnmount | pkg/wekafs/wekafsmount.go:139-163 | success is reported only when the mount is really gone |
| Mounts.WekafsMount.IncRef | pkg/wekafs/wekafsmount.go:60-92 | the key is the same before and after mounting, and counts and mount table are those of `MountTable.IncRef` |
| Mounts.WekafsMount.DecRef | pkg/wekafs/wekafsmount.go:94-126 | the same for the release, with `MountTable.DecRef` |
| Mounts.MountWithOptions | pkg/wekafs/wekafsmounter.go:58-104 | SELinux options go into the given map before the mount point and the key are computed from it; one reference is taken under that key |
| Mounts.MountUnderlyingFS | pkg/wekafs/volume.go:999-1024 | the mount belongs to the mounter, lies at the mount point of its filesystem and options, and owns a fresh option map; defaults and volume options stay as they are; one reference is taken under its key |
| MountPoints.MountPointsAreSeparate | pkg/wekafs/wekafsmounter.go:58-73 | mounts share a mount point only if filesystem and printed options are the same, whatever their containers, unless hashes collide or container names are confusable |
| MountPoints.MountPointLiesIn | pkg/wekafs/wekafsmounter.go:58-73 | a mount point is one name in the base directory that starts with the kept name of the filesystem |
| MountPoints.ClashExactly | pkg/wekafs/wekafsmount.go:30-35 | two container names can bring different mounts to one place without a collision of hashes if and only if one can pass for a hash followed by the other |
| MountPoints.ShortNamesAreNotConfusable | pkg/wekafs/wekafsmount.go:30-35 | no name under 32 characters can |
| MountPoints.DriverKeysAreSeparate | pkg/wekafs/wekafsmounter.go:58-73 | the keys of any mounts of a driver, through any of its containers, have different mount points, as every run of the mount table assumes |
| MountPoints.KeyHoldsMountPoint | pkg/wekafs/wekafsmount.go:56-58 | a key leads back to its mount point |
| Sessions.Mount | pkg/wekafs/wekafsmounter.go:84-104 | a mount among open closures is a step of the mount table under the recorded key, which is one the driver makes, and every open closure still prints its key |
| Sessions.Release | pkg/wekafs/wekafsmount.go:94-126 | calling a closure is the release step of the key recorded when it was handed out |
| Sessions.ChangeOptions | pkg/wekafs/mountoptions.go:65-112 | merging into or changing options in place reaches the key of no open closure |
| Sessions.PerformAll | pkg/wekafs/wekafsmounter.go:84-176 | any number of mounts through any containers, releases, sweeps, external unmounts and option changes is a run of the mount table under keys that the driver makes, and closures not called keep their keys |
| Sessions.MountHoldRelease | pkg/wekafs/wekafsmount.go:56-126 | a release after any such operations takes away the reference its mount took, under the same key |
| Sessions.RunDriver | pkg/wekafs/wekafsmount.go:60-126 | from an empty mounter, after any operations, for every key the driver makes: its entry is the number of its open closures plus its stuck term, and its path is mounted at most once, and not when the entry is zero, unless hashes in use collide |
| OptionAlgebra.RivalsConflict | pkg/wekafs/mountoptions.go:93-106 | the options that setting one option drops are exactly those that share an exclusive set with it |
| OptionAlgebra.MergeIsOver | pkg/wekafs/mountoptions.go:89-112 | if merged options that conflict are all excluded, every iteration order gives the base options that do not conflict, overridden, minus the excluded |
| OptionAlgebra.MergeIsConfluentExactly | pkg/wekafs/mountoptions.go:89-112 | all orders agree, for a given base and exclude list, if and only if any two merged options that conflict are both excluded |
| OptionAlgebra.OrderMatters | pkg/wekafs/mountoptions.go:89-112 | two conflicting options give different results in different orders |
| OptionAlgebra.MergeKeepsConflictFree | pkg/wekafs/mountoptions.go:89-112 | merging anything, in any order, never creates a conflict |
| OptionAlgebra.OverKeepsConflictFree | pkg/wekafs/mountoptions.go:89-112 | layering conflict-free options is conflict-free |
| OptionAlgebra.OverIsAssociative | pkg/wekafs/mountoptions.go:89-122 | layering is associative when conflicts are transitive |
| OptionAlgebra.DisjointSetsAreTransitive | pkg/wekafs/mountoptions.go:89-112 | pairwise disjoint exclusive sets have transitive conflicts |
| OptionAlgebra.LayeringIsAssociativeExactly | pkg/wekafs/mountoptions.go:89-122 | layering is associative if and only if conflicts are transitive |
| OptionAlgebra.GroupingMatters | pkg/wekafs/mountoptions.go:89-122 | three options that conflict in a chain show the failure |
| OptionAlgebra.DropReachesDefaultsExactly | pkg/wekafs/volume.go:1009 | dropping an option above the defaults drops it from the whole, for all options above them, if and only if it is no default and conflicts with none |
| OptionAlgebra.DefaultsUnderneath | pkg/wekafs/volume.go:1009 | defaults put under the finished options equal defaults and sources, additions and removals, applied one after another, when removed names are foreign to the defaults |
| Ordering.SortedIsUnique | pkg/wekafs/mountoptions.go:159-172 | two sorted lists of the same names are the same list |
| Ordering.LessIsLexicographic | pkg/wekafs/mountoptions.go:166 | names are in the order of a dictionary |
| Ordering.SortKeys | pkg/wekafs/mountoptions.go:159-172 | names collected from a map in any order and sorted give the one sorted list of its keys |
| OptionText.Strings | pkg/wekafs/mountoptions.go:159-180 | every option is printed, in the order of its name |
| OptionText.String | pkg/wekafs/mountoptions.go:182-184 | the printed form depends on the options only, not on insertion or iteration order |
| OptionText.NewMountOptions | pkg/wekafs/mountoptions.go:271-284 | blank entries are skipped and later entries win |
| OptionText.ParsePrintOption | pkg/wekafs/mountoptions.go:39-58 | parsing a printed option gives it back if and only if neither part holds `=` |
| OptionText.SecondEqualsLosesValue | pkg/wekafs/mountoptions.go:48-58 | `name=value` keeps its value if and only if the value holds no `=`; otherwise the value is empty |
| OptionText.ParsePrint | pkg/wekafs/mountoptions.go:159-184 | parsing the printed options gives them back if and only if all are printable |
| OptionText.PrintIsInjective | pkg/wekafs/mountoptions.go:182-184 | different well-formed options print differently |
| OptionText.VolumeContextRoundTrip | pkg/wekafs/mountoptions.go:203-210 | what CreateVolume stores in the volume context is read back as the options without `sync_on_close` and `container_name` if and only if those are printable |
| MountOptions.CloneCustomOptions | pkg/wekafs/mountoptions.go:71-77 | the clone is a new map with the same options |
| MountOptions.NewOptions | pkg/wekafs/mountoptions.go:271-284 | parsed options live in a new map |
| MountOptions.NewOptionsFromString | pkg/wekafs/mountoptions.go:263-269 | the same from a comma-separated text; the empty text gives no options |
| MountOptions.DefaultOptions | pkg/wekafs/mountoptions.go:286-298 | no options, and an exclude list of one empty name |
| MountOptions.DropRivals | pkg/wekafs/mountoptions.go:93-106 | the inner loops drop exactly the alternatives of one option |
| MountOptions.MergeInto | pkg/wekafs/mountoptions.go:89-112 | in-place merging equals `Merge` for some order that lists every merged option once |
| MountOptions.MergedWith | pkg/wekafs/mountoptions.go:115-122 | the same in a new map; neither argument changes |
| MountOptions.AddOption | pkg/wekafs/mountoptions.go:124-132 | a new map with the option set; the receiver does not change |
| MountOptions.RemoveOption | pkg/wekafs/mountoptions.go:134-142 | a new map without the option; the receiver does not change |
| MountOptions.SetSelinux | pkg/wekafs/mountoptions.go:214-235 | the context and acl are set, or the context removed, in the shared map |
| Publish.ApplyToOptions | pkg/wekafs/mountoptoverrides.go:67-86 | an override's entries take effect one after another, in the given map until a removal replaces it |
| Publish.ModifyKeepsConflictFree | pkg/wekafs/mountoptoverrides.go:67-86 | no override creates a conflict |
| Publish.MinusRemoves | pkg/wekafs/mountoptoverrides.go:78-79 | the text `-option` removes that option and nothing else |
| Publish.PlusAdds | pkg/wekafs/mountoptoverrides.go:75-77 | the text `+option` sets the option, with its value, and displaces its rivals |
| Publish.UnsignedAdds | pkg/wekafs/mountoptoverrides.go:80-83 | so does an option without a sign |
| Publish.CommaIsSequence | pkg/wekafs/mountoptoverrides.go:67-86 | overrides joined by a comma apply one after another |
| Publish.Prune | pkg/wekafs/volume.go:106-125 | `ro`, `container_name` and an unsupported `sync_on_close` are dropped and nothing else |
| Publish.PrunedExactly | pkg/wekafs/volume.go:106-125 | an option survives pruning if and only if it is none of the three, or is `sync_on_close` and the cluster takes it |
| Publish.StoredContextIsUsed | pkg/wekafs/nodeserver.go:341-346 | of the options CreateVolume stored, the node uses all but `sync_on_close`, `container_name` and `ro` |
| Publish.FromContextAndFlags | pkg/wekafs/nodeserver.go:339-381 | the options of volume context and flags are conflict-free for every map order, and determined when no source contradicts itself |
| Publish.RequestReadOnly | pkg/wekafs/nodeserver.go:403-410 | `ro` is set, `rw` and the rivals of `ro` are gone, nothing else changes |
| Publish.ApplyOverrides | pkg/wekafs/nodeserver.go:264-301 | PVC then pod override, keeping the options conflict-free |
| Publish.ServerDefaults | pkg/wekafs/nodeserver.go:77-79 | the server's defaults are conflict-free and hold only what it lists |
| Publish.PublishOptions | pkg/wekafs/nodeserver.go:339-410 | for every context, flags, annotations and map orders the mounter gets at most one option of each exclusive set; a read-only request yields `ro`, and not `rw` unless the defaults ask for it; sources that do not contradict themselves determine the result |
| Publish.NodeDefaultsAreNotReadWrite | pkg/wekafs/nodeserver.go:56 | the node server's defaults do not ask for `rw` |
| Publish.MergeUnder | pkg/wekafs/volume.go:999-1024 | the defaults that survive are those that no volume option displaces |
| Publish.VolumeOptionsAreStacked | pkg/wekafs/nodeserver.go:341-410 | the volume's options are context, flags, PVC entries, pod entries and the read-only request, additions and removals, one after another |
| Publish.PublishingIsStacking | pkg/wekafs/volume.go:1009 | merging the defaults underneath at mount time equals applying defaults and all those sources in order, when what they drop is foreign to the defaults |
| Publish.PodHasTheLastWord | pkg/wekafs/nodeserver.go:293-299 | what the pod's override removes is gone and what it sets is set, whatever the other sources say |
| Publish.ReadOnlyIsLast | pkg/wekafs/nodeserver.go:403-410 | a read-only request leaves `ro` and no `rw` in the volume's options, whatever the sources say |
| Publish.PvcComesAfterFlags | pkg/wekafs/nodeserver.go:284-291 | the same for the PVC's override when the pod has none |
| Publish.LaterSourcesWin | pkg/wekafs/nodeserver.go:339-381 | flags win over the context, and the volume's options over the defaults |
| Publish.SelinuxChangesExactly | pkg/wekafs/mountoptions.go:214-235 | which options SELinux support sets, to what, and which one its absence removes |
| Publish.SelinuxIsExclusiveExactly | pkg/wekafs/mountoptions.go:214-235 | after SELinux options are set the options are conflict-free if and only if those two conflict neither with each other nor with the rest |
| Ids.GetAsciiPart | pkg/wekafs/ascii.go:47-73 | the loops keep the first allowed characters up to the limit, and one when the limit is zero |
| Ids.ObjectNameBaseIsPlain | pkg/wekafs/utilities.go:49-52 | an object name holds no slash, and a colon exactly when the kept part of the CSI name does |
| Ids.SplitVolumeId | pkg/wekafs/utilities.go:73-82 | a volume identifier, field by field |
| Ids.SliceInvertsVolumeId | pkg/wekafs/utilities.go:174-208 | filesystem and access point are sliced back if and only if they hold no separator; the inner path comes back with one slash more |
| Ids.JoinPathIgnoresSlashes | pkg/wekafs/volume.go:792-802 | inner paths that differ in repeated slashes give one path |
| Ids.RebuildsExactlyWhenPlain | pkg/wekafs/volumeconstructors.go:14-47 | the volume rebuilt from an identifier is the one it was printed from, with the same relative path (which `Places.VolumeLivesAt` gives), if and only if its parts hold no separator |
| Places.RelativePathIs | pkg/wekafs/volume.go:792-802 | every volume lives below `.snapshots` and its access point if it has one, then down its inner path, with dots resolved |
| Places.VolumeLivesAt | pkg/wekafs/volume.go:792-802 | without dots the path is exactly those names from the root |
| Places.AllowedExactly | pkg/wekafs/ascii.go:47-53 | the characters that names keep |
| Places.ObjectNamesCoincideExactly | pkg/wekafs/utilities.go:49-52 | two CSI names give one object name if and only if they agree in the first twelve kept characters and the first twelve characters of their hashes |
| Places.SnapshotIdsTellApart | pkg/wekafs/utilities.go:97-111 | two snapshots share an identifier only if filesystem, inner path and both hashes agree |
| Places.SnapshotIdAddsSlash | pkg/wekafs/utilities.go:102-111 | an inner path without a leading slash gets one |
| Places.VolumeIdentifierText | pkg/wekafs/utilities.go:73-82 | the text of the identifiers of filesystem, directory and snapshot-backed volumes |
| Places.SnapshotIdentifierText | pkg/wekafs/utilities.go:102-111 | the text of a snapshot's identifier |
| Places.SpacesExactly | pkg/wekafs/mountoptions.go:271-284 | what counts as blank around an entry |
| Places.DirectoryIsFolder | pkg/wekafs/utilities.go:36-45 | a directory volume is a folder, named after the CSI name and its hash, in the configured directory |
| Places.DirectoriesCoincideExactly | pkg/wekafs/utilities.go:36-45 | two CSI names get one directory if and only if they agree in the first 64 kept characters and in their hashes |
| Places.BlankRefusedExactly | pkg/wekafs/volumeconstructors.go:131-161 | which blank requests are refused, with which code |
| Places.BlankKindExactly | pkg/wekafs/volumeconstructors.go:131-174 | which requests make filesystem, directory and snapshot-backed volumes |
| Places.RestoreRefusedExactly | pkg/wekafs/volumeconstructors.go:180-243 | which requests from a snapshot are refused, with which code; the others keep filesystem and path |
| Places.CloneRefusedExactly | pkg/wekafs/volumeconstructors.go:264-319 | the same for clones |
| Provenance.BlankVolumeRebuilds | pkg/wekafs/volumeconstructors.go:117-174 | a blank volume of any of the three kinds is rebuilt from its identifier if and only if the request is safe, a condition on the request alone |
| Provenance.RestoredVolumeRebuilds | pkg/wekafs/volumeconstructors.go:180-258 | the same for a volume restored from a snapshot |
| Provenance.ClonedVolumeRebuilds | pkg/wekafs/volumeconstructors.go:264-332 | the same for a clone |
| Provenance.SplitSnapshotId | pkg/wekafs/utilities.go:102-111 | a snapshot identifier, field by field |
| Provenance.SnapshotRebuilds | pkg/wekafs/snapshotconstructors.go:10-72 | a snapshot rebuilt from its identifier equals the created one in every field if and only if its name is safe; filesystem and inner path always come back |
| Provenance.DeriveKeepsOrigin | pkg/wekafs/volumeconstructors.go:229-319 | one snapshot and restore, or one clone, stays on the filesystem and in the directory of its source |
| Places.DeriveSucceedsExactly | pkg/wekafs/volumeconstructors.go:180-319 | which volumes can be restored from a snapshot or cloned |
| Provenance.ChainKeepsOrigin | pkg/wekafs/volumeconstructors.go:229-319 | so does every finite chain, whatever the names |
| Provenance.BlankIsDenotedExactly | pkg/wekafs/volumeconstructors.go:117-174 | a blank volume is where its identifier says if and only if the request makes a plain filesystem name |
| Provenance.ChainFromBlank | pkg/wekafs/volumeconstructors.go:117-319 | every chain from such a blank volume stays on its filesystem and in its directory |
| Provenance.ClonesAddSlashes | pkg/wekafs/utilities.go:200-208 | each re-parse of an inner path adds a leading slash |
| Provenance.ClassificationsAgree | pkg/wekafs/controllerserver.go:546-564 | the refresh filter and the reservation guard (line 403) accept the same generated identifiers under the same filesystem if and only if no directory's inner path holds a colon |
| Provenance.ConfirmableExactly | pkg/wekafs/controllerserver.go:546-557 | the filter accepts a generated identifier if and only if it is a directory not on a snapshot without a colon in its path |
| Provenance.RebuiltClassificationsAgree | pkg/wekafs/controllerserver.go:831-841 | for the volume an expansion rebuilds from any handle they agree if and only if the guard takes no handle with a colon or without a filesystem |
| Provenance.DirVolumesAreConfirmable | pkg/wekafs/volumeconstructors.go:117-174 | a directory volume that the driver names is counted exactly when its inner path holds no colon |
| Thin.ScaleIsExactWhenItFits | pkg/wekafs/volume.go:573-581 | the scaled limit is the exact floor if and only if that fits in int64 |
| Thin.ScaleIsMonotone | pkg/wekafs/volume.go:573-581 | scaling keeps the order of two limits |
| Thin.FilesystemObject.ResizeFilesystem | pkg/wekafs/volume.go:583-614 | a thin filesystem with min <= max <= total keeps that through a resize that is accepted or refused, no limit shrinks, a pinned maximum stays pinned, limits are frozen without the ratio, and an accepted resize sets the requested total |
| Thin.ResizeKeepsSound | pkg/wekafs/volume.go:583-614 | one expansion keeps min <= max <= total, does not lower a limit and keeps a maximum that equals the total pinned to it |
| Thin.ExpansionsKeepLimits | pkg/wekafs/volume.go:573-614 | so does every sequence of requests; no limit exceeds its exact share and none leaves int64 |
| Thin.PlainExpansions | pkg/wekafs/volume.go:583-614 | a filesystem without thin provisioning takes the largest size asked for over any requests and keeps its other numbers |
| Thin.PanicsExactly | pkg/wekafs/volume.go:573-593 | a resize panics if and only if the ratio of an empty thin filesystem is to be kept, and is refused if and only if the filesystem is bigger |
| Thin.ExpansionsFollowLimit | pkg/wekafs/volume.go:573-614 | the limits after a sequence of totals are the iterated floors |
| Thin.DriftIsBounded | pkg/wekafs/volume.go:573-581 | iterated floors lose less than 1/t1 + ... + 1/tn of the share |
| Thin.ExpansionDriftIsBounded | pkg/wekafs/volume.go:573-614 | the minimum and maximum SSD shares of a filesystem shrink by less than that sum over any sequence of expansions |
| CreateVolume.QuotaReadsBack | pkg/wekafs/apiclient/quota.go:77-169 | a quota reads back the size it was made for if and only if it is hard or the size is at most the largest quota |
| CreateVolume.Storage.GetCapacity | pkg/wekafs/volume.go:506-534 | the quota, else the attribute, else an error; a failed quota read falls through |
| CreateVolume.Storage.ExistsAndMatches | pkg/wekafs/utilities.go:531-545 | a check that found the object and then failed reports it as existing, with an error and without reading the capacity |
| CreateVolume.Storage.UpdateCapacity | pkg/wekafs/volume.go:655-698 | a quota or an attribute is written, also by a call that then reports failure |
| CreateVolume.Storage.UpdateParams | pkg/wekafs/volume.go:338-370 | permissions and owner are set unless the call fails before |
| CreateVolume.Storage.MakeVolume | pkg/wekafs/volume.go:1323-1500 | the object is made, capacity and parameters are written, each of which may fail before or after its effect, and an unmount error at the end fails the call |
| CreateVolume.Storage.CreateVolume | pkg/wekafs/controllerserver.go:303-386 | response and storage after an attempt that may fail at any step are those of `Create` |
| CreateVolume.AttemptIsResumable | pkg/wekafs/volume.go:1323-1500 | an attempt that fails at any step, before or after its effect, leaves nothing or an object that carries at most the requested capacity |
| CreateVolume.RepeatingConverges | pkg/wekafs/controllerserver.go:303-386 | however the attempts of a request fail, none is told that another volume exists, a success leaves the requested capacity readable exactly when such a write can be read back, and the next faultless attempt succeeds |
| CreateVolume.QuotaIsEnforcedExactly | pkg/wekafs/volume.go:867-900 | over any attempts, a quota has the requested limit and is hard if and only if the request enforces it, and after a success there is one |
| CreateVolume.LegacySizeIsAttribute | pkg/wekafs/volume.go:743-768 | on clusters without quotas the size becomes an attribute and no quota appears |
| CreateVolume.QuotaComesFirst | pkg/wekafs/volume.go:506-534 | a quota that can be read decides alone |
| CreateVolume.StepsComeInOrder | pkg/wekafs/volume.go:1323-1500 | nothing is made without a reservation, and permissions come after the size |
| CreateVolume.NeverRefusedExactly | pkg/wekafs/controllerserver.go:303-386 | no sequence of attempts from nothing is told of another volume if and only if the volume inherits no other capacity |
| CreateVolume.OtherSizeIsRefusedExactly | pkg/wekafs/controllerserver.go:322-345 | a request for another size is refused, with nothing changed, if and only if the existence check is clean and the capacity can be read; it takes the volume over if and only if the object is found, the capacity is not learnt and both updates succeed |
| CreateVolume.TakeoverChangesCapacity | pkg/wekafs/controllerserver.go:335-345 | with an unreadable quota, or an existence check that fails after finding the object, the other request succeeds and changes the capacity |
| CreateVolume.OwnedExactly | pkg/wekafs/controllerserver.go:321-347 | a successful attempt leaves permissions and owner set unless a clean check found an object whose capacity it could read and that lacks them |
| CreateVolume.UnownedForever | pkg/wekafs/controllerserver.go:321-331 | from such an object every attempt that can read the capacity succeeds and none sets them |
| CreateVolume.ParamsFailureLeavesUnowned | pkg/wekafs/volume.go:1488-1496 | one failing UpdateParams leaves such an object |

## Left out

- REST client, login, endpoint rotation, JSON and gRPC plumbing: their answers are inputs. A quota of size zero is sent without its limits because zero fields are omitted from JSON; the model writes it as zero.
- NFS transport: the same reference counting and merging again.
- Regular-expression validation of identifiers and the selection of pod annotations: the outcome is an input.
- Development mode, wait-for-leader, topology, semaphores, logging and metrics: no properties of their own.
- The shell pipeline that may replace the directory removal in purgeLeftovers: only the removal itself is modelled, and it removes the directory as a whole when it succeeds.
- Deletion of one trash directory by two overlapping purges is an arbitrary shrinking of the trash.
- unmountWithOptions and UnmountUnderlyingFS: the driver never calls them.
- Quota type on expand: the source resets it to hard, and an expand is modelled only by its size.
- The snapshot a blank snapshot-backed volume is copied from: only names and identifiers are modelled.
- Goroutines and requests interleave at the granularity of the critical sections; data races outside them are not modelled.
- CreateVolume.Storage.CreateVolume: the reservation with the free-space check is one step, and so is UpdateParams (mode, then owner).
- CapacityProtocol.NeverOverProvisioned: assumes that checked sums fit in int64, because without that the property is false (CapacityProtocol.OverflowOverProvisions).
- Publish.PublishingIsStacking: assumes that removed names are foreign to the defaults; for one removal this is necessary over all options (OptionAlgebra.DropReachesDefaultsExactly), for a given request it is not.
- Sessions.RunDriver: assumes that hashes of keys in use do not collide and container names are not confusable, because otherwise mounts can meet at one path.
