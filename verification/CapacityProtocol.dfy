/** The reservation protocol between the tracker and the cluster. PersistentVolumes live
    in a store; the tracker lists them from a cache that lags behind the store. */
module CapacityProtocol {
  import opened Int64
  import opened Sums
  import opened Capacity

  datatype World = World(
    ledger: Ledger,                // the tracker
    listed: map<string, Size>,     // what the last successful refresh counted
    granted: map<string, Size>,    // the largest size granted to each volume so far
    pvs: map<string, Size>,        // the PersistentVolumes in the store
    cache: map<string, Size>,      // the PersistentVolumes the tracker's client sees
    deleted: set<string>,          // volumes that DeleteVolume has succeeded for
    available: map<string, int>)   // AvailableSsd of each filesystem

  datatype Step =
    | ReserveCapacity(v: string, fs: string, current: int, target: int, observed: int, now: int)
    | RefreshSucceeds
    | RefreshFails
    | PvAppearsOrGrows(v: string, bytes: int)
    | CacheSyncs(cache: map<string, Size>)
    | DeleteVolume(v: string)
    | PvVanishes(v: string)
    | FilesystemGrows(fs: string, bytes: int)

  function Bytes(m: map<string, Size>, v: string): int
  {
    if v in m then m[v].bytes else 0
  }

  /** The environment assumptions, step by step. */
  ghost predicate Allowed(w: World, step: Step)
  {
    match step
    case ReserveCapacity(v, fs, current, target, observed, now) =>
      // identifiers are not reused and name one filesystem
      && v !in w.deleted
      && (v in w.granted ==> w.granted[v].fs == fs)
      // the size read back was granted, and requests do not shrink what was granted
      && 0 <= current <= target
      && current <= Bytes(w.granted, v)
      && (v !in w.ledger.pending ==> Bytes(w.granted, v) <= target)
      // AvailableSsd may be read from a cache, but does not shrink
      && observed <= At(w.available, fs)
      // the checked sum does not overflow
      && Fits(LedgerOn(w.ledger, fs) + target - current)
    case RefreshSucceeds =>
      forall fs :: Fits(Sum(On(w.cache, fs)))
    case RefreshFails =>
      true
    case PvAppearsOrGrows(v, bytes) =>
      v in w.granted && v !in w.deleted && Bytes(w.pvs, v) <= bytes <= w.granted[v].bytes
    case CacheSyncs(cache) =>
      // of volumes that are not deleted, the cache holds some earlier state of the
      // store, and it does not go back in time
      && (forall v :: v in cache ==> cache[v].bytes >= 0)
      && (forall v :: v in cache && v !in w.deleted ==>
                        v in w.pvs && cache[v].fs == w.pvs[v].fs && cache[v].bytes <= w.pvs[v].bytes)
      && (forall v :: v in w.cache && v !in w.deleted ==> v in cache && w.cache[v].bytes <= cache[v].bytes)
    case DeleteVolume(v) =>
      v !in w.deleted
    case PvVanishes(v) =>
      v in w.deleted
    case FilesystemGrows(fs, bytes) =>
      At(w.available, fs) <= bytes
  }

  ghost function AfterGrant(w: World, v: string, fs: string, current: int, target: int, now: int): World
  {
    w.(ledger := w.ledger.(pending := Record(w.ledger.pending, v, fs, current, target, now)),
       granted := w.granted[v := Size(fs, target)])
  }

  ghost function AfterRefresh(w: World): World
  {
    w.(ledger := Ledger(Confirmed(w.cache), Settled(w.ledger.pending, w.cache)), listed := w.cache)
  }

  ghost function AfterDelete(w: World, v: string): World
  {
    w.(ledger := w.ledger.(pending := w.ledger.pending - {v}), deleted := w.deleted + {v})
  }

  ghost function Apply(w: World, step: Step): World
  {
    match step
    case ReserveCapacity(v, fs, current, target, observed, now) =>
      if Verdict(w.ledger, v, fs, current, target, observed) == Granted
      then AfterGrant(w, v, fs, current, target, now)
      else w
    case RefreshSucceeds => AfterRefresh(w)
    case RefreshFails => w
    case PvAppearsOrGrows(v, bytes) =>
      if v in w.granted then w.(pvs := w.pvs[v := Size(w.granted[v].fs, bytes)]) else w
    case CacheSyncs(cache) => w.(cache := cache)
    case DeleteVolume(v) => AfterDelete(w, v)
    case PvVanishes(v) => w.(pvs := w.pvs - {v})
    case FilesystemGrows(fs, bytes) => w.(available := w.available[fs := bytes])
  }

  /** The tracker's state after a request is the one Capacity.Reserve specifies. */
  lemma ApplyIsReserve(w: World, step: Step)
    requires step.ReserveCapacity?
    ensures Apply(w, step).ledger
            == Reserve(w.ledger, step.v, step.fs, step.current, step.target, step.observed, step.now)
  {
  }

  /** ... and after a refresh the one of a refresh from any list that holds the cached
      volumes once each. */
  lemma ApplyIsRefreshed(w: World, es: seq<Entry>)
    requires DistinctHandles(es) && Listed(es) == w.cache
    ensures Apply(w, RefreshSucceeds).ledger == Refreshed(w.ledger.pending, es)
  {
    RefreshSeesVolumesOnce(w.ledger.pending, es);
  }

  /** A run starts after one successful refresh with nothing in flight, on filesystems
      that hold their volumes. */
  ghost predicate Initial(w: World)
  {
    && w.ledger == Ledger(Confirmed(w.pvs), map[])
    && w.listed == w.cache == w.granted == w.pvs
    && w.deleted == {}
    && (forall v :: v in w.pvs ==> w.pvs[v].bytes >= 0)
    && (forall fs :: Sum(On(w.pvs, fs)) <= At(w.available, fs) && Fits(Sum(On(w.pvs, fs))))
  }

  /** A run: a state for every prefix of the steps, each step allowed where it is taken. */
  ghost predicate Run(w: World, steps: seq<Step>, w': World)
    decreases |steps|
  {
    if steps == [] then w == w'
    else Allowed(w, steps[0]) && Run(Apply(w, steps[0]), steps[1..], w')
  }

  // ----- the invariant

  /** Volumes of a filesystem that are not deleted, with what they were granted. */
  ghost function Obligations(w: World, fs: string): map<string, int>
  {
    map v | v in w.granted && v !in w.deleted && w.granted[v].fs == fs :: w.granted[v].bytes
  }

  /** Deleted volumes whose PersistentVolume the last refresh still counted. */
  ghost function Lingering(w: World, fs: string): map<string, int>
  {
    map v | v in w.listed && v in w.deleted && w.listed[v].fs == fs :: w.listed[v].bytes
  }

  /** PersistentVolumes of a filesystem whose volume is not deleted. */
  ghost function LivePvs(w: World, fs: string): map<string, int>
  {
    map v | v in w.pvs && v !in w.deleted && w.pvs[v].fs == fs :: w.pvs[v].bytes
  }

  /** Granted, stored, cached and listed sizes of a live volume, newest first. */
  ghost predicate ViewsLag(w: World)
  {
    && (forall v :: v in w.granted ==> w.granted[v].bytes >= 0)
    && (forall v :: v in w.listed ==> w.listed[v].bytes >= 0)
    && (forall v :: v in w.cache ==> w.cache[v].bytes >= 0)
    && (forall v :: v in w.pvs && v !in w.deleted ==>
                      v in w.granted && w.pvs[v].fs == w.granted[v].fs && w.pvs[v].bytes <= w.granted[v].bytes)
    && (forall v :: v in w.cache && v !in w.deleted ==>
                      v in w.pvs && w.cache[v].fs == w.pvs[v].fs && w.cache[v].bytes <= w.pvs[v].bytes)
    && (forall v :: v in w.listed && v !in w.deleted ==>
                      v in w.cache && w.listed[v].fs == w.granted[v].fs && w.listed[v].bytes <= w.cache[v].bytes)
  }

  /** Every live volume is covered: by a reservation up to what it was granted, or by a
      listed size that has reached it. */
  ghost predicate Covered(w: World)
  {
    && (forall v :: v in w.ledger.pending ==>
                      var r := w.ledger.pending[v];
                      && v in w.granted && v !in w.deleted && r.fs == w.granted[v].fs
                      && r.target == w.granted[v].bytes
                      && 0 <= r.source <= Bytes(w.listed, v) && r.source <= r.target)
    && (forall v :: v in w.granted && v !in w.deleted && v !in w.ledger.pending ==>
                      w.granted[v].bytes <= Bytes(w.listed, v))
  }

  /** The books of one filesystem: the confirmed capacity is that of the listed volumes,
      what was granted is available, and the ledger exceeds that only by what lingers. */
  ghost predicate Balanced(w: World, fs: string)
  {
    && At(w.ledger.confirmed, fs) == Sum(On(w.listed, fs))
    && Sum(Obligations(w, fs)) <= At(w.available, fs)
    && LedgerOn(w.ledger, fs) <= At(w.available, fs) + Sum(Lingering(w, fs))
  }

  ghost predicate Inv(w: World)
  {
    ViewsLag(w) && Covered(w) && forall fs :: Balanced(w, fs)
  }

  lemma SumIsNonNegative(m: map<string, int>)
    requires forall k :: k in m ==> m[k] >= 0
    ensures Sum(m) >= 0
  {
    var none: map<string, int> := map[];
    SumBounded(none, m, none);
  }

  /** The tracker never counts less than what it has granted. */
  lemma LedgerCoversGrants(w: World, fs: string)
    requires ViewsLag(w) && Covered(w) && Balanced(w, fs)
    ensures Sum(Obligations(w, fs)) <= LedgerOn(w.ledger, fs)
  {
    SumBounded(Obligations(w, fs), On(w.listed, fs), Growth(w.ledger.pending, fs));
  }

  // ----- every step keeps the invariant

  /** What the environment guarantees about a request, apart from the check. */
  ghost predicate ProperRequest(w: World, v: string, fs: string, current: int, target: int)
  {
    && v !in w.deleted
    && (v in w.granted ==> w.granted[v].fs == fs)
    && 0 <= current <= target
    && current <= Bytes(w.granted, v) <= target
  }

  lemma GrantRaisesObligation(w: World, v: string, fs: string, current: int, target: int, now: int)
    requires v !in w.deleted && (v in w.granted ==> w.granted[v].fs == fs)
    ensures Sum(Obligations(AfterGrant(w, v, fs, current, target, now), fs))
            == Sum(Obligations(w, fs)) - Bytes(w.granted, v) + target
  {
    assert Obligations(AfterGrant(w, v, fs, current, target, now), fs) == Obligations(w, fs)[v := target];
    SumPut(Obligations(w, fs), v, target);
  }

  lemma GrantTouchesOneFilesystem(w: World, v: string, fs: string, current: int, target: int, now: int, f: string)
    requires v in w.granted ==> w.granted[v].fs == fs
    requires v in w.ledger.pending ==> w.ledger.pending[v].fs == fs
    requires f != fs
    ensures var w' := AfterGrant(w, v, fs, current, target, now);
            Obligations(w', f) == Obligations(w, f) && Growth(w'.ledger.pending, f) == Growth(w.ledger.pending, f)
  {
  }

  lemma GrantKeepsBalance(w: World, v: string, fs: string, current: int, target: int, now: int, f: string)
    requires ViewsLag(w) && Covered(w) && Balanced(w, f) && ProperRequest(w, v, fs, current, target)
    requires f == fs ==> LedgerOn(w.ledger, fs) + target - current <= At(w.available, fs)
    ensures Balanced(AfterGrant(w, v, fs, current, target, now), f)
  {
    assert Lingering(AfterGrant(w, v, fs, current, target, now), f) == Lingering(w, f);
    if f == fs {
      GrantRaisesObligation(w, v, fs, current, target, now);
      LedgerCoversGrants(w, fs);
      GrantEffect(w.ledger, v, fs, current, target, now);
      SumIsNonNegative(Lingering(w, fs));
    } else {
      GrantTouchesOneFilesystem(w, v, fs, current, target, now, f);
    }
  }

  lemma GrantKeepsViews(w: World, v: string, fs: string, current: int, target: int, now: int)
    requires ViewsLag(w) && ProperRequest(w, v, fs, current, target)
    ensures ViewsLag(AfterGrant(w, v, fs, current, target, now))
  {
  }

  lemma GrantKeepsCover(w: World, v: string, fs: string, current: int, target: int, now: int)
    requires ViewsLag(w) && Covered(w) && ProperRequest(w, v, fs, current, target)
    ensures Covered(AfterGrant(w, v, fs, current, target, now))
  {
    var w' := AfterGrant(w, v, fs, current, target, now);
    assert forall u :: u in w'.ledger.pending && u != v ==> w'.ledger.pending[u] == w.ledger.pending[u];
  }

  lemma ReserveKeepsInv(w: World, step: Step)
    requires Inv(w) && step.ReserveCapacity? && Allowed(w, step)
    ensures Inv(Apply(w, step))
  {
    var ReserveCapacity(v, fs, current, target, observed, now) := step;
    if Verdict(w.ledger, v, fs, current, target, observed) == Granted {
      assert ProperRequest(w, v, fs, current, target);
      GrantKeepsViews(w, v, fs, current, target, now);
      GrantKeepsCover(w, v, fs, current, target, now);
      forall f
        ensures Balanced(AfterGrant(w, v, fs, current, target, now), f)
      {
        GrantKeepsBalance(w, v, fs, current, target, now, f);
      }
    }
  }

  /** After a refresh, each volume's share of the ledger is its grant, or what lingers. */
  lemma RefreshShares(w: World, fs: string, v: string)
    requires ViewsLag(w) && Covered(w)
    ensures var w' := AfterRefresh(w);
            At(On(w'.listed, fs), v) + At(Growth(w'.ledger.pending, fs), v)
            == At(Obligations(w, fs), v) + At(Lingering(w', fs), v)
  {
  }

  /** After a refresh the ledger is exactly the live obligations plus what lingers. */
  lemma RefreshIsExact(w: World, fs: string)
    requires ViewsLag(w) && Covered(w) && Fits(Sum(On(w.cache, fs)))
    ensures var w' := AfterRefresh(w);
            && At(w'.ledger.confirmed, fs) == Sum(On(w'.listed, fs))
            && Obligations(w', fs) == Obligations(w, fs)
            && LedgerOn(w'.ledger, fs) == Sum(Obligations(w', fs)) + Sum(Lingering(w', fs))
  {
    var w' := AfterRefresh(w);
    ConfirmedExactly(w.cache, fs);
    assert Obligations(w', fs) == Obligations(w, fs);
    forall v
      ensures At(On(w'.listed, fs), v) + At(Growth(w'.ledger.pending, fs), v)
              == At(Obligations(w, fs), v) + At(Lingering(w', fs), v)
    {
      RefreshShares(w, fs, v);
    }
    SumsAgree(On(w'.listed, fs), Growth(w'.ledger.pending, fs), Obligations(w, fs), Lingering(w', fs));
  }

  lemma RefreshKeepsViews(w: World)
    requires ViewsLag(w)
    ensures ViewsLag(AfterRefresh(w))
  {
  }

  lemma RefreshKeepsCover(w: World)
    requires ViewsLag(w) && Covered(w)
    ensures Covered(AfterRefresh(w))
  {
  }

  lemma RefreshKeepsInv(w: World)
    requires Inv(w) && Allowed(w, RefreshSucceeds)
    ensures Inv(AfterRefresh(w))
  {
    RefreshKeepsViews(w);
    RefreshKeepsCover(w);
    forall fs
      ensures Balanced(AfterRefresh(w), fs)
    {
      assert Balanced(w, fs);
      RefreshIsExact(w, fs);
    }
  }

  lemma DeleteMovesShare(w: World, v: string, fs: string)
    requires v !in w.deleted
    ensures var w' := AfterDelete(w, v);
            && Obligations(w', fs) == Obligations(w, fs) - {v}
            && Growth(w'.ledger.pending, fs) == Growth(w.ledger.pending, fs) - {v}
            && Lingering(w', fs) == if v in On(w.listed, fs) then Lingering(w, fs)[v := w.listed[v].bytes]
                                    else Lingering(w, fs)
  {
  }

  lemma DeleteKeepsBalance(w: World, v: string, fs: string)
    requires ViewsLag(w) && Covered(w) && Balanced(w, fs) && v !in w.deleted
    ensures Balanced(AfterDelete(w, v), fs)
  {
    DeleteMovesShare(w, v, fs);
    SumDrop(Obligations(w, fs), v);
    SumDrop(Growth(w.ledger.pending, fs), v);
    SumPut(Lingering(w, fs), v, Bytes(w.listed, v));
  }

  lemma DeleteKeepsInv(w: World, v: string)
    requires Inv(w) && v !in w.deleted
    ensures Inv(AfterDelete(w, v))
  {
    forall fs
      ensures Balanced(AfterDelete(w, v), fs)
    {
      DeleteKeepsBalance(w, v, fs);
    }
  }

  lemma EnvironmentKeepsBalance(w: World, step: Step, fs: string)
    requires Balanced(w, fs) && Allowed(w, step)
    requires step.PvAppearsOrGrows? || step.CacheSyncs? || step.PvVanishes? || step.FilesystemGrows?
    ensures Balanced(Apply(w, step), fs)
  {
    var w' := Apply(w, step);
    assert Obligations(w', fs) == Obligations(w, fs);
    assert Lingering(w', fs) == Lingering(w, fs);
  }

  lemma GrowthKeepsViews(w: World, v: string, bytes: int)
    requires ViewsLag(w) && Allowed(w, PvAppearsOrGrows(v, bytes))
    ensures ViewsLag(Apply(w, PvAppearsOrGrows(v, bytes)))
  {
  }

  lemma SyncKeepsViews(w: World, cache: map<string, Size>)
    requires ViewsLag(w) && Allowed(w, CacheSyncs(cache))
    ensures ViewsLag(Apply(w, CacheSyncs(cache)))
  {
  }

  lemma VanishKeepsViews(w: World, v: string)
    requires ViewsLag(w) && v in w.deleted
    ensures ViewsLag(Apply(w, PvVanishes(v)))
  {
  }

  lemma EnvironmentKeepsViews(w: World, step: Step)
    requires ViewsLag(w) && Allowed(w, step)
    requires step.PvAppearsOrGrows? || step.CacheSyncs? || step.PvVanishes? || step.FilesystemGrows?
    ensures ViewsLag(Apply(w, step))
  {
    match step
    case PvAppearsOrGrows(v, bytes) => GrowthKeepsViews(w, v, bytes);
    case CacheSyncs(cache) => SyncKeepsViews(w, cache);
    case PvVanishes(v) => VanishKeepsViews(w, v);
    case _ =>
  }

  lemma EnvironmentKeepsCover(w: World, step: Step)
    requires Covered(w)
    requires step.PvAppearsOrGrows? || step.CacheSyncs? || step.PvVanishes? || step.FilesystemGrows?
    ensures Covered(Apply(w, step))
  {
  }

  lemma EnvironmentKeepsInv(w: World, step: Step)
    requires Inv(w) && Allowed(w, step)
    requires step.PvAppearsOrGrows? || step.CacheSyncs? || step.PvVanishes? || step.FilesystemGrows?
    ensures Inv(Apply(w, step))
  {
    EnvironmentKeepsViews(w, step);
    EnvironmentKeepsCover(w, step);
    forall fs
      ensures Balanced(Apply(w, step), fs)
    {
      EnvironmentKeepsBalance(w, step, fs);
    }
  }

  lemma StepKeepsInv(w: World, step: Step)
    requires Inv(w) && Allowed(w, step)
    ensures Inv(Apply(w, step))
  {
    match step
    case ReserveCapacity(_, _, _, _, _, _) => ReserveKeepsInv(w, step);
    case RefreshSucceeds => RefreshKeepsInv(w);
    case RefreshFails =>
    case DeleteVolume(v) => DeleteKeepsInv(w, v);
    case _ => EnvironmentKeepsInv(w, step);
  }

  lemma InitialBalance(w: World, fs: string)
    requires Initial(w)
    ensures Balanced(w, fs)
  {
    ConfirmedExactly(w.pvs, fs);
    assert Obligations(w, fs) == On(w.pvs, fs);
    assert Growth(w.ledger.pending, fs) == map[];
    SumIsNonNegative(Lingering(w, fs));
  }

  lemma InitialInv(w: World)
    requires Initial(w)
    ensures Inv(w)
  {
    forall fs
      ensures Balanced(w, fs)
    {
      InitialBalance(w, fs);
    }
  }

  lemma {:induction false} RunKeepsInv(w: World, steps: seq<Step>, w': World)
    requires Inv(w) && Run(w, steps, w')
    ensures Inv(w')
    decreases |steps|
  {
    if steps != [] {
      StepKeepsInv(w, steps[0]);
      RunKeepsInv(Apply(w, steps[0]), steps[1..], w');
    }
  }

  ghost predicate Reachable(w: World)
  {
    exists start, steps :: Initial(start) && Run(start, steps, w)
  }

  lemma ReachableInv(w: World)
    requires Reachable(w)
    ensures Inv(w)
  {
    var start, steps :| Initial(start) && Run(start, steps, w);
    InitialInv(start);
    RunKeepsInv(start, steps, w);
  }

  /** No over-provisioning: in every state of every run, the PersistentVolumes of live
      directory volumes fit in their filesystem, as does everything granted to them. */
  lemma NeverOverProvisioned(w: World, fs: string)
    requires Reachable(w)
    ensures Sum(LivePvs(w, fs)) <= Sum(Obligations(w, fs)) <= At(w.available, fs)
    ensures forall v :: v in w.pvs && v !in w.deleted ==> v in w.granted && w.pvs[v].bytes <= w.granted[v].bytes
  {
    ReachableInv(w);
    assert Balanced(w, fs);
    var none: map<string, int> := map[];
    SumBounded(LivePvs(w, fs), Obligations(w, fs), none);
  }

  /** The ledger is never below what was granted, and never above what is available by
      more than the deleted volumes that the last refresh still saw. */
  lemma LedgerIsSandwiched(w: World, fs: string)
    requires Reachable(w)
    ensures Sum(Obligations(w, fs)) <= LedgerOn(w.ledger, fs) <= At(w.available, fs) + Sum(Lingering(w, fs))
  {
    ReachableInv(w);
    assert Balanced(w, fs);
    LedgerCoversGrants(w, fs);
  }

  /** A refresh makes the ledger exact, whatever the cache has missed. */
  lemma RefreshSettlesTheBooks(w: World, fs: string)
    requires Reachable(w) && Allowed(w, RefreshSucceeds)
    ensures var r := Apply(w, RefreshSucceeds);
            LedgerOn(r.ledger, fs) == Sum(Obligations(r, fs)) + Sum(Lingering(r, fs))
  {
    ReachableInv(w);
    RefreshIsExact(w, fs);
  }

  // ----- when a request is granted

  lemma ExactVerdict(l: Ledger, v: string, fs: string, current: int, target: int, observed: int)
    requires v in l.pending ==> l.pending[v].target <= target
    requires Fits(LedgerOn(l, fs) + target - current)
    ensures Verdict(l, v, fs, current, target, observed) == Granted <==> LedgerOn(l, fs) + target - current <= observed
  {
  }

  /** What is granted or still listed on a filesystem after a refresh. */
  ghost function Held(w: World, fs: string): int
  {
    Sum(Obligations(w, fs)) + Sum(Lingering(AfterRefresh(w), fs))
  }

  /** Right after a refresh, a first request, a retry or an expansion is granted exactly
      when the difference between its two sizes fits beside everything held. */
  lemma FreshVerdictIsExact(w: World, v: string, fs: string, current: int, target: int, observed: int)
    requires Reachable(w) && Allowed(w, RefreshSucceeds) && ProperRequest(w, v, fs, current, target)
    requires Fits(Held(w, fs) + target - current)
    ensures Verdict(Apply(w, RefreshSucceeds).ledger, v, fs, current, target, observed) == Granted
            <==> Held(w, fs) + target - current <= observed
  {
    assert Inv(w) by {
      ReachableInv(w);
    }
    RefreshIsExact(w, fs);
    RefreshKeepsCover(w);
    ExactVerdict(AfterRefresh(w).ledger, v, fs, current, target, observed);
  }

  /** Whether the volume, at its new size, fits beside everything granted to others. */
  ghost predicate FitsIn(w: World, v: string, fs: string, target: int, observed: int)
  {
    Sum(Obligations(w, fs)) - Bytes(w.granted, v) + target <= observed
  }

  /** So the verdict says whether the volume fits, for every free space, exactly when no
      deleted volume is still listed and the request starts from the size granted before. A
      retry does not: its reservation is counted beside it. */
  lemma VerdictMeansFitExactly(w: World, v: string, fs: string, current: int, target: int)
    requires Reachable(w) && Allowed(w, RefreshSucceeds) && ProperRequest(w, v, fs, current, target)
    requires Fits(Held(w, fs) + target - current)
    ensures (forall observed ::
               Verdict(Apply(w, RefreshSucceeds).ledger, v, fs, current, target, observed) == Granted
               <==> FitsIn(w, v, fs, target, observed))
            <==> Sum(Lingering(AfterRefresh(w), fs)) == 0 && current == Bytes(w.granted, v)
  {
    var l := Apply(w, RefreshSucceeds).ledger;
    LingeringIsNonNegative(w, fs);
    forall observed
      ensures Verdict(l, v, fs, current, target, observed) == Granted <==> Held(w, fs) + target - current <= observed
    {
      FreshVerdictIsExact(w, v, fs, current, target, observed);
    }
    var least := Sum(Obligations(w, fs)) - Bytes(w.granted, v) + target;
    assert FitsIn(w, v, fs, target, least);
    assert Verdict(l, v, fs, current, target, least) == Granted <==> Held(w, fs) + target - current <= least;
  }

  lemma LingeringIsNonNegative(w: World, fs: string)
    requires Reachable(w)
    ensures Sum(Lingering(AfterRefresh(w), fs)) >= 0
  {
    ReachableInv(w);
    SumIsNonNegative(Lingering(AfterRefresh(w), fs));
  }

  /** A request granted all the free space is rejected when it is repeated, although
      granting it again would not change the ledger. */
  lemma RetryIsRejected(v: string, fs: string, size: int, now: int)
    requires 0 < 2 * size <= MAX_INT64
    ensures var l := Reserve(Ledger(map[], map[]), v, fs, 0, size, size, now);
            && Verdict(Ledger(map[], map[]), v, fs, 0, size, size) == Granted
            && LedgerOn(l, fs) == size
            && Verdict(l, v, fs, 0, size, size) == Rejected(InsufficientCapacity)
            && LedgerOn(l.(pending := Record(l.pending, v, fs, 0, size, now)), fs) == size
  {
    var empty := Ledger(map[], map[]);
    assert Growth(empty.pending, fs) == map[];
    GrantEffect(empty, v, fs, 0, size, now);
    var l := Reserve(empty, v, fs, 0, size, size, now);
    GrantEffect(l, v, fs, 0, size, now);
  }

  // ----- overflow

  lemma NewVolumeAddsItsSize(w: World, v: string, fs: string, target: int, now: int)
    requires v !in w.granted && v !in w.deleted
    ensures Sum(Obligations(AfterGrant(w, v, fs, 0, target, now), fs)) == Sum(Obligations(w, fs)) + target
  {
    assert Obligations(AfterGrant(w, v, fs, 0, target, now), fs) == Obligations(w, fs)[v := target];
    SumPut(Obligations(w, fs), v, target);
  }

  /** Why the checked sum must not overflow: a first request on a filesystem of at most 63
      bits is granted more than is available exactly when its sum exceeds 63 bits. */
  lemma OverflowOverProvisions(w: World, v: string, fs: string, target: int, now: int)
    requires Initial(w) && v !in w.granted && 0 <= target <= MAX_INT64 && 0 <= At(w.available, fs) <= MAX_INT64
    ensures var w' := Apply(w, ReserveCapacity(v, fs, 0, target, At(w.available, fs), now));
            Sum(Obligations(w', fs)) > At(w.available, fs) <==> Sum(Obligations(w, fs)) + target > MAX_INT64
  {
    InitialLedger(w, fs);
    FirstVerdict(w.ledger, v, fs, target, At(w.available, fs));
    NewVolumeAddsItsSize(w, v, fs, target, now);
  }

  lemma FirstVerdict(l: Ledger, v: string, fs: string, target: int, available: int)
    requires v !in l.pending && 0 <= target <= MAX_INT64 && 0 <= LedgerOn(l, fs) <= available <= MAX_INT64
    ensures Verdict(l, v, fs, 0, target, available) == Granted
            <==> LedgerOn(l, fs) + target <= available || LedgerOn(l, fs) + target > MAX_INT64
  {
    CheckIsExactUntilOverflow(LedgerOn(l, fs), target, available);
  }

  lemma InitialLedger(w: World, fs: string)
    requires Initial(w)
    ensures 0 <= LedgerOn(w.ledger, fs) == Sum(Obligations(w, fs)) <= At(w.available, fs)
  {
    ConfirmedExactly(w.pvs, fs);
    assert Obligations(w, fs) == On(w.pvs, fs);
    assert Growth(w.ledger.pending, fs) == map[];
    SumIsNonNegative(Obligations(w, fs));
  }

  /** A concrete run that over-provisions: one byte is confirmed, one is available, and
      2^63 - 1 are granted on top. */
  lemma OverflowGrants(u: string, v: string, fs: string, now: int) returns (w: World)
    requires u != v
    ensures Initial(w) && At(w.available, fs) == 1
    ensures var w' := Apply(w, ReserveCapacity(v, fs, 0, MAX_INT64, 1, now));
            Sum(Obligations(w', fs)) == MAX_INT64 + 1
  {
    var pvs := map[u := Size(fs, 1)];
    w := World(Ledger(Confirmed(pvs), map[]), pvs, pvs, pvs, pvs, {}, map[fs := 1]);
    forall g
      ensures Sum(On(pvs, g)) == if g == fs then 1 else 0
    {
      OneVolume(u, fs, g);
    }
    assert Initial(w);
    InitialLedger(w, fs);
    assert Obligations(w, fs) == On(pvs, fs);
    FirstVerdict(w.ledger, v, fs, MAX_INT64, 1);
    NewVolumeAddsItsSize(w, v, fs, MAX_INT64, now);
  }

  lemma OneVolume(u: string, fs: string, g: string)
    ensures Sum(On(map[u := Size(fs, 1)], g)) == if g == fs then 1 else 0
  {
    var none: map<string, int> := map[];
    SumPut(none, u, 1);
    if g == fs {
      assert On(map[u := Size(fs, 1)], g) == none[u := 1];
    } else {
      assert On(map[u := Size(fs, 1)], g) == none;
    }
  }

  /** What a caller can look at to rule overflow out: sizes of at most a quarter of the
      range on the filesystem, in its last list and in the request. */
  lemma SmallSizesDoNotOverflow(w: World, v: string, fs: string, current: int, target: int)
    requires Reachable(w) && 0 <= current <= target <= MAX_INT64 / 4
    requires At(w.available, fs) <= MAX_INT64 / 4 && Sum(On(w.listed, fs)) <= MAX_INT64 / 4
    ensures Fits(LedgerOn(w.ledger, fs) + target - current)
  {
    ReachableInv(w);
    LedgerIsSandwiched(w, fs);
    SumIsNonNegative(Obligations(w, fs));
    var none: map<string, int> := map[];
    SumBounded(Lingering(w, fs), On(w.listed, fs), none);
  }
}
