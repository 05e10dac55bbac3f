/** The capacity tracker of the controller server: confirmed capacity from the last
    PersistentVolume list plus pending reservations, all in int64 arithmetic. */
module Capacity {
  import opened Int64
  import opened Sums
  import opened Wrappers
  import Text
  import opened Ids
  import opened Provenance

  const REFRESH_INTERVAL_SECONDS: int := 5

  datatype Reservation = Reservation(fs: string, source: int, target: int, timestamp: int)

  /** A PersistentVolume: its CSI driver and handle, if any, and its storage capacity. */
  datatype PV = PV(csi: Option<(string, string)>, storage: Option<int>)

  datatype Outcome = Granted | Skipped | Rejected(reason: Reason)
  datatype Reason = TrackerMissing | FilesystemUnavailable | ConflictingExpansion | InsufficientCapacity

  // ----- what a PersistentVolume list says

  /** A volume's filesystem and its size in bytes. */
  datatype Size = Size(fs: string, bytes: int)

  predicate Counted(driver: string, pv: PV)
  {
    pv.csi.Some? && pv.csi.value.0 == driver && Confirmable(pv.csi.value.1) && pv.storage.Some?
  }

  /** A counted volume of a list. */
  datatype Entry = Entry(v: string, size: Size)

  function Entries(driver: string, list: seq<PV>): seq<Entry>
  {
    if list == [] then []
    else
      var front, pv := Entries(driver, list[..|list| - 1]), list[|list| - 1];
      if Counted(driver, pv) then front + [EntryOf(pv)] else front
  }

  function EntryOf(pv: PV): Entry
    requires pv.csi.Some? && pv.storage.Some?
  {
    Entry(pv.csi.value.1, Size(SliceFilesystem(pv.csi.value.1), pv.storage.value))
  }

  lemma EntriesPrefix(driver: string, list: seq<PV>, i: nat)
    requires i < |list|
    ensures var es := Entries(driver, list[..i]);
            Entries(driver, list[..i + 1]) == if Counted(driver, list[i]) then es + [EntryOf(list[i])] else es
  {
    assert list[..i + 1][..i] == list[..i];
  }

  lemma {:induction false} EntriesConcat(driver: string, a: seq<PV>, b: seq<PV>)
    ensures Entries(driver, a + b) == Entries(driver, a) + Entries(driver, b)
    decreases |b|
  {
    if b == [] {
      assert a + b == a;
    } else {
      var n := |a + b| - 1;
      EntriesConcat(driver, a, b[..|b| - 1]);
      assert (a + b)[..n] == a + b[..|b| - 1] && (a + b)[n] == b[|b| - 1];
    }
  }

  lemma EntriesOfOne(driver: string, pv: PV)
    ensures Entries(driver, [pv]) == if Counted(driver, pv) then [EntryOf(pv)] else []
  {
    var none: seq<PV> := [];
    assert [pv][..0] == none;
    assert Entries(driver, none) == [];
  }

  /** A PersistentVolume of another driver, without CSI or without a storage capacity might
      as well not be listed. */
  lemma OtherVolumesAreIgnored(driver: string, a: seq<PV>, pv: PV, b: seq<PV>)
    requires (pv.csi.Some? ==> pv.csi.value.0 != driver) || pv.storage.None?
    ensures Entries(driver, a + [pv] + b) == Entries(driver, a + b)
  {
    EntriesConcat(driver, a + [pv], b);
    EntriesConcat(driver, a, [pv]);
    EntriesConcat(driver, a, b);
    EntriesOfOne(driver, pv);
    assert Entries(driver, a) + [] == Entries(driver, a);
  }

  /** A listed volume of the driver is one entry, under its own handle and the filesystem
      that the handle was printed from, exactly when it is a directory that is not on a
      snapshot and whose path holds no colon. */
  lemma OwnVolumeIsCountedExactly(driver: string, t: string, fs: string, ap: string, inner: string, bytes: int)
    requires |Text.Split(t, '/')| == 2 && ':' !in t && Plain(fs) && '/' !in ap && fs != ""
    ensures var id := VolumeId(t, fs, ap, inner);
            Entries(driver, [PV(Some((driver, id)), Some(bytes))])
            == if inner != "" && ap == "" && ':' !in inner then [Entry(id, Size(fs, bytes))] else []
  {
    EntriesOfOne(driver, PV(Some((driver, VolumeId(t, fs, ap, inner))), Some(bytes)));
    ConfirmableExactly(t, fs, ap, inner);
  }

  /** The sizes of the volumes of one filesystem. */
  function On(m: map<string, Size>, fs: string): map<string, int>
  {
    map v | v in m && m[v].fs == fs :: m[v].bytes
  }

  /** The pending growth of each volume of a filesystem. */
  function Growth(pending: map<string, Reservation>, fs: string): map<string, int>
  {
    map v | v in pending && pending[v].fs == fs :: pending[v].target - pending[v].source
  }

  // ----- the specification of a refresh, for any list

  function FilesystemsIn(es: seq<Entry>): set<string>
  {
    set e | e in es :: e.size.fs
  }

  /** The sizes of all entries of a filesystem together. */
  function TotalOn(es: seq<Entry>, fs: string): int
  {
    if es == [] then 0
    else
      var e := es[|es| - 1];
      TotalOn(es[..|es| - 1], fs) + if e.size.fs == fs then e.size.bytes else 0
  }

  /** The confirmed capacities: every entry counts, also a second one of the same volume. */
  function Tally(es: seq<Entry>): map<string, int>
  {
    map fs | fs in FilesystemsIn(es) :: Wrap(TotalOn(es, fs))
  }

  /** The sizes a list gives for one volume, in its order. */
  function SizesOf(es: seq<Entry>, v: string): seq<int>
  {
    if es == [] then []
    else
      var e := es[|es| - 1];
      if e.v == v then SizesOf(es[..|es| - 1], v) + [e.size.bytes] else SizesOf(es[..|es| - 1], v)
  }

  predicate Reached(sizes: seq<int>, target: int)
  {
    exists i :: 0 <= i < |sizes| && sizes[i] >= target
  }

  /** A reservation that any size has reached is dropped; others now start from the last. */
  function SettleOne(r: Reservation, sizes: seq<int>): Option<Reservation>
  {
    if Reached(sizes, r.target) then None
    else if sizes == [] then Some(r)
    else Some(r.(source := sizes[|sizes| - 1]))
  }

  function Settle(pending: map<string, Reservation>, es: seq<Entry>): map<string, Reservation>
  {
    Collect(Fates(pending, es))
  }

  function Fates(pending: map<string, Reservation>, es: seq<Entry>): map<string, Option<Reservation>>
  {
    map v | v in pending :: SettleOne(pending[v], SizesOf(es, v))
  }

  function Collect(fates: map<string, Option<Reservation>>): map<string, Reservation>
  {
    map v | v in fates && fates[v].Some? :: fates[v].value
  }

  function Refreshed(pending: map<string, Reservation>, es: seq<Entry>): Ledger
  {
    Ledger(Tally(es), Settle(pending, es))
  }

  lemma FilesystemsOneMore(es: seq<Entry>, e: Entry)
    ensures FilesystemsIn(es + [e]) == FilesystemsIn(es) + {e.size.fs}
  {
    forall x | x in FilesystemsIn(es + [e])
      ensures x in FilesystemsIn(es) + {e.size.fs}
    {
      var d :| d in es + [e] && d.size.fs == x;
      assert d == e || d in es;
    }
    forall x | x in FilesystemsIn(es)
      ensures x in FilesystemsIn(es + [e])
    {
      var d :| d in es && d.size.fs == x;
      assert d in es + [e];
    }
    assert e in es + [e];
  }

  lemma TotalOneMore(es: seq<Entry>, e: Entry, fs: string)
    ensures TotalOn(es + [e], fs) == TotalOn(es, fs) + if e.size.fs == fs then e.size.bytes else 0
  {
    assert (es + [e])[..|es|] == es;
  }

  lemma {:induction false} NothingElsewhere(es: seq<Entry>, fs: string)
    requires fs !in FilesystemsIn(es)
    ensures TotalOn(es, fs) == 0
  {
    if es != [] {
      var front, e := es[..|es| - 1], es[|es| - 1];
      assert es == front + [e];
      FilesystemsOneMore(front, e);
      NothingElsewhere(front, fs);
    }
  }

  lemma TallyAt(es: seq<Entry>, fs: string)
    ensures At(Tally(es), fs) == Wrap(TotalOn(es, fs))
  {
    if fs !in FilesystemsIn(es) {
      NothingElsewhere(es, fs);
    }
  }

  /** One more entry adds its size to its own filesystem only. */
  lemma TallyOneMore(es: seq<Entry>, e: Entry)
    ensures Tally(es + [e]) == Tally(es)[e.size.fs := Wrap(At(Tally(es), e.size.fs) + e.size.bytes)]
  {
    FilesystemsOneMore(es, e);
    forall fs | fs in FilesystemsIn(es) && fs != e.size.fs
      ensures Tally(es + [e])[fs] == Tally(es)[fs]
    {
      TotalOneMore(es, e, fs);
    }
    TallyAtOwn(es, e);
  }

  lemma TallyAtOwn(es: seq<Entry>, e: Entry)
    ensures Wrap(TotalOn(es + [e], e.size.fs)) == Wrap(At(Tally(es), e.size.fs) + e.size.bytes)
  {
    TotalOneMore(es, e, e.size.fs);
    TallyAt(es, e.size.fs);
    WrapAbsorbs(TotalOn(es, e.size.fs), e.size.bytes);
  }

  lemma SizesOneMore(es: seq<Entry>, e: Entry, v: string)
    ensures SizesOf(es + [e], v) == if e.v == v then SizesOf(es, v) + [e.size.bytes] else SizesOf(es, v)
  {
    assert (es + [e])[..|es|] == es;
  }

  /** What an entry makes of a volume's reservation. */
  function Next(r: Option<Reservation>, v: string, e: Entry): Option<Reservation>
  {
    if r.None? || e.v != v then r
    else if e.size.bytes >= r.value.target then None
    else Some(r.value.(source := e.size.bytes))
  }

  lemma SettleOneStep(r: Reservation, sizes: seq<int>, x: int)
    ensures SettleOne(r, sizes + [x])
            == if SettleOne(r, sizes).None? || x >= r.target then None else Some(r.(source := x))
  {
    if Reached(sizes, r.target) {
      var i :| 0 <= i < |sizes| && sizes[i] >= r.target;
      assert (sizes + [x])[i] >= r.target;
    }
    assert (sizes + [x])[|sizes|] == x;
  }

  /** One more entry settles the reservation of its own volume only. */
  lemma SettleOneMore(pending: map<string, Reservation>, es: seq<Entry>, e: Entry)
    ensures var before := Settle(pending, es);
            Settle(pending, es + [e])
            == if e.v !in before then before
               else if e.size.bytes >= before[e.v].target then before - {e.v}
               else before[e.v := before[e.v].(source := e.size.bytes)]
  {
    forall v | v in pending
      ensures Fates(pending, es + [e])[v] == Next(Fates(pending, es)[v], v, e)
    {
      NextFate(pending[v], es, e, v);
    }
    CollectNext(Fates(pending, es), Fates(pending, es + [e]), e);
  }

  lemma NextFate(r: Reservation, es: seq<Entry>, e: Entry, v: string)
    ensures SettleOne(r, SizesOf(es + [e], v)) == Next(SettleOne(r, SizesOf(es, v)), v, e)
  {
    SizesOneMore(es, e, v);
    SettleOneStep(r, SizesOf(es, v), e.size.bytes);
  }

  lemma CollectNext(before: map<string, Option<Reservation>>, after: map<string, Option<Reservation>>, e: Entry)
    requires before.Keys == after.Keys && forall v :: v in before ==> after[v] == Next(before[v], v, e)
    ensures var kept := Collect(before);
            Collect(after)
            == if e.v !in kept then kept
               else if e.size.bytes >= kept[e.v].target then kept - {e.v}
               else kept[e.v := kept[e.v].(source := e.size.bytes)]
  {
  }

  // ----- the specification of a refresh whose list names every volume once

  predicate DistinctHandles(es: seq<Entry>)
  {
    forall i, j :: 0 <= i < j < |es| ==> es[i].v != es[j].v
  }

  /** The listed sizes, by volume. */
  function Listed(es: seq<Entry>): map<string, Size>
  {
    if es == [] then map[]
    else
      var e := es[|es| - 1];
      Listed(es[..|es| - 1])[e.v := e.size]
  }

  function Filesystems(listed: map<string, Size>): set<string>
  {
    set v | v in listed :: listed[v].fs
  }

  ghost function Confirmed(listed: map<string, Size>): map<string, int>
  {
    map fs | fs in Filesystems(listed) :: Wrap(Sum(On(listed, fs)))
  }

  /** Reservations that a listed PV has reached are dropped; the others now start from
      the listed size. */
  function Settled(pending: map<string, Reservation>, listed: map<string, Size>): map<string, Reservation>
  {
    map v | v in pending && !(v in listed && listed[v].bytes >= pending[v].target)
      :: if v in listed then pending[v].(source := listed[v].bytes) else pending[v]
  }

  // ----- the specification of a reservation

  datatype Ledger = Ledger(confirmed: map<string, int>, pending: map<string, Reservation>)

  /** Confirmed plus pending capacity of a filesystem, exactly. */
  ghost function LedgerOn(l: Ledger, fs: string): int
  {
    At(l.confirmed, fs) + Sum(Growth(l.pending, fs))
  }

  ghost function Verdict(l: Ledger, v: string, fs: string, current: int, target: int, available: int): Outcome
  {
    if v in l.pending && target < l.pending[v].target then Rejected(ConflictingExpansion)
    else if Wrap(LedgerOn(l, fs) + target - current) > available then Rejected(InsufficientCapacity)
    else Granted
  }

  function Record(pending: map<string, Reservation>, v: string, fs: string, current: int, target: int,
                  now: int): map<string, Reservation>
  {
    pending[v := Reservation(fs, if v in pending then pending[v].source else current, target, now)]
  }

  ghost function Reserve(l: Ledger, v: string, fs: string, current: int, target: int, available: int, now: int): Ledger
  {
    if Verdict(l, v, fs, current, target, available) == Granted
    then l.(pending := Record(l.pending, v, fs, current, target, now))
    else l
  }

  // ----- the tracker

  class CapacityTracker {
    var confirmed: map<string, int>
    var pending: map<string, Reservation>
    var lastRefresh: int
    const hasManager: bool

    constructor (hasManager: bool)
      ensures confirmed == map[] && pending == map[] && this.hasManager == hasManager
    {
      this.hasManager := hasManager;
      confirmed, pending, lastRefresh := map[], map[], 0;
    }

    ghost function State(): Ledger
      reads this
    {
      Ledger(confirmed, pending)
    }

    /** refreshFromKubernetesLocked; listing is None when the List call fails. */
    method Refresh(driver: string, listing: Option<seq<PV>>, now: int) returns (ok: bool)
      modifies this
      ensures ok == (hasManager && listing.Some?)
      ensures !ok ==> State() == old(State()) && lastRefresh == old(lastRefresh)
      ensures ok ==> lastRefresh == now
      ensures ok ==> State() == Refreshed(old(pending), Entries(driver, listing.value))
    {
      if !hasManager || listing.None? {
        return false;
      }
      var list := listing.value;
      var capacityByFs: map<string, int> := map[];
      assert Settle(pending, []) == pending;
      for i := 0 to |list|
        invariant capacityByFs == Tally(Entries(driver, list[..i]))
        invariant pending == Settle(old(pending), Entries(driver, list[..i]))
        invariant confirmed == old(confirmed)
      {
        EntriesPrefix(driver, list, i);
        if Counted(driver, list[i]) {
          capacityByFs := CountVolume(EntryOf(list[i]), capacityByFs, old(pending), Entries(driver, list[..i]));
        }
      }
      assert list[..|list|] == list;
      confirmed, lastRefresh := capacityByFs, now;
      return true;
    }

    /** The loop body for a PersistentVolume that counts. */
    method CountVolume(e: Entry, capacityByFs: map<string, int>, ghost start: map<string, Reservation>,
                       ghost es: seq<Entry>)
      returns (capacityByFs': map<string, int>)
      requires capacityByFs == Tally(es) && pending == Settle(start, es)
      modifies this`pending
      ensures capacityByFs' == Tally(es + [e]) && pending == Settle(start, es + [e])
    {
      TallyOneMore(es, e);
      SettleOneMore(start, es, e);
      capacityByFs' := capacityByFs[e.size.fs := Wrap(At(capacityByFs, e.size.fs) + e.size.bytes)];
      UpdateReservation(e.v, e.size.bytes);
    }

    /** What a listed PersistentVolume does to the reservation of its volume. */
    method UpdateReservation(volumeId: string, size: int)
      modifies this`pending
      ensures pending == if volumeId !in old(pending) then old(pending)
                         else if size >= old(pending)[volumeId].target then old(pending) - {volumeId}
                         else old(pending)[volumeId := old(pending)[volumeId].(source := size)]
    {
      if volumeId in pending {
        if size >= pending[volumeId].target {
          pending := pending - {volumeId};
        } else {
          pending := pending[volumeId := pending[volumeId].(source := size)];
        }
      }
    }

    /** getPendingCapacityLocked: a loop over a map, in whatever order it comes. */
    method GetPendingCapacity(fs: string) returns (total: int)
      ensures total == Wrap(Sum(Growth(pending, fs)))
    {
      total := 0;
      var rest := pending.Keys;
      ghost var growth, done := Growth(pending, fs), {};
      while rest != {}
        invariant rest <= pending.Keys && done == growth.Keys - rest
        invariant total == Wrap(Total(done, growth))
        decreases rest
      {
        var v :| v in rest;
        rest := rest - {v};
        if pending[v].fs == fs {
          AddWrapped(growth, done, v);
          done := done + {v};
          total := Wrap(total + Wrap(pending[v].target - pending[v].source));
        }
      }
      assert done == growth.Keys;
    }

    /** The part of validateAndReserveCapacity that compares and records. */
    method TryReserve(v: string, fs: string, current: int, target: int, available: int, now: int)
      returns (outcome: Outcome)
      modifies this`pending
      ensures outcome == Verdict(old(State()), v, fs, current, target, available)
      ensures State() == Reserve(old(State()), v, fs, current, target, available, now)
    {
      var source := current;
      if v in pending {
        if target < pending[v].target {
          return Rejected(ConflictingExpansion);
        }
        source := pending[v].source;
      }
      var pendingCapacity := GetPendingCapacity(fs);
      var required := Wrap(Wrap(At(confirmed, fs) + pendingCapacity) + Wrap(target - current));
      ThreeWraps(At(confirmed, fs), Sum(Growth(pending, fs)), target - current);
      if required > available {
        return Rejected(InsufficientCapacity);
      }
      pending := pending[v := Reservation(fs, source, target, now)];
      return Granted;
    }

    /** deleteReservationLocked */
    method Release(v: string)
      modifies this`pending
      ensures pending == old(pending) - {v}
    {
      pending := pending - {v};
    }
  }

  lemma AddWrapped(growth: map<string, int>, done: set<string>, v: string)
    requires v in growth && v !in done
    ensures Wrap(Wrap(Total(done, growth)) + Wrap(growth[v])) == Wrap(Total(done + {v}, growth))
  {
    TotalPut(done, growth, v);
    WrapAbsorbs(Total(done, growth), Wrap(growth[v]));
    WrapAbsorbs(growth[v], Total(done, growth));
  }

  // ----- the controller server

  /** The answer to the filesystem query of a request. */
  datatype FsQuery = QueryFailed | NoSuchFilesystem | Filesystem(availableSsd: int)

  class ControllerServer {
    const tracker: CapacityTracker?
    const driver: string
    const enforce: bool

    constructor (tracker: CapacityTracker?, driver: string, enforce: bool)
      ensures this.tracker == tracker && this.driver == driver && this.enforce == enforce
    {
      this.tracker, this.driver, this.enforce := tracker, driver, enforce;
    }

    /** Whether a request brings fresh data. */
    predicate Refreshes(listing: Option<seq<PV>>, now: int)
      requires tracker != null
      reads tracker
    {
      now - tracker.lastRefresh > REFRESH_INTERVAL_SECONDS && tracker.hasManager && listing.Some?
    }

    /** The reservations that a request sees, after the refresh it may trigger. */
    ghost function Seen(listing: Option<seq<PV>>, now: int): Ledger
      requires tracker != null
      reads tracker
    {
      if Refreshes(listing, now) then Refreshed(tracker.pending, Entries(driver, listing.value))
      else tracker.State()
    }

    /** validateAndReserveCapacity: refresh when the data is old, then check and record
        atomically. A failing refresh leaves the stale data in use. */
    method ValidateAndReserve(v: Volume, current: int, target: int, query: FsQuery,
                              listing: Option<seq<PV>>, now: int) returns (outcome: Outcome)
      modifies tracker
      ensures !Reservable(v) ==> outcome == Skipped
      ensures Reservable(v) && tracker == null ==> outcome == Rejected(TrackerMissing)
      ensures Reservable(v) && tracker != null && !query.Filesystem? ==> outcome == Rejected(FilesystemUnavailable)
      ensures tracker != null && (!Reservable(v) || !query.Filesystem?) ==> tracker.State() == old(tracker.State())
      ensures tracker != null ==>
                tracker.lastRefresh == if Reservable(v) && query.Filesystem? && old(Refreshes(listing, now)) then now
                                       else old(tracker.lastRefresh)
      ensures Reservable(v) && tracker != null && query.Filesystem? && tracker.hasManager && listing.Some? ==>
                now - tracker.lastRefresh <= 5
      ensures Reservable(v) && tracker != null && query.Filesystem? ==>
                && outcome == Verdict(old(Seen(listing, now)), v.id, v.fs, current, target, query.availableSsd)
                && tracker.State()
                   == Reserve(old(Seen(listing, now)), v.id, v.fs, current, target, query.availableSsd, now)
    {
      if !v.HasInnerPath() || v.OnSnapshot() {
        return Skipped;
      }
      if tracker == null {
        return Rejected(TrackerMissing);
      }
      if !query.Filesystem? {
        return Rejected(FilesystemUnavailable);
      }
      if now - tracker.lastRefresh > REFRESH_INTERVAL_SECONDS {
        var ok := tracker.Refresh(driver, listing, now);
      }
      outcome := tracker.TryReserve(v.id, v.fs, current, target, query.availableSsd, now);
    }

    /** releaseCapacityReservation, called after a successful delete. */
    method ReleaseReservation(volumeId: string)
      modifies tracker
      ensures tracker != null ==>
                && tracker.confirmed == old(tracker.confirmed) && tracker.lastRefresh == old(tracker.lastRefresh)
                && tracker.pending == if enforce then old(tracker.pending) - {volumeId} else old(tracker.pending)
    {
      if enforce && tracker != null {
        tracker.Release(volumeId);
      }
    }
  }

  lemma ThreeWraps(a: int, b: int, c: int)
    ensures Wrap(Wrap(a + Wrap(b)) + Wrap(c)) == Wrap(a + b + c)
  {
    WrapAbsorbs(b, a);
    WrapAbsorbs(a + b, Wrap(c));
    WrapAbsorbs(c, a + b);
  }

  /** So a refresh does not see them either. */
  lemma RefreshIgnoresOtherVolumes(pending: map<string, Reservation>, driver: string, a: seq<PV>, pv: PV, b: seq<PV>)
    requires (pv.csi.Some? ==> pv.csi.value.0 != driver) || pv.storage.None?
    ensures Refreshed(pending, Entries(driver, a + [pv] + b)) == Refreshed(pending, Entries(driver, a + b))
  {
    OtherVolumesAreIgnored(driver, a, pv, b);
  }

  // ----- reservations that no list settles

  lemma {:induction false} UncountedHasNoSizes(driver: string, list: seq<PV>, v: string)
    requires !Confirmable(v)
    ensures SizesOf(Entries(driver, list), v) == []
    decreases |list|
  {
    if list != [] {
      UncountedHasNoSizes(driver, list[..|list| - 1], v);
      if Counted(driver, list[|list| - 1]) {
        SizesOneMore(Entries(driver, list[..|list| - 1]), EntryOf(list[|list| - 1]), v);
      }
    }
  }

  lemma CountedIsSettled(driver: string, pending: map<string, Reservation>, v: string)
    requires v in pending && Confirmable(v)
    ensures v !in Settle(pending, Entries(driver, [PV(Some((driver, v)), Some(pending[v].target))]))
  {
    var pv := PV(Some((driver, v)), Some(pending[v].target));
    var none: seq<PV> := [];
    assert [pv][..0] == none;
    assert Entries(driver, none) == [];
    assert Entries(driver, [pv]) == [EntryOf(pv)];
    SizesOneMore([], EntryOf(pv), v);
    assert [] + [EntryOf(pv)] == [EntryOf(pv)];
    SettleSingle(pending[v], pending[v].target);
  }

  /** A reservation stays for ever, whatever lists come, exactly when the filter of the
      refresh does not count its volume. */
  lemma NeverSettledExactly(driver: string, pending: map<string, Reservation>, v: string)
    requires v in pending
    ensures (forall list :: v in Settle(pending, Entries(driver, list))) <==> !Confirmable(v)
  {
    if Confirmable(v) {
      CountedIsSettled(driver, pending, v);
    } else {
      forall list
        ensures v in Settle(pending, Entries(driver, list))
      {
        UncountedHasNoSizes(driver, list, v);
        SettleSingle(pending[v], 0);
      }
    }
  }

  // ----- lists that name every volume once

  lemma {:induction false} ListedVolumes(es: seq<Entry>, v: string)
    ensures v in Listed(es) <==> exists i :: 0 <= i < |es| && es[i].v == v
  {
    if es != [] {
      ListedVolumes(es[..|es| - 1], v);
      if v in Listed(es) && v != es[|es| - 1].v {
        var i :| 0 <= i < |es| - 1 && es[..|es| - 1][i].v == v;
        assert es[i].v == v;
      }
      if i :| 0 <= i < |es| - 1 && es[i].v == v {
        assert es[..|es| - 1][i].v == v;
      }
    }
  }

  lemma {:induction false} TotalIsSum(es: seq<Entry>, fs: string)
    requires DistinctHandles(es)
    ensures TotalOn(es, fs) == Sum(On(Listed(es), fs))
  {
    if es != [] {
      var front, e := es[..|es| - 1], es[|es| - 1];
      TotalIsSum(front, fs);
      ListedVolumes(front, e.v);
      if e.size.fs == fs {
        SumPut(On(Listed(front), fs), e.v, e.size.bytes);
        assert On(Listed(es), fs) == On(Listed(front), fs)[e.v := e.size.bytes];
      } else {
        assert On(Listed(es), fs) == On(Listed(front), fs);
      }
    } else {
      assert On(Listed(es), fs) == map[];
    }
  }

  lemma {:induction false} OneSizeEach(es: seq<Entry>, v: string)
    requires DistinctHandles(es)
    ensures SizesOf(es, v) == if v in Listed(es) then [Listed(es)[v].bytes] else []
  {
    if es != [] {
      OneSizeEach(es[..|es| - 1], v);
      ListedVolumes(es[..|es| - 1], v);
    }
  }

  lemma {:induction false} ListedFilesystems(es: seq<Entry>)
    requires DistinctHandles(es)
    ensures FilesystemsIn(es) == Filesystems(Listed(es))
  {
    if es != [] {
      var front, e := es[..|es| - 1], es[|es| - 1];
      ListedFilesystems(front);
      ListedVolumes(front, e.v);
      FilesystemsPut(Listed(front), e.v, e.size);
      assert es == front + [e];
      FilesystemsOneMore(front, e);
    }
  }

  lemma FilesystemsPut(listed: map<string, Size>, v: string, size: Size)
    requires v !in listed
    ensures Filesystems(listed[v := size]) == Filesystems(listed) + {size.fs}
  {
    var after := listed[v := size];
    assert forall u :: u in after ==> after[u].fs in Filesystems(listed) + {size.fs};
    assert after[v].fs in Filesystems(after);
    assert forall u :: u in listed ==> u in after && after[u].fs in Filesystems(after);
  }

  lemma TallyIsConfirmed(es: seq<Entry>)
    requires DistinctHandles(es)
    ensures Tally(es) == Confirmed(Listed(es))
  {
    ListedFilesystems(es);
    forall fs
      ensures TotalOn(es, fs) == Sum(On(Listed(es), fs))
    {
      TotalIsSum(es, fs);
    }
  }

  lemma SettleIsSettled(pending: map<string, Reservation>, es: seq<Entry>)
    requires DistinctHandles(es)
    ensures Settle(pending, es) == Settled(pending, Listed(es))
  {
    var listed := Listed(es);
    forall v | v in pending
      ensures SettleOne(pending[v], SizesOf(es, v))
              == if v !in listed then Some(pending[v]) else SettleAtSize(pending[v], listed[v].bytes)
    {
      OneSizeEach(es, v);
      SettleSingle(pending[v], if v in listed then listed[v].bytes else 0);
    }
  }

  function SettleAtSize(r: Reservation, x: int): Option<Reservation>
  {
    if x >= r.target then None else Some(r.(source := x))
  }

  lemma SettleSingle(r: Reservation, x: int)
    ensures SettleOne(r, []) == Some(r) && SettleOne(r, [x]) == SettleAtSize(r, x)
  {
    assert [x][0] == x;
  }

  /** If no volume is listed twice, a refresh sees only which sizes are listed: each
      volume counts once and the order of the list does not matter. */
  lemma RefreshSeesVolumesOnce(pending: map<string, Reservation>, es: seq<Entry>)
    requires DistinctHandles(es)
    ensures Refreshed(pending, es) == Ledger(Confirmed(Listed(es)), Settled(pending, Listed(es)))
  {
    TallyIsConfirmed(es);
    SettleIsSettled(pending, es);
  }

  lemma {:induction false} ListedSize(es: seq<Entry>, i: nat)
    requires DistinctHandles(es) && i < |es|
    ensures es[i].v in Listed(es) && Listed(es)[es[i].v] == es[i].size
  {
    if i < |es| - 1 {
      ListedSize(es[..|es| - 1], i);
    }
  }

  lemma RefreshIgnoresOrder(pending: map<string, Reservation>, es: seq<Entry>, es': seq<Entry>)
    requires DistinctHandles(es) && DistinctHandles(es') && forall e :: e in es <==> e in es'
    ensures Refreshed(pending, es) == Refreshed(pending, es')
  {
    RefreshSeesVolumesOnce(pending, es);
    RefreshSeesVolumesOnce(pending, es');
    SameListed(es, es');
    SameListed(es', es);
    assert Listed(es) == Listed(es');
  }

  lemma SameListed(es: seq<Entry>, es': seq<Entry>)
    requires DistinctHandles(es) && DistinctHandles(es') && forall e :: e in es ==> e in es'
    ensures forall v :: v in Listed(es) ==> v in Listed(es') && Listed(es')[v] == Listed(es)[v]
  {
    forall v | v in Listed(es)
      ensures v in Listed(es') && Listed(es')[v] == Listed(es)[v]
    {
      ListedVolumes(es, v);
      var i :| 0 <= i < |es| && es[i].v == v;
      ListedSize(es, i);
      assert es[i] in es';
      var j :| 0 <= j < |es'| && es'[j] == es[i];
      ListedSize(es', j);
    }
  }

  /** Every volume has a positive size and one filesystem. */
  predicate Ordinary(es: seq<Entry>)
  {
    && (forall i :: 0 <= i < |es| ==> es[i].size.bytes > 0)
    && (forall i, j :: 0 <= i < |es| && 0 <= j < |es| && es[i].v == es[j].v ==> es[i].size.fs == es[j].size.fs)
  }

  lemma SumAfterLast(front: seq<Entry>, e: Entry, fs: string)
    requires e.v in Listed(front) ==> Listed(front)[e.v].fs == e.size.fs
    ensures Sum(On(Listed(front + [e]), fs))
            == Sum(On(Listed(front), fs)) + if e.size.fs == fs then e.size.bytes - At(On(Listed(front), fs), e.v) else 0
  {
    assert (front + [e])[..|front|] == front;
    OnPut(Listed(front), e.v, e.size, fs);
    SumPut(On(Listed(front), fs), e.v, e.size.bytes);
  }

  lemma OnPut(listed: map<string, Size>, v: string, size: Size, fs: string)
    requires v in listed ==> listed[v].fs == size.fs
    ensures On(listed[v := size], fs) == if size.fs == fs then On(listed, fs)[v := size.bytes] else On(listed, fs)
  {
  }

  /** Which entry a listed size comes from. */
  lemma {:induction false} ListedFrom(es: seq<Entry>, v: string) returns (i: nat)
    requires v in Listed(es)
    ensures i < |es| && es[i].v == v && es[i].size == Listed(es)[v]
  {
    i := |es| - 1;
    if es[i].v != v {
      i := ListedFrom(es[..|es| - 1], v);
    }
  }

  lemma OrdinaryFront(es: seq<Entry>)
    requires Ordinary(es) && es != []
    ensures var front, e := es[..|es| - 1], es[|es| - 1];
            && Ordinary(front)
            && (e.v in Listed(front) ==> Listed(front)[e.v].fs == e.size.fs && Listed(front)[e.v].bytes > 0)
  {
    var front, e := es[..|es| - 1], es[|es| - 1];
    if e.v in Listed(front) {
      var i := ListedFrom(front, e.v);
      assert front[i] == es[i];
    }
  }

  /** The total counts at least every listed volume. */
  lemma {:induction false} TotalIsAtLeast(es: seq<Entry>, fs: string)
    requires Ordinary(es)
    ensures TotalOn(es, fs) >= Sum(On(Listed(es), fs))
  {
    if es == [] {
      assert On(Listed(es), fs) == map[];
    } else {
      var front, e := es[..|es| - 1], es[|es| - 1];
      OrdinaryFront(es);
      TotalIsAtLeast(front, fs);
      SumAfterLast(front, e, fs);
      assert es == front + [e];
    }
  }

  lemma DistinctOneMore(front: seq<Entry>, e: Entry)
    ensures DistinctHandles(front) && e.v !in Listed(front) ==> DistinctHandles(front + [e])
  {
    ListedVolumes(front, e.v);
  }

  /** ... and more than that on a filesystem of a volume that is listed twice. */
  lemma {:induction false} TotalIsMore(es: seq<Entry>) returns (fs: string)
    requires Ordinary(es) && !DistinctHandles(es)
    ensures TotalOn(es, fs) > Sum(On(Listed(es), fs))
  {
    var front, e := es[..|es| - 1], es[|es| - 1];
    assert es == front + [e];
    OrdinaryFront(es);
    ListedVolumes(front, e.v);
    if e.v in Listed(front) {
      fs := e.size.fs;
      TotalIsAtLeast(front, fs);
    } else {
      DistinctOneMore(front, e);
      fs := TotalIsMore(front);
    }
    SumAfterLast(front, e, fs);
  }

  /** A refresh counts every volume once, on every filesystem, exactly when no volume is
      listed twice. */
  lemma CountsOnceExactly(es: seq<Entry>)
    requires Ordinary(es)
    ensures (forall fs :: TotalOn(es, fs) == Sum(On(Listed(es), fs))) <==> DistinctHandles(es)
  {
    if DistinctHandles(es) {
      forall fs
        ensures TotalOn(es, fs) == Sum(On(Listed(es), fs))
      {
        TotalIsSum(es, fs);
      }
    } else {
      var fs := TotalIsMore(es);
      assert TotalOn(es, fs) != Sum(On(Listed(es), fs));
    }
  }

  lemma {:induction false} EntryHasItsFilesystem(driver: string, list: seq<PV>, i: nat)
    requires i < |Entries(driver, list)|
    ensures var e := Entries(driver, list)[i];
            e.size.fs == SliceFilesystem(e.v) && exists j :: 0 <= j < |list| && list[j].storage == Some(e.size.bytes)
    decreases |list|
  {
    var n := |list| - 1;
    if i < |Entries(driver, list[..n])| {
      EntryHasItsFilesystem(driver, list[..n], i);
      var j :| 0 <= j < n && list[..n][j].storage == Some(Entries(driver, list[..n])[i].size.bytes);
      assert list[j].storage == list[..n][j].storage;
    } else {
      assert list[n].storage == Some(Entries(driver, list)[i].size.bytes);
    }
  }

  /** So it is for every list of volumes with positive sizes. */
  lemma ListCountsOnceExactly(driver: string, list: seq<PV>)
    requires forall i :: 0 <= i < |list| && list[i].storage.Some? ==> list[i].storage.value > 0
    ensures var es := Entries(driver, list);
            (forall fs :: TotalOn(es, fs) == Sum(On(Listed(es), fs))) <==> DistinctHandles(es)
  {
    var es := Entries(driver, list);
    forall i | 0 <= i < |es|
      ensures es[i].size.bytes > 0 && es[i].size.fs == SliceFilesystem(es[i].v)
    {
      EntryHasItsFilesystem(driver, list, i);
      var j :| 0 <= j < |list| && list[j].storage == Some(es[i].size.bytes);
    }
    CountsOnceExactly(es);
  }

  /** A volume that is listed twice is counted twice. */
  lemma TwiceListedIsTwiceCounted(pending: map<string, Reservation>, e: Entry)
    requires 0 < 2 * e.size.bytes <= MAX_INT64
    ensures At(Refreshed(pending, [e, e]).confirmed, e.size.fs) == 2 * e.size.bytes
    ensures At(Confirmed(Listed([e, e])), e.size.fs) == e.size.bytes
  {
    assert [e, e] == [e] + [e] && [e] == [] + [e];
    TotalOneMore([e], e, e.size.fs);
    TotalOneMore([], e, e.size.fs);
    TallyAt([e, e], e.size.fs);
    TotalIsSum([e], e.size.fs);
    assert [e, e][..1] == [e] && [e][..0] == [];
    assert Listed([e, e]) == Listed([e]);
    ConfirmedExactly(Listed([e]), e.size.fs);
  }

  // ----- what a refresh and a reservation do to the ledger

  function Max(a: int, b: int): int
  {
    if a >= b then a else b
  }

  /** The simple ledger a refresh must produce: every listed volume once, at the larger
      of its size and its pending target. */
  ghost function ListedShare(pending: map<string, Reservation>, listed: map<string, Size>, fs: string): map<string, int>
  {
    map v | v in On(listed, fs) :: if v in pending then Max(listed[v].bytes, pending[v].target) else listed[v].bytes
  }

  /** ... and every unlisted reservation by its growth. */
  ghost function UnlistedShare(pending: map<string, Reservation>, listed: map<string, Size>,
                               fs: string): map<string, int>
  {
    map v | v in Growth(pending, fs) && v !in listed :: Growth(pending, fs)[v]
  }

  /** Reservations and listed volumes of one identifier name one filesystem. */
  predicate SameFilesystems(pending: map<string, Reservation>, listed: map<string, Size>)
  {
    forall v :: v in pending && v in listed ==> pending[v].fs == listed[v].fs
  }

  /** A refresh refines the simple ledger, whatever the order of the list. */
  lemma RefreshRefinesLedger(pending: map<string, Reservation>, listed: map<string, Size>, fs: string)
    requires SameFilesystems(pending, listed) && Fits(Sum(On(listed, fs)))
    ensures LedgerOn(Ledger(Confirmed(listed), Settled(pending, listed)), fs)
            == Sum(ListedShare(pending, listed, fs)) + Sum(UnlistedShare(pending, listed, fs))
  {
    ConfirmedExactly(listed, fs);
    var sizes, growth := On(listed, fs), Growth(Settled(pending, listed), fs);
    var shareListed, shareUnlisted := ListedShare(pending, listed, fs), UnlistedShare(pending, listed, fs);
    var growthListed := map v | v in growth && v in listed :: growth[v];
    SumSplits(growth, growthListed, shareUnlisted);
    SumSplits(shareListed, sizes, growthListed);
  }

  lemma ConfirmedExactly(listed: map<string, Size>, fs: string)
    requires Fits(Sum(On(listed, fs)))
    ensures At(Confirmed(listed), fs) == Sum(On(listed, fs))
  {
    if fs !in Filesystems(listed) {
      assert On(listed, fs) == map[];
    }
  }

  /** Recording a reservation adds to the ledger the requested growth, less what an
      existing reservation of the volume already covered. */
  lemma GrantEffect(l: Ledger, v: string, fs: string, current: int, target: int, now: int)
    requires v in l.pending ==> l.pending[v].fs == fs
    ensures LedgerOn(l.(pending := Record(l.pending, v, fs, current, target, now)), fs)
            == LedgerOn(l, fs) + target - (if v in l.pending then l.pending[v].target else current)
  {
    var pending' := Record(l.pending, v, fs, current, target, now);
    var x := pending'[v].target - pending'[v].source;
    assert Growth(pending', fs) == Growth(l.pending, fs)[v := x];
    SumPut(Growth(l.pending, fs), v, x);
  }

  /** A reservation step: a rejection changes nothing; a grant records the target, never
      below the old one, keeps the first source, touches no other volume, and the total it
      checked exceeds the new ledger by what an existing reservation already covered. */
  lemma ReservationEffect(l: Ledger, v: string, fs: string, current: int, target: int, available: int, now: int)
    requires v in l.pending ==> l.pending[v].fs == fs
    ensures var l' := Reserve(l, v, fs, current, target, available, now);
            var verdict := Verdict(l, v, fs, current, target, available);
            && (verdict != Granted ==> l' == l)
            && (verdict == Granted ==>
                  && l'.confirmed == l.confirmed
                  && l'.pending.Keys == l.pending.Keys + {v}
                  && (forall u :: u in l.pending && u != v ==> l'.pending[u] == l.pending[u])
                  && l'.pending[v].target == target && l'.pending[v].fs == fs && l'.pending[v].timestamp == now
                  && l'.pending[v].source == (if v in l.pending then l.pending[v].source else current)
                  && (v in l.pending ==> l.pending[v].target <= target)
                  && LedgerOn(l, fs) + target - current - LedgerOn(l', fs)
                     == (if v in l.pending then l.pending[v].target - current else 0))
  {
    GrantEffect(l, v, fs, current, target, now);
  }

  /** The check compares a wrapped sum. For a ledger within the limit it is exact if and
      only if the sum fits in 63 bits: a larger request wraps negative and is accepted. */
  lemma CheckIsExactUntilOverflow(ledger: int, additional: int, available: int)
    requires 0 <= ledger <= MAX_INT64 && 0 <= additional <= MAX_INT64 && 0 <= available <= MAX_INT64
    ensures Wrap(ledger + additional) <= available <==>
              ledger + additional <= available || ledger + additional > MAX_INT64
  {
    if ledger + additional > MAX_INT64 {
      WrapShift(ledger + additional - TWO_TO_THE_64, 1);
    }
  }
}
