/** The trash collector of directory volumes. Its mutex-protected sections are the methods
    of the class; the goroutines that run them are counted by the state machine below. */
module GarbageCollector {

  /** The two flags of one filesystem; a key missing from a Go map reads false. */
  datatype Flags = Flags(running: bool, deferred: bool)

  // ----- the critical sections, as functions of the flags

  function Begin(f: Flags): Flags
  {
    f.(running := true)
  }

  function Finish(f: Flags): Flags
  {
    Flags(false, false)
  }

  /** What leaving a purge starts. */
  datatype Follow = NoFollow | ChainedPurge | DelayedRetry

  function FollowUp(f: Flags, succeeded: bool): Follow
  {
    if f.deferred then ChainedPurge else if !succeeded then DelayedRetry else NoFollow
  }

  function Initiate(f: Flags): Flags
  {
    if f.running then f.(deferred := true) else f
  }

  predicate Spawns(f: Flags)
  {
    !f.running && !f.deferred
  }

  class InnerPathVolGc {
    var isRunning: map<string, bool>
    var isDeferred: map<string, bool>

    constructor ()
      ensures forall fs :: FlagsOf(fs) == Flags(false, false)
    {
      isRunning, isDeferred := map[], map[];
    }

    function FlagsOf(fs: string): Flags
      reads this
    {
      Flags(fs in isRunning && isRunning[fs], fs in isDeferred && isDeferred[fs])
    }

    /** The first critical section of purgeLeftovers. */
    method BeginPurge(fs: string)
      modifies this
      ensures FlagsOf(fs) == Begin(old(FlagsOf(fs)))
      ensures forall g :: g != fs ==> FlagsOf(g) == old(FlagsOf(g))
    {
      isRunning := isRunning[fs := true];
    }

    /** The deferred critical section of purgeLeftovers. */
    method FinishPurge(fs: string, succeeded: bool) returns (follow: Follow)
      modifies this
      ensures FlagsOf(fs) == Finish(old(FlagsOf(fs)))
      ensures follow == FollowUp(old(FlagsOf(fs)), succeeded)
      ensures forall g :: g != fs ==> FlagsOf(g) == old(FlagsOf(g))
    {
      isRunning := isRunning[fs := false];
      if fs in isDeferred && isDeferred[fs] {
        isDeferred := isDeferred[fs := false];
        return ChainedPurge;
      }
      if !succeeded {
        return DelayedRetry;
      }
      return NoFollow;
    }

    /** The critical section of initiateGarbageCollection. */
    method InitiateGarbageCollection(fs: string) returns (spawn: bool)
      modifies this
      ensures FlagsOf(fs) == Initiate(old(FlagsOf(fs)))
      ensures spawn == Spawns(old(FlagsOf(fs)))
      ensures forall g :: g != fs ==> FlagsOf(g) == old(FlagsOf(g))
    {
      if fs in isRunning && isRunning[fs] {
        isDeferred := isDeferred[fs := true];
        return false;
      }
      return !(fs in isDeferred && isDeferred[fs]);
    }
  }

  // ----- goroutines

  /** How many goroutines of a filesystem stand at each point. */
  datatype Crew = Crew(
    moving: nat,      // moveVolumeToTrash, before its rename
    initiating: nat,  // initiateGarbageCollection, before its critical section
    spawned: nat,     // purgeLeftovers, before its first critical section
    purging: nat,     // purgeLeftovers, before its deletion is over
    failed: nat,      // purgeLeftovers, leaving without success
    purged: nat,      // purgeLeftovers, leaving with success
    sleeping: nat)    // the delay before a retry

  const NOBODY := Crew(0, 0, 0, 0, 0, 0, 0)

  datatype Filesystem = Filesystem(flags: Flags, crew: Crew, trash: set<string>)

  const IDLE := Filesystem(Flags(false, false), NOBODY, {})

  datatype Action =
    | RequestDelete
    | MoveEnds(moved: set<string>)       // moved is empty when mounting or renaming fails
    | InitiateRuns
    | PurgeBegins
    | TrashShrinks(removed: set<string>) // a deletion in progress
    | PurgeFails
    | PurgeSucceeds                      // RemoveAll took the directory itself
    | PurgeFinishes(succeeded: bool)
    | RetryWakes

  predicate Enabled(f: Filesystem, a: Action)
  {
    match a
    case RequestDelete => true
    case MoveEnds(_) => f.crew.moving > 0
    case InitiateRuns => f.crew.initiating > 0
    case PurgeBegins => f.crew.spawned > 0
    case TrashShrinks(_) => f.crew.purging > 0
    case PurgeFails => f.crew.purging > 0
    case PurgeSucceeds => f.crew.purging > 0
    case PurgeFinishes(succeeded) => (if succeeded then f.crew.purged else f.crew.failed) > 0
    case RetryWakes => f.crew.sleeping > 0
  }

  /** One atomic step of one goroutine; skip is the skipGarbageCollection setting. */
  function Act(skip: bool, f: Filesystem, a: Action): Filesystem
    requires Enabled(f, a)
  {
    var c := f.crew;
    match a
    case RequestDelete => f.(crew := c.(moving := c.moving + 1))
    case MoveEnds(moved) =>
      var c' := c.(moving := c.moving - 1);
      f.(crew := if skip then c' else c'.(initiating := c.initiating + 1), trash := f.trash + moved)
    case InitiateRuns =>
      var c' := c.(initiating := c.initiating - 1);
      f.(flags := Initiate(f.flags), crew := if Spawns(f.flags) then c'.(spawned := c.spawned + 1) else c')
    case PurgeBegins =>
      f.(flags := Begin(f.flags), crew := c.(spawned := c.spawned - 1, purging := c.purging + 1))
    case TrashShrinks(removed) => f.(trash := f.trash - removed)
    case PurgeFails => f.(crew := c.(purging := c.purging - 1, failed := c.failed + 1))
    case PurgeSucceeds => f.(crew := c.(purging := c.purging - 1, purged := c.purged + 1), trash := {})
    case PurgeFinishes(succeeded) =>
      var c' := if succeeded then c.(purged := c.purged - 1) else c.(failed := c.failed - 1);
      f.(flags := Finish(f.flags),
         crew := match FollowUp(f.flags, succeeded)
                 case NoFollow => c'
                 case ChainedPurge => c'.(spawned := c.spawned + 1)
                 case DelayedRetry => c'.(sleeping := c.sleeping + 1))
    case RetryWakes => f.(crew := c.(sleeping := c.sleeping - 1, initiating := c.initiating + 1))
  }

  // ----- all filesystems together

  datatype System = System(skip: bool, filesystems: map<string, Filesystem>)

  function Of(s: System, fs: string): Filesystem
  {
    if fs in s.filesystems then s.filesystems[fs] else IDLE
  }

  function Apply(s: System, fs: string, a: Action): System
    requires Enabled(Of(s, fs), a)
  {
    s.(filesystems := s.filesystems[fs := Act(s.skip, Of(s, fs), a)])
  }

  /** The states after n steps, each taken by any goroutine of any filesystem. */
  ghost predicate ReachableIn(n: nat, s: System)
  {
    if n == 0 then s.filesystems == map[]
    else exists p, fs, a :: ReachableIn(n - 1, p) && Enabled(Of(p, fs), a) && s == Apply(p, fs, a)
  }

  ghost predicate Reachable(s: System)
  {
    exists n :: ReachableIn(n, s)
  }

  // ----- invariants

  /** A purge that has begun and not finished. */
  predicate Active(f: Filesystem)
  {
    f.crew.purging + f.crew.failed + f.crew.purged > 0
  }

  /** The flags never wedge: a deferral is held by a running purge, and a running flag by
      a purge that will finish. */
  predicate NotWedged(f: Filesystem)
  {
    (f.flags.deferred ==> f.flags.running) && (f.flags.running ==> Active(f))
  }

  /** Somebody is still going to empty the trash: an initiate call, a purge that has not
      deleted yet or has failed, a retry, or a finished purge that will chain. */
  predicate Covered(f: Filesystem)
  {
    || f.crew.initiating + f.crew.spawned + f.crew.purging + f.crew.failed + f.crew.sleeping > 0
    || (f.crew.purged > 0 && f.flags.deferred)
  }

  predicate Inv(skip: bool, f: Filesystem)
  {
    NotWedged(f) && (!skip && f.trash != {} ==> Covered(f))
  }

  lemma ActKeepsInv(skip: bool, f: Filesystem, a: Action)
    requires Inv(skip, f) && Enabled(f, a)
    ensures Inv(skip, Act(skip, f, a))
  {
  }

  lemma {:induction false} RunKeepsInv(n: nat, s: System, fs: string)
    requires ReachableIn(n, s)
    ensures Inv(s.skip, Of(s, fs))
  {
    if n > 0 {
      var p, g, a :| ReachableIn(n - 1, p) && Enabled(Of(p, g), a) && s == Apply(p, g, a);
      RunKeepsInv(n - 1, p, fs);
      if fs == g {
        ActKeepsInv(p.skip, Of(p, fs), a);
      }
    }
  }

  /** Coverage, over every interleaving: while a filesystem has trash, some goroutine is
      bound to look at it again; and the flags are never left behind by a purge. */
  lemma TrashIsNeverStranded(s: System, fs: string)
    requires Reachable(s)
    ensures NotWedged(Of(s, fs))
    ensures !s.skip && Of(s, fs).trash != {} ==> Covered(Of(s, fs))
  {
    var n :| ReachableIn(n, s);
    RunKeepsInv(n, s, fs);
  }

  /** A quiescent filesystem has no trash and both flags clear. */
  lemma QuiescenceIsClean(s: System, fs: string)
    requires Reachable(s) && Of(s, fs).crew == NOBODY
    ensures Of(s, fs).flags == Flags(false, false)
    ensures !s.skip ==> Of(s, fs) == IDLE
  {
    TrashIsNeverStranded(s, fs);
  }

  /** An initiate call is never lost: it starts a purge, or it leaves a deferral that an
      unfinished purge will turn into one, whichever way that purge ends. */
  lemma InitiateIsNeverLost(s: System, fs: string)
    requires Reachable(s) && Enabled(Of(s, fs), InitiateRuns)
    ensures var f, f' := Of(s, fs), Act(s.skip, Of(s, fs), InitiateRuns);
            || f'.crew.spawned == f.crew.spawned + 1
            || (&& Active(f') && f'.flags.deferred
                && forall ok :: Enabled(f', PurgeFinishes(ok)) ==>
                                  Act(s.skip, f', PurgeFinishes(ok)).crew.spawned == f.crew.spawned + 1)
  {
    TrashIsNeverStranded(s, fs);
  }

  /** What leaving a purge starts: a deferral becomes one more purge, a failure without one
      becomes one more delayed retry, and success without one starts nothing. */
  lemma FollowUpExactly(skip: bool, f: Filesystem, succeeded: bool)
    requires Enabled(f, PurgeFinishes(succeeded))
    ensures var c, c' := f.crew, Act(skip, f, PurgeFinishes(succeeded)).crew;
            && c'.spawned == c.spawned + (if f.flags.deferred then 1 else 0)
            && c'.sleeping == c.sleeping + (if !f.flags.deferred && !succeeded then 1 else 0)
            && c'.initiating == c.initiating && c'.moving == c.moving && c'.purging == c.purging
            && c'.failed + c'.purged == c.failed + c.purged - 1
  {
  }

  // ----- with collection switched off

  /** Only movers, and flags that nobody has touched. */
  predicate OnlyMoves(f: Filesystem)
  {
    f.crew == NOBODY.(moving := f.crew.moving) && f.flags == Flags(false, false)
  }

  lemma SkippedStep(f: Filesystem, a: Action)
    requires OnlyMoves(f) && Enabled(f, a)
    ensures OnlyMoves(Act(true, f, a)) && (a.RequestDelete? || a.MoveEnds?)
  {
  }

  lemma {:induction false} SkippingStartsNothing(n: nat, s: System, fs: string)
    requires ReachableIn(n, s) && s.skip
    ensures OnlyMoves(Of(s, fs))
  {
    if n > 0 {
      var p, g, a :| ReachableIn(n - 1, p) && Enabled(Of(p, g), a) && s == Apply(p, g, a);
      SkippingStartsNothing(n - 1, p, fs);
      if g == fs {
        SkippedStep(Of(p, fs), a);
      }
    }
  }

  /** With skipGarbageCollection set, volumes are moved and nothing else happens: no initiate
      call, purge or retry ever exists, and no step removes trash. */
  lemma SkippingKeepsTrash(s: System, fs: string, a: Action)
    requires Reachable(s) && s.skip && Enabled(Of(s, fs), a)
    ensures a.RequestDelete? || a.MoveEnds?
    ensures Of(s, fs).crew == NOBODY.(moving := Of(s, fs).crew.moving) && Of(s, fs).flags == Flags(false, false)
    ensures Act(s.skip, Of(s, fs), a).trash == Of(s, fs).trash + if a.MoveEnds? then a.moved else {}
  {
    var n: nat :| ReachableIn(n, s);
    SkippingStartsNothing(n, s, fs);
    SkippedStep(Of(s, fs), a);
  }

  /** One more action on a reachable system. */
  lemma Extend(n: nat, s: System, fs: string, a: Action) returns (s': System)
    requires ReachableIn(n, s) && Enabled(Of(s, fs), a)
    ensures ReachableIn(n + 1, s') && s'.skip == s.skip && Of(s', fs) == Act(s.skip, Of(s, fs), a)
  {
    s' := Apply(s, fs, a);
  }

  /** A request whose volume went straight to the trash. */
  lemma RequestAndMove(n: nat, s: System, fs: string) returns (s': System)
    requires ReachableIn(n, s) && !s.skip
    ensures ReachableIn(n + 2, s') && s'.skip == s.skip
    ensures Of(s', fs).flags == Of(s, fs).flags
    ensures Of(s', fs).crew == Of(s, fs).crew.(initiating := Of(s, fs).crew.initiating + 1)
  {
    var t := Extend(n, s, fs, RequestDelete);
    s' := Extend(n + 1, t, fs, MoveEnds({}));
  }

  /** Two purges of one filesystem can be active at once: the running flag is raised by
      the purge, not by whoever starts it. */
  lemma PurgesCanOverlap(fs: string)
    ensures exists s :: Reachable(s) && Of(s, fs).crew.purging == 2
  {
    var s := System(false, map[]);
    s := RequestAndMove(0, s, fs);
    s := RequestAndMove(2, s, fs);
    s := Extend(4, s, fs, InitiateRuns);
    s := Extend(5, s, fs, InitiateRuns);
    s := Extend(6, s, fs, PurgeBegins);
    s := Extend(7, s, fs, PurgeBegins);
    assert Reachable(s) && Of(s, fs).crew.purging == 2;
  }

  function ActiveCount(f: Filesystem): nat
  {
    f.crew.purging + f.crew.failed + f.crew.purged
  }

  /** At most one purge of a filesystem, begun or about to, and flags that say so. */
  predicate Single(f: Filesystem)
  {
    && f.crew.spawned + ActiveCount(f) <= 1
    && (f.flags.running <==> ActiveCount(f) == 1)
    && (f.flags.deferred ==> f.flags.running)
  }

  /** A step keeps purges from overlapping exactly when it is not an initiate call that runs
      between the start of a purge's goroutine and its first critical section. */
  lemma SingleExactly(skip: bool, f: Filesystem, a: Action)
    requires Single(f) && Enabled(f, a)
    ensures Single(Act(skip, f, a)) <==> !(a.InitiateRuns? && f.crew.spawned > 0)
  {
  }

  /** The steps of a run, each by a goroutine of some filesystem. */
  ghost predicate Trace(s: System, steps: seq<(string, Action)>)
    decreases |steps|
  {
    steps == []
    || (Enabled(Of(s, steps[0].0), steps[0].1) && Trace(Apply(s, steps[0].0, steps[0].1), steps[1..]))
  }

  ghost predicate AlwaysSingle(s: System, steps: seq<(string, Action)>, fs: string)
    requires Trace(s, steps)
    decreases |steps|
  {
    && Single(Of(s, fs))
    && (steps == [] || AlwaysSingle(Apply(s, steps[0].0, steps[0].1), steps[1..], fs))
  }

  /** Some initiate call for the filesystem runs while a purge is spawned and not begun. */
  ghost predicate RunsEarly(s: System, steps: seq<(string, Action)>, fs: string)
    requires Trace(s, steps)
    decreases |steps|
  {
    steps != []
    && (|| (steps[0].0 == fs && steps[0].1.InitiateRuns? && Of(s, fs).crew.spawned > 0)
        || RunsEarly(Apply(s, steps[0].0, steps[0].1), steps[1..], fs))
  }

  lemma SingleStep(s: System, g: string, a: Action, fs: string)
    requires Single(Of(s, fs)) && Enabled(Of(s, g), a)
    ensures Single(Of(Apply(s, g, a), fs)) <==> !(g == fs && a.InitiateRuns? && Of(s, fs).crew.spawned > 0)
  {
    if g == fs {
      SingleExactly(s.skip, Of(s, fs), a);
    }
  }

  /** Over every run of all filesystems: no two purges of a filesystem are ever under way
      exactly when none of its initiate calls runs early. */
  lemma {:induction false} NoOverlapExactly(s: System, steps: seq<(string, Action)>, fs: string)
    requires Trace(s, steps) && Single(Of(s, fs))
    ensures AlwaysSingle(s, steps, fs) <==> !RunsEarly(s, steps, fs)
    decreases |steps|
  {
    if steps != [] {
      var next := Apply(s, steps[0].0, steps[0].1);
      SingleStep(s, steps[0].0, steps[0].1, fs);
      if Single(Of(next, fs)) {
        NoOverlapExactly(next, steps[1..], fs);
      }
    }
  }

  // ----- draining

  /** A useful action on a filesystem whose purges no longer fail and that gets no new
      deletions: a goroutine moves on, or a deletion in progress removes something. */
  predicate Drains(f: Filesystem, a: Action)
  {
    && Enabled(f, a)
    && !a.RequestDelete? && !a.PurgeFails?
    && (a.TrashShrinks? ==> a.removed * f.trash != {})
  }

  /** The work left: goroutines weighted by how far they are from being gone, and a
      deferral as the purge it will become. */
  function Work(f: Filesystem): nat
  {
    9 * f.crew.moving + 8 * f.crew.failed + 7 * f.crew.sleeping + 6 * f.crew.initiating
    + 4 * f.crew.spawned + 3 * f.crew.purging + f.crew.purged + (if f.flags.deferred then 4 else 0)
  }

  /** Every useful action leaves less work, or the same work and less trash. */
  lemma DrainingProgresses(skip: bool, f: Filesystem, a: Action)
    requires Drains(f, a)
    ensures var f' := Act(skip, f, a);
            Work(f') < Work(f) || (Work(f') == Work(f) && f'.trash < f.trash)
  {
    if a.TrashShrinks? {
      var x :| x in a.removed * f.trash;
      assert x in f.trash && x !in Act(skip, f, a).trash;
    }
  }

  ghost predicate CanAct(f: Filesystem)
  {
    exists a :: Drains(f, a)
  }

  /** While a goroutine is left, a useful action exists. */
  lemma SomebodyCanAct(f: Filesystem)
    requires f.crew != NOBODY
    ensures CanAct(f)
  {
    assert Drains(f, MoveEnds({})) || Drains(f, InitiateRuns) || Drains(f, PurgeBegins) || Drains(f, PurgeSucceeds)
        || Drains(f, PurgeFinishes(false)) || Drains(f, PurgeFinishes(true)) || Drains(f, RetryWakes);
  }

  /** A scheduler that takes a useful action whenever there is one. */
  ghost predicate Diligent(schedule: (nat, Filesystem) -> Action)
  {
    forall n, f :: CanAct(f) ==> Drains(f, schedule(n, f))
  }

  /** The filesystem after at most n actions of a schedule. */
  ghost function After(skip: bool, f: Filesystem, schedule: (nat, Filesystem) -> Action, from: nat, n: nat): Filesystem
    decreases n
  {
    if n == 0 || !Drains(f, schedule(from, f)) then f
    else After(skip, Act(skip, f, schedule(from, f)), schedule, from + 1, n - 1)
  }

  /** The trash drains: once purges stop failing and deletions stop coming, every schedule
      that keeps working reaches a state with no goroutine, no trash and clear flags. */
  lemma {:induction false} TrashDrains(f: Filesystem, schedule: (nat, Filesystem) -> Action, from: nat) returns (n: nat)
    requires Inv(false, f) && Diligent(schedule)
    ensures After(false, f, schedule, from, n) == IDLE
    decreases Work(f), f.trash
  {
    var a := schedule(from, f);
    if Drains(f, a) {
      DrainingProgresses(false, f, a);
      ActKeepsInv(false, f, a);
      var m := TrashDrains(Act(false, f, a), schedule, from + 1);
      n := m + 1;
    } else {
      n := 0;
      if f.crew != NOBODY {
        SomebodyCanAct(f);
      }
    }
  }

  /** In particular the trash of every reachable system drains. */
  lemma ReachableTrashDrains(s: System, fs: string, schedule: (nat, Filesystem) -> Action) returns (n: nat)
    requires Reachable(s) && !s.skip && Diligent(schedule)
    ensures After(false, Of(s, fs), schedule, 0, n) == IDLE
  {
    TrashIsNeverStranded(s, fs);
    n := TrashDrains(Of(s, fs), schedule, 0);
  }
}
