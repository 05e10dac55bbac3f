/** Reference-counted mounts as values: what the driver's map and the kernel's mount table
    become, step by step, and what every run keeps. */
module MountTable {
  import opened Sums
  import opened Text

  /** The driver's map of reference counts and, for each path, the number of mounts
      stacked on it. */
  datatype Table = Table(refs: map<string, int>, kernel: map<string, int>)

  /** How an unmount call can end: refused, reported done while the mount stays visible,
      or really done. */
  datatype Unmount = Refused | StillVisible | Gone

  /** Keys are a mount point and printed options, joined by '^'. */
  function MountPointOf(key: string): string
  {
    Split(key, '^')[0]
  }

  function Mounted(t: Table, mountPoint: string): bool
  {
    At(t.kernel, mountPoint) > 0
  }

  function DoMount(t: Table, mountPoint: string): Table
  {
    t.(kernel := t.kernel[mountPoint := At(t.kernel, mountPoint) + 1])
  }

  function SetRefs(t: Table, key: string, n: int): Table
  {
    t.(refs := t.refs[key := n])
  }

  predicate NeedsMount(t: Table, key: string, mountPoint: string)
  {
    At(t.refs, key) == 0 || (At(t.refs, key) > 0 && !Mounted(t, mountPoint))
  }

  /** incRef: mount on the first reference or when the mount has gone, then count. */
  function IncRef(t: Table, key: string, mountPoint: string, mountOk: bool): (Table, bool)
  {
    if NeedsMount(t, key, mountPoint) then
      if mountOk then (SetRefs(DoMount(t, mountPoint), key, At(t.refs, key) + 1), true) else (t, false)
    else (SetRefs(t, key, At(t.refs, key) + 1), true)
  }

  /** decRef: unmount on the last reference; a failing unmount keeps the count. */
  function DecRef(t: Table, key: string, mountPoint: string, unmount: Unmount): (Table, bool)
  {
    var n := At(t.refs, key);
    if n == 1 && Mounted(t, mountPoint) then
      var left := t.(kernel := t.kernel[mountPoint := At(t.kernel, mountPoint) - 1]);
      if unmount != Gone then (t, false)
      else if Mounted(left, mountPoint) then (left, false)
      else (SetRefs(left, key, 0), true)
    else if n > 0 then (SetRefs(t, key, n - 1), true)
    else (t, true)
  }

  /** gcInactiveMounts: entries that count zero are dropped. */
  function Sweep(t: Table): Table
  {
    t.(refs := map k | k in t.refs && t.refs[k] != 0 :: t.refs[k])
  }

  /** A release succeeds exactly when it does not have to unmount, or its unmount leaves
      nothing on the path; a failing one keeps the count, and a release of nothing does
      nothing. */
  lemma ReleaseSucceedsExactly(t: Table, key: string, mountPoint: string, unmount: Unmount)
    ensures var (t', ok) := DecRef(t, key, mountPoint, unmount);
            && (ok <==> !(&& At(t.refs, key) == 1 && Mounted(t, mountPoint)
                          && (unmount != Gone || At(t.kernel, mountPoint) > 1)))
            && (!ok ==> t'.refs == t.refs)
            && (ok && At(t.refs, key) > 0 ==> At(t'.refs, key) == At(t.refs, key) - 1)
            && (At(t.refs, key) <= 0 ==> t' == t)
  {
  }

  // ----- runs

  /** The table, the unmount closures handed out and not yet called, and the keys whose
      last unmount failed. */
  datatype World = World(table: Table, open: map<string, int>, stuck: set<string>)

  datatype Step =
    | MountRequest(key: string, mountOk: bool)
    | Release(key: string, unmount: Unmount)
    | PeriodicSweep
    | ExternalUnmount(mountPoint: string)

  /** Keys come from the driver's set of mounts, and a closure is called once. */
  predicate Allowed(w: World, keys: set<string>, step: Step)
  {
    match step
    case MountRequest(key, _) => key in keys
    case Release(key, _) => key in keys && At(w.open, key) > 0
    case _ => true
  }

  function Apply(w: World, step: Step): World
  {
    match step
    case MountRequest(key, mountOk) =>
      var (t, ok) := IncRef(w.table, key, MountPointOf(key), mountOk);
      if ok then w.(table := t, open := w.open[key := At(w.open, key) + 1]) else w.(table := t)
    case Release(key, unmount) =>
      var (t, ok) := DecRef(w.table, key, MountPointOf(key), unmount);
      World(t, w.open[key := At(w.open, key) - 1], if ok then w.stuck else w.stuck + {key})
    case PeriodicSweep => w.(table := Sweep(w.table))
    case ExternalUnmount(mountPoint) =>
      if Mounted(w.table, mountPoint)
      then w.(table := w.table.(kernel := w.table.kernel[mountPoint := At(w.table.kernel, mountPoint) - 1]))
      else w
  }

  /** Somebody else's unmount takes one mount off the path, if there is one, and no count. */
  lemma ExternalUnmountTakesOne(w: World, mountPoint: string)
    ensures var w' := Apply(w, ExternalUnmount(mountPoint));
            && w'.table.refs == w.table.refs && w'.open == w.open && w'.stuck == w.stuck
            && (At(w.table.kernel, mountPoint) > 0 ==>
                  At(w'.table.kernel, mountPoint) == At(w.table.kernel, mountPoint) - 1)
            && (forall p :: p != mountPoint ==> At(w'.table.kernel, p) == At(w.table.kernel, p))
  {
  }

  /** Different keys have different mount points. */
  predicate Separate(keys: set<string>)
  {
    forall a, b :: a in keys && b in keys && MountPointOf(a) == MountPointOf(b) ==> a == b
  }

  predicate Initial(w: World, keys: set<string>)
  {
    w.table.refs == map[] && w.open == map[] && w.stuck == {}
    && forall k :: k in keys ==> At(w.table.kernel, MountPointOf(k)) == 0
  }

  ghost predicate ReachableIn(n: nat, w: World, keys: set<string>)
  {
    if n == 0 then Initial(w, keys)
    else exists p, step :: ReachableIn(n - 1, p, keys) && Allowed(p, keys, step) && w == Apply(p, step)
  }

  ghost predicate Reachable(w: World, keys: set<string>)
  {
    exists n :: ReachableIn(n, w, keys)
  }

  /** A run given by its steps; only closures that are open are called. */
  ghost predicate Run(w: World, steps: seq<Step>, w': World)
    decreases |steps|
  {
    if steps == [] then w' == w
    else
      var n := |steps| - 1;
      exists p :: Run(w, steps[..n], p) && Callable(p, steps[n]) && w' == Apply(p, steps[n])
  }

  predicate Callable(w: World, step: Step)
  {
    step.Release? ==> At(w.open, step.key) > 0
  }

  predicate Uses(step: Step, keys: set<string>)
  {
    step.MountRequest? || step.Release? ==> step.key in keys
  }

  lemma {:induction false} RunsAreReachable(w: World, steps: seq<Step>, w': World, keys: set<string>)
    requires Initial(w, keys) && Run(w, steps, w')
    requires forall i :: 0 <= i < |steps| ==> Uses(steps[i], keys)
    ensures ReachableIn(|steps|, w', keys)
    decreases |steps|
  {
    if steps != [] {
      var n := |steps| - 1;
      var p :| Run(w, steps[..n], p) && Callable(p, steps[n]) && w' == Apply(p, steps[n]);
      RunsAreReachable(w, steps[..n], p, keys);
      assert Uses(steps[n], keys);
    }
  }

  lemma RunOneMore(w: World, steps: seq<Step>, p: World, step: Step)
    requires Run(w, steps, p) && Callable(p, step)
    ensures Run(w, steps + [step], Apply(p, step))
  {
    assert (steps + [step])[..|steps|] == steps;
  }

  lemma {:induction false} RunFirst(w: World, step: Step, steps: seq<Step>, w': World)
    requires !step.Release? && Run(Apply(w, step), steps, w')
    ensures Run(w, [step] + steps, w')
    decreases |steps|
  {
    if steps == [] {
      RunOneMore(w, [], w, step);
      assert [] + [step] == [step] + steps;
    } else {
      var n := |steps| - 1;
      var p :| Run(Apply(w, step), steps[..n], p) && Callable(p, steps[n]) && w' == Apply(p, steps[n]);
      RunFirst(w, step, steps[..n], p);
      RunOneMore(w, [step] + steps[..n], p, steps[n]);
      assert [step] + steps[..n] + [steps[n]] == [step] + steps;
    }
  }

  lemma RunAround(w: World, first: Step, steps: seq<Step>, p: World, last: Step)
    requires !first.Release? && Run(Apply(w, first), steps, p) && Callable(p, last)
    ensures Run(w, [first] + steps + [last], Apply(p, last))
  {
    RunFirst(w, first, steps, p);
    RunOneMore(w, [first] + steps, p, last);
  }

  function Stuck(w: World, key: string): int
  {
    if key in w.stuck then 1 else 0
  }

  /** The count of a key is its open closures plus one if its last unmount failed; its
      mount point is mounted at most once, and not at all when the count is zero. */
  predicate Inv(w: World, key: string)
  {
    && At(w.table.refs, key) == At(w.open, key) + Stuck(w, key)
    && At(w.open, key) >= 0
    && 0 <= At(w.table.kernel, MountPointOf(key)) <= 1
    && (At(w.table.refs, key) == 0 ==> !Mounted(w.table, MountPointOf(key)))
  }

  lemma OwnStepKeepsInv(w: World, keys: set<string>, step: Step, key: string)
    requires Inv(w, key) && Allowed(w, keys, step)
    requires step.PeriodicSweep? || (step.ExternalUnmount? || step.key == key)
    ensures Inv(Apply(w, step), key)
  {
  }

  lemma OtherStepKeepsInv(w: World, keys: set<string>, step: Step, key: string)
    requires Inv(w, key) && Allowed(w, keys, step) && Separate(keys) && key in keys
    requires (step.MountRequest? || step.Release?) && step.key != key
    ensures Inv(Apply(w, step), key)
  {
    assert MountPointOf(step.key) != MountPointOf(key);
  }

  lemma {:induction false} RunKeepsInv(n: nat, w: World, keys: set<string>, key: string)
    requires ReachableIn(n, w, keys) && Separate(keys) && key in keys
    ensures Inv(w, key)
  {
    if n > 0 {
      var p, step :| ReachableIn(n - 1, p, keys) && Allowed(p, keys, step) && w == Apply(p, step);
      RunKeepsInv(n - 1, p, keys, key);
      if (step.MountRequest? || step.Release?) && step.key != key {
        OtherStepKeepsInv(p, keys, step, key);
      } else {
        OwnStepKeepsInv(p, keys, step, key);
      }
    }
  }

  /** Counting, in every state of every run: the count of every key is its open closures
      plus at most one stuck reference, and no mount point is ever mounted twice. */
  lemma CountsAreExact(w: World, keys: set<string>, key: string)
    requires Reachable(w, keys) && Separate(keys) && key in keys
    ensures At(w.table.refs, key) == At(w.open, key) + Stuck(w, key)
    ensures At(w.open, key) >= 0
    ensures 0 <= At(w.table.kernel, MountPointOf(key)) <= 1
    ensures At(w.table.refs, key) == 0 ==> !Mounted(w.table, MountPointOf(key))
  {
    var n :| ReachableIn(n, w, keys);
    RunKeepsInv(n, w, keys, key);
  }

  /** Every mount request that succeeds ends with the path mounted, exactly once. */
  lemma SuccessfulMountIsMounted(w: World, keys: set<string>, key: string, mountOk: bool)
    requires Reachable(w, keys) && Separate(keys) && key in keys
    ensures var w' := Apply(w, MountRequest(key, mountOk));
            && (At(w'.open, key) > At(w.open, key) ==> At(w'.table.kernel, MountPointOf(key)) == 1)
            && (At(w'.open, key) == At(w.open, key) ==> w' == w)
            && (mountOk ==> At(w'.open, key) == At(w.open, key) + 1)
  {
    CountsAreExact(w, keys, key);
  }

  /** A sweep keeps an entry exactly when a closure of its key is open or its last unmount
      failed, and changes no count and no mount. */
  lemma SweepKeepsExactly(w: World, keys: set<string>, key: string)
    requires Reachable(w, keys) && Separate(keys) && key in keys
    ensures var w' := Apply(w, PeriodicSweep);
            && (key in w'.table.refs <==> At(w.open, key) > 0 || key in w.stuck)
            && At(w'.table.refs, key) == At(w.table.refs, key)
            && w'.table.kernel == w.table.kernel
  {
    CountsAreExact(w, keys, key);
  }

  /** Steps for another key leave a mount point alone. */
  lemma OtherKeysKeepThePath(w: World, step: Step, key: string)
    requires (step.MountRequest? || step.Release?) && MountPointOf(step.key) != MountPointOf(key)
    ensures At(Apply(w, step).table.kernel, MountPointOf(key)) == At(w.table.kernel, MountPointOf(key))
  {
  }

  predicate Unmounts(w: World, step: Step, key: string)
  {
    Mounted(w.table, MountPointOf(key)) && !Mounted(Apply(w, step).table, MountPointOf(key))
  }

  /** The driver unmounts a path only when the last open closure is called, and never
      takes the mount away from another reference. */
  lemma OnlyTheLastReleaseUnmounts(w: World, keys: set<string>, step: Step, key: string)
    requires Reachable(w, keys) && Separate(keys) && key in keys && Allowed(w, keys, step)
    ensures Unmounts(w, step, key) ==>
              || step == ExternalUnmount(MountPointOf(key))
              || (&& step == Release(key, Gone)
                  && At(w.open, key) == 1 && key !in w.stuck && At(Apply(w, step).open, key) == 0)
  {
    CountsAreExact(w, keys, key);
    if (step.MountRequest? || step.Release?) && step.key != key {
      OtherKeysKeepThePath(w, step, key);
    }
  }

  /** A step makes a reference stuck exactly when it is a failing unmount of the last open
      closure, with the path still mounted. */
  lemma StuckExactly(w: World, keys: set<string>, step: Step, key: string)
    requires Reachable(w, keys) && Separate(keys) && key in keys && Allowed(w, keys, step)
    requires key !in w.stuck
    ensures key in Apply(w, step).stuck <==>
              && step.Release? && step.key == key && step.unmount != Gone
              && At(w.open, key) == 1 && Mounted(w.table, MountPointOf(key))
  {
    CountsAreExact(w, keys, key);
  }

  /** The release of the last open closure leaves nothing behind exactly when no earlier one
      failed, and its own unmount succeeds or is not needed. */
  lemma LastReleaseCleansUpExactly(w: World, keys: set<string>, key: string, unmount: Unmount)
    requires Reachable(w, keys) && Separate(keys) && key in keys && At(w.open, key) == 1
    ensures var t := Apply(w, Release(key, unmount)).table;
            At(t.refs, key) == 0 && !Mounted(t, MountPointOf(key)) <==>
              key !in w.stuck && (unmount == Gone || !Mounted(w.table, MountPointOf(key)))
  {
    CountsAreExact(w, keys, key);
  }

  /** Two steps reach a stuck key. */
  lemma StuckIsReachable(keys: set<string>, key: string, unmount: Unmount) returns (w: World)
    requires key in keys && unmount != Gone
    ensures Reachable(w, keys) && key in w.stuck && At(w.open, key) == 0 && Mounted(w.table, MountPointOf(key))
  {
    var start := World(Table(map[], map[]), map[], {});
    assert ReachableIn(0, start, keys);
    var mounted := Apply(start, MountRequest(key, true));
    assert Allowed(start, keys, MountRequest(key, true));
    assert ReachableIn(1, mounted, keys);
    w := Apply(mounted, Release(key, unmount));
    assert Allowed(mounted, keys, Release(key, unmount));
    assert ReachableIn(2, w, keys);
  }

  /** A stuck key is never unmounted by the driver again: no release of it changes the
      kernel, and it stays stuck. */
  lemma StuckMountsLeak(w: World, keys: set<string>, key: string, unmount: Unmount)
    requires Reachable(w, keys) && Separate(keys) && key in keys
    requires key in w.stuck && Allowed(w, keys, Release(key, unmount))
    ensures var w' := Apply(w, Release(key, unmount));
            w'.table.kernel == w.table.kernel && key in w'.stuck && At(w'.table.refs, key) >= 1
  {
    CountsAreExact(w, keys, key);
  }

  lemma ReachableStep(w: World, keys: set<string>, step: Step)
    requires Reachable(w, keys) && Allowed(w, keys, step)
    ensures Reachable(Apply(w, step), keys)
  {
    var n: nat :| ReachableIn(n, w, keys);
    assert ReachableIn(n + 1, Apply(w, step), keys);
  }

  lemma StuckStep(w: World, keys: set<string>, step: Step, key: string)
    requires Reachable(w, keys) && Separate(keys) && key in keys && key in w.stuck && Allowed(w, keys, step)
    ensures var w' := Apply(w, step);
            && Reachable(w', keys) && key in w'.stuck && At(w'.table.refs, key) >= 1
            && (Mounted(w.table, MountPointOf(key)) && step != ExternalUnmount(MountPointOf(key)) ==>
                  Mounted(w'.table, MountPointOf(key)))
  {
    ReachableStep(w, keys, step);
    CountsAreExact(w, keys, key);
    CountsAreExact(Apply(w, step), keys, key);
    OnlyTheLastReleaseUnmounts(w, keys, step, key);
  }

  /** Over every run a stuck key stays stuck and counted, and unless somebody else takes the
      mount away its path stays mounted. */
  lemma {:induction false} StuckMountsLeakForever(w: World, steps: seq<Step>, w': World, keys: set<string>, key: string)
    requires Reachable(w, keys) && Separate(keys) && key in keys && key in w.stuck && Run(w, steps, w')
    requires forall i :: 0 <= i < |steps| ==> Uses(steps[i], keys)
    ensures Reachable(w', keys) && key in w'.stuck && At(w'.table.refs, key) >= 1
    ensures Mounted(w.table, MountPointOf(key))
            && (forall i :: 0 <= i < |steps| ==> steps[i] != ExternalUnmount(MountPointOf(key))) ==>
              Mounted(w'.table, MountPointOf(key))
    decreases |steps|
  {
    CountsAreExact(w, keys, key);
    if steps != [] {
      var last := |steps| - 1;
      var p :| Run(w, steps[..last], p) && Callable(p, steps[last]) && w' == Apply(p, steps[last]);
      StuckMountsLeakForever(w, steps[..last], p, keys, key);
      assert Uses(steps[last], keys);
      StuckStep(p, keys, steps[last], key);
    }
  }
}
