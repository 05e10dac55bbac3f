/** The driver's mounts over time: closures that are open while other volumes are mounted and
    released, options are merged and changed in place, mounts are swept or taken away. */
module Sessions {
  import opened Sums
  import opened Wrappers
  import opened Ids
  import opened OptionAlgebra
  import opened OptionText
  import opened MountOptions
  import opened MountTable
  import opened MountPoints
  import opened Mounts

  /** The option maps that mounts own. */
  ghost function OwnMaps(open: seq<WekafsMount>): set<OptionMap>
  {
    set m | m in open :: m.options.custom
  }

  /** A closure prints the key recorded for it. */
  ghost predicate Records(mounter: WekafsMounter, mount: WekafsMount, key: string)
    reads mount, mount.options.custom
  {
    mount.mounter == mounter && mount.Key() == key && MountPointOf(key) == mount.GetMountPoint()
  }

  ghost predicate AllRecorded(mounter: WekafsMounter, open: seq<WekafsMount>, keys: seq<string>)
    reads open, OwnMaps(open)
  {
    |open| == |keys| && forall i :: 0 <= i < |open| ==> Records(mounter, open[i], keys[i])
  }

  ghost predicate Counted(keys: seq<string>, w: World)
  {
    forall k :: At(w.open, k) == multiset(keys)[k]
  }

  /** The open closures, with the keys recorded when they were handed out, agree with the
      world: each still prints the key it was counted under. */
  ghost predicate Tracks(mounter: WekafsMounter, open: seq<WekafsMount>, keys: seq<string>, w: World)
    reads mounter, mounter.kernel, open, OwnMaps(open)
  {
    w.table == mounter.State() && AllRecorded(mounter, open, keys) && Counted(keys, w)
  }

  ghost function NamingOf(mounter: WekafsMounter, containers: set<string>): Naming
  {
    Naming(mounter.baseDir, mounter.b32, containers)
  }

  ghost predicate AllMade(n: Naming, keys: seq<string>)
  {
    forall i :: 0 <= i < |keys| ==> n.Makes(keys[i])
  }

  ghost predicate MadeStep(n: Naming, step: Step)
  {
    step.MountRequest? || step.Release? ==> n.Makes(step.key)
  }

  lemma CountedAfterMount(keys: seq<string>, w: World, key: string, mountOk: bool)
    requires Counted(keys, w)
    ensures var (t, ok) := MountTable.IncRef(w.table, key, MountPointOf(key), mountOk);
            Counted(if ok then keys + [key] else keys, Apply(w, MountRequest(key, mountOk)))
  {
  }

  lemma CountedAfterRelease(keys: seq<string>, w: World, i: nat, unmount: Unmount)
    requires Counted(keys, w) && i < |keys|
    ensures At(w.open, keys[i]) > 0
    ensures Counted(keys[..i] + keys[i + 1..], Apply(w, MountTable.Release(keys[i], unmount)))
  {
    var rest := keys[..i] + keys[i + 1..];
    assert keys == keys[..i] + [keys[i]] + keys[i + 1..];
    assert multiset(keys) == multiset(rest) + multiset{keys[i]};
    var open' := w.open[keys[i] := At(w.open, keys[i]) - 1];
    assert Apply(w, MountTable.Release(keys[i], unmount)).open == open';
    forall k
      ensures At(open', k) == multiset(rest)[k]
    {
      assert At(w.open, k) == multiset(keys)[k] == multiset(rest)[k] + multiset{keys[i]}[k];
    }
  }

  lemma ReleaseTable(w: World, key: string, unmount: Unmount)
    ensures Apply(w, MountTable.Release(key, unmount)).table
            == MountTable.DecRef(w.table, key, MountPointOf(key), unmount).0
  {
  }

  lemma RecordedWithout(mounter: WekafsMounter, open: seq<WekafsMount>, keys: seq<string>, i: nat)
    requires AllRecorded(mounter, open, keys) && i < |open|
    ensures AllRecorded(mounter, open[..i] + open[i + 1..], keys[..i] + keys[i + 1..])
  {
  }

  lemma RecordedWith(mounter: WekafsMounter, open: seq<WekafsMount>, keys: seq<string>, mount: WekafsMount, key: string)
    requires AllRecorded(mounter, open, keys) && Records(mounter, mount, key)
    ensures AllRecorded(mounter, open + [mount], keys + [key])
  {
  }

  /** MountUnderlyingFS, with the key that its closure is counted under. */
  method Mount(mounter: WekafsMounter, ghost containers: set<string>, container: string, ex: Exclusives,
               fsName: string, defaults: MountOptions, volume: MountOptions, selinux: bool, mountOk: bool,
               open: seq<WekafsMount>, ghost keys: seq<string>, ghost w: World)
    returns (ok: bool, mount: WekafsMount, ghost key: string)
    requires NamingOf(mounter, containers).Valid() && ':' !in fsName && container in containers
    requires Tracks(mounter, open, keys, w)
    modifies mounter, mounter.kernel
    ensures fresh(mount) && fresh(mount.options.custom) && NamingOf(mounter, containers).Makes(key)
    ensures mountOk ==> ok
    ensures ok ==> Tracks(mounter, open + [mount], keys + [key], Apply(w, MountRequest(key, mountOk)))
    ensures !ok ==> Tracks(mounter, open, keys, Apply(w, MountRequest(key, mountOk)))
  {
    ok, mount, key :=
      MountOne(mounter, containers, container, ex, fsName, defaults, volume, selinux, mountOk, open, keys);
    CountedAfterMount(keys, w, key, mountOk);
    MountTableStep(w, key, mountOk);
    if ok {
      RecordedWith(mounter, open, keys, mount, key);
    }
  }

  lemma MountTableStep(w: World, key: string, mountOk: bool)
    ensures Apply(w, MountRequest(key, mountOk)).table
            == MountTable.IncRef(w.table, key, MountPointOf(key), mountOk).0
  {
  }

  method MountOne(mounter: WekafsMounter, ghost containers: set<string>, container: string, ex: Exclusives,
                  fsName: string, defaults: MountOptions, volume: MountOptions, selinux: bool, mountOk: bool,
                  ghost open: seq<WekafsMount>, ghost keys: seq<string>)
    returns (ok: bool, mount: WekafsMount, ghost key: string)
    requires NamingOf(mounter, containers).Valid() && ':' !in fsName && container in containers
    requires AllRecorded(mounter, open, keys)
    modifies mounter, mounter.kernel
    ensures fresh(mount) && fresh(mount.options.custom) && Records(mounter, mount, key)
    ensures NamingOf(mounter, containers).Makes(key)
    ensures (mounter.State(), ok) == MountTable.IncRef(old(mounter.State()), key, MountPointOf(key), mountOk)
    ensures AllRecorded(mounter, open, keys)
  {
    ok, mount, key := CallMount(mounter, containers, container, ex, fsName, defaults, volume, selinux, mountOk);
  }

  method CallMount(mounter: WekafsMounter, ghost containers: set<string>, container: string, ex: Exclusives,
                   fsName: string, defaults: MountOptions, volume: MountOptions, selinux: bool, mountOk: bool)
    returns (ok: bool, mount: WekafsMount, ghost key: string)
    requires NamingOf(mounter, containers).Valid() && ':' !in fsName && container in containers
    modifies mounter, mounter.kernel
    ensures fresh(mount) && fresh(mount.options.custom) && Records(mounter, mount, key)
    ensures NamingOf(mounter, containers).Makes(key)
    ensures (mounter.State(), ok) == MountTable.IncRef(old(mounter.State()), key, MountPointOf(key), mountOk)
  {
    ghost var order;
    ok, mount, order := MountUnderlyingFS(mounter, fsName, defaults, volume, ex, selinux, container, mountOk);
    key := mount.Key();
    ghost var parts := Parts(fsName, Print(mount.options.Value()), container);
    assert NamingOf(mounter, containers).Proper(parts) && NamingOf(mounter, containers).Key(parts) == key;
    KeyHoldsItsMountPoint(NamingOf(mounter, containers), parts);
  }

  /** Calling a closure releases the key that was recorded when it was handed out. */
  method Release(mounter: WekafsMounter, i: nat, unmount: Unmount,
                 open: seq<WekafsMount>, ghost keys: seq<string>, ghost w: World)
    requires Tracks(mounter, open, keys, w) && i < |open|
    modifies mounter, mounter.kernel
    ensures Tracks(mounter, open[..i] + open[i + 1..], keys[..i] + keys[i + 1..],
                   Apply(w, MountTable.Release(keys[i], unmount)))
    ensures At(w.open, keys[i]) > 0
  {
    ReleaseOne(mounter, open[i], keys[i], unmount, open, keys);
    RecordedWithout(mounter, open, keys, i);
    CountedAfterRelease(keys, w, i, unmount);
    ReleaseTable(w, keys[i], unmount);
  }

  method ReleaseOne(mounter: WekafsMounter, mount: WekafsMount, ghost key: string, unmount: Unmount,
                    ghost open: seq<WekafsMount>, ghost keys: seq<string>)
    requires Records(mounter, mount, key) && AllRecorded(mounter, open, keys)
    modifies mounter, mounter.kernel
    ensures mounter.State() == MountTable.DecRef(old(mounter.State()), key, MountPointOf(key), unmount).0
    ensures AllRecorded(mounter, open, keys)
  {
    CallDecRef(mounter, mount, key, unmount);
  }

  method CallDecRef(mounter: WekafsMounter, mount: WekafsMount, ghost key: string, unmount: Unmount)
    requires Records(mounter, mount, key)
    modifies mounter, mounter.kernel
    ensures mounter.State() == MountTable.DecRef(old(mounter.State()), key, MountPointOf(key), unmount).0
  {
    var ok := mount.DecRef(unmount);
  }

  // ----- whatever happens in between

  /** What else the driver does while a closure is open. */
  datatype Op =
    | MountVolume(fs: string, container: string, defaults: MountOptions, volume: MountOptions, selinux: bool,
                  mountOk: bool)
    | CallClosure(i: nat, unmount: Unmount)
    | SweepMounts
    | PathGoes(mountPoint: string)
    | ChangeSelinux(opts: MountOptions, support: bool)
    | MergeOptions(opts: MountOptions, other: MountOptions)

  /** Mounts use known container names, and options change in place only in shared maps. */
  ghost predicate Proper(op: Op, containers: set<string>, shared: set<OptionMap>)
  {
    match op
    case MountVolume(fs, container, _, _, _, _) => ':' !in fs && container in containers
    case ChangeSelinux(opts, _) => opts.custom in shared
    case MergeOptions(opts, other) => opts.custom in shared && opts.custom != other.custom
    case _ => true
  }

  ghost predicate Took(step: Option<Step>, w: World, w': World)
  {
    match step
    case None => w' == w
    case Some(s) => w' == Apply(w, s) && Callable(w, s)
  }

  method Sweep(mounter: WekafsMounter, ghost open: seq<WekafsMount>, ghost keys: seq<string>, ghost w: World)
    requires Tracks(mounter, open, keys, w)
    modifies mounter`mountMap
    ensures Tracks(mounter, open, keys, Apply(w, PeriodicSweep))
  {
    mounter.GcInactiveMounts();
  }

  method TakePath(mounter: WekafsMounter, mountPoint: string,
                  ghost open: seq<WekafsMount>, ghost keys: seq<string>, ghost w: World)
    requires Tracks(mounter, open, keys, w)
    modifies mounter.kernel
    ensures Tracks(mounter, open, keys, Apply(w, ExternalUnmount(mountPoint)))
  {
    if At(mounter.kernel.mounts, mountPoint) > 0 {
      mounter.kernel.mounts := mounter.kernel.mounts[mountPoint := At(mounter.kernel.mounts, mountPoint) - 1];
    }
  }

  /** Changing options in place reaches no key: mounts own their maps. */
  method ChangeOptions(mounter: WekafsMounter, ghost containers: set<string>, op: Op, ex: Exclusives,
                       ghost shared: set<OptionMap>, ghost open: seq<WekafsMount>, ghost keys: seq<string>,
                       ghost w: World)
    requires Tracks(mounter, open, keys, w) && OwnMaps(open) !! shared
    requires Proper(op, containers, shared) && (op.ChangeSelinux? || op.MergeOptions?)
    modifies shared
    ensures Tracks(mounter, open, keys, w)
  {
    if op.ChangeSelinux? {
      SetSelinux(op.opts, op.support);
    } else {
      var order := MergeInto(op.opts, op.other, ex);
    }
  }

  /** The first closures are still there, with their keys. */
  ghost predicate Holds(held: nat, open: seq<WekafsMount>, keys: seq<string>, open': seq<WekafsMount>,
                        keys': seq<string>)
  {
    && held <= |open| && held <= |keys| && held <= |open'| && held <= |keys'|
    && open'[..held] == open[..held] && keys'[..held] == keys[..held]
  }

  lemma HoldsWithout(held: nat, open: seq<WekafsMount>, keys: seq<string>, i: nat, shared: set<OptionMap>)
    requires held <= i < |open| == |keys| && OwnMaps(open) !! shared
    ensures Holds(held, open, keys, open[..i] + open[i + 1..], keys[..i] + keys[i + 1..])
    ensures OwnMaps(open[..i] + open[i + 1..]) !! shared
  {
    forall m | m in open[..i] + open[i + 1..]
      ensures m.options.custom !in shared
    {
      assert m in open;
      assert m.options.custom in OwnMaps(open);
    }
  }

  lemma HoldsWith(held: nat, open: seq<WekafsMount>, keys: seq<string>, mount: WekafsMount, key: string,
                  shared: set<OptionMap>)
    requires held <= |open| == |keys| && OwnMaps(open) !! shared && mount.options.custom !in shared
    ensures Holds(held, open, keys, open + [mount], keys + [key])
    ensures OwnMaps(open + [mount]) !! shared
  {
    forall m | m in open + [mount]
      ensures m.options.custom !in shared
    {
      if m in open {
        assert m.options.custom in OwnMaps(open);
      }
    }
  }

  lemma MadeWithout(n: Naming, keys: seq<string>, i: nat)
    requires AllMade(n, keys) && i < |keys|
    ensures n.Makes(keys[i]) && AllMade(n, keys[..i] + keys[i + 1..])
  {
    var rest := keys[..i] + keys[i + 1..];
    forall j | 0 <= j < |rest|
      ensures n.Makes(rest[j])
    {
      assert rest[j] == if j < i then keys[j] else keys[j + 1];
    }
  }

  lemma MadeWith(n: Naming, keys: seq<string>, key: string)
    requires AllMade(n, keys) && n.Makes(key)
    ensures AllMade(n, keys + [key])
  {
  }

  method PerformMount(mounter: WekafsMounter, ghost containers: set<string>, ex: Exclusives, op: Op, held: nat,
                      ghost shared: set<OptionMap>, open: seq<WekafsMount>, ghost keys: seq<string>, ghost w: World)
    returns (open': seq<WekafsMount>, ghost keys': seq<string>, ghost step: Step)
    requires NamingOf(mounter, containers).Valid() && Tracks(mounter, open, keys, w)
    requires AllMade(NamingOf(mounter, containers), keys)
    requires held <= |open| && op.MountVolume? && Proper(op, containers, shared) && OwnMaps(open) !! shared
    modifies mounter, mounter.kernel
    ensures step.MountRequest? && Tracks(mounter, open', keys', Apply(w, step))
    ensures MadeStep(NamingOf(mounter, containers), step) && AllMade(NamingOf(mounter, containers), keys')
    ensures Holds(held, open, keys, open', keys') && OwnMaps(open') !! shared
  {
    ghost var key;
    var ok, mount;
    ok, mount, key := Mount(mounter, containers, op.container, ex, op.fs, op.defaults, op.volume, op.selinux,
                            op.mountOk, open, keys, w);
    step := MountRequest(key, op.mountOk);
    if ok {
      HoldsWith(held, open, keys, mount, key, shared);
      MadeWith(NamingOf(mounter, containers), keys, key);
      open', keys' := open + [mount], keys + [key];
    } else {
      open', keys' := open, keys;
    }
  }

  method PerformCall(mounter: WekafsMounter, ghost containers: set<string>, op: Op, held: nat,
                     ghost shared: set<OptionMap>, open: seq<WekafsMount>, ghost keys: seq<string>, ghost w: World)
    returns (open': seq<WekafsMount>, ghost keys': seq<string>, ghost step: Step)
    requires Tracks(mounter, open, keys, w) && AllMade(NamingOf(mounter, containers), keys)
    requires op.CallClosure? && held <= op.i < |open| && OwnMaps(open) !! shared
    modifies mounter, mounter.kernel
    ensures step.Release? && Callable(w, step) && Tracks(mounter, open', keys', Apply(w, step))
    ensures MadeStep(NamingOf(mounter, containers), step) && AllMade(NamingOf(mounter, containers), keys')
    ensures Holds(held, open, keys, open', keys') && OwnMaps(open') !! shared
  {
    HoldsWithout(held, open, keys, op.i, shared);
    MadeWithout(NamingOf(mounter, containers), keys, op.i);
    Release(mounter, op.i, op.unmount, open, keys, w);
    step := MountTable.Release(keys[op.i], op.unmount);
    open', keys' := open[..op.i] + open[op.i + 1..], keys[..op.i] + keys[op.i + 1..];
  }

  /** One operation, and the step of the mount table it takes, if any; the first closures are
      not called. */
  method Perform(mounter: WekafsMounter, ghost containers: set<string>, ex: Exclusives, op: Op, held: nat,
                 ghost shared: set<OptionMap>, open: seq<WekafsMount>, ghost keys: seq<string>, ghost w: World)
    returns (open': seq<WekafsMount>, ghost keys': seq<string>, ghost w': World, ghost step: Option<Step>)
    requires NamingOf(mounter, containers).Valid() && Tracks(mounter, open, keys, w)
    requires AllMade(NamingOf(mounter, containers), keys)
    requires held <= |open| && OwnMaps(open) !! shared && Proper(op, containers, shared)
    modifies mounter, mounter.kernel, shared
    ensures Tracks(mounter, open', keys', w') && Took(step, w, w')
    ensures step.Some? ==> MadeStep(NamingOf(mounter, containers), step.value)
    ensures AllMade(NamingOf(mounter, containers), keys')
    ensures Holds(held, open, keys, open', keys') && OwnMaps(open') !! shared
  {
    open', keys', w', step := open, keys, w, None;
    if op.MountVolume? {
      ghost var taken;
      open', keys', taken := PerformMount(mounter, containers, ex, op, held, shared, open, keys, w);
      w', step := Apply(w, taken), Some(taken);
    } else if op.CallClosure? {
      if held <= op.i < |open| {
        ghost var taken;
        open', keys', taken := PerformCall(mounter, containers, op, held, shared, open, keys, w);
        w', step := Apply(w, taken), Some(taken);
      }
    } else if op.SweepMounts? {
      Sweep(mounter, open, keys, w);
      w', step := Apply(w, PeriodicSweep), Some(PeriodicSweep);
    } else if op.PathGoes? {
      TakePath(mounter, op.mountPoint, open, keys, w);
      w', step := Apply(w, ExternalUnmount(op.mountPoint)), Some(ExternalUnmount(op.mountPoint));
    } else {
      ChangeOptions(mounter, containers, op, ex, shared, open, keys, w);
    }
  }

  /** Any number of operations: the closures that are held keep their keys, and the mount
      table takes a run of its own steps, all under keys that the driver makes. */
  method PerformAll(mounter: WekafsMounter, ghost containers: set<string>, ex: Exclusives, ops: seq<Op>, held: nat,
                    ghost shared: set<OptionMap>, start: seq<WekafsMount>, ghost startKeys: seq<string>, ghost w: World)
    returns (open: seq<WekafsMount>, ghost keys: seq<string>, ghost w': World, ghost steps: seq<Step>)
    requires NamingOf(mounter, containers).Valid() && Tracks(mounter, start, startKeys, w)
    requires AllMade(NamingOf(mounter, containers), startKeys)
    requires held <= |start| && OwnMaps(start) !! shared && forall op :: op in ops ==> Proper(op, containers, shared)
    modifies mounter, mounter.kernel, shared
    ensures Tracks(mounter, open, keys, w') && Run(w, steps, w')
    ensures forall i :: 0 <= i < |steps| ==> MadeStep(NamingOf(mounter, containers), steps[i])
    ensures AllMade(NamingOf(mounter, containers), keys)
    ensures Holds(held, start, startKeys, open, keys)
  {
    open, keys, w', steps := start, startKeys, w, [];
    for n := 0 to |ops|
      invariant Tracks(mounter, open, keys, w') && Run(w, steps, w')
      invariant forall i :: 0 <= i < |steps| ==> MadeStep(NamingOf(mounter, containers), steps[i])
      invariant AllMade(NamingOf(mounter, containers), keys)
      invariant Holds(held, start, startKeys, open, keys) && OwnMaps(open) !! shared
    {
      ghost var step, before := None, w';
      open, keys, w', step := Perform(mounter, containers, ex, ops[n], held, shared, open, keys, w');
      if step.Some? {
        RunOneMore(w, steps, before, step.value);
        steps := steps + [step.value];
      }
    }
  }

  lemma FirstIsHeld(open: seq<WekafsMount>, keys: seq<string>, open': seq<WekafsMount>, keys': seq<string>)
    requires Holds(1, open, keys, open', keys')
    ensures keys'[0] == keys[0] && open'[0] == open[0]
  {
    assert keys'[..1][0] == keys[..1][0] && open'[..1][0] == open[..1][0];
  }

  lemma LastFirst(mounter: WekafsMounter, open: seq<WekafsMount>, keys: seq<string>, mount: WekafsMount, key: string,
                  w: World, shared: set<OptionMap>)
    requires Tracks(mounter, open + [mount], keys + [key], w) && |open| == |keys|
    requires OwnMaps(open) !! shared && mount.options.custom !in shared
    ensures Tracks(mounter, [mount] + open, [key] + keys, w) && OwnMaps([mount] + open) !! shared
  {
    RecordedLastFirst(mounter, open, keys, mount, key);
    assert multiset([key] + keys) == multiset(keys + [key]);
    HoldsWith(0, open, keys, mount, key, shared);
    assert OwnMaps([mount] + open) == OwnMaps(open + [mount]);
  }

  lemma RecordedLastFirst(mounter: WekafsMounter, open: seq<WekafsMount>, keys: seq<string>, mount: WekafsMount,
                          key: string)
    requires AllRecorded(mounter, open + [mount], keys + [key]) && |open| == |keys|
    ensures AllRecorded(mounter, [mount] + open, [key] + keys)
  {
    forall i | 0 <= i < |open|
      ensures Records(mounter, open[i], keys[i])
    {
      assert (open + [mount])[i] == open[i] && (keys + [key])[i] == keys[i];
    }
    assert Records(mounter, (open + [mount])[|open|], (keys + [key])[|open|]);
  }

  /** Mount, do anything, release: the release takes away the reference that the mount took,
      under the key recorded then, however many volumes were mounted and released and
      whatever options were merged or changed in between. */
  method MountHoldRelease(mounter: WekafsMounter, ghost containers: set<string>, first: Op, ex: Exclusives,
                          ops: seq<Op>, unmount: Unmount, ghost shared: set<OptionMap>,
                          open: seq<WekafsMount>, ghost keys: seq<string>, ghost w: World)
    returns (ghost key: string, ghost steps: seq<Step>, ghost w': World)
    requires NamingOf(mounter, containers).Valid() && Tracks(mounter, open, keys, w) && OwnMaps(open) !! shared
    requires AllMade(NamingOf(mounter, containers), keys)
    requires first.MountVolume? && first.mountOk && Proper(first, containers, shared)
    requires forall op :: op in ops ==> Proper(op, containers, shared)
    modifies mounter, mounter.kernel, shared
    ensures |steps| >= 2
    ensures steps[0] == MountRequest(key, true) && steps[|steps| - 1] == MountTable.Release(key, unmount)
    ensures Run(w, steps, w') && w'.table == mounter.State()
  {
    var ok, mount;
    ok, mount, key := Mount(mounter, containers, first.container, ex, first.fs, first.defaults, first.volume,
                            first.selinux, true, open, keys, w);
    ghost var mounted := Apply(w, MountRequest(key, true));
    LastFirst(mounter, open, keys, mount, key, mounted, shared);
    var open', keys', held, between :=
      PerformAll(mounter, containers, ex, ops, 1, shared, [mount] + open, [key] + keys, mounted);
    FirstIsHeld([mount] + open, [key] + keys, open', keys');
    Release(mounter, 0, unmount, open', keys', held);
    w' := Apply(held, MountTable.Release(key, unmount));
    RunAround(w, MountRequest(key, true), between, held, MountTable.Release(key, unmount));
    steps := [MountRequest(key, true)] + between + [MountTable.Release(key, unmount)];
  }

  // ----- counting, for the driver's own runs

  /** The keys that a run uses. */
  ghost function KeysOf(steps: seq<Step>): set<string>
  {
    set step | step in steps && (step.MountRequest? || step.Release?) :: step.key
  }

  /** The entry of a key is the number of its open closures, plus one if its last unmount
      failed; its path is mounted at most once, and not at all when the entry is zero. */
  ghost predicate CountedRight(table: Table, keys: seq<string>, w: World, key: string)
  {
    && At(table.refs, key) == multiset(keys)[key] + Stuck(w, key)
    && 0 <= At(table.kernel, MountPointOf(key)) <= 1
    && (At(table.refs, key) == 0 ==> At(table.kernel, MountPointOf(key)) == 0)
  }

  lemma MadeKeys(n: Naming, steps: seq<Step>, key: string)
    requires n.Makes(key) && forall i :: 0 <= i < |steps| ==> MadeStep(n, steps[i])
    ensures forall k :: k in KeysOf(steps) + {key} ==> n.Makes(k)
    ensures forall i :: 0 <= i < |steps| ==> Uses(steps[i], KeysOf(steps) + {key})
  {
    forall k | k in KeysOf(steps)
      ensures n.Makes(k)
    {
      var step :| step in steps && (step.MountRequest? || step.Release?) && step.key == k;
      var i :| 0 <= i < |steps| && steps[i] == step;
      assert MadeStep(n, steps[i]);
    }
    forall i | 0 <= i < |steps|
      ensures Uses(steps[i], KeysOf(steps) + {key})
    {
      assert steps[i] in steps;
    }
  }

  lemma RunIsCountedRight(start: World, steps: seq<Step>, w: World, keys: seq<string>, universe: set<string>,
                          key: string)
    requires Separate(universe) && key in universe && (forall i :: 0 <= i < |steps| ==> Uses(steps[i], universe))
    requires Initial(start, universe) && Run(start, steps, w) && Counted(keys, w)
    ensures CountedRight(w.table, keys, w, key)
  {
    RunsAreReachable(start, steps, w, universe);
    CountsAreExact(w, universe, key);
  }

  /** The counts of a driver, after any operations from its start, through any containers that
      can be told apart: right for every key, unless hashes of keys in use collide. */
  method RunDriver(mounter: WekafsMounter, ghost containers: set<string>, ex: Exclusives, ops: seq<Op>,
                   ghost shared: set<OptionMap>)
    returns (open: seq<WekafsMount>, ghost keys: seq<string>, ghost w: World, ghost steps: seq<Step>)
    requires NamingOf(mounter, containers).Valid() && mounter.mountMap == map[]
    requires forall k :: NamingOf(mounter, containers).Makes(k) ==> At(mounter.kernel.mounts, MountPointOf(k)) == 0
    requires forall op :: op in ops ==> Proper(op, containers, shared)
    modifies mounter, mounter.kernel, shared
    ensures AllRecorded(mounter, open, keys)
    ensures forall k :: k in KeysOf(steps) ==> NamingOf(mounter, containers).Makes(k)
    ensures forall key :: NamingOf(mounter, containers).Makes(key)
                          && NamingOf(mounter, containers).CollisionFree(KeysOf(steps) + {key}) ==>
                            CountedRight(mounter.State(), keys, w, key)
  {
    ghost var n, start := NamingOf(mounter, containers), World(mounter.State(), map[], {});
    open, keys, w, steps := PerformAll(mounter, containers, ex, ops, 0, shared, [], [], start);
    forall key | n.Makes(key)
      ensures forall k :: k in KeysOf(steps) + {key} ==> n.Makes(k)
      ensures n.CollisionFree(KeysOf(steps) + {key}) ==> CountedRight(mounter.State(), keys, w, key)
    {
      MadeKeys(n, steps, key);
      if n.CollisionFree(KeysOf(steps) + {key}) {
        DriverKeysAreSeparate(n, KeysOf(steps) + {key});
        RunIsCountedRight(start, steps, w, keys, KeysOf(steps) + {key}, key);
      }
    }
  }
}
