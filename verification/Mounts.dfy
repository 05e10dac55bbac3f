/** The wekafs mounter: mounts as objects that share a counter map, the kernel's mount
    table and, through their options, a mutable map that their key is printed from. */
module Mounts {
  import opened Sums
  import opened Text
  import opened Ids
  import opened OptionAlgebra
  import opened OptionText
  import opened MountOptions
  import opened MountTable
  import opened MountPoints

  class Kernel {
    var mounts: map<string, int>

    constructor ()
      ensures mounts == map[]
    {
      mounts := map[];
    }
  }

  class WekafsMounter {
    var mountMap: map<string, int>
    const kernel: Kernel
    const baseDir: string
    const b32: string -> string

    constructor (kernel: Kernel, baseDir: string, b32: string -> string)
      ensures mountMap == map[] && this.kernel == kernel && this.baseDir == baseDir && this.b32 == b32
    {
      mountMap, this.kernel, this.baseDir, this.b32 := map[], kernel, baseDir, b32;
    }

    function State(): Table
      reads this, kernel
    {
      Table(mountMap, kernel.mounts)
    }

    /** gcInactiveMounts: a loop over the map that deletes from it. */
    method GcInactiveMounts()
      modifies this`mountMap
      ensures State() == Sweep(old(State()))
    {
      var rest := mountMap.Keys;
      while rest != {}
        invariant rest <= old(mountMap).Keys
        invariant mountMap == map k | k in old(mountMap) && (k in rest || old(mountMap)[k] != 0) :: old(mountMap)[k]
        decreases rest
      {
        var k :| k in rest;
        rest := rest - {k};
        if k in mountMap && mountMap[k] == 0 {
          mountMap := mountMap - {k};
        }
      }
    }
  }

  function Handed(m: Options, container: string): Options
  {
    if container == "" then m
    else
      var o := ParseOption(CONTAINER_NAME + "=" + container);
      m[o.option := o]
  }

  /** The kernel is told the container exactly as it is named. */
  lemma ContainerIsHanded(m: Options, container: string)
    requires '=' !in container
    ensures Handed(m, container)
            == if container == "" then m else m["container_name" := MountOption("container_name", container)]
  {
    if container != "" {
      ParseContext(CONTAINER_NAME, container);
    }
  }

  class WekafsMount {
    const mounter: WekafsMounter?
    const fsName: string
    const mountPoint: string
    const options: MountOptions
    var containerName: string

    constructor (mounter: WekafsMounter?, fsName: string, mountPoint: string, options: MountOptions)
      ensures this.mounter == mounter && this.fsName == fsName && this.mountPoint == mountPoint
      ensures this.options == options && containerName == ""
    {
      this.mounter, this.fsName, this.mountPoint, this.options := mounter, fsName, mountPoint, options;
      containerName := "";
    }

    function GetMountPoint(): string
      reads this
    {
      WithContainer(mountPoint, containerName)
    }

    /** The key, as the options print now. */
    ghost function Key(): string
      reads this, options.custom
    {
      GetMountPoint() + "^" + Print(options.Value())
    }

    method GetRefcountIdx() returns (key: string)
      ensures key == Key()
    {
      var printed := String(options.custom.options);
      key := GetMountPoint() + "^" + printed;
    }

    /** The options of the mount call: the container name goes into a derived copy, so that
        the options the key is printed from stay as they are. */
    method MountArguments() returns (handed: string)
      ensures handed == Print(Handed(options.Value(), containerName))
    {
      var mountOptions := options;
      if containerName != "" {
        mountOptions := AddOption(mountOptions, CONTAINER_NAME + "=" + containerName);
      }
      handed := String(mountOptions.custom.options);
    }

    /** doMount. Everything that can fail before or in the mount call is mountOk. */
    method DoMount(mountOk: bool) returns (ok: bool)
      requires mounter != null
      modifies mounter.kernel
      ensures ok == mountOk
      ensures mounter.State()
              == if ok then MountTable.DoMount(old(mounter.State()), GetMountPoint()) else old(mounter.State())
    {
      if !mountOk {
        return false;
      }
      var handed := MountArguments();
      mounter.kernel.mounts := mounter.kernel.mounts[GetMountPoint() := At(mounter.kernel.mounts, GetMountPoint()) + 1];
      return true;
    }

    method DoUnmount(unmount: Unmount) returns (ok: bool)
      requires mounter != null && Mounted(mounter.State(), GetMountPoint())
      modifies mounter.kernel
      ensures mounter.mountMap == old(mounter.mountMap)
      ensures unmount != Gone ==> !ok && mounter.State() == old(mounter.State())
      ensures unmount == Gone ==>
                && mounter.kernel.mounts
                   == old(mounter.kernel.mounts[GetMountPoint() := At(mounter.kernel.mounts, GetMountPoint()) - 1])
                && ok == !Mounted(mounter.State(), GetMountPoint())
    {
      if unmount == Refused {
        return false;
      }
      if unmount == Gone {
        var left := At(mounter.kernel.mounts, GetMountPoint()) - 1;
        mounter.kernel.mounts := mounter.kernel.mounts[GetMountPoint() := left];
      }
      return !(At(mounter.kernel.mounts, GetMountPoint()) > 0);
    }

    /** incRef computes its key before and after mounting; both are the same, because
        mounting never changes the options the key is printed from. */
    method IncRef(mountOk: bool) returns (ok: bool)
      modifies mounter, if mounter == null then {} else {mounter.kernel}
      ensures mounter == null ==> !ok
      ensures Key() == old(Key())
      ensures mounter != null ==>
                (mounter.State(), ok) == MountTable.IncRef(old(mounter.State()), old(Key()), GetMountPoint(), mountOk)
    {
      if mounter == null {
        return false;
      }
      var key := GetRefcountIdx();
      var refCount := At(mounter.mountMap, key);
      if refCount == 0 {
        var mounted := DoMount(mountOk);
        if !mounted {
          return false;
        }
      }
      if refCount > 0 && !(At(mounter.kernel.mounts, GetMountPoint()) > 0) {
        var mounted := DoMount(mountOk);
        if !mounted {
          return false;
        }
      }
      var key' := GetRefcountIdx();
      mounter.mountMap := mounter.mountMap[key' := refCount + 1];
      return true;
    }

    /** decRef, the body of the closure that mountWithOptions returns. */
    method DecRef(unmount: Unmount) returns (ok: bool)
      modifies mounter, if mounter == null then {} else {mounter.kernel}
      ensures mounter == null ==> !ok
      ensures Key() == old(Key())
      ensures mounter != null ==>
                (mounter.State(), ok) == MountTable.DecRef(old(mounter.State()), old(Key()), GetMountPoint(), unmount)
    {
      if mounter == null {
        return false;
      }
      var key := GetRefcountIdx();
      var refCount := At(mounter.mountMap, key);
      if refCount == 1 {
        if At(mounter.kernel.mounts, GetMountPoint()) > 0 {
          var unmounted := DoUnmount(unmount);
          if !unmounted {
            return false;
          }
        }
      }
      if refCount > 0 {
        var key' := GetRefcountIdx();
        mounter.mountMap := mounter.mountMap[key' := refCount - 1];
      }
      return true;
    }
  }

  /** mountWithOptions: SELinux options go into the given map, then a mount object on that
      map takes a reference. Its DecRef is the closure handed to the caller. */
  method MountWithOptions(mounter: WekafsMounter, fsName: string, opts: MountOptions, selinux: bool,
                          container: string, mountOk: bool) returns (ok: bool, mount: WekafsMount)
    modifies opts.custom, mounter, mounter.kernel
    ensures fresh(mount) && mount.mounter == mounter && mount.options == opts
    ensures opts.Value() == Selinux(old(opts.Value()), selinux)
    ensures mount.GetMountPoint()
            == WithContainer(MountPointFor(mounter.baseDir, mounter.b32, fsName, Print(opts.Value())), container)
    ensures (mounter.State(), ok)
            == MountTable.IncRef(old(mounter.State()), mount.Key(), mount.GetMountPoint(), mountOk)
  {
    SetSelinux(opts, selinux);
    var printed := String(opts.custom.options);
    mount := new WekafsMount(mounter, fsName, MountPointFor(mounter.baseDir, mounter.b32, fsName, printed), opts);
    mount.containerName := container;
    ok := mount.IncRef(mountOk);
  }

  /** MountUnderlyingFS: the mount gets a map of its own. Neither the defaults nor the
      volume's options change, and no later change to any options that existed before can
      reach the key of the mount. */
  method MountUnderlyingFS(mounter: WekafsMounter, fsName: string, defaults: MountOptions, volume: MountOptions,
                           ex: Exclusives, selinux: bool, container: string, mountOk: bool)
    returns (ok: bool, mount: WekafsMount, ghost order: seq<MountOption>)
    modifies mounter, mounter.kernel
    ensures fresh(mount) && fresh(mount.options.custom) && mount.mounter == mounter
    ensures mount.GetMountPoint()
            == WithContainer(MountPointFor(mounter.baseDir, mounter.b32, fsName, Print(mount.options.Value())),
                             container)
    ensures volume.Value() == old(volume.Value()) && defaults.Value() == old(defaults.Value())
    ensures Enumerates(order, volume.Value())
    ensures mount.options.Value() == Selinux(Merge(defaults.Value(), order, volume.exclude, ex), selinux)
    ensures (mounter.State(), ok)
            == MountTable.IncRef(old(mounter.State()), mount.Key(), mount.GetMountPoint(), mountOk)
  {
    var mountOpts;
    mountOpts, order := MergedWith(defaults, volume, ex);
    ok, mount := MountWithOptions(mounter, fsName, mountOpts, selinux, container, mountOk);
  }
}
