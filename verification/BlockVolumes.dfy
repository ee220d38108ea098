/** Block volumes: create takes the block devices behind mounts away from the host, delete mounts them again. */
module BlockVolumes {
  import opened GoStrings
  import opened Strconv
  import opened MountOptions

  /** An entry of mountinfo. */
  datatype Info = Info(mountpoint: string, source: string, fstype: string, options: string)

  /** A mount of the container's spec. */
  datatype Volume = Volume(source: string, destination: string)

  datatype BlockDev = BlockDev(source: string, fstype: string, mountOptions: string, mountPoint: string,
                               hostMountPoint: string, id: string, loopAutoclear: bool)

  /** The host: its mounts, and the loop devices with their autoclear flags. */
  datatype Host = Host(mounts: seq<Info>, loops: map<string, bool>)

  // ------------------------------------------------------------------ the kernel's side

  /** How mountinfo shows the flags of a mount. */
  const SHOWN := [NoSuid, NoDev, NoExec, NoAtime, NoDirAtime, RelAtime, StrictAtime, NoSymFollow, Synchronous, DirSync,
                  MandLock, Silent, LazyTime, IVersion]

  function SettingName(f: VfsFlag): string {
    match f
    case ReadOnly => "ro" case NoSuid => "nosuid" case NoDev => "nodev" case NoExec => "noexec"
    case NoAtime => "noatime" case NoDirAtime => "nodiratime" case RelAtime => "relatime"
    case StrictAtime => "strictatime" case NoSymFollow => "nosymfollow" case Synchronous => "sync"
    case DirSync => "dirsync" case MandLock => "mand" case Silent => "silent" case LazyTime => "lazytime"
    case IVersion => "iversion"
  }

  function Names(fs: seq<VfsFlag>, s: set<VfsFlag>): (names: seq<string>)
    ensures |names| >= 1
    decreases |fs|
  {
    if fs == [] then [if ReadOnly in s then "ro" else "rw"]
    else
      var last := fs[|fs| - 1];
      Names(fs[..|fs| - 1], s) + if last in s then [SettingName(last)] else []
  }

  function Shown(s: set<VfsFlag>): string {
    Join(Names(SHOWN, s), ',')
  }

  function FlagsIn(word: bv64): set<VfsFlag> {
    set f: VfsFlag | HasFlag(word, f)
  }

  /** The flags that an entry shows. */
  function FlagsOf(m: Info): set<VfsFlag> {
    Active(Split(m.options, ','))
  }

  lemma SettingNameSets(f: VfsFlag)
    ensures VfsChange(SettingName(f)) == Some(Change(f, false)) && ',' !in SettingName(f)
    ensures VfsChange("ro") == Some(Change(ReadOnly, false)) && VfsChange("rw") == Some(Change(ReadOnly, true))
    ensures ',' !in "ro" && ',' !in "rw"
  {
  }

  lemma {:induction false} NamesSet(fs: seq<VfsFlag>, s: set<VfsFlag>)
    ensures Active(Names(fs, s)) == set f | f in s && (f == ReadOnly || f in fs)
    ensures AllFree(Names(fs, s), ',')
    decreases |fs|
  {
    hide VfsChange, SettingName, Active;
    if fs == [] {
      SettingNameSets(ReadOnly);
      NoOptions(false);
      ActiveSnoc([], Names(fs, s)[0]);
      assert [] + [Names(fs, s)[0]] == Names(fs, s);
    } else {
      var front, last := fs[..|fs| - 1], fs[|fs| - 1];
      NamesSet(front, s);
      SettingNameSets(last);
      ActiveSnoc(Names(front, s), SettingName(last));
      assert fs == front + [last];
      assert Names(front, s) + [] == Names(front, s);
    }
  }

  /** Every set of flags is shown in a way that is folded into the same flags again. */
  lemma ShownFlags(s: set<VfsFlag>)
    ensures Active(Split(Shown(s), ',')) == s
  {
    NamesSet(SHOWN, s);
    EveryFlagShown();
    SplitJoin(Names(SHOWN, s), ',');
    hide Active, Names, Split, Join;
  }

  lemma EveryFlagShown()
    ensures forall f: VfsFlag :: f == ReadOnly || f in SHOWN
  {
    assert NoSuid == SHOWN[0] && NoDev == SHOWN[1] && NoExec == SHOWN[2] && NoAtime == SHOWN[3];
    assert NoDirAtime == SHOWN[4] && RelAtime == SHOWN[5] && StrictAtime == SHOWN[6] && NoSymFollow == SHOWN[7];
    assert Synchronous == SHOWN[8] && DirSync == SHOWN[9] && MandLock == SHOWN[10] && Silent == SHOWN[11];
    assert LazyTime == SHOWN[12] && IVersion == SHOWN[13];
  }

  /** The mount that a path leads to: the last one there. */
  function MountedAt(mounts: seq<Info>, path: string): (r: Option<Info>)
    ensures r.Some? ==> r.value in mounts && r.value.mountpoint == path
    decreases |mounts|
  {
    if mounts == [] then None
    else
      var last := mounts[|mounts| - 1];
      if last.mountpoint == path then Some(last) else MountedAt(mounts[..|mounts| - 1], path)
  }

  function Removed(mounts: seq<Info>, path: string): seq<Info>
    decreases |mounts|
  {
    if mounts == [] then []
    else
      var front, last := mounts[..|mounts| - 1], mounts[|mounts| - 1];
      if last.mountpoint == path then front else Removed(front, path) + [last]
  }

  /** umount(2). A loop device with the autoclear flag goes away with its last mount. */
  function Unmounted(host: Host, path: string): Host {
    match MountedAt(host.mounts, path)
    case None => host
    case Some(m) =>
      var mounts := Removed(host.mounts, path);
      var gone := m.source in host.loops && host.loops[m.source]
                  && forall i :: 0 <= i < |mounts| ==> mounts[i].source != m.source;
      Host(mounts, if gone then host.loops - {m.source} else host.loops)
  }

  predicate Changes(loops: map<string, bool>, dev: string, autoclear: bool) {
    dev in loops && loops[dev] != autoclear
  }

  function WithAutoclear(loops: map<string, bool>, dev: string, autoclear: bool): map<string, bool> {
    if dev in loops then loops[dev := autoclear] else loops
  }

  /** The host's kernel. `fails` says whether a system call fails. */
  class Kernel {
    var mounts: seq<Info>
    var loops: map<string, bool>

    constructor (host: Host)
      ensures State() == host
    {
      mounts, loops := host.mounts, host.loops;
    }

    function State(): Host
      reads this
    {
      Host(mounts, loops)
    }

    method Unmount(path: string, fails: bool) returns (ok: bool)
      modifies this
      ensures ok == !fails
      ensures State() == if ok then Unmounted(old(State()), path) else old(State())
    {
      if fails {
        return false;
      }
      var after := Unmounted(State(), path);
      mounts, loops := after.mounts, after.loops;
      return true;
    }

    method Mount(source: string, path: string, fstype: string, flags: bv64, fails: bool) returns (ok: bool)
      modifies this
      ensures ok == !fails
      ensures State() == if ok then Host(old(mounts) + [Info(path, source, fstype, Shown(FlagsIn(flags)))], old(loops))
                         else old(State())
    {
      if fails {
        return false;
      }
      mounts := mounts + [Info(path, source, fstype, Shown(FlagsIn(flags)))];
      return true;
    }

    /** `setLoopAutoclear`; None if looking the device up, or an operation on the loop device, fails. */
    method SetLoopAutoclear(devPath: string, autoclear: bool, fails: bool) returns (changed: Option<bool>)
      modifies this`loops
      ensures changed == if fails then None else Some(Changes(old(loops), devPath, autoclear))
      ensures loops == if changed.Some? then WithAutoclear(old(loops), devPath, autoclear) else old(loops)
    {
      if fails {
        return None;
      }
      if devPath !in loops {
        return Some(false);
      }
      if autoclear == loops[devPath] {
        assert loops[devPath := autoclear] == loops;
        return Some(false);
      }
      loops := loops[devPath := autoclear];
      return Some(true);
    }
  }

  // ------------------------------------------------------------------ finding a volume

  predicate Special(m: Info) {
    m.fstype == m.source
  }

  /** Another mount, of a file system that is not special, has the source too. */
  predicate SharedSource(mounts: seq<Info>, path: string, source: string) {
    exists i :: 0 <= i < |mounts| && mounts[i].mountpoint != path && mounts[i].source == source && !Special(mounts[i])
  }

  function DevOf(m: Info): BlockDev {
    BlockDev(m.source, m.fstype, m.options, m.mountpoint, "", "", false)
  }

  function Found(mounts: seq<Info>, path: string): Option<BlockDev> {
    match MountedAt(mounts, path)
    case None => None
    case Some(m) => if m.source == "" || SharedSource(mounts, path, m.source) then None else Some(DevOf(m))
  }

  /** `findMountInfo`; None stands for ErrMountpoint. */
  method FindMountInfo(mountInfo: seq<Info>, path: string) returns (r: Option<BlockDev>)
    ensures r == Found(mountInfo, path)
  {
    var blockDev := BlockDev("", "", "", "", "", "", false);
    var nonSpecialSources: set<string> := {};
    assert mountInfo[..0] == [];
    for k := 0 to |mountInfo|
      invariant match MountedAt(mountInfo[..k], path)
                case None => blockDev.source == ""
                case Some(m) => blockDev == DevOf(m)
      invariant forall s :: s in nonSpecialSources <==> SharedSource(mountInfo[..k], path, s)
    {
      var m := mountInfo[k];
      assert mountInfo[..k + 1][..k] == mountInfo[..k];
      forall s ensures SharedSource(mountInfo[..k + 1], path, s) <==>
                         SharedSource(mountInfo[..k], path, s)
                         || (m.mountpoint != path && m.source == s && !Special(m)) {
        assert mountInfo[..k + 1] == mountInfo[..k] + [m];
        SharedSnoc(mountInfo[..k], m, path, s);
      }
      if m.mountpoint == path {
        blockDev := DevOf(m);
        continue;
      }
      if m.fstype != m.source {
        nonSpecialSources := nonSpecialSources + {m.source};
      }
    }
    assert mountInfo[..|mountInfo|] == mountInfo;
    if blockDev.source == "" {
      return None;
    }
    if blockDev.source in nonSpecialSources {
      return None;
    }
    return Some(blockDev);
  }

  lemma SharedSnoc(mounts: seq<Info>, m: Info, path: string, source: string)
    ensures SharedSource(mounts + [m], path, source) <==>
              SharedSource(mounts, path, source) || (m.mountpoint != path && m.source == source && !Special(m))
  {
    hide Special;
    var all := mounts + [m];
    assert all[|mounts|] == m && forall i | 0 <= i < |mounts| :: all[i] == mounts[i];
  }

  // ------------------------------------------------------------------ taking volumes

  /** The rounds of a loop in which reading mountinfo, a loop device operation, or (un)mounting fails. */
  datatype Faults = Faults(mountinfo: set<nat>, loop: set<nat>, mount: set<nat>)

  datatype Step = Step(host: Host, dev: Option<BlockDev>, ok: bool)

  function VolumeId(i: nat): string {
    "vol" + FormatUint(i)
  }

  function TakeOne(host: Host, i: nat, v: Volume, supported: set<string>, faults: Faults): Step {
    if i in faults.mountinfo then Step(host, None, false)
    else
      match Found(host.mounts, v.source)
      case None => Step(host, None, true)
      case Some(d) =>
        if d.fstype !in supported then Step(host, None, true)
        else if i in faults.loop then Step(host, None, false)
        else
          var cleared := host.(loops := WithAutoclear(host.loops, d.source, false));
          if i in faults.mount then Step(cleared, None, false)
          else
            var dev := d.(id := VolumeId(i), mountPoint := v.destination, hostMountPoint := d.mountPoint,
                          loopAutoclear := Changes(host.loops, d.source, false));
            Step(Unmounted(cleared, v.source), Some(dev), true)
  }

  datatype Run = Run(host: Host, devs: seq<BlockDev>, ok: bool)

  function Listed(dev: Option<BlockDev>): seq<BlockDev> {
    if dev.Some? then [dev.value] else []
  }

  /** The volumes from round `i` on; after an error, `devs` does not matter. */
  function Take(host: Host, i: nat, volumes: seq<Volume>, supported: set<string>, faults: Faults): Run
    requires i <= |volumes|
    decreases |volumes| - i
  {
    if i == |volumes| then Run(host, [], true)
    else
      var one := TakeOne(host, i, volumes[i], supported, faults);
      if !one.ok then Run(one.host, [], false)
      else
        var rest := Take(one.host, i + 1, volumes, supported, faults);
        Run(rest.host, Listed(one.dev) + rest.devs, rest.ok)
  }

  /** A round of `getBlockVolumes`. */
  method TakeVolume(kernel: Kernel, i: nat, m: Volume, supported: set<string>, faults: Faults)
    returns (ok: bool, taken: Option<BlockDev>)
    modifies kernel
    ensures TakeOne(old(kernel.State()), i, m, supported, faults) == Step(kernel.State(), taken, ok)
  {
    hide Found, Unmounted, VolumeId, WithAutoclear, Changes;
    if i in faults.mountinfo {
      return false, None;
    }
    var found := FindMountInfo(kernel.mounts, m.source);
    if found.None? {
      return true, None;
    }
    var mInfo := found.value;
    if mInfo.fstype !in supported {
      return true, None;
    }
    FoundAtPath(kernel.mounts, m.source);
    var cleared := kernel.SetLoopAutoclear(mInfo.source, false, i in faults.loop);
    if cleared.None? {
      return false, None;
    }
    mInfo := mInfo.(loopAutoclear := cleared.value);
    ok := kernel.Unmount(mInfo.mountPoint, i in faults.mount);
    if !ok {
      return false, None;
    }
    mInfo := mInfo.(id := VolumeId(i), hostMountPoint := mInfo.mountPoint);
    mInfo := mInfo.(mountPoint := m.destination);
    return true, Some(mInfo);
  }

  /** `getBlockVolumes` */
  method GetBlockVolumes(kernel: Kernel, mounts: seq<Volume>, supported: set<string>, faults: Faults)
    returns (r: Option<seq<BlockDev>>)
    modifies kernel
    ensures var run := Take(old(kernel.State()), 0, mounts, supported, faults);
            kernel.State() == run.host && r == if run.ok then Some(run.devs) else None
  {
    hide Take, TakeOne;
    var blkImgs: seq<BlockDev> := [];
    ghost var all := Take(kernel.State(), 0, mounts, supported, faults);
    for i := 0 to |mounts|
      invariant var rest := Take(kernel.State(), i, mounts, supported, faults);
                all.host == rest.host && all.ok == rest.ok && (all.ok ==> all.devs == blkImgs + rest.devs)
    {
      TakeStep(kernel.State(), i, mounts, supported, faults);
      var ok, taken := TakeVolume(kernel, i, mounts[i], supported, faults);
      if !ok {
        return None;
      }
      if taken.Some? {
        blkImgs := blkImgs + [taken.value];
      }
    }
    NothingLeft(kernel.State(), mounts, supported, faults);
    assert blkImgs + [] == blkImgs;
    return Some(blkImgs);
  }

  lemma FoundAtPath(mounts: seq<Info>, path: string)
    ensures Found(mounts, path).Some? ==> Found(mounts, path).value.mountPoint == path
  {
  }

  lemma TakeStep(host: Host, i: nat, volumes: seq<Volume>, supported: set<string>, faults: Faults)
    requires i < |volumes|
    ensures var one := TakeOne(host, i, volumes[i], supported, faults);
            var run := Take(host, i, volumes, supported, faults);
            if !one.ok then run.host == one.host && !run.ok
            else
              var rest := Take(one.host, i + 1, volumes, supported, faults);
              run.host == rest.host && run.ok == rest.ok && run.devs == Listed(one.dev) + rest.devs
  {
    hide TakeOne;
  }

  lemma NothingLeft(host: Host, volumes: seq<Volume>, supported: set<string>, faults: Faults)
    ensures Take(host, |volumes|, volumes, supported, faults) == Run(host, [], true)
  {
  }

  // ------------------------------------------------------------------ restoring volumes

  function RestoredEntry(b: BlockDev): Info {
    Info(b.hostMountPoint, b.source, b.fstype, Shown(Active(Split(b.mountOptions, ','))))
  }

  function RestoreOne(host: Host, i: nat, b: BlockDev, faults: Faults): Step {
    if b.hostMountPoint == "" then Step(host, None, true)
    else if i in faults.mountinfo then Step(host, None, false)
    else if MountedAt(host.mounts, b.hostMountPoint).Some? then Step(host, None, true)
    else if i in faults.mount then Step(host, None, false)
    else
      var mounted := host.(mounts := host.mounts + [RestoredEntry(b)]);
      if !b.loopAutoclear then Step(mounted, None, true)
      else if i in faults.loop then Step(mounted, None, false)
      else Step(mounted.(loops := WithAutoclear(host.loops, b.source, true)), None, true)
  }

  function Restore(host: Host, i: nat, devs: seq<BlockDev>, faults: Faults): Step
    requires i <= |devs|
    decreases |devs| - i
  {
    if i == |devs| then Step(host, None, true)
    else
      var one := RestoreOne(host, i, devs[i], faults);
      if one.ok then Restore(one.host, i + 1, devs, faults) else one
  }

  /** `restoreBlockVolumes` */
  method RestoreBlockVolumes(kernel: Kernel, blockArgs: seq<BlockDev>, faults: Faults) returns (ok: bool)
    modifies kernel
    ensures var run := Restore(old(kernel.State()), 0, blockArgs, faults);
            kernel.State() == run.host && ok == run.ok
  {
    hide MountedAt, WithAutoclear, Shown, Active, Split, Changes;
    for i := 0 to |blockArgs|
      invariant Restore(kernel.State(), i, blockArgs, faults) == Restore(old(kernel.State()), 0, blockArgs, faults)
    {
      var b := blockArgs[i];
      if b.hostMountPoint == "" {
        continue;
      }
      if i in faults.mountinfo {
        return false;
      }
      if MountedAt(kernel.mounts, b.hostMountPoint).Some? {
        continue;
      }
      var flags := FoldMountOptions(b.mountOptions);
      HeldFlags(flags, Active(Split(b.mountOptions, ',')));
      var mounted := kernel.Mount(b.source, b.hostMountPoint, b.fstype, flags, i in faults.mount);
      if !mounted {
        return false;
      }
      if b.loopAutoclear {
        var changed := kernel.SetLoopAutoclear(b.source, true, i in faults.loop);
        if changed.None? {
          return false;
        }
      }
    }
    return true;
  }

  lemma HeldFlags(word: bv64, s: set<VfsFlag>)
    requires Holds(word, s)
    ensures FlagsIn(word) == s
  {
    hide HasFlag, OnlyFlags;
  }
}
