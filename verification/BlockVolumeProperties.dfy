/** What create takes, delete gives back; and a taken device is used by nobody else. */
module BlockVolumeProperties {
  import opened GoStrings
  import opened Strconv
  import opened MountOptions
  import opened BlockVolumes

  /** No stacked mounts, and every mountpoint is a path. */
  ghost predicate Plain(mounts: seq<Info>) {
    (forall i, j :: 0 <= i < j < |mounts| ==> mounts[i].mountpoint != mounts[j].mountpoint)
    && forall i :: 0 <= i < |mounts| ==> mounts[i].mountpoint != ""
  }

  const NO_FAULTS := Faults({}, {}, {})

  // ------------------------------------------------------------------ the mount table

  lemma {:induction false} PlainEntry(mounts: seq<Info>, i: nat)
    requires Plain(mounts) && i < |mounts|
    ensures MountedAt(mounts, mounts[i].mountpoint) == Some(mounts[i])
  {
    var n := |mounts| - 1;
    if i < n {
      PlainEntry(mounts[..n], i);
    }
  }

  lemma {:induction false} RemovedEntries(mounts: seq<Info>, path: string)
    requires Plain(mounts) && MountedAt(mounts, path).Some?
    ensures Plain(Removed(mounts, path)) && |Removed(mounts, path)| == |mounts| - 1
    ensures forall m :: m in Removed(mounts, path) <==> m in mounts && m.mountpoint != path
  {
    var n := |mounts| - 1;
    var front, last := mounts[..n], mounts[n];
    assert mounts == front + [last];
    if last.mountpoint != path {
      RemovedEntries(front, path);
      PlainSnoc(Removed(front, path), last);
    }
  }

  lemma PlainSnoc(mounts: seq<Info>, m: Info)
    requires Plain(mounts) && m.mountpoint != "" && forall n :: n in mounts ==> n.mountpoint != m.mountpoint
    ensures Plain(mounts + [m])
  {
    assert forall i | 0 <= i < |mounts| :: mounts[i] in mounts;
  }

  /** In a plain table, what is mounted at a path is the entry with that mountpoint. */
  lemma MountedIsListed(mounts: seq<Info>, m: Info)
    requires Plain(mounts)
    ensures m in mounts <==> MountedAt(mounts, m.mountpoint) == Some(m)
  {
    if m in mounts {
      var i :| 0 <= i < |mounts| && mounts[i] == m;
      PlainEntry(mounts, i);
    }
  }

  lemma MountedAfterUnmount(mounts: seq<Info>, path: string, q: string)
    requires Plain(mounts) && MountedAt(mounts, path).Some?
    ensures MountedAt(Removed(mounts, path), q) == if q == path then None else MountedAt(mounts, q)
  {
    var after := Removed(mounts, path);
    RemovedEntries(mounts, path);
    if q != path && MountedAt(mounts, q).Some? {
      MountedIsListed(after, MountedAt(mounts, q).value);
    }
    if MountedAt(after, q).Some? {
      MountedIsListed(mounts, MountedAt(after, q).value);
    }
  }

  lemma MountedAfterMount(mounts: seq<Info>, m: Info, q: string)
    ensures MountedAt(mounts + [m], q) == if q == m.mountpoint then Some(m) else MountedAt(mounts, q)
  {
    assert (mounts + [m])[..|mounts|] == mounts;
  }

  // ------------------------------------------------------------------ one round of taking

  /** The entry that a taken device was mounted by. */
  function EntryOf(d: BlockDev): Info {
    Info(d.hostMountPoint, d.source, d.fstype, d.mountOptions)
  }

  lemma TakeOneEffect(host: Host, i: nat, v: Volume, supported: set<string>, faults: Faults)
    requires Plain(host.mounts)
    ensures var one := TakeOne(host, i, v, supported, faults);
            one.ok && one.dev.None? ==> one.host == host
    ensures var one := TakeOne(host, i, v, supported, faults);
            one.ok && one.dev.Some? ==>
              var d := one.dev.value;
              d.hostMountPoint == v.source && d.mountPoint == v.destination && d.id == VolumeId(i)
              && d.source != "" && d.fstype in supported
              && MountedAt(host.mounts, v.source) == Some(EntryOf(d)) && !SharedSource(host.mounts, v.source, d.source)
              && one.host.mounts == Removed(host.mounts, v.source)
              && d.loopAutoclear == Changes(host.loops, d.source, false)
              && one.host.loops == WithAutoclear(host.loops, d.source, false)
  {
    hide SharedSource, Removed, VolumeId;
  }

  // ------------------------------------------------------------------ taking

  /** The taken device that was mounted at a path. */
  function DevAt(devs: seq<BlockDev>, path: string): (r: Option<BlockDev>)
    ensures r.Some? ==> r.value in devs && r.value.hostMountPoint == path
  {
    if devs == [] then None
    else if devs[0].hostMountPoint == path then Some(devs[0])
    else DevAt(devs[1..], path)
  }

  predicate ClearedFor(devs: seq<BlockDev>, dev: string) {
    exists k :: 0 <= k < |devs| && devs[k].loopAutoclear && devs[k].source == dev
  }

  ghost predicate Apart(devs: seq<BlockDev>) {
    forall j, k :: 0 <= j < k < |devs| ==> devs[j].hostMountPoint != devs[k].hostMountPoint
  }

  /** The devices were mounted on the host, and are not any more; everything else is as before. */
  ghost predicate TakenFrom(host: Host, after: Host, devs: seq<BlockDev>) {
    Plain(after.mounts) && Apart(devs) && |after.mounts| + |devs| == |host.mounts|
    && (forall k :: 0 <= k < |devs| ==> MountedAt(host.mounts, devs[k].hostMountPoint) == Some(EntryOf(devs[k])))
    && forall p :: MountedAt(after.mounts, p) == if DevAt(devs, p).Some? then None else MountedAt(host.mounts, p)
  }

  /** Of the loop devices none is gone; exactly those that had the flag, and are taken, have lost it. */
  ghost predicate LoopsCleared(host: Host, after: Host, devs: seq<BlockDev>) {
    after.loops.Keys == host.loops.Keys
    && (forall s :: s in host.loops ==> after.loops[s] == (host.loops[s] && !ClearedFor(devs, s)))
    && forall k :: 0 <= k < |devs| ==>
         (devs[k].loopAutoclear ==> devs[k].source in host.loops && host.loops[devs[k].source])
  }

  lemma {:induction false} TakeEffect(host: Host, i: nat, volumes: seq<Volume>, supported: set<string>, faults: Faults)
    requires Plain(host.mounts) && i <= |volumes| && Take(host, i, volumes, supported, faults).ok
    ensures var run := Take(host, i, volumes, supported, faults);
            TakenFrom(host, run.host, run.devs) && LoopsCleared(host, run.host, run.devs)
    decreases |volumes| - i
  {
    if i == |volumes| {
      NothingLeft(host, volumes, supported, faults);
      NothingTaken(host);
    } else {
      var one := TakeOne(host, i, volumes[i], supported, faults);
      var rest := Take(one.host, i + 1, volumes, supported, faults);
      TakeStep(host, i, volumes, supported, faults);
      TakeOneEffect(host, i, volumes[i], supported, faults);
      if one.dev.None? {
        TakeEffect(host, i + 1, volumes, supported, faults);
        assert [] + rest.devs == rest.devs;
      } else {
        RemovedEntries(host.mounts, volumes[i].source);
        TakeEffect(one.host, i + 1, volumes, supported, faults);
        hide Take, TakeOne, TakenFrom, LoopsCleared, Plain, MountedAt, Removed, WithAutoclear, Changes, SharedSource;
        TakenFirst(host, one.host, rest.host, one.dev.value, rest.devs);
        ClearedFirst(host, one.host, rest.host, one.dev.value, rest.devs);
      }
    }
  }

  lemma NothingTaken(host: Host)
    requires Plain(host.mounts)
    ensures TakenFrom(host, host, []) && LoopsCleared(host, host, [])
  {
  }

  lemma DevAtFirst(d: BlockDev, rest: seq<BlockDev>, p: string)
    ensures DevAt([d] + rest, p) == if d.hostMountPoint == p then Some(d) else DevAt(rest, p)
  {
    assert ([d] + rest)[1..] == rest;
  }

  lemma {:induction false} DevAtFinds(devs: seq<BlockDev>, k: nat)
    requires k < |devs| && Apart(devs)
    ensures DevAt(devs, devs[k].hostMountPoint) == Some(devs[k])
  {
    if k > 0 {
      assert devs[0].hostMountPoint != devs[k].hostMountPoint;
      assert Apart(devs[1..]);
      DevAtFinds(devs[1..], k - 1);
    }
  }

  lemma MountedAfterAll(host: Host, one: Host, after: Host, d: BlockDev, rest: seq<BlockDev>, p: string)
    requires Plain(host.mounts) && MountedAt(host.mounts, d.hostMountPoint) == Some(EntryOf(d))
    requires one.mounts == Removed(host.mounts, d.hostMountPoint) && TakenFrom(one, after, rest)
    ensures MountedAt(after.mounts, p) == if DevAt([d] + rest, p).Some? then None else MountedAt(host.mounts, p)
  {
    hide Plain, Removed, MountedAt, DevAt;
    MountedAfterUnmount(host.mounts, d.hostMountPoint, p);
    DevAtFirst(d, rest, p);
  }

  lemma TakenFirst(host: Host, one: Host, after: Host, d: BlockDev, rest: seq<BlockDev>)
    requires Plain(host.mounts) && MountedAt(host.mounts, d.hostMountPoint) == Some(EntryOf(d))
    requires one.mounts == Removed(host.mounts, d.hostMountPoint) && TakenFrom(one, after, rest)
    ensures TakenFrom(host, after, [d] + rest)
  {
    hide Plain, Removed, MountedAt, DevAt;
    var p0, devs := d.hostMountPoint, [d] + rest;
    RemovedEntries(host.mounts, p0);
    forall k | 0 <= k < |rest|
      ensures rest[k].hostMountPoint != p0 && MountedAt(host.mounts, rest[k].hostMountPoint) == Some(EntryOf(rest[k])) {
      MountedAfterUnmount(host.mounts, p0, rest[k].hostMountPoint);
    }
    assert forall k | 0 < k < |devs| :: devs[k] == rest[k - 1];
    forall p ensures MountedAt(after.mounts, p) == if DevAt(devs, p).Some? then None else MountedAt(host.mounts, p) {
      MountedAfterAll(host, one, after, d, rest, p);
    }
  }

  lemma ClearedFirst(host: Host, one: Host, after: Host, d: BlockDev, rest: seq<BlockDev>)
    requires d.loopAutoclear == Changes(host.loops, d.source, false)
    requires one.loops == WithAutoclear(host.loops, d.source, false) && LoopsCleared(one, after, rest)
    ensures LoopsCleared(host, after, [d] + rest)
  {
    var devs := [d] + rest;
    forall s ensures ClearedFor(devs, s) <==> (d.loopAutoclear && d.source == s) || ClearedFor(rest, s) {
      ClearedForFirst(d, rest, s);
    }
    assert forall k | 0 < k < |devs| :: devs[k] == rest[k - 1];
    hide ClearedFor;
  }

  lemma ClearedForFirst(d: BlockDev, rest: seq<BlockDev>, s: string)
    ensures ClearedFor([d] + rest, s) <==> (d.loopAutoclear && d.source == s) || ClearedFor(rest, s)
  {
    var devs := [d] + rest;
    assert devs[0] == d && forall k | 0 <= k < |rest| :: devs[k + 1] == rest[k];
    if ClearedFor(devs, s) {
      var k :| 0 <= k < |devs| && devs[k].loopAutoclear && devs[k].source == s;
      assert k > 0 ==> devs[k] == rest[k - 1];
    }
    if ClearedFor(rest, s) {
      var k :| 0 <= k < |rest| && rest[k].loopAutoclear && rest[k].source == s;
      assert devs[k + 1] == rest[k];
    }
  }

  // ------------------------------------------------------------------ restoring

  /** A device that a restore mounts, or fails to: the first one with its mountpoint, and nothing is mounted there. */
  ghost predicate Tried(host: Host, i: nat, devs: seq<BlockDev>, k: int) {
    i <= k < |devs| && devs[k].hostMountPoint != "" && MountedAt(host.mounts, devs[k].hostMountPoint).None?
    && forall j :: i <= j < k ==> devs[j].hostMountPoint != devs[k].hostMountPoint
  }

  /** A round that has a mountpoint to look at meets a fault. */
  ghost predicate Fails(host: Host, i: nat, devs: seq<BlockDev>, faults: Faults, k: nat) {
    i <= k < |devs| && devs[k].hostMountPoint != ""
    && (k in faults.mountinfo
        || (Tried(host, i, devs, k) && (k in faults.mount || (devs[k].loopAutoclear && k in faults.loop))))
  }

  lemma RestoreOneEffect(host: Host, i: nat, devs: seq<BlockDev>, faults: Faults)
    requires i < |devs|
    ensures var one, d := RestoreOne(host, i, devs[i], faults), devs[i];
            (one.ok <==> !Fails(host, i, devs, faults, i))
            && (one.ok && !Tried(host, i, devs, i) ==> one.host == host)
            && (one.ok && Tried(host, i, devs, i) ==>
                  one.host.mounts == host.mounts + [RestoredEntry(d)]
                  && one.host.loops ==
                     if d.loopAutoclear then WithAutoclear(host.loops, d.source, true) else host.loops)
  {
    hide MountedAt, RestoredEntry, WithAutoclear;
  }

  lemma RestoreStep(host: Host, i: nat, devs: seq<BlockDev>, faults: Faults)
    requires i < |devs|
    ensures var one, run := RestoreOne(host, i, devs[i], faults), Restore(host, i, devs, faults);
            run.ok <==> one.ok && Restore(one.host, i + 1, devs, faults).ok
    ensures var one, run := RestoreOne(host, i, devs[i], faults), Restore(host, i, devs, faults);
            run.ok ==> run == Restore(one.host, i + 1, devs, faults)
  {
    hide RestoreOne;
  }

  /** What later rounds try is not changed by a round. */
  lemma TriedLater(host: Host, i: nat, devs: seq<BlockDev>, faults: Faults, k: nat)
    requires i < k < |devs| && RestoreOne(host, i, devs[i], faults).ok
    ensures Tried(host, i, devs, k) <==> Tried(RestoreOne(host, i, devs[i], faults).host, i + 1, devs, k)
  {
    RestoreOneEffect(host, i, devs, faults);
    hide RestoreOne, MountedAt;
    MountedAfterMount(host.mounts, RestoredEntry(devs[i]), devs[k].hostMountPoint);
  }

  ghost predicate MeetsFault(host: Host, i: nat, devs: seq<BlockDev>, faults: Faults) {
    exists k :: i <= k < |devs| && Fails(host, i, devs, faults, k)
  }

  lemma MeetsFaultFirst(host: Host, i: nat, devs: seq<BlockDev>, faults: Faults)
    requires i < |devs| && RestoreOne(host, i, devs[i], faults).ok
    ensures MeetsFault(host, i, devs, faults) <==>
              Fails(host, i, devs, faults, i)
              || MeetsFault(RestoreOne(host, i, devs[i], faults).host, i + 1, devs, faults)
  {
    hide RestoreOne, Fails;
    var one := RestoreOne(host, i, devs[i], faults).host;
    if MeetsFault(host, i, devs, faults) {
      var k :| i <= k < |devs| && Fails(host, i, devs, faults, k);
      if k > i {
        FailsLater(host, i, devs, faults, k);
      }
    }
    if MeetsFault(one, i + 1, devs, faults) {
      var k :| i < k < |devs| && Fails(one, i + 1, devs, faults, k);
      FailsLater(host, i, devs, faults, k);
    }
  }

  /** When a restore fails: exactly if a round that has a mountpoint fails to read mountinfo, or one that mounts its
      device fails to mount it or, with `loopAutoclear`, to set the flag. */
  lemma {:induction false} RestoreFailsExactly(host: Host, i: nat, devs: seq<BlockDev>, faults: Faults)
    requires i <= |devs|
    ensures !Restore(host, i, devs, faults).ok <==> exists k :: i <= k < |devs| && Fails(host, i, devs, faults, k)
    decreases |devs| - i
  {
    hide Restore, RestoreOne, Fails;
    hide MeetsFault;
    FaultIsMet(host, i, devs, faults);
    if i == |devs| {
      RestoreNothing(host, devs, faults);
    } else {
      var one := RestoreOne(host, i, devs[i], faults);
      RestoreOneEffect(host, i, devs, faults);
      RestoreStep(host, i, devs, faults);
      if one.ok {
        RestoreFailsExactly(one.host, i + 1, devs, faults);
        MeetsFaultFirst(host, i, devs, faults);
        FaultIsMet(one.host, i + 1, devs, faults);
      }
    }
  }

  lemma FaultIsMet(host: Host, i: nat, devs: seq<BlockDev>, faults: Faults)
    ensures MeetsFault(host, i, devs, faults) <==>
              exists k :: i <= k < |devs| && Fails(host, i, devs, faults, k)
  {
    hide Fails;
  }

  lemma RestoreNothing(host: Host, devs: seq<BlockDev>, faults: Faults)
    ensures Restore(host, |devs|, devs, faults) == Step(host, None, true)
  {
  }

  lemma FailsLater(host: Host, i: nat, devs: seq<BlockDev>, faults: Faults, k: nat)
    requires i < k < |devs| && RestoreOne(host, i, devs[i], faults).ok
    ensures Fails(host, i, devs, faults, k) <==>
              Fails(RestoreOne(host, i, devs[i], faults).host, i + 1, devs, faults, k)
  {
    TriedLater(host, i, devs, faults, k);
    hide Tried, RestoreOne;
  }

  /** Without faults nothing stops a restore. */
  lemma RestoreSucceeds(host: Host, i: nat, devs: seq<BlockDev>)
    requires i <= |devs|
    ensures Restore(host, i, devs, NO_FAULTS).ok
  {
    RestoreFailsExactly(host, i, devs, NO_FAULTS);
    hide Restore, Tried;
  }

  /** The device is mounted at its mountpoint again. */
  ghost predicate MountedAgain(after: Host, d: BlockDev) {
    MountedAt(after.mounts, d.hostMountPoint)
    == Some(Info(d.hostMountPoint, d.source, d.fstype, Shown(Active(Split(d.mountOptions, ',')))))
  }

  ghost predicate IsBack(host: Host, after: Host, i: nat, devs: seq<BlockDev>, k: nat) {
    Tried(host, i, devs, k) ==> MountedAgain(after, devs[k])
  }

  ghost predicate TriedAt(host: Host, i: nat, devs: seq<BlockDev>, path: string) {
    exists k :: Tried(host, i, devs, k) && devs[k].hostMountPoint == path
  }

  ghost predicate FlagIsBack(host: Host, i: nat, devs: seq<BlockDev>, dev: string) {
    exists k :: Tried(host, i, devs, k) && devs[k].loopAutoclear && devs[k].source == dev
  }

  /** The devices that had to be are mounted again, with the autoclear flags; everything else is as before. */
  ghost predicate GivenBack(host: Host, after: Host, i: nat, devs: seq<BlockDev>) {
    (Plain(host.mounts) ==> Plain(after.mounts))
    && (forall k :: i <= k < |devs| ==> IsBack(host, after, i, devs, k))
    && (forall p :: !TriedAt(host, i, devs, p) ==> MountedAt(after.mounts, p) == MountedAt(host.mounts, p))
    && after.loops.Keys == host.loops.Keys
    && forall s :: s in host.loops ==> after.loops[s] == (host.loops[s] || FlagIsBack(host, i, devs, s))
  }

  lemma PlainAfterMount(mounts: seq<Info>, m: Info)
    requires Plain(mounts) && m.mountpoint != "" && MountedAt(mounts, m.mountpoint).None?
    ensures Plain(mounts + [m])
  {
    forall n | n in mounts ensures n.mountpoint != m.mountpoint {
      MountedIsListed(mounts, n);
    }
    PlainSnoc(mounts, m);
  }

  lemma {:induction false} RestoreEffect(host: Host, i: nat, devs: seq<BlockDev>, faults: Faults)
    requires i <= |devs| && Restore(host, i, devs, faults).ok
    ensures GivenBack(host, Restore(host, i, devs, faults).host, i, devs)
    decreases |devs| - i
  {
    if i == |devs| {
      hide MountedAt, Plain;
    } else {
      var one := RestoreOne(host, i, devs[i], faults);
      var after := Restore(host, i, devs, faults).host;
      RestoreStep(host, i, devs, faults);
      RestoreEffect(one.host, i + 1, devs, faults);
      hide Restore, RestoreOne;
      GivenBackMounts(host, i, devs, faults, after);
      GivenBackLoops(host, i, devs, faults, after);
    }
  }

  /** What is tried by a run from round `i` on. */
  lemma TriedFrom(host: Host, i: nat, devs: seq<BlockDev>, faults: Faults, k: int)
    requires i < |devs| && RestoreOne(host, i, devs[i], faults).ok
    ensures Tried(host, i, devs, k) <==>
              (k == i && Tried(host, i, devs, i)) || Tried(RestoreOne(host, i, devs[i], faults).host, i + 1, devs, k)
  {
    if i < k < |devs| {
      TriedLater(host, i, devs, faults, k);
    }
    hide RestoreOne, MountedAt;
  }

  lemma GivenBackMounts(host: Host, i: nat, devs: seq<BlockDev>, faults: Faults, after: Host)
    requires i < |devs| && RestoreOne(host, i, devs[i], faults).ok
    requires GivenBack(RestoreOne(host, i, devs[i], faults).host, after, i + 1, devs)
    ensures Plain(host.mounts) ==> Plain(after.mounts)
    ensures forall k :: i <= k < |devs| ==> IsBack(host, after, i, devs, k)
    ensures forall p :: !TriedAt(host, i, devs, p) ==> MountedAt(after.mounts, p) == MountedAt(host.mounts, p)
  {
    var d, one := devs[i], RestoreOne(host, i, devs[i], faults).host;
    RestoreOneEffect(host, i, devs, faults);
    if Plain(host.mounts) && Tried(host, i, devs, i) {
      PlainAfterMount(host.mounts, RestoredEntry(d));
    }
    hide RestoreOne, MountedAt, Plain, Shown, Active, Split;
    forall k | i <= k < |devs| ensures IsBack(host, after, i, devs, k) {
      TriedFrom(host, i, devs, faults, k);
      MountedAfterMount(host.mounts, RestoredEntry(d), d.hostMountPoint);
      assert k > i ==> IsBack(one, after, i + 1, devs, k);
    }
    forall p | !TriedAt(host, i, devs, p) ensures MountedAt(after.mounts, p) == MountedAt(host.mounts, p) {
      forall k ensures !(Tried(one, i + 1, devs, k) && devs[k].hostMountPoint == p) {
        TriedFrom(host, i, devs, faults, k);
      }
      MountedAfterMount(host.mounts, RestoredEntry(d), p);
    }
  }

  lemma GivenBackLoops(host: Host, i: nat, devs: seq<BlockDev>, faults: Faults, after: Host)
    requires i < |devs| && RestoreOne(host, i, devs[i], faults).ok
    requires GivenBack(RestoreOne(host, i, devs[i], faults).host, after, i + 1, devs)
    ensures after.loops.Keys == host.loops.Keys
    ensures forall s :: s in host.loops ==> after.loops[s] == (host.loops[s] || FlagIsBack(host, i, devs, s))
  {
    var d, one := devs[i], RestoreOne(host, i, devs[i], faults).host;
    RestoreOneEffect(host, i, devs, faults);
    hide RestoreOne, MountedAt, Plain, Shown, Active, Split, IsBack, TriedAt, Tried;
    forall s ensures FlagIsBack(host, i, devs, s) <==>
                       FlagIsBack(one, i + 1, devs, s)
                       || (Tried(host, i, devs, i) && d.loopAutoclear && d.source == s) {
      forall k ensures Tried(host, i, devs, k) <==>
                         (k == i && Tried(host, i, devs, i)) || Tried(one, i + 1, devs, k) {
        TriedFrom(host, i, devs, faults, k);
      }
    }
    hide FlagIsBack;
  }

  // ------------------------------------------------------------------ taken and given back

  /** What of a mount has to come back. */
  datatype View = View(source: string, fstype: string, flags: set<VfsFlag>)

  function ViewAt(mounts: seq<Info>, path: string): Option<View> {
    match MountedAt(mounts, path)
    case None => None
    case Some(m) => Some(View(m.source, m.fstype, FlagsOf(m)))
  }

  lemma MountpointsNotEmpty(host: Host, devs: seq<BlockDev>)
    requires Plain(host.mounts)
    requires forall k :: 0 <= k < |devs| ==> MountedAt(host.mounts, devs[k].hostMountPoint) == Some(EntryOf(devs[k]))
    ensures forall k :: 0 <= k < |devs| ==> devs[k].hostMountPoint != ""
  {
    forall k | 0 <= k < |devs| ensures devs[k].hostMountPoint != "" {
      var m := MountedAt(host.mounts, devs[k].hostMountPoint).value;
      assert m in host.mounts;
    }
  }

  /** Of what a take returns, a restore tries whatever has nothing mounted at its mountpoint. */
  lemma TakenAreTried(before: Host, taken: Host, devs: seq<BlockDev>, later: Host)
    requires Plain(before.mounts) && TakenFrom(before, taken, devs)
    ensures forall k :: Tried(later, 0, devs, k) <==>
                          0 <= k < |devs| && MountedAt(later.mounts, devs[k].hostMountPoint).None?
  {
    MountpointsNotEmpty(before, devs);
    hide MountedAt, Plain;
  }

  lemma ViewComesBack(before: Host, taken: Host, devs: seq<BlockDev>, later: Host, after: Host, p: string)
    requires Plain(before.mounts) && TakenFrom(before, taken, devs) && GivenBack(later, after, 0, devs)
    ensures ViewAt(after.mounts, p) ==
              if MountedAt(later.mounts, p).None? && DevAt(devs, p).Some? then ViewAt(before.mounts, p)
              else ViewAt(later.mounts, p)
  {
    TakenAreTried(before, taken, devs, later);
    hide MountedAt, Plain, Shown, Active, Split, Tried;
    if MountedAt(later.mounts, p).None? && DevAt(devs, p).Some? {
      var d := DevAt(devs, p).value;
      var k :| 0 <= k < |devs| && devs[k] == d;
      assert IsBack(later, after, 0, devs, k);
      ShownFlags(Active(Split(d.mountOptions, ',')));
    } else {
      hide DevAt;
      forall k ensures !(Tried(later, 0, devs, k) && devs[k].hostMountPoint == p) {
        if 0 <= k < |devs| {
          DevAtFinds(devs, k);
        }
      }
    }
  }

  /** Create takes volumes, and some time later delete restores them on what the host is by then. Exactly if delete
      can read mountinfo in each round, and can mount what has to be mounted and set the flags that create cleared,
      it succeeds; then at each path where a volume was taken, unless something is mounted there since, the mount is
      back with its source, file system and flags. All other mounts, and all other loop devices, are left alone. */
  lemma RestoreGivesBack(before: Host, volumes: seq<Volume>, supported: set<string>, faults: Faults, later: Host,
                         faults': Faults)
    requires Plain(before.mounts) && Plain(later.mounts)
    requires Take(before, 0, volumes, supported, faults).ok
    ensures var devs := Take(before, 0, volumes, supported, faults).devs;
            Restore(later, 0, devs, faults').ok <==>
              forall k :: 0 <= k < |devs| ==>
                k !in faults'.mountinfo
                && (MountedAt(later.mounts, devs[k].hostMountPoint).None? ==>
                      k !in faults'.mount && (devs[k].loopAutoclear ==> k !in faults'.loop))
    ensures var devs := Take(before, 0, volumes, supported, faults).devs;
            var after := Restore(later, 0, devs, faults').host;
            Restore(later, 0, devs, faults').ok ==>
              Plain(after.mounts)
              && (forall p :: ViewAt(after.mounts, p) ==
                                if MountedAt(later.mounts, p).None? && DevAt(devs, p).Some?
                                then ViewAt(before.mounts, p)
                                else ViewAt(later.mounts, p))
              && LoopsRestored(later, after, devs)
  {
    var run := Take(before, 0, volumes, supported, faults);
    var devs, after := run.devs, Restore(later, 0, run.devs, faults').host;
    hide Take, Restore, Plain, LoopsCleared, TakenFrom, MountedAt, Tried, GivenBack, LoopsRestored, ViewAt;
    TakeEffect(before, 0, volumes, supported, faults);
    RestoreOfTaken(before, run.host, devs, later, faults');
    if Restore(later, 0, devs, faults').ok {
      RestoreEffect(later, 0, devs, faults');
      LoopsOfTaken(before, run.host, devs, later, after);
      forall p
        ensures ViewAt(after.mounts, p) ==
                  if MountedAt(later.mounts, p).None? && DevAt(devs, p).Some? then ViewAt(before.mounts, p)
                  else ViewAt(later.mounts, p) {
        ViewComesBack(before, run.host, devs, later, after, p);
      }
      GivenBackPlain(later, after, devs);
    }
  }

  lemma GivenBackPlain(later: Host, after: Host, devs: seq<BlockDev>)
    requires Plain(later.mounts) && GivenBack(later, after, 0, devs)
    ensures Plain(after.mounts)
  {
    hide Plain;
  }

  lemma RestoreOfTaken(before: Host, taken: Host, devs: seq<BlockDev>, later: Host, faults: Faults)
    requires Plain(before.mounts) && TakenFrom(before, taken, devs)
    ensures Restore(later, 0, devs, faults).ok <==>
              forall k :: 0 <= k < |devs| ==>
                k !in faults.mountinfo
                && (MountedAt(later.mounts, devs[k].hostMountPoint).None? ==>
                      k !in faults.mount && (devs[k].loopAutoclear ==> k !in faults.loop))
  {
    hide Plain, Restore, MountedAt, Tried;
    TakenAreTried(before, taken, devs, later);
    MountpointsNotEmpty(before, devs);
    RestoreFailsExactly(later, 0, devs, faults);
    hide TakenFrom;
    forall k | 0 <= k < |devs|
      ensures !Fails(later, 0, devs, faults, k) <==>
                k !in faults.mountinfo
                && (MountedAt(later.mounts, devs[k].hostMountPoint).None? ==>
                      k !in faults.mount && (devs[k].loopAutoclear ==> k !in faults.loop)) {
    }
    hide Fails;
  }

  lemma LoopsOfTaken(before: Host, taken: Host, devs: seq<BlockDev>, later: Host, after: Host)
    requires Plain(before.mounts) && TakenFrom(before, taken, devs) && GivenBack(later, after, 0, devs)
    ensures LoopsRestored(later, after, devs)
  {
    TakenAreTried(before, taken, devs, later);
    hide Plain, TakenFrom, MountedAt, Tried, IsBack, TriedAt;
  }

  /** Of the loop devices none is gone; exactly those that lost the flag, and whose volume had to be mounted, have it
      again. */
  ghost predicate LoopsRestored(host: Host, after: Host, devs: seq<BlockDev>) {
    after.loops.Keys == host.loops.Keys
    && forall s :: s in host.loops ==>
         (after.loops[s] <==>
            host.loops[s] || exists k :: 0 <= k < |devs| && MountedAt(host.mounts, devs[k].hostMountPoint).None?
                                         && devs[k].loopAutoclear && devs[k].source == s)
  }

  function Mountpoints(mounts: seq<Info>): set<string> {
    set m | m in mounts :: m.mountpoint
  }

  lemma {:induction false} PlainCount(mounts: seq<Info>)
    requires Plain(mounts)
    ensures |Mountpoints(mounts)| == |mounts|
    decreases |mounts|
  {
    if mounts != [] {
      var n := |mounts| - 1;
      var front, last := mounts[..n], mounts[n];
      assert mounts == front + [last];
      PlainCount(front);
      assert last.mountpoint !in Mountpoints(front);
      assert Mountpoints(mounts) == Mountpoints(front) + {last.mountpoint};
    }
  }

  lemma MountpointsListed(mounts: seq<Info>, p: string)
    requires Plain(mounts)
    ensures p in Mountpoints(mounts) <==> ViewAt(mounts, p).Some?
  {
    if p in Mountpoints(mounts) {
      var m :| m in mounts && m.mountpoint == p;
      MountedIsListed(mounts, m);
    }
  }

  lemma SameCount(a: seq<Info>, b: seq<Info>)
    requires Plain(a) && Plain(b) && forall p :: ViewAt(a, p) == ViewAt(b, p)
    ensures |a| == |b|
  {
    hide Plain, ViewAt, Mountpoints;
    PlainCount(a);
    PlainCount(b);
    forall p ensures p in Mountpoints(a) <==> p in Mountpoints(b) {
      MountpointsListed(a, p);
      MountpointsListed(b, p);
    }
    assert Mountpoints(a) == Mountpoints(b);
  }

  /** With nothing in between, the host is as it was: the same mounts with the same flags, the same loop devices with
      the same autoclear flags. */
  lemma TakeThenRestore(before: Host, volumes: seq<Volume>, supported: set<string>, faults: Faults, faults': Faults)
    requires Plain(before.mounts) && Take(before, 0, volumes, supported, faults).ok
    ensures var run := Take(before, 0, volumes, supported, faults);
            Restore(run.host, 0, run.devs, faults').ok <==>
              forall k :: 0 <= k < |run.devs| ==>
                k !in faults'.mountinfo && k !in faults'.mount && (run.devs[k].loopAutoclear ==> k !in faults'.loop)
    ensures var run := Take(before, 0, volumes, supported, faults);
            var after := Restore(run.host, 0, run.devs, faults').host;
            Restore(run.host, 0, run.devs, faults').ok ==>
              Plain(after.mounts) && |after.mounts| == |before.mounts|
              && (forall p :: ViewAt(after.mounts, p) == ViewAt(before.mounts, p))
              && after.loops == before.loops
  {
    var run := Take(before, 0, volumes, supported, faults);
    var after := Restore(run.host, 0, run.devs, faults').host;
    TakeEffect(before, 0, volumes, supported, faults);
    hide Take, Restore, Plain;
    forall k | 0 <= k < |run.devs| ensures MountedAt(run.host.mounts, run.devs[k].hostMountPoint).None? {
      DevAtFinds(run.devs, k);
    }
    hide MountedAt, DevAt;
    RestoreGivesBack(before, volumes, supported, faults, run.host, faults');
    if Restore(run.host, 0, run.devs, faults').ok {
      forall p ensures ViewAt(after.mounts, p) == ViewAt(before.mounts, p) {
      }
      LoopsBack(before, run.host, after, run.devs);
      hide ViewAt, LoopsCleared, LoopsRestored, TakenFrom;
      SameCount(after.mounts, before.mounts);
    }
  }

  lemma LoopsBack(before: Host, taken: Host, after: Host, devs: seq<BlockDev>)
    requires LoopsCleared(before, taken, devs) && LoopsRestored(taken, after, devs)
    requires forall k :: 0 <= k < |devs| ==> MountedAt(taken.mounts, devs[k].hostMountPoint).None?
    ensures after.loops == before.loops
  {
    hide MountedAt;
    forall s | s in before.loops ensures after.loops[s] == before.loops[s] {
      if ClearedFor(devs, s) {
        var k :| 0 <= k < |devs| && devs[k].loopAutoclear && devs[k].source == s;
      }
    }
  }

  /** Without faults, delete undoes create on every host, for every list of volumes and for every guest. */
  lemma NothingIsLost(before: Host, volumes: seq<Volume>, supported: set<string>)
    requires Plain(before.mounts)
    ensures var run := Take(before, 0, volumes, supported, NO_FAULTS);
            var back := Restore(run.host, 0, run.devs, NO_FAULTS);
            run.ok && back.ok && Plain(back.host.mounts) && |back.host.mounts| == |before.mounts|
            && (forall p :: ViewAt(back.host.mounts, p) == ViewAt(before.mounts, p))
            && back.host.loops == before.loops
  {
    NoFaultsSucceed(before, 0, volumes, supported);
    hide Take, Restore, Plain, ViewAt;
    TakeThenRestore(before, volumes, supported, NO_FAULTS, NO_FAULTS);
  }

  lemma {:induction false} NoFaultsSucceed(host: Host, i: nat, volumes: seq<Volume>, supported: set<string>)
    requires i <= |volumes|
    ensures Take(host, i, volumes, supported, NO_FAULTS).ok
    decreases |volumes| - i
  {
    if i < |volumes| {
      hide Found, Unmounted, WithAutoclear, Changes, VolumeId;
      NoFaultsSucceed(TakeOne(host, i, volumes[i], supported, NO_FAULTS).host, i + 1, volumes, supported);
    }
  }

  // ------------------------------------------------------------------ identifiers

  /** The rounds of the loop that took a device. */
  function Rounds(host: Host, i: nat, volumes: seq<Volume>, supported: set<string>, faults: Faults): seq<nat>
    requires i <= |volumes|
    decreases |volumes| - i
  {
    if i == |volumes| then []
    else
      var one := TakeOne(host, i, volumes[i], supported, faults);
      if !one.ok then [] else (if one.dev.Some? then [i] else []) + Rounds(one.host, i + 1, volumes, supported, faults)
  }

  ghost predicate MadeInRounds(devs: seq<BlockDev>, rounds: seq<nat>, from: nat, volumes: seq<Volume>) {
    |rounds| == |devs|
    && (forall k :: 0 <= k < |rounds| ==> from <= rounds[k] < |volumes|)
    && (forall j, k :: 0 <= j < k < |rounds| ==> rounds[j] < rounds[k])
    && forall k :: 0 <= k < |rounds| ==>
         devs[k].id == "vol" + FormatUint(rounds[k]) && devs[k].mountPoint == volumes[rounds[k]].destination
         && devs[k].hostMountPoint == volumes[rounds[k]].source
  }

  /** Each device carries the destination and the source of the volume whose position its identifier names. */
  lemma {:induction false} TakenInRounds(host: Host, i: nat, volumes: seq<Volume>, supported: set<string>,
                                         faults: Faults)
    requires Plain(host.mounts) && i <= |volumes| && Take(host, i, volumes, supported, faults).ok
    ensures MadeInRounds(Take(host, i, volumes, supported, faults).devs, Rounds(host, i, volumes, supported, faults),
                         i, volumes)
    decreases |volumes| - i
  {
    if i < |volumes| {
      var one := TakeOne(host, i, volumes[i], supported, faults);
      TakeStep(host, i, volumes, supported, faults);
      RoundsStep(host, i, volumes, supported, faults);
      TakeOneEffect(host, i, volumes[i], supported, faults);
      if one.dev.Some? {
        RemovedEntries(host.mounts, volumes[i].source);
      }
      hide TakeOne, Take, Rounds, Plain, Removed, MountedAt, VolumeId, SharedSource, WithAutoclear, Changes,
           MadeInRounds;
      TakenInRounds(one.host, i + 1, volumes, supported, faults);
      var devs, rounds := Take(one.host, i + 1, volumes, supported, faults).devs,
          Rounds(one.host, i + 1, volumes, supported, faults);
      if one.dev.Some? {
        FirstRound(one.dev.value, devs, rounds, i, volumes);
      } else {
        assert Listed(one.dev) + devs == devs;
        NoRound(devs, rounds, i, volumes);
      }
    }
  }

  lemma RoundsStep(host: Host, i: nat, volumes: seq<Volume>, supported: set<string>, faults: Faults)
    requires i < |volumes|
    ensures var one := TakeOne(host, i, volumes[i], supported, faults);
            one.ok ==>
              var rest := Rounds(one.host, i + 1, volumes, supported, faults);
              Rounds(host, i, volumes, supported, faults) == if one.dev.Some? then [i] + rest else rest
  {
    hide TakeOne;
  }

  /** What a round does with faults: it fails, or it does what it does without faults. */
  lemma TakeOneFailsExactly(host: Host, i: nat, v: Volume, supported: set<string>, faults: Faults)
    ensures var one, clean := TakeOne(host, i, v, supported, faults), TakeOne(host, i, v, supported, NO_FAULTS);
            clean.ok && (one.ok ==> one == clean)
            && (one.ok <==> i !in faults.mountinfo && (clean.dev.Some? ==> i !in faults.loop && i !in faults.mount))
  {
    hide Found, Unmounted, WithAutoclear, Changes, VolumeId;
  }

  lemma TakeOfFailed(host: Host, i: nat, volumes: seq<Volume>, supported: set<string>, faults: Faults)
    requires i < |volumes|
    ensures !TakeOne(host, i, volumes[i], supported, faults).ok ==> !Take(host, i, volumes, supported, faults).ok
    ensures var one := TakeOne(host, i, volumes[i], supported, faults);
            one.ok ==>
              var rest := Take(one.host, i + 1, volumes, supported, faults);
              Take(host, i, volumes, supported, faults) == Run(rest.host, Listed(one.dev) + rest.devs, rest.ok)
  {
    hide TakeOne;
  }

  /** When create succeeds: exactly if mountinfo can be read in every round, and no round that takes a volume without
      faults fails to clear the flag or to unmount. Then it does what it does without faults. */
  lemma {:induction false} TakeSucceedsExactly(host: Host, i: nat, volumes: seq<Volume>, supported: set<string>,
                                               faults: Faults)
    requires i <= |volumes|
    ensures Take(host, i, volumes, supported, faults).ok <==>
              (forall k :: i <= k < |volumes| ==> k !in faults.mountinfo)
              && forall k :: k in Rounds(host, i, volumes, supported, NO_FAULTS) ==>
                   k !in faults.loop && k !in faults.mount
    ensures Take(host, i, volumes, supported, faults).ok ==>
              Take(host, i, volumes, supported, faults) == Take(host, i, volumes, supported, NO_FAULTS)
    decreases |volumes| - i
  {
    hide Take, TakeOne;
    if i == |volumes| {
      NothingLeft(host, volumes, supported, faults);
      NothingLeft(host, volumes, supported, NO_FAULTS);
    } else {
      var one, clean := TakeOne(host, i, volumes[i], supported, faults),
          TakeOne(host, i, volumes[i], supported, NO_FAULTS);
      TakeOneFailsExactly(host, i, volumes[i], supported, faults);
      TakeOfFailed(host, i, volumes, supported, faults);
      TakeOfFailed(host, i, volumes, supported, NO_FAULTS);
      RoundsStep(host, i, volumes, supported, NO_FAULTS);
      hide Rounds;
      TakeSucceedsExactly(clean.host, i + 1, volumes, supported, faults);
    }
  }

  lemma FirstRound(d: BlockDev, devs: seq<BlockDev>, rounds: seq<nat>, i: nat, volumes: seq<Volume>)
    requires i < |volumes| && MadeInRounds(devs, rounds, i + 1, volumes)
    requires d.id == "vol" + FormatUint(i) && d.mountPoint == volumes[i].destination
             && d.hostMountPoint == volumes[i].source
    ensures MadeInRounds([d] + devs, [i] + rounds, i, volumes)
  {
    hide FormatUint;
    assert forall k | 0 < k < |[i] + rounds| :: ([i] + rounds)[k] == rounds[k - 1] && ([d] + devs)[k] == devs[k - 1];
  }

  lemma NoRound(devs: seq<BlockDev>, rounds: seq<nat>, i: nat, volumes: seq<Volume>)
    requires MadeInRounds(devs, rounds, i + 1, volumes)
    ensures MadeInRounds(devs, rounds, i, volumes)
  {
    hide FormatUint;
  }

  lemma VolumeIdsApart(i: nat, j: nat)
    requires "vol" + FormatUint(i) == "vol" + FormatUint(j)
    ensures i == j
  {
    hide FormatUint;
    assert ("vol" + FormatUint(i))[3..] == FormatUint(i) && ("vol" + FormatUint(j))[3..] == FormatUint(j);
    ParseDigitsFormat(i);
    ParseDigitsFormat(j);
  }

  /** No two devices get the same identifier. */
  lemma IdsDistinct(host: Host, volumes: seq<Volume>, supported: set<string>, faults: Faults, j: nat, k: nat)
    requires Plain(host.mounts) && Take(host, 0, volumes, supported, faults).ok
    requires j < k < |Take(host, 0, volumes, supported, faults).devs|
    ensures var devs := Take(host, 0, volumes, supported, faults).devs;
            devs[j].id != devs[k].id
  {
    hide Take, Rounds, Plain, FormatUint;
    var rounds := Rounds(host, 0, volumes, supported, faults);
    TakenInRounds(host, 0, volumes, supported, faults);
    if "vol" + FormatUint(rounds[j]) == "vol" + FormatUint(rounds[k]) {
      VolumeIdsApart(rounds[j], rounds[k]);
    }
  }

  // ------------------------------------------------------------------ sources

  predicate SourcesApart(devs: seq<BlockDev>) {
    forall j, k :: 0 <= j < k < |devs| ==> devs[j].source != devs[k].source
  }

  /** The only mounts, apart from `x`, with the source of `x` are special. */
  ghost predicate AloneOn(mounts: seq<Info>, x: Info) {
    forall z :: z in mounts && z.mountpoint != x.mountpoint && z.source == x.source ==> Special(z)
  }

  ghost predicate Confused(mounts: seq<Info>, supported: set<string>, x: Info, y: Info) {
    x in mounts && y in mounts && x.mountpoint != y.mountpoint && x.source == y.source && x.source != ""
    && x.fstype in supported && y.fstype in supported && AloneOn(mounts, x)
  }

  /** Two mounts of one source, both of a supported file system, and all but one of those of the source special
      (as for two virtiofs mounts of a tag "virtiofs"). */
  ghost predicate Confusable(mounts: seq<Info>, supported: set<string>) {
    exists x, y :: Confused(mounts, supported, x, y)
  }

  lemma AloneIsNotShared(mounts: seq<Info>, x: Info)
    ensures AloneOn(mounts, x) <==> !SharedSource(mounts, x.mountpoint, x.source)
  {
    if SharedSource(mounts, x.mountpoint, x.source) {
      var i :| 0 <= i < |mounts| && mounts[i].mountpoint != x.mountpoint && mounts[i].source == x.source
          && !Special(mounts[i]);
      assert mounts[i] in mounts;
    }
    if !AloneOn(mounts, x) {
      var z :| z in mounts && z.mountpoint != x.mountpoint && z.source == x.source && !Special(z);
      var i :| 0 <= i < |mounts| && mounts[i] == z;
    }
  }

  // ------------------------------------------------------------------ nobody else is left

  /** Taking removes mounts, and does nothing else to the table. */
  lemma TakeOnlyRemoves(host: Host, after: Host, devs: seq<BlockDev>, z: Info)
    requires Plain(host.mounts) && TakenFrom(host, after, devs) && z in after.mounts
    ensures z in host.mounts
  {
    MountedIsListed(after.mounts, z);
    MountedIsListed(host.mounts, z);
    hide Plain, MountedAt, DevAt;
  }

  /** After a run no mount of a taken source is left but special ones. */
  ghost predicate OnlySpecialLeft(mounts: seq<Info>, devs: seq<BlockDev>) {
    forall k, z :: 0 <= k < |devs| && z in mounts && z.source == devs[k].source ==> Special(z)
  }

  lemma {:induction false} NoOtherUserLeft(host: Host, i: nat, volumes: seq<Volume>, supported: set<string>,
                                           faults: Faults)
    requires Plain(host.mounts) && i <= |volumes| && Take(host, i, volumes, supported, faults).ok
    ensures var run := Take(host, i, volumes, supported, faults);
            OnlySpecialLeft(run.host.mounts, run.devs)
    decreases |volumes| - i
  {
    if i < |volumes| {
      var one := TakeOne(host, i, volumes[i], supported, faults);
      var rest := Take(one.host, i + 1, volumes, supported, faults);
      TakeStep(host, i, volumes, supported, faults);
      TakeOneEffect(host, i, volumes[i], supported, faults);
      hide TakeOne, Take, Plain, MountedAt, Removed, SharedSource, VolumeId, WithAutoclear, Changes;
      if one.dev.None? {
        NoOtherUserLeft(one.host, i + 1, volumes, supported, faults);
        assert Listed(one.dev) + rest.devs == rest.devs;
      } else {
        var d := one.dev.value;
        RemovedEntries(host.mounts, volumes[i].source);
        NoOtherUserLeft(one.host, i + 1, volumes, supported, faults);
        TakeEffect(one.host, i + 1, volumes, supported, faults);
        AloneIsNotShared(host.mounts, EntryOf(d));
        forall z | z in rest.host.mounts && z.source == d.source ensures Special(z) {
          TakeOnlyRemoves(one.host, rest.host, rest.devs, z);
        }
        assert forall k | 0 < k < |[d] + rest.devs| :: ([d] + rest.devs)[k] == rest.devs[k - 1];
      }
    }
  }

  // ------------------------------------------------------------------ the exact conditions for a call

  /** Two volumes of the list, in this order, that name the mounts of a confused pair. */
  ghost predicate NamedPair(mounts: seq<Info>, supported: set<string>, volumes: seq<Volume>, i: nat,
                            a: nat, b: nat, x: Info, y: Info) {
    i <= a < b < |volumes| && volumes[a].source == x.mountpoint && volumes[b].source == y.mountpoint
    && Confused(mounts, supported, x, y)
  }

  ghost predicate NamesConfused(mounts: seq<Info>, supported: set<string>, volumes: seq<Volume>, i: nat) {
    exists a, b, x, y :: NamedPair(mounts, supported, volumes, i, a, b, x, y)
  }

  ghost predicate NamesShared(mounts: seq<Info>, supported: set<string>, volumes: seq<Volume>, i: nat) {
    exists a, b, x, y :: NamedPair(mounts, supported, volumes, i, a, b, x, y) && !Special(x)
  }

  /** Before the run, no taken device had another mount that is not special. */
  ghost predicate WereAlone(mounts: seq<Info>, devs: seq<BlockDev>) {
    forall k :: 0 <= k < |devs| ==> AloneOn(mounts, EntryOf(devs[k]))
  }

  lemma AloneIsTaken(host: Host, i: nat, v: Volume, supported: set<string>, faults: Faults, y: Info)
    requires Plain(host.mounts) && y in host.mounts && y.source != "" && y.fstype in supported
             && AloneOn(host.mounts, y)
    requires v.source == y.mountpoint && TakeOne(host, i, v, supported, faults).ok
    ensures TakeOne(host, i, v, supported, faults).dev.Some?
  {
    MountedIsListed(host.mounts, y);
    AloneIsNotShared(host.mounts, y);
    hide Plain, AloneOn, SharedSource, Removed, VolumeId;
  }

  /** What a round takes: exactly a mount of a supported file system at the path of the volume that has a source, and
      whose source has no other mount but special ones. */
  lemma RoundTakesExactly(host: Host, i: nat, v: Volume, supported: set<string>, faults: Faults)
    requires Plain(host.mounts) && TakeOne(host, i, v, supported, faults).ok
    ensures TakeOne(host, i, v, supported, faults).dev.Some? <==>
              exists m :: m in host.mounts && m.mountpoint == v.source && m.source != "" && m.fstype in supported
                          && AloneOn(host.mounts, m)
  {
    TakeOneEffect(host, i, v, supported, faults);
    hide TakeOne, Plain, MountedAt, SharedSource, AloneOn, Removed, VolumeId, WithAutoclear, Changes;
    var one := TakeOne(host, i, v, supported, faults);
    if one.dev.Some? {
      AloneIsNotShared(host.mounts, EntryOf(one.dev.value));
      MountedIsListed(host.mounts, EntryOf(one.dev.value));
    }
    if m :| m in host.mounts && m.mountpoint == v.source && m.source != "" && m.fstype in supported
            && AloneOn(host.mounts, m) {
      AloneIsTaken(host, i, v, supported, faults, m);
    }
  }

  lemma AloneAfter(mounts: seq<Info>, path: string, y: Info)
    requires Plain(mounts) && MountedAt(mounts, path).Some? && AloneOn(mounts, y)
    ensures AloneOn(Removed(mounts, path), y)
  {
    RemovedEntries(mounts, path);
    hide Plain, MountedAt, Removed, Special;
  }

  lemma TakenLater(first: seq<BlockDev>, rest: seq<BlockDev>, k: nat)
    requires k < |rest|
    ensures (first + rest)[|first| + k] == rest[k]
  {
  }

  /** A round and what is left of the run. */
  lemma NextRound(host: Host, i: nat, volumes: seq<Volume>, supported: set<string>, faults: Faults)
    requires Plain(host.mounts) && i < |volumes| && Take(host, i, volumes, supported, faults).ok
    ensures var one := TakeOne(host, i, volumes[i], supported, faults);
            var rest := Take(one.host, i + 1, volumes, supported, faults);
            one.ok && rest.ok && Plain(one.host.mounts)
            && Take(host, i, volumes, supported, faults).devs == Listed(one.dev) + rest.devs
            && if one.dev.None? then one.host == host
               else MountedAt(host.mounts, volumes[i].source) == Some(EntryOf(one.dev.value))
                    && one.host.mounts == Removed(host.mounts, volumes[i].source)
  {
    TakeStep(host, i, volumes, supported, faults);
    TakeOneEffect(host, i, volumes[i], supported, faults);
    hide Take, TakeOne, Plain, MountedAt, Removed, SharedSource, VolumeId, WithAutoclear, Changes;
    if TakeOne(host, i, volumes[i], supported, faults).dev.Some? {
      RemovedEntries(host.mounts, volumes[i].source);
    }
  }

  /** A mount without other users that some later volume names is taken. */
  lemma {:induction false} NamedIsTaken(host: Host, i: nat, volumes: seq<Volume>, supported: set<string>,
                                        faults: Faults,
                                        b: nat, y: Info) returns (k: nat)
    requires Plain(host.mounts) && i <= b < |volumes| && Take(host, i, volumes, supported, faults).ok
    requires y in host.mounts && y.source != "" && y.fstype in supported && AloneOn(host.mounts, y)
    requires volumes[b].source == y.mountpoint
    ensures k < |Take(host, i, volumes, supported, faults).devs|
    ensures EntryOf(Take(host, i, volumes, supported, faults).devs[k]) == y
    decreases |volumes| - i
  {
    hide Take, TakeOne, Plain, MountedAt, AloneOn, Removed;
    var one := TakeOne(host, i, volumes[i], supported, faults);
    NextRound(host, i, volumes, supported, faults);
    MountedIsListed(host.mounts, y);
    if volumes[i].source == y.mountpoint {
      AloneIsTaken(host, i, volumes[i], supported, faults, y);
      k := 0;
    } else {
      if one.dev.Some? {
        RemovedEntries(host.mounts, volumes[i].source);
        AloneAfter(host.mounts, volumes[i].source, y);
      }
      var later := NamedIsTaken(one.host, i + 1, volumes, supported, faults, b, y);
      k := |Listed(one.dev)| + later;
      TakenLater(Listed(one.dev), Take(one.host, i + 1, volumes, supported, faults).devs, later);
    }
  }

  /** What a round that takes `d` does, and what the later rounds take, as far as the conditions look at it. */
  ghost predicate Round(mounts: seq<Info>, supported: set<string>, volumes: seq<Volume>, i: nat, d: BlockDev,
                        rest: seq<BlockDev>) {
    Plain(mounts) && i < |volumes| && MountedAt(mounts, d.hostMountPoint) == Some(EntryOf(d))
    && AloneOn(mounts, EntryOf(d))
    && d.hostMountPoint == volumes[i].source && d.source != "" && d.fstype in supported
    && var after := Removed(mounts, d.hostMountPoint);
       (forall k :: 0 <= k < |rest| ==>
          EntryOf(rest[k]) in after && rest[k].fstype in supported
          && exists b :: i < b < |volumes| && rest[k].hostMountPoint == volumes[b].source)
       && forall b, y :: i < b < |volumes| && y in after && y.source != "" && y.fstype in supported && AloneOn(after, y)
                         && volumes[b].source == y.mountpoint ==>
            exists k :: 0 <= k < |rest| && EntryOf(rest[k]) == y
  }

  lemma TakenRound(host: Host, i: nat, volumes: seq<Volume>, supported: set<string>, faults: Faults)
    requires Plain(host.mounts) && i < |volumes| && Take(host, i, volumes, supported, faults).ok
    requires TakeOne(host, i, volumes[i], supported, faults).dev.Some?
    ensures var one := TakeOne(host, i, volumes[i], supported, faults);
            var rest := Take(one.host, i + 1, volumes, supported, faults);
            rest.ok && Plain(one.host.mounts) && one.host.mounts == Removed(host.mounts, volumes[i].source)
            && Take(host, i, volumes, supported, faults).devs == [one.dev.value] + rest.devs
            && Round(host.mounts, supported, volumes, i, one.dev.value, rest.devs)
  {
    var one := TakeOne(host, i, volumes[i], supported, faults);
    var d, rest := one.dev.value, Take(one.host, i + 1, volumes, supported, faults);
    TakeStep(host, i, volumes, supported, faults);
    TakeOneEffect(host, i, volumes[i], supported, faults);
    hide TakeOne, Take, Plain, MountedAt, Removed, SharedSource, AloneOn, VolumeId, WithAutoclear, Changes;
    RemovedEntries(host.mounts, volumes[i].source);
    AloneIsNotShared(host.mounts, EntryOf(d));
    RestSupported(one.host, i + 1, volumes, supported, faults);
    var after := one.host.mounts;
    forall k | 0 <= k < |rest.devs|
      ensures exists b :: i < b < |volumes| && rest.devs[k].hostMountPoint == volumes[b].source {
      DevNamesVolume(one.host, i + 1, volumes, supported, faults, k);
    }
    forall b, y | i < b < |volumes| && y in after && y.source != "" && y.fstype in supported && AloneOn(after, y)
                  && volumes[b].source == y.mountpoint
      ensures exists k :: 0 <= k < |rest.devs| && EntryOf(rest.devs[k]) == y {
      var k := NamedIsTaken(one.host, i + 1, volumes, supported, faults, b, y);
    }
  }

  lemma DevNamesVolume(host: Host, i: nat, volumes: seq<Volume>, supported: set<string>, faults: Faults, k: nat)
    requires Plain(host.mounts) && i <= |volumes| && Take(host, i, volumes, supported, faults).ok
    requires k < |Take(host, i, volumes, supported, faults).devs|
    ensures exists b :: i <= b < |volumes|
                        && Take(host, i, volumes, supported, faults).devs[k].hostMountPoint == volumes[b].source
  {
    TakenInRounds(host, i, volumes, supported, faults);
    hide Take, Rounds, Plain, FormatUint;
    var b := Rounds(host, i, volumes, supported, faults)[k];
    assert i <= b < |volumes|;
  }

  lemma {:induction false} RestSupported(host: Host, i: nat, volumes: seq<Volume>, supported: set<string>,
                                         faults: Faults)
    requires Plain(host.mounts) && i <= |volumes| && Take(host, i, volumes, supported, faults).ok
    ensures var devs := Take(host, i, volumes, supported, faults).devs;
            forall k :: 0 <= k < |devs| ==> EntryOf(devs[k]) in host.mounts && devs[k].fstype in supported
    decreases |volumes| - i
  {
    if i < |volumes| {
      var one := TakeOne(host, i, volumes[i], supported, faults);
      TakeStep(host, i, volumes, supported, faults);
      TakeOneEffect(host, i, volumes[i], supported, faults);
      if one.dev.Some? {
        RemovedEntries(host.mounts, volumes[i].source);
      }
      hide TakeOne, Take, Plain, Removed, VolumeId, WithAutoclear, SharedSource;
      RestSupported(one.host, i + 1, volumes, supported, faults);
    }
  }

  /** In a round that takes nothing no pair begins. */
  lemma NothingBegins(host: Host, i: nat, volumes: seq<Volume>, supported: set<string>, faults: Faults)
    requires Plain(host.mounts) && i < |volumes| && TakeOne(host, i, volumes[i], supported, faults).ok
    requires TakeOne(host, i, volumes[i], supported, faults).dev.None?
    ensures NamesConfused(host.mounts, supported, volumes, i) <==> NamesConfused(host.mounts, supported, volumes, i + 1)
    ensures NamesShared(host.mounts, supported, volumes, i) <==> NamesShared(host.mounts, supported, volumes, i + 1)
  {
    hide TakeOne, Special, AloneOn, Plain;
    if NamesConfused(host.mounts, supported, volumes, i) {
      var a, b, x, y :| NamedPair(host.mounts, supported, volumes, i, a, b, x, y);
      PairBeginsLater(host, i, volumes, supported, faults, a, b, x, y);
    }
    if NamesShared(host.mounts, supported, volumes, i) {
      var a, b, x, y :| NamedPair(host.mounts, supported, volumes, i, a, b, x, y) && !Special(x);
      PairBeginsLater(host, i, volumes, supported, faults, a, b, x, y);
    }
    if NamesConfused(host.mounts, supported, volumes, i + 1) {
      var a, b, x, y :| NamedPair(host.mounts, supported, volumes, i + 1, a, b, x, y);
      assert NamedPair(host.mounts, supported, volumes, i, a, b, x, y);
    }
    if NamesShared(host.mounts, supported, volumes, i + 1) {
      var a, b, x, y :| NamedPair(host.mounts, supported, volumes, i + 1, a, b, x, y) && !Special(x);
      assert NamedPair(host.mounts, supported, volumes, i, a, b, x, y);
    }
  }

  lemma PairBeginsLater(host: Host, i: nat, volumes: seq<Volume>, supported: set<string>, faults: Faults,
                        a: nat, b: nat, x: Info, y: Info)
    requires Plain(host.mounts) && i < |volumes| && TakeOne(host, i, volumes[i], supported, faults).ok
    requires TakeOne(host, i, volumes[i], supported, faults).dev.None?
    requires NamedPair(host.mounts, supported, volumes, i, a, b, x, y)
    ensures NamedPair(host.mounts, supported, volumes, i + 1, a, b, x, y)
  {
    hide TakeOne, Special, AloneOn, Plain;
    if a == i {
      AloneIsTaken(host, i, volumes[i], supported, faults, x);
    }
  }

  lemma PairWithTaken(mounts: seq<Info>, supported: set<string>, volumes: seq<Volume>, i: nat, d: BlockDev,
                      rest: seq<BlockDev>, b: nat, y: Info)
    requires Round(mounts, supported, volumes, i, d, rest) && i < b < |volumes| && volumes[b].source == y.mountpoint
    requires y in mounts && y.mountpoint != d.hostMountPoint && y.source == d.source && y.fstype in supported
    ensures Special(y) && exists k :: 0 <= k < |rest| && rest[k].source == d.source
  {
    RemovedEntries(mounts, d.hostMountPoint);
    var after := Removed(mounts, d.hostMountPoint);
    hide Plain, MountedAt, Removed, Special;
    assert AloneOn(after, y);
    var k :| 0 <= k < |rest| && EntryOf(rest[k]) == y;
  }

  lemma PairStays(mounts: seq<Info>, supported: set<string>, path: string, x: Info, y: Info)
    requires Plain(mounts) && MountedAt(mounts, path).Some? && Confused(mounts, supported, x, y)
    requires x.mountpoint != path && y.mountpoint != path
    ensures Confused(Removed(mounts, path), supported, x, y)
  {
    RemovedEntries(mounts, path);
    hide Plain, MountedAt, Removed, Special;
  }

  /** A pair that is there before the round: it begins with what the round takes, or it is there afterwards. */
  lemma PairBefore(mounts: seq<Info>, supported: set<string>, volumes: seq<Volume>, i: nat, d: BlockDev,
                   rest: seq<BlockDev>, a: nat, b: nat, x: Info, y: Info)
    requires Round(mounts, supported, volumes, i, d, rest) && NamedPair(mounts, supported, volumes, i, a, b, x, y)
    ensures (exists k :: 0 <= k < |rest| && rest[k].source == d.source && (!Special(x) ==> !Special(EntryOf(d))))
            || NamedPair(Removed(mounts, d.hostMountPoint), supported, volumes, i + 1, a, b, x, y)
  {
    RoundTakes(mounts, supported, volumes, i, d, rest);
    hide Round, Plain, MountedAt, Removed, Special, AloneOn;
    SameMountpoint(mounts, EntryOf(d), x);
    if x.mountpoint == d.hostMountPoint {
      PairWithTaken(mounts, supported, volumes, i, d, rest, b, y);
    } else if y.mountpoint == d.hostMountPoint {
      SameMountpoint(mounts, EntryOf(d), y);
      PairWithTaken(mounts, supported, volumes, i, d, rest, a, x);
    } else {
      PairStays(mounts, supported, d.hostMountPoint, x, y);
      hide Confused;
    }
  }

  lemma RoundTakes(mounts: seq<Info>, supported: set<string>, volumes: seq<Volume>, i: nat, d: BlockDev,
                   rest: seq<BlockDev>)
    requires Round(mounts, supported, volumes, i, d, rest)
    ensures Plain(mounts) && MountedAt(mounts, d.hostMountPoint) == Some(EntryOf(d)) && i < |volumes|
    ensures d.hostMountPoint == volumes[i].source
  {
    hide Plain, MountedAt, Removed, Special, AloneOn;
  }

  lemma SameMountpoint(mounts: seq<Info>, e: Info, x: Info)
    requires Plain(mounts) && MountedAt(mounts, e.mountpoint) == Some(e) && x in mounts
    ensures x.mountpoint == e.mountpoint ==> x == e
  {
    MountedIsListed(mounts, x);
  }

  /** A pair that is there after the round was there before, or what the round takes makes a pair with `y`. */
  lemma PairAfter(mounts: seq<Info>, supported: set<string>, volumes: seq<Volume>, i: nat, d: BlockDev,
                  rest: seq<BlockDev>,
                  a: nat, b: nat, x: Info, y: Info)
    requires Round(mounts, supported, volumes, i, d, rest)
    requires NamedPair(Removed(mounts, d.hostMountPoint), supported, volumes, i + 1, a, b, x, y)
    ensures if x.source == d.source then NamedPair(mounts, supported, volumes, i, i, b, EntryOf(d), y) && Special(x)
            else NamedPair(mounts, supported, volumes, i, a, b, x, y)
  {
    RemovedEntries(mounts, d.hostMountPoint);
    hide Plain, MountedAt, Removed, Special;
  }

  lemma PairBegins(mounts: seq<Info>, supported: set<string>, volumes: seq<Volume>, i: nat, d: BlockDev,
                   rest: seq<BlockDev>,
                   k: nat)
    requires Round(mounts, supported, volumes, i, d, rest) && k < |rest| && rest[k].source == d.source
    ensures exists b :: NamedPair(mounts, supported, volumes, i, i, b, EntryOf(d), EntryOf(rest[k]))
  {
    RemovedEntries(mounts, d.hostMountPoint);
    var b :| i < b < |volumes| && rest[k].hostMountPoint == volumes[b].source;
    hide Plain, MountedAt, Removed, Special, AloneOn;
    assert NamedPair(mounts, supported, volumes, i, i, b, EntryOf(d), EntryOf(rest[k]));
  }

  lemma ConfusedInRound(mounts: seq<Info>, supported: set<string>, volumes: seq<Volume>, i: nat, d: BlockDev,
                        rest: seq<BlockDev>)
    requires Round(mounts, supported, volumes, i, d, rest)
    ensures NamesConfused(mounts, supported, volumes, i) <==>
              NamesConfused(Removed(mounts, d.hostMountPoint), supported, volumes, i + 1)
              || exists k :: 0 <= k < |rest| && rest[k].source == d.source
  {
    hide Round, NamedPair, Special, Removed;
    if NamesConfused(mounts, supported, volumes, i) {
      var a, b, x, y :| NamedPair(mounts, supported, volumes, i, a, b, x, y);
      PairBefore(mounts, supported, volumes, i, d, rest, a, b, x, y);
    }
    if NamesConfused(Removed(mounts, d.hostMountPoint), supported, volumes, i + 1) {
      var a, b, x, y :| NamedPair(Removed(mounts, d.hostMountPoint), supported, volumes, i + 1, a, b, x, y);
      PairAfter(mounts, supported, volumes, i, d, rest, a, b, x, y);
    }
    if k :| 0 <= k < |rest| && rest[k].source == d.source {
      PairBegins(mounts, supported, volumes, i, d, rest, k);
    }
  }

  lemma SharedInRound(mounts: seq<Info>, supported: set<string>, volumes: seq<Volume>, i: nat, d: BlockDev,
                      rest: seq<BlockDev>)
    requires Round(mounts, supported, volumes, i, d, rest)
    ensures NamesShared(mounts, supported, volumes, i) <==>
              NamesShared(Removed(mounts, d.hostMountPoint), supported, volumes, i + 1)
              || (!Special(EntryOf(d)) && exists k :: 0 <= k < |rest| && rest[k].source == d.source)
  {
    hide Round, NamedPair, Special, Removed;
    if NamesShared(mounts, supported, volumes, i) {
      var a, b, x, y :| NamedPair(mounts, supported, volumes, i, a, b, x, y) && !Special(x);
      PairBefore(mounts, supported, volumes, i, d, rest, a, b, x, y);
    }
    if NamesShared(Removed(mounts, d.hostMountPoint), supported, volumes, i + 1) {
      var a, b, x, y :| NamedPair(Removed(mounts, d.hostMountPoint), supported, volumes, i + 1, a, b, x, y)
          && !Special(x);
      PairAfter(mounts, supported, volumes, i, d, rest, a, b, x, y);
    }
    if k :| 0 <= k < |rest| && rest[k].source == d.source {
      PairBegins(mounts, supported, volumes, i, d, rest, k);
    }
  }

  lemma ApartFirst(d: BlockDev, rest: seq<BlockDev>)
    ensures SourcesApart([d] + rest) <==>
              SourcesApart(rest) && !exists k :: 0 <= k < |rest| && rest[k].source == d.source
  {
    var devs := [d] + rest;
    assert devs[0] == d && forall k | 0 <= k < |rest| :: devs[k + 1] == rest[k];
    if SourcesApart(devs) {
      forall j, k | 0 <= j < k < |rest| ensures rest[j].source != rest[k].source {
        assert devs[j + 1].source != devs[k + 1].source;
      }
      forall k | 0 <= k < |rest| ensures rest[k].source != d.source {
        assert devs[0].source != devs[k + 1].source;
      }
    }
  }

  lemma WereAloneFirst(mounts: seq<Info>, supported: set<string>, volumes: seq<Volume>, i: nat, d: BlockDev,
                       rest: seq<BlockDev>)
    requires Round(mounts, supported, volumes, i, d, rest)
    ensures WereAlone(mounts, [d] + rest) <==>
              WereAlone(Removed(mounts, d.hostMountPoint), rest)
              && (Special(EntryOf(d)) || !exists k :: 0 <= k < |rest| && rest[k].source == d.source)
  {
    var e, after, devs := EntryOf(d), Removed(mounts, d.hostMountPoint), [d] + rest;
    RemovedEntries(mounts, d.hostMountPoint);
    MountedIsListed(mounts, e);
    forall k | 0 <= k < |rest|
      ensures AloneOn(mounts, EntryOf(rest[k])) <==>
                AloneOn(after, EntryOf(rest[k])) && (rest[k].source == d.source ==> Special(e)) {
      hide Plain, MountedAt, Removed, Special;
    }
    hide AloneOn, Plain, MountedAt, Removed, Special;
    assert devs[0] == d && forall k | 0 <= k < |rest| :: devs[k + 1] == rest[k];
    if WereAlone(mounts, devs) {
      forall k | 0 <= k < |rest| ensures AloneOn(mounts, EntryOf(rest[k])) {
        assert AloneOn(mounts, EntryOf(devs[k + 1]));
      }
    }
  }

  /** When the sources that a call takes are distinct: exactly if no two of its volumes, in their order, name a
      confused pair of mounts. */
  lemma {:induction false} SourcesApartExactly(host: Host, i: nat, volumes: seq<Volume>, supported: set<string>,
                                               faults: Faults)
    requires Plain(host.mounts) && i <= |volumes| && Take(host, i, volumes, supported, faults).ok
    ensures SourcesApart(Take(host, i, volumes, supported, faults).devs) <==>
              !NamesConfused(host.mounts, supported, volumes, i)
    decreases |volumes| - i
  {
    if i == |volumes| {
      NothingLeft(host, volumes, supported, faults);
    } else {
      var one := TakeOne(host, i, volumes[i], supported, faults);
      var rest := Take(one.host, i + 1, volumes, supported, faults);
      TakeStep(host, i, volumes, supported, faults);
      TakeOneEffect(host, i, volumes[i], supported, faults);
      hide TakeOne, Take, NamesConfused, NamesShared, SourcesApart, Plain, Removed, Round, MountedAt, SharedSource,
           VolumeId,
        WithAutoclear, Changes;
      if one.dev.None? {
        assert Listed(one.dev) + rest.devs == rest.devs;
        NothingBegins(host, i, volumes, supported, faults);
        SourcesApartExactly(one.host, i + 1, volumes, supported, faults);
      } else {
        TakenRound(host, i, volumes, supported, faults);
        SourcesApartExactly(one.host, i + 1, volumes, supported, faults);
        ConfusedInRound(host.mounts, supported, volumes, i, one.dev.value, rest.devs);
        ApartFirst(one.dev.value, rest.devs);
      }
    }
  }

  /** When no device that a call takes had another mount that is not special, before the call: exactly if no two of
      its volumes name a confused pair whose first mount is not special itself. */
  lemma {:induction false} WereAloneExactly(host: Host, i: nat, volumes: seq<Volume>, supported: set<string>,
                                            faults: Faults)
    requires Plain(host.mounts) && i <= |volumes| && Take(host, i, volumes, supported, faults).ok
    ensures WereAlone(host.mounts, Take(host, i, volumes, supported, faults).devs) <==>
              !NamesShared(host.mounts, supported, volumes, i)
    decreases |volumes| - i
  {
    if i == |volumes| {
      NothingLeft(host, volumes, supported, faults);
    } else {
      var one := TakeOne(host, i, volumes[i], supported, faults);
      var rest := Take(one.host, i + 1, volumes, supported, faults);
      TakeStep(host, i, volumes, supported, faults);
      TakeOneEffect(host, i, volumes[i], supported, faults);
      hide TakeOne, Take, NamesConfused, NamesShared, WereAlone, Plain, Removed, Round, MountedAt, SharedSource,
           VolumeId,
        WithAutoclear, Changes, Special;
      if one.dev.None? {
        assert Listed(one.dev) + rest.devs == rest.devs;
        NothingBegins(host, i, volumes, supported, faults);
        WereAloneExactly(one.host, i + 1, volumes, supported, faults);
      } else {
        TakenRound(host, i, volumes, supported, faults);
        WereAloneExactly(one.host, i + 1, volumes, supported, faults);
        SharedInRound(host.mounts, supported, volumes, i, one.dev.value, rest.devs);
        WereAloneFirst(host.mounts, supported, volumes, i, one.dev.value, rest.devs);
      }
    }
  }

  // ------------------------------------------------------------------ the exact conditions for a host

  /** With two mounts confused, taking both takes one source twice. */
  lemma ConfusedAreTaken(host: Host, supported: set<string>, x: Info, y: Info)
    requires Plain(host.mounts) && Confused(host.mounts, supported, x, y)
    ensures var run := Take(host, 0, [Volume(x.mountpoint, ""), Volume(y.mountpoint, "")], supported, NO_FAULTS);
            run.ok && !SourcesApart(run.devs)
  {
    var volumes := [Volume(x.mountpoint, ""), Volume(y.mountpoint, "")];
    hide Take, Plain, Confused;
    NoFaultsSucceed(host, 0, volumes, supported);
    SourcesApartExactly(host, 0, volumes, supported, NO_FAULTS);
    assert NamedPair(host.mounts, supported, volumes, 0, 0, 1, x, y);
  }

  /** For which mounts of the host and which guest taken sources are distinct whatever the volumes are: exactly if no
      two mounts can be confused. */
  lemma SourcesDistinctExactly(host: Host, supported: set<string>)
    requires Plain(host.mounts)
    ensures !Confusable(host.mounts, supported) <==>
              forall volumes :: SourcesApart(Take(host, 0, volumes, supported, NO_FAULTS).devs)
  {
    hide Plain, Take, Confused, SourcesApart;
    if Confusable(host.mounts, supported) {
      var x, y :| Confused(host.mounts, supported, x, y);
      ConfusedAreTaken(host, supported, x, y);
    } else {
      forall volumes ensures SourcesApart(Take(host, 0, volumes, supported, NO_FAULTS).devs) {
        NoFaultsSucceed(host, 0, volumes, supported);
        SourcesApartExactly(host, 0, volumes, supported, NO_FAULTS);
      }
    }
  }

  /** Two mounts of one virtiofs tag that is called like its file system: both are taken, with one source. */
  lemma TwoVirtiofsMounts()
    ensures var x, y := Info("/a", "virtiofs", "virtiofs", "rw"), Info("/b", "virtiofs", "virtiofs", "rw");
            var host := Host([x, y], map[]);
            Plain(host.mounts) && Confusable(host.mounts, {"virtiofs"})
            && !SourcesApart(Take(host, 0, [Volume("/a", ""), Volume("/b", "")], {"virtiofs"}, NO_FAULTS).devs)
  {
    var x, y := Info("/a", "virtiofs", "virtiofs", "rw"), Info("/b", "virtiofs", "virtiofs", "rw");
    var host := Host([x, y], map[]);
    assert host.mounts[0] == x && host.mounts[1] == y;
    assert "/a"[1] != "/b"[1];
    assert Confused(host.mounts, {"virtiofs"}, x, y);
    hide Take, Confused, SourcesApart;
    ConfusedAreTaken(host, {"virtiofs"}, x, y);
  }

  /** What a Linux guest can mount. */
  const LINUX_FS := {"ext2", "ext3", "ext4", "9pfs", "virtiofs"}

  /** An ext4 mount whose source is a tag "virtiofs" too, taken first: both are taken, and before the call the second
      had another mount that is not special. */
  lemma SharedWithVirtiofs()
    ensures var x, y := Info("/a", "virtiofs", "ext4", "rw"), Info("/b", "virtiofs", "virtiofs", "rw");
            var host := Host([x, y], map[]);
            var run := Take(host, 0, [Volume("/a", ""), Volume("/b", "")], LINUX_FS, NO_FAULTS);
            Plain(host.mounts) && run.ok && !WereAlone(host.mounts, run.devs)
  {
    var x, y := Info("/a", "virtiofs", "ext4", "rw"), Info("/b", "virtiofs", "virtiofs", "rw");
    var host, volumes := Host([x, y], map[]), [Volume("/a", ""), Volume("/b", "")];
    assert host.mounts[0] == x && host.mounts[1] == y;
    assert "/a"[1] != "/b"[1] && |"ext4"| != |"virtiofs"|;
    assert "ext4" in LINUX_FS && "virtiofs" in LINUX_FS;
    assert Confused(host.mounts, LINUX_FS, x, y) && !Special(x);
    hide Take, Confused, WereAlone, Plain, Special;
    NoFaultsSucceed(host, 0, volumes, LINUX_FS);
    WereAloneExactly(host, 0, volumes, LINUX_FS, NO_FAULTS);
    assert NamedPair(host.mounts, LINUX_FS, volumes, 0, 0, 1, x, y);
  }
}
