/** Mount options: how they are split for containerd, and the flag words they fold into. */
module MountOptions {
  import opened GoStrings

  /** The per-mount VFS flags, each a bit of its own in the flags of mount(2). */
  datatype VfsFlag =
    | ReadOnly | NoSuid | NoDev | NoExec | NoAtime | NoDirAtime | RelAtime | StrictAtime | NoSymFollow
    | Synchronous | DirSync | MandLock | Silent | LazyTime | IVersion

  function Mask(f: VfsFlag): bv64 {
    match f
    case ReadOnly => 1 case NoSuid => 2 case NoDev => 4 case NoExec => 8
    case Synchronous => 0x10 case MandLock => 0x40 case DirSync => 0x80 case NoSymFollow => 0x100
    case NoAtime => 0x400 case NoDirAtime => 0x800 case Silent => 0x8000
    case RelAtime => 0x20_0000 case IVersion => 0x80_0000 case StrictAtime => 0x100_0000 case LazyTime => 0x200_0000
  }

  datatype Change = Change(flag: VfsFlag, clear: bool)

  /** `mapVFSFlag` */
  function VfsChange(option: string): Option<Change> {
    match option
    case "ro" => Some(Change(ReadOnly, false))
    case "rw" => Some(Change(ReadOnly, true))
    case "nosuid" => Some(Change(NoSuid, false))
    case "suid" => Some(Change(NoSuid, true))
    case "nodev" => Some(Change(NoDev, false))
    case "dev" => Some(Change(NoDev, true))
    case "noexec" => Some(Change(NoExec, false))
    case "exec" => Some(Change(NoExec, true))
    case "noatime" => Some(Change(NoAtime, false))
    case "atime" => Some(Change(NoAtime, true))
    case "nodiratime" => Some(Change(NoDirAtime, false))
    case "diratime" => Some(Change(NoDirAtime, true))
    case "relatime" => Some(Change(RelAtime, false))
    case "norelatime" => Some(Change(RelAtime, true))
    case "strictatime" => Some(Change(StrictAtime, false))
    case "nostrictatime" => Some(Change(StrictAtime, true))
    case "nosymfollow" => Some(Change(NoSymFollow, false))
    case "symfollow" => Some(Change(NoSymFollow, true))
    case "sync" => Some(Change(Synchronous, false))
    case "async" => Some(Change(Synchronous, true))
    case "dirsync" => Some(Change(DirSync, false))
    case "mand" => Some(Change(MandLock, false))
    case "nomand" => Some(Change(MandLock, true))
    case "silent" => Some(Change(Silent, false))
    case "loud" => Some(Change(Silent, true))
    case "lazytime" => Some(Change(LazyTime, false))
    case "nolazytime" => Some(Change(LazyTime, true))
    case "iversion" => Some(Change(IVersion, false))
    case "noiversion" => Some(Change(IVersion, true))
    case _ => None
  }

  const MS_REC: bv64 := 0x4000
  const MS_UNBINDABLE: bv64 := 0x2_0000
  const MS_PRIVATE: bv64 := 0x4_0000
  const MS_SLAVE: bv64 := 0x8_0000
  const MS_SHARED: bv64 := 0x10_0000

  /** `mapRootfsPropagationFlag` */
  function Propagation(option: string): Option<bv64> {
    match option
    case "rprivate" => Some(MS_PRIVATE | MS_REC)
    case "private" => Some(MS_PRIVATE)
    case "rslave" => Some(MS_SLAVE | MS_REC)
    case "slave" => Some(MS_SLAVE)
    case "rshared" => Some(MS_SHARED | MS_REC)
    case "shared" => Some(MS_SHARED)
    case "runbindable" => Some(MS_UNBINDABLE | MS_REC)
    case "unbindable" => Some(MS_UNBINDABLE)
    case _ => None
  }

  lemma NoPropagationOptionIsVfs(option: string)
    requires Propagation(option).Some?
    ensures VfsChange(option).None?
  {
  }

  // ------------------------------------------------------------------ the last option wins

  predicate Touches(option: string, f: VfsFlag) {
    VfsChange(option).Some? && VfsChange(option).value.flag == f
  }

  predicate LastAt(options: seq<string>, i: nat, f: VfsFlag) {
    i < |options| && Touches(options[i], f) && !VfsChange(options[i]).value.clear
    && forall j :: i < j < |options| ==> !Touches(options[j], f)
  }

  /** There is a last option that touches the flag, and it sets it. */
  predicate LastSets(options: seq<string>, f: VfsFlag) {
    exists i :: 0 <= i < |options| && LastAt(options, i, f)
  }

  /** The flags that are on after a list of options. */
  function Active(options: seq<string>): set<VfsFlag> {
    set f: VfsFlag | LastSets(options, f)
  }

  /** All bits of the table. */
  const VFS_FLAGS: bv64 := 0x3A0_8DDF

  predicate Common(v: bv64, w: bv64) {
    v & w != 0
  }

  function With(word: bv64, bits: bv64): bv64 {
    word | bits
  }

  function Without(word: bv64, bits: bv64): bv64 {
    word & !bits
  }

  predicate HasFlag(word: bv64, f: VfsFlag) {
    Common(word, Mask(f))
  }

  predicate OnlyFlags(word: bv64) {
    !Common(word, !VFS_FLAGS)
  }

  function SetFlag(word: bv64, f: VfsFlag): bv64 {
    With(word, Mask(f))
  }

  function ClearFlag(word: bv64, f: VfsFlag): bv64 {
    Without(word, Mask(f))
  }

  /** The word has the bits of these flags, and no other bit. */
  ghost predicate Holds(word: bv64, s: set<VfsFlag>) {
    OnlyFlags(word) && forall f :: HasFlag(word, f) <==> f in s
  }

  lemma OneFlagEach(f: VfsFlag, g: VfsFlag)
    ensures Common(Mask(f), Mask(g)) <==> f == g
    ensures !Common(Mask(f), !VFS_FLAGS)
  {
  }

  lemma OrBits(word: bv64, m: bv64, n: bv64)
    requires Common(m, m) && (m == n || !Common(m, n))
    ensures Common(With(word, m), n) <==> m == n || Common(word, n)
  {
    if m == n {
      OrSame(word, m);
      hide Common, With;
    } else {
      OrOther(word, m, n);
      hide Common, With;
    }
  }

  lemma OrSame(word: bv64, m: bv64)
    requires Common(m, m)
    ensures Common(With(word, m), m)
  {
  }

  lemma OrOther(word: bv64, m: bv64, n: bv64)
    requires !Common(m, n)
    ensures Common(With(word, m), n) == Common(word, n)
  {
    Distribute(word, m, n);
    OrNothing(word & n, m & n);
  }

  lemma Distribute(word: bv64, m: bv64, n: bv64)
    ensures (word | m) & n == (word & n) | (m & n)
  {
  }

  lemma OrNothing(v: bv64, w: bv64)
    requires w == 0
    ensures v | w == v
  {
  }

  lemma ClearBits(word: bv64, m: bv64, n: bv64)
    requires m == n || !Common(m, n)
    ensures Common(Without(word, m), n) <==> m != n && Common(word, n)
  {
    if m == n {
      ClearSame(word, m);
      hide Common, Without;
    } else {
      ClearOther(word, m, n);
      hide Common, Without;
    }
  }

  lemma ClearSame(word: bv64, m: bv64)
    ensures !Common(Without(word, m), m)
  {
  }

  lemma ClearOther(word: bv64, m: bv64, n: bv64)
    requires !Common(m, n)
    ensures Common(Without(word, m), n) == Common(word, n)
  {
    Outside(m, n);
    Kept(word, !m, n);
  }

  lemma Kept(word: bv64, k: bv64, n: bv64)
    requires k & n == n
    ensures Common(word & k, n) == Common(word, n)
  {
    KeptBits(word, k, n);
  }

  lemma KeptBits(word: bv64, k: bv64, n: bv64)
    requires k & n == n
    ensures (word & k) & n == word & n
  {
    Regroup(word, k, n);
  }

  lemma Regroup(word: bv64, k: bv64, n: bv64)
    ensures (word & k) & n == word & (k & n)
  {
  }

  lemma Outside(m: bv64, n: bv64)
    requires m & n == 0
    ensures !m & n == n
  {
  }

  lemma SetOne(word: bv64, f: VfsFlag, g: VfsFlag)
    ensures HasFlag(SetFlag(word, f), g) <==> f == g || HasFlag(word, g)
  {
    OneFlagEach(f, g);
    OneFlagEach(f, f);
    hide Common, With, Mask;
    OrBits(word, Mask(f), Mask(g));
  }

  lemma ClearOne(word: bv64, f: VfsFlag, g: VfsFlag)
    ensures HasFlag(ClearFlag(word, f), g) <==> f != g && HasFlag(word, g)
  {
    OneFlagEach(f, g);
    OneFlagEach(f, f);
    hide Common, Without, Mask;
    ClearBits(word, Mask(f), Mask(g));
  }

  lemma NothingElse(word: bv64, f: VfsFlag)
    requires OnlyFlags(word)
    ensures OnlyFlags(SetFlag(word, f)) && OnlyFlags(ClearFlag(word, f))
  {
    OneFlagEach(f, f);
    hide Common, With, Without, Mask;
    OrOther(word, Mask(f), !VFS_FLAGS);
    ClearOther(word, Mask(f), !VFS_FLAGS);
  }

  lemma HoldsSet(word: bv64, s: set<VfsFlag>, f: VfsFlag)
    requires Holds(word, s)
    ensures Holds(SetFlag(word, f), s + {f})
  {
    hide HasFlag, OnlyFlags, SetFlag;
    forall g {
      SetOne(word, f, g);
    }
    NothingElse(word, f);
  }

  lemma HoldsClear(word: bv64, s: set<VfsFlag>, f: VfsFlag)
    requires Holds(word, s)
    ensures Holds(ClearFlag(word, f), s - {f})
  {
    hide HasFlag, OnlyFlags, ClearFlag;
    forall g {
      ClearOne(word, f, g);
    }
    NothingElse(word, f);
  }

  /** So a word is determined by its flags. */
  lemma HeldOnce(v: bv64, w: bv64, s: set<VfsFlag>)
    requires Holds(v, s) && Holds(w, s)
    ensures v == w
  {
    forall f ensures HasFlag(v, f) == HasFlag(w, f) {
      hide HasFlag;
    }
    SameFlags(v, w);
  }

  lemma SameFlags(v: bv64, w: bv64)
    requires OnlyFlags(v) && OnlyFlags(w) && forall f :: HasFlag(v, f) == HasFlag(w, f)
    ensures v == w
  {
    hide HasFlag, OnlyFlags;
    SameBits(v, w);
  }

  lemma SameBits(v: bv64, w: bv64)
    requires OnlyFlags(v) && OnlyFlags(w)
    requires HasFlag(v, ReadOnly) == HasFlag(w, ReadOnly) && HasFlag(v, NoSuid) == HasFlag(w, NoSuid)
    requires HasFlag(v, NoDev) == HasFlag(w, NoDev) && HasFlag(v, NoExec) == HasFlag(w, NoExec)
    requires HasFlag(v, Synchronous) == HasFlag(w, Synchronous) && HasFlag(v, MandLock) == HasFlag(w, MandLock)
    requires HasFlag(v, DirSync) == HasFlag(w, DirSync) && HasFlag(v, NoSymFollow) == HasFlag(w, NoSymFollow)
    requires HasFlag(v, NoAtime) == HasFlag(w, NoAtime) && HasFlag(v, NoDirAtime) == HasFlag(w, NoDirAtime)
    requires HasFlag(v, Silent) == HasFlag(w, Silent) && HasFlag(v, RelAtime) == HasFlag(w, RelAtime)
    requires HasFlag(v, IVersion) == HasFlag(w, IVersion) && HasFlag(v, StrictAtime) == HasFlag(w, StrictAtime)
    requires HasFlag(v, LazyTime) == HasFlag(w, LazyTime)
    ensures v == w
  {
  }

  lemma LastAtSnoc(options: seq<string>, o: string, i: nat, f: VfsFlag)
    requires i <= |options|
    ensures LastAt(options + [o], i, f) <==>
              if i == |options| then Touches(o, f) && !VfsChange(o).value.clear
              else LastAt(options, i, f) && !Touches(o, f)
  {
    hide VfsChange, Touches;
    var all, n := options + [o], |options|;
    assert all[n] == o && forall j | 0 <= j < n :: all[j] == options[j];
    if i < n && LastAt(all, i, f) {
      assert !Touches(all[n], f);
      assert forall j | i < j < n :: !Touches(options[j], f) by {
        assert forall j | i < j < n :: options[j] == all[j];
      }
    }
  }

  lemma LastSetsSnoc(options: seq<string>, o: string, f: VfsFlag)
    ensures LastSets(options + [o], f) <==> if Touches(o, f) then !VfsChange(o).value.clear else LastSets(options, f)
  {
    hide VfsChange, LastAt;
    forall i | 0 <= i <= |options| {
      LastAtSnoc(options, o, i, f);
    }
    LastAtSnoc(options, o, |options|, f);
    if LastSets(options, f) {
      var i :| 0 <= i < |options| && LastAt(options, i, f);
      assert !Touches(o, f) ==> LastAt(options + [o], i, f);
    }
  }

  lemma ActiveSnoc(options: seq<string>, o: string)
    ensures Active(options + [o]) ==
              match VfsChange(o)
              case None => Active(options)
              case Some(c) => if c.clear then Active(options) - {c.flag} else Active(options) + {c.flag}
  {
    hide VfsChange, LastSets;
    forall f {
      LastSetsSnoc(options, o, f);
    }
  }

  // ------------------------------------------------------------------ splitting

  datatype Group = ForContainerd | ForPropagation | ForRemount

  function GroupOf(option: string, isBind: bool): Group {
    if Propagation(option).Some? then ForPropagation
    else if isBind && VfsChange(option).Some? then ForRemount
    else ForContainerd
  }

  /** The options of one group, in their order. */
  function Select(options: seq<string>, isBind: bool, g: Group): seq<string> {
    if options == [] then []
    else (if GroupOf(options[0], isBind) == g then [options[0]] else []) + Select(options[1..], isBind, g)
  }

  function PropagationFlags(options: seq<string>): seq<bv64> {
    if options == [] then []
    else
      var first := if Propagation(options[0]).Some? then [Propagation(options[0]).value] else [];
      first + PropagationFlags(options[1..])
  }

  lemma {:induction false} SelectSnoc(options: seq<string>, o: string, isBind: bool, g: Group)
    ensures Select(options + [o], isBind, g) ==
              Select(options, isBind, g) + if GroupOf(o, isBind) == g then [o] else []
  {
    hide GroupOf;
    if options != [] {
      SelectSnoc(options[1..], o, isBind, g);
      assert (options + [o])[1..] == options[1..] + [o];
    } else {
      assert [o][1..] == [] && [] + [o] == [o];
    }
  }

  lemma {:induction false} PropagationSnoc(options: seq<string>, o: string)
    ensures PropagationFlags(options + [o]) ==
              PropagationFlags(options) + if Propagation(o).Some? then [Propagation(o).value] else []
  {
    hide Propagation;
    if options != [] {
      PropagationSnoc(options[1..], o);
      assert (options + [o])[1..] == options[1..] + [o];
    } else {
      assert [o][1..] == [] && [] + [o] == [o];
    }
  }

  /** `splitMountOptions` */
  method SplitMountOptions(options: seq<string>, isBind: bool)
    returns (containerdOpts: seq<string>, propagation: seq<bv64>, vfsFlags: bv64)
    ensures containerdOpts == Select(options, isBind, ForContainerd)
    ensures propagation == PropagationFlags(options)
    ensures Holds(vfsFlags, Active(options))
  {
    hide VfsChange, Propagation, Holds, Active, SetFlag, ClearFlag, Select, PropagationFlags;
    containerdOpts, propagation, vfsFlags := [], [], 0;
    NoOptions(isBind);
    assert options[..0] == [];
    for k := 0 to |options|
      invariant containerdOpts == Select(options[..k], isBind, ForContainerd)
      invariant propagation == PropagationFlags(options[..k])
      invariant Holds(vfsFlags, Active(options[..k]))
    {
      var o := options[k];
      assert options[..k + 1] == options[..k] + [o];
      SelectSnoc(options[..k], o, isBind, ForContainerd);
      PropagationSnoc(options[..k], o);
      ActiveSnoc(options[..k], o);
      var pFlag := Propagation(o);
      if pFlag.Some? {
        NoPropagationOptionIsVfs(o);
        propagation := propagation + [pFlag.value];
        continue;
      }
      var change := VfsChange(o);
      if change.Some? {
        HoldsSet(vfsFlags, Active(options[..k]), change.value.flag);
        HoldsClear(vfsFlags, Active(options[..k]), change.value.flag);
        if change.value.clear {
          vfsFlags := ClearFlag(vfsFlags, change.value.flag);
        } else {
          vfsFlags := SetFlag(vfsFlags, change.value.flag);
        }
        if isBind {
          continue;
        }
      }
      containerdOpts := containerdOpts + [o];
    }
    assert options[..|options|] == options;
  }

  lemma NoOptions(isBind: bool)
    ensures Active([]) == {} && Holds(0, {}) && PropagationFlags([]) == []
    ensures Select([], isBind, ForContainerd) == []
  {
  }

  /** The fold of `restoreBlockVolumes` over a comma-separated list of options. */
  method FoldMountOptions(mountOptions: string) returns (flags: bv64)
    ensures Holds(flags, Active(Split(mountOptions, ',')))
  {
    hide VfsChange, Holds, Active, SetFlag, ClearFlag, Split;
    var options := Split(mountOptions, ',');
    flags := 0;
    NoOptions(false);
    assert options[..0] == [];
    for k := 0 to |options|
      invariant Holds(flags, Active(options[..k]))
    {
      var o := options[k];
      assert options[..k + 1] == options[..k] + [o];
      ActiveSnoc(options[..k], o);
      var change := VfsChange(o);
      if change.None? {
        continue;
      }
      HoldsSet(flags, Active(options[..k]), change.value.flag);
      HoldsClear(flags, Active(options[..k]), change.value.flag);
      if change.value.clear {
        flags := ClearFlag(flags, change.value.flag);
      } else {
        flags := SetFlag(flags, change.value.flag);
      }
    }
    assert options[..|options|] == options;
  }

  // ------------------------------------------------------------------ nothing is lost or reordered

  /** The option that a propagation flag came from. */
  function PropagationName(flag: bv64): string {
    if flag == MS_PRIVATE | MS_REC then "rprivate"
    else if flag == MS_PRIVATE then "private"
    else if flag == MS_SLAVE | MS_REC then "rslave"
    else if flag == MS_SLAVE then "slave"
    else if flag == MS_SHARED | MS_REC then "rshared"
    else if flag == MS_SHARED then "shared"
    else if flag == MS_UNBINDABLE | MS_REC then "runbindable"
    else "unbindable"
  }

  lemma PropagationNameOf(option: string)
    requires Propagation(option).Some?
    ensures PropagationName(Propagation(option).value) == option
  {
  }

  function Groups(options: seq<string>, isBind: bool): (gs: seq<Group>)
    ensures |gs| == |options|
  {
    seq(|options|, i requires 0 <= i < |options| => GroupOf(options[i], isBind))
  }

  /** Puts groups back together, taking the next option of the group that the pattern names. */
  function Weave(pattern: seq<Group>, containerd: seq<string>, propagation: seq<bv64>,
                 remount: seq<string>): Option<seq<string>>
    decreases |pattern|
  {
    if pattern == [] then (if containerd == [] && propagation == [] && remount == [] then Some([]) else None)
    else
      match pattern[0]
      case ForContainerd =>
        if containerd == [] then None else Before(containerd[0],
                                                  Weave(pattern[1..], containerd[1..], propagation, remount))
      case ForPropagation =>
        if propagation == [] then None
        else Before(PropagationName(propagation[0]), Weave(pattern[1..], containerd, propagation[1..], remount))
      case ForRemount =>
        if remount == [] then None else Before(remount[0], Weave(pattern[1..], containerd, propagation, remount[1..]))
  }

  function Before(o: string, rest: Option<seq<string>>): Option<seq<string>> {
    match rest
    case None => None
    case Some(os) => Some([o] + os)
  }

  /** From the three groups the options come back, all of them and in order. */
  lemma {:induction false} WeaveSplit(options: seq<string>, isBind: bool)
    ensures Weave(Groups(options, isBind), Select(options, isBind, ForContainerd), PropagationFlags(options),
                  Select(options, isBind, ForRemount)) == Some(options)
  {
    hide VfsChange, Propagation, PropagationName;
    if options != [] {
      WeaveSplit(options[1..], isBind);
      assert Groups(options, isBind)[1..] == Groups(options[1..], isBind);
      assert options == [options[0]] + options[1..];
      SelectFirst(options, isBind, ForContainerd);
      SelectFirst(options, isBind, ForRemount);
      PropagationFirst(options);
      hide Select, PropagationFlags;
      if GroupOf(options[0], isBind) == ForPropagation {
        PropagationNameOf(options[0]);
      }
      hide GroupOf;
    }
  }

  lemma SelectFirst(options: seq<string>, isBind: bool, g: Group)
    requires options != []
    ensures var rest := Select(options[1..], isBind, g);
            Select(options, isBind, g) == if GroupOf(options[0], isBind) == g then [options[0]] + rest else rest
    ensures GroupOf(options[0], isBind) == g ==> Select(options, isBind, g)[1..] == Select(options[1..], isBind, g)
  {
    hide GroupOf;
  }

  lemma PropagationFirst(options: seq<string>)
    requires options != []
    ensures var rest := PropagationFlags(options[1..]);
            PropagationFlags(options) ==
              if Propagation(options[0]).Some? then [Propagation(options[0]).value] + rest else rest
    ensures Propagation(options[0]).Some? ==> PropagationFlags(options)[1..] == PropagationFlags(options[1..])
  {
    hide Propagation;
  }

  /** Only propagation options leave the list of a mount that is no bind mount. */
  lemma {:induction false} NothingToRemount(options: seq<string>)
    ensures Select(options, false, ForRemount) == []
  {
    hide VfsChange, Propagation;
    if options != [] {
      NothingToRemount(options[1..]);
    }
  }

  /** The flags of a bind mount depend only on the options that containerd does not get. */
  lemma {:induction false} RemountOptionsDecide(options: seq<string>)
    ensures Active(options) == Active(Select(options, true, ForRemount))
    decreases |options|
  {
    hide VfsChange, Propagation, Active, Select;
    if options != [] {
      var front, last := options[..|options| - 1], options[|options| - 1];
      assert options == front + [last];
      RemountOptionsDecide(front);
      ActiveSnoc(front, last);
      SelectSnoc(front, last, true, ForRemount);
      if Propagation(last).Some? {
        NoPropagationOptionIsVfs(last);
      }
      ActiveSnoc(Select(front, true, ForRemount), last);
      assert Select(front, true, ForRemount) + [] == Select(front, true, ForRemount);
    } else {
      SelectNothing();
    }
  }

  lemma SelectNothing()
    ensures Select([], true, ForRemount) == []
  {
  }
}
