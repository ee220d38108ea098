/** The tables behind the mount options, written out: which options belong together, which bit of mount(2) each pair
    of them decides, and who gets which option. */
module MountTables {
  import opened GoStrings
  import opened MountOptions

  // ------------------------------------------------------------------ the bits

  /** The last option of a pair is the one that turns its bit on. */
  predicate LastIs(options: seq<string>, on: string, off: string) {
    exists i :: 0 <= i < |options| && IsLast(options, on, off, i)
  }

  predicate IsLast(options: seq<string>, on: string, off: string, i: nat)
    requires i < |options|
  {
    options[i] == on && forall j :: i < j < |options| ==> options[j] != on && options[j] != off
  }

  predicate Bit(word: bv64, bit: bv64) {
    word & bit != 0
  }

  /** The flag is decided by these two options, and has this bit. */
  ghost predicate Decided(f: VfsFlag, on: string, off: string, bit: bv64) {
    Mask(f) == bit && VfsChange(on) == Some(Change(f, false)) && (off == on || VfsChange(off) == Some(Change(f, true)))
    && forall o :: Touches(o, f) ==> o == on || o == off
  }

  lemma LastSetsPair(options: seq<string>, f: VfsFlag, on: string, off: string)
    requires Decided(f, on, off, Mask(f))
    ensures LastSets(options, f) <==> LastIs(options, on, off)
  {
    hide VfsChange, Mask;
    forall i: nat | i < |options| ensures LastAt(options, i, f) <==> IsLast(options, on, off, i) {
    }
    hide IsLast, LastAt, Decided;
  }

  lemma BitOfPair(options: seq<string>, word: bv64, f: VfsFlag, on: string, off: string, bit: bv64)
    requires Holds(word, Active(options)) && Decided(f, on, off, bit)
    ensures Bit(word, bit) <==> LastIs(options, on, off)
  {
    LastSetsPair(options, f, on, off);
    HasFlagIsBit(word, f, bit);
    hide OnlyFlags, HasFlag, LastIs, LastSets, Mask, VfsChange, Touches, Bit;
    assert f in Active(options) <==> LastSets(options, f);
  }

  lemma HasFlagIsBit(word: bv64, f: VfsFlag, bit: bv64)
    requires Mask(f) == bit
    ensures HasFlag(word, f) == Bit(word, bit)
  {
  }

  lemma AccessDecided()
    ensures Decided(ReadOnly, "ro", "rw", 0x1) && Decided(NoSuid, "nosuid", "suid", 0x2)
    ensures Decided(NoDev, "nodev", "dev", 0x4) && Decided(NoExec, "noexec", "exec", 0x8)
  {
  }

  lemma WritesDecided()
    ensures Decided(Synchronous, "sync", "async", 0x10) && Decided(DirSync, "dirsync", "dirsync", 0x80)
    ensures Decided(MandLock, "mand", "nomand", 0x40)
  {
  }

  lemma AccessTimesDecided()
    ensures Decided(NoAtime, "noatime", "atime", 0x400) && Decided(NoDirAtime, "nodiratime", "diratime", 0x800)
    ensures Decided(RelAtime, "relatime", "norelatime", 0x20_0000)
  {
  }

  lemma OtherTimesDecided()
    ensures Decided(StrictAtime, "strictatime", "nostrictatime", 0x100_0000)
    ensures Decided(LazyTime, "lazytime", "nolazytime", 0x200_0000)
  {
  }

  lemma RestDecided()
    ensures Decided(NoSymFollow, "nosymfollow", "symfollow", 0x100) && Decided(Silent, "silent", "loud", 0x8000)
  {
  }

  lemma VersionDecided()
    ensures Decided(IVersion, "iversion", "noiversion", 0x80_0000)
  {
  }

  /** The word of a list of options, bit by bit: each bit is on exactly if the last option of its pair turns it on,
      and no bit without a pair is. */
  lemma WordBits(options: seq<string>, word: bv64)
    requires Holds(word, Active(options))
    ensures Bit(word, 0x1) <==> LastIs(options, "ro", "rw")
    ensures Bit(word, 0x2) <==> LastIs(options, "nosuid", "suid")
    ensures Bit(word, 0x4) <==> LastIs(options, "nodev", "dev")
    ensures Bit(word, 0x8) <==> LastIs(options, "noexec", "exec")
    ensures Bit(word, 0x10) <==> LastIs(options, "sync", "async")
    ensures Bit(word, 0x40) <==> LastIs(options, "mand", "nomand")
    ensures Bit(word, 0x80) <==> LastIs(options, "dirsync", "dirsync")
    ensures Bit(word, 0x100) <==> LastIs(options, "nosymfollow", "symfollow")
    ensures Bit(word, 0x400) <==> LastIs(options, "noatime", "atime")
    ensures Bit(word, 0x800) <==> LastIs(options, "nodiratime", "diratime")
    ensures Bit(word, 0x8000) <==> LastIs(options, "silent", "loud")
    ensures Bit(word, 0x20_0000) <==> LastIs(options, "relatime", "norelatime")
    ensures Bit(word, 0x80_0000) <==> LastIs(options, "iversion", "noiversion")
    ensures Bit(word, 0x100_0000) <==> LastIs(options, "strictatime", "nostrictatime")
    ensures Bit(word, 0x200_0000) <==> LastIs(options, "lazytime", "nolazytime")
    ensures forall bit :: bit & 0x3A0_8DDF == 0 ==> !Bit(word, bit)
  {
    hide Decided;
    AccessDecided();
    WritesDecided();
    AccessTimesDecided();
    OtherTimesDecided();
    RestDecided();
    VersionDecided();
    NoOtherBit(word);
    hide Holds, Bit, LastIs, Active;
    BitOfPair(options, word, ReadOnly, "ro", "rw", 0x1);
    BitOfPair(options, word, NoSuid, "nosuid", "suid", 0x2);
    BitOfPair(options, word, NoDev, "nodev", "dev", 0x4);
    BitOfPair(options, word, NoExec, "noexec", "exec", 0x8);
    BitOfPair(options, word, Synchronous, "sync", "async", 0x10);
    BitOfPair(options, word, MandLock, "mand", "nomand", 0x40);
    BitOfPair(options, word, DirSync, "dirsync", "dirsync", 0x80);
    BitOfPair(options, word, NoSymFollow, "nosymfollow", "symfollow", 0x100);
    BitOfPair(options, word, NoAtime, "noatime", "atime", 0x400);
    BitOfPair(options, word, NoDirAtime, "nodiratime", "diratime", 0x800);
    BitOfPair(options, word, Silent, "silent", "loud", 0x8000);
    BitOfPair(options, word, RelAtime, "relatime", "norelatime", 0x20_0000);
    BitOfPair(options, word, IVersion, "iversion", "noiversion", 0x80_0000);
    BitOfPair(options, word, StrictAtime, "strictatime", "nostrictatime", 0x100_0000);
    BitOfPair(options, word, LazyTime, "lazytime", "nolazytime", 0x200_0000);
  }

  lemma NoOtherBit(word: bv64)
    requires OnlyFlags(word)
    ensures forall bit :: bit & 0x3A0_8DDF == 0 ==> !Bit(word, bit)
  {
    forall bit: bv64 | bit & 0x3A0_8DDF == 0 ensures !Bit(word, bit) {
      OutsideIsOff(word, bit);
    }
  }

  lemma OutsideIsOff(word: bv64, bit: bv64)
    requires word & !0x3A0_8DDF == 0 && bit & 0x3A0_8DDF == 0
    ensures word & bit == 0
  {
  }

  // ------------------------------------------------------------------ the groups

  const PROPAGATION: map<string, bv64> := map[
    "private" := 0x4_0000, "slave" := 0x8_0000, "shared" := 0x10_0000, "unbindable" := 0x2_0000,
    "rprivate" := 0x4_4000, "rslave" := 0x8_4000, "rshared" := 0x10_4000, "runbindable" := 0x2_4000]

  const VFS_OPTIONS := {
    "ro", "rw", "nosuid", "suid", "nodev", "dev", "noexec", "exec", "noatime", "atime", "nodiratime", "diratime",
    "relatime", "norelatime", "strictatime", "nostrictatime", "nosymfollow", "symfollow", "sync", "async", "dirsync",
    "mand", "nomand", "silent", "loud", "lazytime", "nolazytime", "iversion", "noiversion"}

  lemma PropagationTable(o: string)
    ensures Propagation(o) == if o in PROPAGATION then Some(PROPAGATION[o]) else None
  {
  }

  lemma VfsTable(o: string)
    ensures VfsChange(o).Some? <==> o in VFS_OPTIONS
  {
  }

  /** Who gets an option, by its name alone. */
  predicate Goes(o: string, isBind: bool, g: Group) {
    match g
    case ForPropagation => o in PROPAGATION
    case ForRemount => isBind && o in VFS_OPTIONS
    case ForContainerd => o !in PROPAGATION && !(isBind && o in VFS_OPTIONS)
  }

  lemma GoesToGroup(o: string, isBind: bool, g: Group)
    ensures GroupOf(o, isBind) == g <==> Goes(o, isBind, g)
  {
    PropagationTable(o);
    VfsTable(o);
    if o in PROPAGATION {
      NoPropagationOptionIsVfs(o);
    }
    hide Propagation, VfsChange;
  }

  /** Each group has the options that go to it, each as often as it is given. */
  lemma {:induction false} GroupHas(options: seq<string>, isBind: bool, g: Group, o: string)
    ensures multiset(Select(options, isBind, g))[o] == if Goes(o, isBind, g) then multiset(options)[o] else 0
    decreases |options|
  {
    hide Goes, GroupOf, Select;
    if options == [] {
      NothingSelected(isBind, g);
    } else {
      var first, rest := options[0], options[1..];
      GroupHas(rest, isBind, g, o);
      GoesToGroup(o, isBind, g);
      SelectFirst(options, isBind, g);
      assert options == [first] + rest;
      OneMoreOption(first, rest, o);
      OneMoreOption(first, Select(rest, isBind, g), o);
    }
  }

  lemma NothingSelected(isBind: bool, g: Group)
    ensures Select([], isBind, g) == []
  {
  }

  lemma OneMoreOption(first: string, rest: seq<string>, o: string)
    ensures multiset([first] + rest)[o] == multiset(rest)[o] + if o == first then 1 else 0
  {
  }

  /** The propagation flags are those of the propagation options, in their order. */
  lemma {:induction false} PropagationOf(options: seq<string>, isBind: bool)
    ensures var picked := Select(options, isBind, ForPropagation);
            && |PropagationFlags(options)| == |picked|
            && forall k :: 0 <= k < |picked| ==>
                 picked[k] in PROPAGATION && PropagationFlags(options)[k] == PROPAGATION[picked[k]]
    decreases |options|
  {
    if options != [] {
      PropagationOf(options[1..], isBind);
      PropagationTable(options[0]);
      SelectFirst(options, isBind, ForPropagation);
      PropagationFirst(options);
      GoesToGroup(options[0], isBind, ForPropagation);
      hide Select, PropagationFlags, Propagation, GroupOf, VfsChange;
    }
  }
}
