/** The message for nsenter written out: its attributes, its bytes, the bits of the flag word and the texts of the
    paths. */
module NsenterLayout {
  import opened GoStrings
  import opened Padding
  import opened Netlink
  import opened Nsenter
  import opened NsenterProperties

  // ------------------------------------------------------------------ attributes as bytes

  function Byte16(s: string, at: nat): nat
    requires at + 2 <= |s|
  {
    s[at] as nat + 0x100 * s[at + 1] as nat
  }

  function Byte32(s: string): nat
    requires |s| == 4
  {
    s[0] as nat + 0x100 * s[1] as nat + 0x1_0000 * s[2] as nat + 0x100_0000 * s[3] as nat
  }

  /** An attribute as it goes over the wire: the length of header and payload, the type, the payload, and zeros up to
      a multiple of four. */
  ghost predicate IsAttribute(s: string, ty: nat, payload: string) {
    var end := 4 + |payload|;
    && end <= |s| < end + 4 && |s| % 4 == 0
    && Byte16(s, 0) == end && Byte16(s, 2) == ty && s[4..end] == payload
    && forall i :: end <= i < |s| ==> s[i] == '\0'
  }

  lemma AttributeLayout(a: Attr)
    requires Fits(a)
    ensures IsAttribute(Bytes(a), a.ty, a.payload)
  {
    var len, ty, zeros := LE16(Len(a)), LE16(a.ty), Zeros(Align4(Len(a)) - Len(a));
    assert len[0] as nat + 0x100 * len[1] as nat == Len(a);
    assert ty[0] as nat + 0x100 * ty[1] as nat == a.ty;
    hide LE16;
    var s := Bytes(a);
    assert s == len + ty + a.payload + zeros;
    assert s[0] == len[0] && s[1] == len[1] && s[2] == ty[0] && s[3] == ty[1];
    assert s[4..4 + |a.payload|] == a.payload;
    forall i | 4 + |a.payload| <= i < |s| ensures s[i] == '\0' {
      assert s[i] == zeros[i - 4 - |a.payload|];
    }
  }

  lemma PayloadOfWord(ty: uint16, value: uint32)
    ensures |Int32Msg(ty, value).payload| == 4 && Byte32(Int32Msg(ty, value).payload) == value
  {
    var s, lo, hi := LE32(value), LE16(value % 0x1_0000), LE16(value / 0x1_0000);
    assert lo[0] as nat + 0x100 * lo[1] as nat == value % 0x1_0000;
    assert hi[0] as nat + 0x100 * hi[1] as nat == value / 0x1_0000;
    assert s[0] == lo[0] && s[1] == lo[1] && s[2] == hi[0] && s[3] == hi[1];
  }

  // ------------------------------------------------------------------ flags

  /** The value of a clone flag if a namespace of the type is to be created. */
  function FlagIf(spec: seq<Namespace>, t: NsType, flag: nat): nat {
    if Namespace(t, "") in spec then flag else 0
  }

  /** The clone flags of the spec: CLONE_NEWIPC, CLONE_NEWUTS, CLONE_NEWNET, CLONE_NEWPID, CLONE_NEWNS,
      CLONE_NEWCGROUP and CLONE_NEWTIME. */
  function CloneFlags(spec: seq<Namespace>): nat {
    FlagIf(spec, Ipc, 0x0800_0000) + FlagIf(spec, Uts, 0x0400_0000) + FlagIf(spec, Network, 0x4000_0000)
    + FlagIf(spec, Pid, 0x2000_0000) + FlagIf(spec, Mount, 0x0002_0000) + FlagIf(spec, Cgroup, 0x0200_0000)
    + FlagIf(spec, Time, 0x80)
  }

  lemma CreatesListed(spec: seq<Namespace>, t: NsType)
    ensures Creates(spec, t) <==> Namespace(t, "") in spec
  {
  }

  lemma WordIsCloneFlags(spec: seq<Namespace>)
    ensures Word(spec) == CloneFlags(spec)
  {
    forall t ensures Creates(spec, t) <==> Namespace(t, "") in spec {
      CreatesListed(spec, t);
    }
    hide Creates;
  }

  // ------------------------------------------------------------------ paths

  /** The path of the last namespace of the type that is to be joined. */
  ghost predicate LastJoined(spec: seq<Namespace>, t: NsType, path: string) {
    path != "" && exists i :: 0 <= i < |spec| && IsLast(spec, t, path, i)
  }

  ghost predicate IsLast(spec: seq<Namespace>, t: NsType, path: string, i: nat)
    requires i < |spec|
  {
    spec[i] == Namespace(t, path) && forall j :: i < j < |spec| && spec[j].ty == t ==> spec[j].path == ""
  }

  lemma {:induction false} JoinedIsLast(spec: seq<Namespace>, t: NsType, path: string)
    ensures LastJoined(spec, t, path) <==> path != "" && JoinedPath(spec, t) == path
    decreases |spec|
  {
    if spec != [] {
      var n := |spec| - 1;
      var front, last := spec[..n], spec[n];
      if last.ty == t && last.path != "" {
        assert IsLast(spec, t, last.path, n);
      } else {
        JoinedIsLast(front, t, path);
        LastStays(spec, t, path);
      }
    }
  }

  lemma LastStays(spec: seq<Namespace>, t: NsType, path: string)
    requires spec != [] && (spec[|spec| - 1].ty != t || spec[|spec| - 1].path == "")
    ensures LastJoined(spec, t, path) <==> LastJoined(spec[..|spec| - 1], t, path)
  {
    var n := |spec| - 1;
    forall i: nat | i < n ensures IsLast(spec, t, path, i) <==> IsLast(spec[..n], t, path, i) {
    }
    assert path != "" ==> !IsLast(spec, t, path, n);
    hide IsLast;
  }

  lemma {:induction false} InEntries(spec: seq<Namespace>, i: nat, e: string)
    requires i <= PLACES
    ensures e in Entries(spec, i) <==> e != "" && exists k: nat :: i <= k < PLACES && Entry(spec, k) == e
    decreases PLACES - i
  {
    hide Entry, Entries;
    if i < PLACES {
      InEntries(spec, i + 1, e);
      EntriesStep(spec, i);
    } else {
      NoMoreEntries(spec);
    }
  }

  lemma PathIsEntry(spec: seq<Namespace>, t: NsType, path: string)
    requires !t.Unsupported?
    ensures Tag(t) + path in Entries(spec, 0) <==> LastJoined(spec, t, path)
  {
    InEntries(spec, 0, Tag(t) + path);
    JoinedIsLast(spec, t, path);
    hide Entries, JoinedPath, LastJoined, Tag, Kind;
    PathAfterTag(t, path);
    if Tag(t) + path in Entries(spec, 0) {
      var k: nat :| k < PLACES && Entry(spec, k) == Tag(t) + path;
      KindIndex(k);
      PathAfterTag(Kind(k), JoinedPath(spec, Kind(k)));
      assert HasPrefix(Tag(t) + path, Tag(t)) by {
        TagsApart(t, t, path);
      }
      TagsApart(t, Kind(k), JoinedPath(spec, Kind(k)));
    }
    if LastJoined(spec, t, path) {
      TagsApart(t, t, path);
      assert Entry(spec, IndexOf(t)) == Tag(t) + path;
      TagNotEmpty(t);
    }
  }

  lemma TagNotEmpty(t: NsType)
    ensures Tag(t) != ""
  {
  }

  /** The entries with the prefix are those of the last namespace of the type that is to be joined. */
  ghost predicate Names(entries: seq<string>, prefix: string, spec: seq<Namespace>, t: NsType) {
    forall path :: prefix + path in entries <==> LastJoined(spec, t, path)
  }

  ghost predicate InOrder(entries: seq<string>) {
    forall j, k :: 0 <= j < k < |entries| ==> 0 < Rank(entries[j]) < Rank(entries[k])
  }

  /** The texts of the paths: one for each type that has a namespace to join, in the order of nsenter. */
  ghost predicate NamesPaths(entries: seq<string>, spec: seq<Namespace>) {
    && Names(entries, "ipc:", spec, Ipc) && Names(entries, "uts:", spec, Uts)
    && Names(entries, "net:", spec, Network) && Names(entries, "pid:", spec, Pid)
    && Names(entries, "mnt:", spec, Mount) && Names(entries, "cgroup:", spec, Cgroup)
    && Names(entries, "time:", spec, Time)
    && InOrder(entries) && (entries == [""] || forall e :: e in entries ==> Rank(e) > 0)
  }

  lemma EntryNames(entries: seq<string>, spec: seq<Namespace>, t: NsType)
    requires entries == if Entries(spec, 0) == [] then [""] else Entries(spec, 0)
    requires !t.Unsupported?
    ensures Names(entries, Tag(t), spec, t)
  {
    hide Entries, LastJoined, Tag;
    forall path ensures Tag(t) + path in entries <==> LastJoined(spec, t, path) {
      PathIsEntry(spec, t, path);
      TagNotEmpty(t);
    }
  }

  lemma EntriesNamePaths(entries: seq<string>, spec: seq<Namespace>)
    requires entries == if Entries(spec, 0) == [] then [""] else Entries(spec, 0)
    ensures NamesPaths(entries, spec)
  {
    hide Entries, Names, Rank;
    EntryNames(entries, spec, Ipc);
    EntryNames(entries, spec, Uts);
    EntryNames(entries, spec, Network);
    EntryNames(entries, spec, Pid);
    EntryNames(entries, spec, Mount);
    EntryNames(entries, spec, Cgroup);
    EntryNames(entries, spec, Time);
    RanksFrom(spec, 0);
    forall j | 0 <= j < |Entries(spec, 0)| ensures Rank(Entries(spec, 0)[j]) > 0 {
      EntriesRanked(spec, j);
    }
  }

  // ------------------------------------------------------------------ the message

  /** The attribute of the flags: its word has the flags of all namespaces to create. */
  ghost predicate IsFlags(s: string, spec: seq<Namespace>) {
    exists word :: |word| == 4 && Byte32(word) == CloneFlags(spec) && IsAttribute(s, 27281, word)
  }

  /** The attribute of the paths: their texts separated by commas, and a final NUL. */
  ghost predicate IsPaths(s: string, spec: seq<Namespace>) {
    exists text :: NamesPaths(Split(text, ','), spec) && IsAttribute(s, 27282, text + "\0")
  }

  ghost predicate IsMessage(msg: string, spec: seq<Namespace>) {
    exists flags, paths ::
      && msg == flags + paths
      && (if exists ns :: ns in spec && ns.path == "" then IsFlags(flags, spec) else flags == "")
      && (if exists ns :: ns in spec && ns.path != "" then IsPaths(paths, spec) else paths == "")
  }

  lemma FlagsWrittenOut(spec: seq<Namespace>)
    ensures var a := Int32Msg(27281, Word(spec));
            Fits(a) && IsFlags(Bytes(a), spec)
  {
    var a := Int32Msg(27281, Word(spec));
    PayloadOfWord(27281, Word(spec));
    WordIsCloneFlags(spec);
    hide Bytes, Int32Msg, Word, CloneFlags, Byte32, IsAttribute;
    AttributeLayout(a);
    IsTyped(27281, Word(spec));
  }

  lemma IsTyped(ty: uint16, value: uint32)
    ensures Int32Msg(ty, value).ty == ty
  {
  }

  lemma PathsWrittenOut(existing: set<string>, spec: seq<Namespace>)
    requires PathsValid(existing, spec) && Fits(ByteMsg(27282, Join(Entries(spec, 0), ',')))
    ensures IsPaths(Bytes(ByteMsg(27282, Join(Entries(spec, 0), ','))), spec)
  {
    var text := Join(Entries(spec, 0), ',');
    hide Bytes, IsAttribute, Entries, Split, NamesPaths, PathsValid;
    AttributeLayout(ByteMsg(27282, text));
    EntriesFree(existing, spec, 0);
    if Entries(spec, 0) == [] {
      SplitFree("", ',');
    } else {
      SplitJoin(Entries(spec, 0), ',');
    }
    EntriesNamePaths(Split(text, ','), spec);
  }

  lemma Writes(spec: seq<Namespace>)
    ensures WritesFlags(spec) <==> exists ns :: ns in spec && ns.path == ""
    ensures WritesPaths(spec) <==> exists ns :: ns in spec && ns.path != ""
  {
    assert forall i | 0 <= i < |spec| :: spec[i] in spec;
  }

  /** The message of a spec, byte by byte: after the header of the request, an attribute 27281 with the flags if a
      namespace is to be created, and an attribute 27282 with the paths if one is to be joined. */
  lemma MessageWrittenOut(existing: set<string>, spec: seq<Namespace>)
    requires Buildable(existing, spec)
    ensures IsMessage(BytesOf(Attrs(spec)), spec)
  {
    AttrBytes(FlagAttrs(spec), PathAttrs(spec));
    Writes(spec);
    FlagsWrittenOut(spec);
    hide IsFlags, IsPaths, Word, Entries, Join, Bytes, Fits, BytesOf, WritesFlags, WritesPaths, PathsValid, Int32Msg,
         ByteMsg;
    if WritesPaths(spec) {
      PathsWrittenOut(existing, spec);
    }
    var flags := if WritesFlags(spec) then Bytes(FlagAttrs(spec)[0]) else "";
    var paths := if WritesPaths(spec) then Bytes(PathAttrs(spec)[0]) else "";
    assert BytesOf(Attrs(spec)) == flags + paths;
  }

  /** The bits of the flag word, for nsenter to test one by one. */
  lemma CloneFlagBits(spec: seq<Namespace>)
    ensures var word := CloneFlags(spec);
            && (word / 0x0800_0000 % 2 == 1 <==> Namespace(Ipc, "") in spec)
            && (word / 0x0400_0000 % 2 == 1 <==> Namespace(Uts, "") in spec)
            && (word / 0x4000_0000 % 2 == 1 <==> Namespace(Network, "") in spec)
            && (word / 0x2000_0000 % 2 == 1 <==> Namespace(Pid, "") in spec)
            && (word / 0x0002_0000 % 2 == 1 <==> Namespace(Mount, "") in spec)
            && (word / 0x0200_0000 % 2 == 1 <==> Namespace(Cgroup, "") in spec)
            && (word / 0x80 % 2 == 1 <==> Namespace(Time, "") in spec)
  {
    FlagsOfWord(If(Namespace(Ipc, "") in spec), If(Namespace(Uts, "") in spec), If(Namespace(Network, "") in spec),
                If(Namespace(Pid, "") in spec), If(Namespace(Mount, "") in spec), If(Namespace(Cgroup, "") in spec),
                If(Namespace(Time, "") in spec));
    FlagSum(spec);
    hide CloneFlags;
  }

  lemma FlagSum(spec: seq<Namespace>)
    ensures CloneFlags(spec) ==
            0x0800_0000 * If(Namespace(Ipc, "") in spec) + 0x0400_0000 * If(Namespace(Uts, "") in spec)
            + 0x4000_0000 * If(Namespace(Network, "") in spec) + 0x2000_0000 * If(Namespace(Pid, "") in spec)
            + 0x0002_0000 * If(Namespace(Mount, "") in spec) + 0x0200_0000 * If(Namespace(Cgroup, "") in spec)
            + 0x80 * If(Namespace(Time, "") in spec)
  {
  }

  // ------------------------------------------------------------------ the verdict on a namespace

  /** Exec looks at the first namespace of the type, and at nothing else. */
  lemma {:induction false} FirstIsLookedAt(existing: set<string>, spec: seq<Namespace>, t: NsType)
    ensures FirstOf(existing, spec, t).Missing? <==> forall k :: 0 <= k < |spec| ==> spec[k].ty != t
    ensures forall k :: 0 <= k < |spec| && spec[k].ty == t && (forall j :: 0 <= j < k ==> spec[j].ty != t) ==>
              FirstOf(existing, spec, t) == if spec[k].path !in existing then NotExisting
                                            else if ',' in spec[k].path then InvalidPath
                                            else Found.Found(spec[k].path)
  {
    if spec != [] && spec[0].ty != t {
      var rest := spec[1..];
      FirstIsLookedAt(existing, rest, t);
      assert forall k | 0 <= k < |rest| :: spec[k + 1] == rest[k];
      forall k | 0 <= k < |spec| && spec[k].ty == t && (forall j :: 0 <= j < k ==> spec[j].ty != t)
        ensures k > 0 && rest[k - 1] == spec[k] && forall j :: 0 <= j < k - 1 ==> rest[j].ty != t {
        assert forall j | 0 <= j < k - 1 :: rest[j] == spec[j + 1];
      }
      hide FirstOf;
    }
  }

  /** When Exec pivots: exactly if the spec has a mount namespace, and the path of the first one does not exist or can
      be written into a message. */
  lemma PivotsExactly(existing: set<string>, spec: seq<Namespace>)
    ensures Pivots(existing, spec) <==>
              exists k :: 0 <= k < |spec| && spec[k].ty == Mount && (forall j :: 0 <= j < k ==> spec[j].ty != Mount)
                          && (spec[k].path !in existing || ',' !in spec[k].path)
  {
    FirstIsLookedAt(existing, spec, Mount);
    hide FirstOf;
    if exists k :: 0 <= k < |spec| && spec[k].ty == Mount {
      FirstExists(spec, Mount);
    }
  }

  lemma {:induction false} FirstExists(spec: seq<Namespace>, t: NsType)
    requires exists k :: 0 <= k < |spec| && spec[k].ty == t
    ensures exists k :: 0 <= k < |spec| && spec[k].ty == t && forall j :: 0 <= j < k ==> spec[j].ty != t
  {
    var front, last := spec[..|spec| - 1], |spec| - 1;
    if i :| 0 <= i < last && spec[i].ty == t {
      assert front[i].ty == t;
      FirstExists(front, t);
      var k :| 0 <= k < |front| && front[k].ty == t && forall j :: 0 <= j < k ==> front[j].ty != t;
      assert spec[k].ty == t && forall j | 0 <= j < k :: spec[j] == front[j];
    }
  }
}
