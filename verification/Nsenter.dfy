/** The namespace message that create sends to nsenter, and the choice between pivot and chroot at exec. */
module Nsenter {
  import opened GoStrings
  import opened Netlink

  datatype NsType = Ipc | Uts | Network | Pid | Mount | Cgroup | Time | Unsupported(name: string)

  datatype Namespace = Namespace(ty: NsType, path: string)

  const CLONE_FLAGS_ATTR: uint16 := 27281
  const NS_PATHS_ATTR: uint16 := 27282

  /** The order in which nsenter expects the paths; place 0 is kept for the user namespace. */
  const PLACES := 8

  function Kind(i: nat): NsType
    requires i < PLACES
  {
    [Unsupported("user"), Ipc, Uts, Network, Pid, Mount, Cgroup, Time][i]
  }

  function IndexOf(t: NsType): (i: nat)
    requires !t.Unsupported?
    ensures 0 < i < PLACES && Kind(i) == t
  {
    match t
    case Ipc => 1 case Uts => 2 case Network => 3 case Pid => 4 case Mount => 5 case Cgroup => 6 case Time => 7
  }

  function Tag(t: NsType): string {
    match t
    case Ipc => "ipc:" case Uts => "uts:" case Network => "net:" case Pid => "pid:"
    case Mount => "mnt:" case Cgroup => "cgroup:" case Time => "time:"
    case Unsupported(_) => "?:"
  }

  /** CLONE_NEWIPC and the others. */
  function Flag(t: NsType): uint32 {
    match t
    case Ipc => 0x0800_0000 case Uts => 0x0400_0000 case Network => 0x4000_0000 case Pid => 0x2000_0000
    case Mount => 0x0002_0000 case Cgroup => 0x0200_0000 case Time => 0x80
    case Unsupported(_) => 0
  }

  predicate HasFlag(word: nat, t: NsType) {
    Flag(t) != 0 && word / Flag(t) % 2 == 1
  }

  /** `word |= Flag(t)` */
  function SetFlag(word: nat, t: NsType): nat {
    if Flag(t) == 0 || HasFlag(word, t) then word else word + Flag(t)
  }

  // ------------------------------------------------------------------ what the message says

  predicate Creates(spec: seq<Namespace>, t: NsType) {
    exists i :: 0 <= i < |spec| && spec[i] == Namespace(t, "")
  }

  /** The path that the message names for a type: that of the last namespace to join. */
  function JoinedPath(spec: seq<Namespace>, t: NsType): string {
    if spec == [] then ""
    else
      var last := spec[|spec| - 1];
      if last.ty == t && last.path != "" then last.path else JoinedPath(spec[..|spec| - 1], t)
  }

  function Bit(spec: seq<Namespace>, t: NsType): uint32 {
    if Creates(spec, t) then Flag(t) else 0
  }

  function Word(spec: seq<Namespace>): uint32 {
    Bit(spec, Ipc) + Bit(spec, Uts) + Bit(spec, Network) + Bit(spec, Pid) + Bit(spec, Mount) + Bit(spec, Cgroup)
    + Bit(spec, Time)
  }

  function Entry(spec: seq<Namespace>, i: nat): string
    requires i < PLACES
  {
    if i == 0 || JoinedPath(spec, Kind(i)) == "" then "" else Tag(Kind(i)) + JoinedPath(spec, Kind(i))
  }

  /** The entries that are there, from place `i` on, in the order of the places. */
  function Entries(spec: seq<Namespace>, i: nat): seq<string>
    requires i <= PLACES
    decreases PLACES - i
  {
    if i == PLACES then []
    else if Entry(spec, i) == "" then Entries(spec, i + 1)
    else [Entry(spec, i)] + Entries(spec, i + 1)
  }

  /** `checkValidNsPath`; `existing` are the paths that lstat finds. */
  predicate ValidPath(existing: set<string>, path: string) {
    path in existing && ',' !in path
  }

  ghost predicate PathsValid(existing: set<string>, spec: seq<Namespace>) {
    forall i :: 0 <= i < |spec| && !spec[i].ty.Unsupported? && spec[i].path != "" ==> ValidPath(existing, spec[i].path)
  }

  predicate WritesFlags(spec: seq<Namespace>) {
    exists i :: 0 <= i < |spec| && spec[i].path == ""
  }

  predicate WritesPaths(spec: seq<Namespace>) {
    exists i :: 0 <= i < |spec| && spec[i].path != ""
  }

  function FlagAttrs(spec: seq<Namespace>): seq<Attr> {
    if WritesFlags(spec) then [Int32Msg(CLONE_FLAGS_ATTR, Word(spec))] else []
  }

  function PathAttrs(spec: seq<Namespace>): seq<Attr> {
    if WritesPaths(spec) then [ByteMsg(NS_PATHS_ATTR, Join(Entries(spec, 0), ','))] else []
  }

  function Attrs(spec: seq<Namespace>): seq<Attr> {
    FlagAttrs(spec) + PathAttrs(spec)
  }

  /** A message can be built: all paths are valid, and they fit one attribute. */
  ghost predicate Buildable(existing: set<string>, spec: seq<Namespace>) {
    PathsValid(existing, spec) && AllFit(Attrs(spec))
  }

  // ------------------------------------------------------------------ flags

  function If(b: bool): nat {
    if b then 1 else 0
  }

  lemma Quotient(low: nat, q: nat, f: nat)
    requires low < f
    requires f == 0x80 || f == 0x0002_0000 || f == 0x0200_0000 || f == 0x0400_0000 || f == 0x0800_0000
             || f == 0x2000_0000 || f == 0x4000_0000
    ensures (low + f * q) / f == q
  {
    if f == 0x80 {
    } else if f == 0x0002_0000 {
    } else if f == 0x0200_0000 {
    } else if f == 0x0400_0000 {
    } else if f == 0x0800_0000 {
    } else if f == 0x2000_0000 {
    } else {
    }
  }

  lemma Parity(bit: nat, rest: nat)
    requires bit <= 1
    ensures (bit + 2 * rest) % 2 == bit
  {
  }

  lemma BitAt(w: nat, low: nat, bit: nat, rest: nat, f: nat)
    requires low < f && bit <= 1 && w == low + f * (bit + 2 * rest)
    requires f == 0x80 || f == 0x0002_0000 || f == 0x0200_0000 || f == 0x0400_0000 || f == 0x0800_0000
             || f == 0x2000_0000 || f == 0x4000_0000
    ensures w / f % 2 == bit
  {
    Quotient(low, bit + 2 * rest, f);
    Parity(bit, rest);
  }

  lemma FlagsOfWord(ipc: nat, uts: nat, net: nat, pid: nat, mnt: nat, cgroup: nat, time: nat)
    requires ipc <= 1 && uts <= 1 && net <= 1 && pid <= 1 && mnt <= 1 && cgroup <= 1 && time <= 1
    ensures var w := 0x0800_0000 * ipc + 0x0400_0000 * uts + 0x4000_0000 * net + 0x2000_0000 * pid + 0x0002_0000 * mnt
                     + 0x0200_0000 * cgroup + 0x80 * time;
            && w / 0x0800_0000 % 2 == ipc && w / 0x0400_0000 % 2 == uts && w / 0x4000_0000 % 2 == net
            && w / 0x2000_0000 % 2 == pid && w / 0x0002_0000 % 2 == mnt && w / 0x0200_0000 % 2 == cgroup
            && w / 0x80 % 2 == time
  {
    var w := 0x0800_0000 * ipc + 0x0400_0000 * uts + 0x4000_0000 * net + 0x2000_0000 * pid + 0x0002_0000 * mnt
             + 0x0200_0000 * cgroup + 0x80 * time;
    var l1 := 0x80 * time;
    var l2 := l1 + 0x0002_0000 * mnt;
    var l3 := l2 + 0x0200_0000 * cgroup;
    var l4 := l3 + 0x0400_0000 * uts;
    var l5 := l4 + 0x0800_0000 * ipc;
    var l6 := l5 + 0x2000_0000 * pid;
    BitAt(w, l6, net, 0, 0x4000_0000);
    BitAt(w, l5, pid, net, 0x2000_0000);
    BitAt(w, l4, ipc, 2 * pid + 4 * net, 0x0800_0000);
    BitAt(w, l3, uts, ipc + 4 * pid + 8 * net, 0x0400_0000);
    BitAt(w, l2, cgroup, uts + 2 * ipc + 8 * pid + 16 * net, 0x0200_0000);
    BitAt(w, l1, mnt, 0x80 * cgroup + 0x100 * uts + 0x200 * ipc + 0x800 * pid + 0x1000 * net, 0x0002_0000);
    BitAt(w, 0, time, 0x200 * mnt + 0x2_0000 * cgroup + 0x4_0000 * uts + 0x8_0000 * ipc + 0x20_0000 * pid
                      + 0x40_0000 * net, 0x80);
  }

  lemma WordDigits(spec: seq<Namespace>)
    ensures Word(spec) == 0x0800_0000 * If(Creates(spec, Ipc)) + 0x0400_0000 * If(Creates(spec, Uts))
                          + 0x4000_0000 * If(Creates(spec, Network)) + 0x2000_0000 * If(Creates(spec, Pid))
                          + 0x0002_0000 * If(Creates(spec, Mount)) + 0x0200_0000 * If(Creates(spec, Cgroup))
                          + 0x80 * If(Creates(spec, Time))
  {
    hide Creates;
  }

  /** A flag of the word is set exactly if a namespace of that type is to be created. */
  lemma WordFlags(spec: seq<Namespace>, t: NsType)
    requires !t.Unsupported?
    ensures HasFlag(Word(spec), t) <==> Creates(spec, t)
  {
    WordDigits(spec);
    hide Creates, Word;
    FlagsOfWord(If(Creates(spec, Ipc)), If(Creates(spec, Uts)), If(Creates(spec, Network)), If(Creates(spec, Pid)),
                If(Creates(spec, Mount)), If(Creates(spec, Cgroup)), If(Creates(spec, Time)));
  }

  lemma CreatesSnoc(spec: seq<Namespace>, ns: Namespace, t: NsType)
    ensures Creates(spec + [ns], t) <==> Creates(spec, t) || ns == Namespace(t, "")
  {
    var all := spec + [ns];
    if Creates(spec, t) {
      var i :| 0 <= i < |spec| && spec[i] == Namespace(t, "");
      assert all[i] == spec[i];
    }
    if ns == Namespace(t, "") {
      assert all[|spec|] == ns;
    }
  }

  lemma BitSnoc(spec: seq<Namespace>, ns: Namespace, t: NsType)
    ensures Bit(spec + [ns], t) == if ns == Namespace(t, "") then Flag(t) else Bit(spec, t)
  {
    CreatesSnoc(spec, ns, t);
    hide Creates, Flag;
  }

  lemma WordSnoc(spec: seq<Namespace>, ns: Namespace)
    ensures Word(spec + [ns]) == if ns.path == "" then SetFlag(Word(spec), ns.ty) else Word(spec)
  {
    BitSnoc(spec, ns, Ipc);
    BitSnoc(spec, ns, Uts);
    BitSnoc(spec, ns, Network);
    BitSnoc(spec, ns, Pid);
    BitSnoc(spec, ns, Mount);
    BitSnoc(spec, ns, Cgroup);
    BitSnoc(spec, ns, Time);
    if !ns.ty.Unsupported? {
      WordFlags(spec, ns.ty);
      assert Bit(spec, ns.ty) == if HasFlag(Word(spec), ns.ty) then Flag(ns.ty) else 0;
      hide Creates, HasFlag, Bit;
      assert Flag(ns.ty) != 0;
    } else {
      hide Creates, HasFlag, Bit;
    }
  }

  // ------------------------------------------------------------------ implementation

  /** `FormatNsenterInfo`, up to the header that the netlink library adds. */
  method FormatNsenterInfo(existing: set<string>, spec: seq<Namespace>) returns (r: Option<string>)
    ensures r.Some? <==> Buildable(existing, spec)
    ensures r.Some? ==> r.value == BytesOf(Attrs(spec))
  {
    hide Word, SetFlag, Creates, Bytes, BytesOf, Entry, Entries, Tag, Kind, Fits, Join, PathsValid, WritesFlags,
         WritesPaths;
    var writePaths, writeFlags := false, false;
    var cloneFlags := 0;
    var nsPaths := new string[PLACES](_ => "");
    NothingYet();
    assert spec[..0] == [];
    for k := 0 to |spec|
      invariant fresh(nsPaths) && nsPaths.Length == PLACES
      invariant PathsValid(existing, spec[..k])
      invariant cloneFlags == Word(spec[..k])
      invariant forall i :: 0 <= i < PLACES ==> nsPaths[i] == Entry(spec[..k], i)
      invariant writeFlags == WritesFlags(spec[..k]) && writePaths == WritesPaths(spec[..k])
    {
      var ns := spec[k];
      assert spec[..k + 1] == spec[..k] + [ns];
      WordSnoc(spec[..k], ns);
      EntrySnoc(spec[..k], ns);
      PathsSnoc(existing, spec[..k], ns);
      if !ns.ty.Unsupported? {
        if ns.path == "" {
          cloneFlags := SetFlag(cloneFlags, ns.ty);
        } else {
          if ns.path !in existing || ',' in ns.path {
            NotBuildable(existing, spec, k);
            return None;
          }
          nsPaths[IndexOf(ns.ty)] := Tag(ns.ty) + ns.path;
        }
      } else {
        SetNoFlag(cloneFlags, ns.ty);
      }
      if ns.path == "" {
        writeFlags := true;
      } else {
        writePaths := true;
      }
    }
    assert spec[..|spec|] == spec;
    AttrBytes(FlagAttrs(spec), PathAttrs(spec));
    var msg := "";
    if writeFlags {
      var buf := SerializeInt32(CLONE_FLAGS_ATTR, cloneFlags);
      msg := msg + buf[..];
    }
    if writePaths {
      var nsBuf := JoinPaths(nsPaths, spec);
      var ok, buf := SerializeBytes(NS_PATHS_ATTR, nsBuf);
      if !ok {
        return None;
      }
      msg := msg + buf[..];
    }
    return Some(msg);
  }

  lemma NothingYet()
    ensures Word([]) == 0 && (forall i :: 0 <= i < PLACES ==> Entry([], i) == "")
    ensures !WritesFlags([]) && !WritesPaths([]) && forall existing :: PathsValid(existing, [])
  {
  }

  lemma PathsSnoc(existing: set<string>, spec: seq<Namespace>, ns: Namespace)
    ensures PathsValid(existing, spec + [ns]) <==>
              PathsValid(existing, spec) && (ns.ty.Unsupported? || ns.path == "" || ValidPath(existing, ns.path))
    ensures WritesFlags(spec + [ns]) <==> WritesFlags(spec) || ns.path == ""
    ensures WritesPaths(spec + [ns]) <==> WritesPaths(spec) || ns.path != ""
  {
    hide ValidPath;
    var all := spec + [ns];
    assert all[|spec|] == ns && forall i | 0 <= i < |spec| :: all[i] == spec[i];
  }

  lemma NotBuildable(existing: set<string>, spec: seq<Namespace>, k: nat)
    requires k < |spec| && !spec[k].ty.Unsupported? && spec[k].path != "" && !ValidPath(existing, spec[k].path)
    ensures !PathsValid(existing, spec)
  {
  }

  lemma SetNoFlag(word: nat, t: NsType)
    requires t.Unsupported?
    ensures SetFlag(word, t) == word
  {
  }

  lemma EntrySnoc(spec: seq<Namespace>, ns: Namespace)
    ensures forall i | 0 <= i < PLACES :: Entry(spec + [ns], i) ==
              if !ns.ty.Unsupported? && ns.path != "" && i == IndexOf(ns.ty) then Tag(ns.ty) + ns.path
              else Entry(spec, i)
  {
    assert (spec + [ns])[..|spec|] == spec;
  }

  /** At most one attribute of each kind. */
  lemma AttrBytes(a: seq<Attr>, b: seq<Attr>)
    requires |a| <= 1 && |b| <= 1
    ensures AllFit(a + b) <==> (a == [] || Fits(a[0])) && (b == [] || Fits(b[0]))
    ensures AllFit(a + b) ==>
              BytesOf(a + b) == (if a == [] then "" else Bytes(a[0])) + (if b == [] then "" else Bytes(b[0]))
  {
    hide Bytes, Fits;
    var c := a + b;
    assert forall i | 0 <= i < |b| :: c[|a| + i] == b[i];
    assert forall i | 0 <= i < |a| :: c[i] == a[i];
    if AllFit(c) {
      assert b != [] ==> b[1..] == [] && BytesOf(b) == Bytes(b[0]) + "";
      if a == [] {
        assert c == b;
      } else {
        assert c[0] == a[0] && c[1..] == b;
      }
    }
  }

  /** The loop over `nsPaths` that fills the buffer: the paths that are there, separated by commas. */
  method JoinPaths(nsPaths: array<string>, ghost spec: seq<Namespace>) returns (nsBuf: string)
    requires nsPaths.Length == PLACES && forall i :: 0 <= i < PLACES ==> nsPaths[i] == Entry(spec, i)
    ensures nsBuf == Join(Entries(spec, 0), ',')
  {
    hide Entry, Entries;
    nsBuf := "";
    ghost var entries: seq<string> := [];
    for i := 0 to PLACES
      invariant entries + Entries(spec, i) == Entries(spec, 0)
      invariant nsBuf == Join(entries, ',') && (nsBuf == "" <==> entries == [])
    {
      EntriesStep(spec, i);
      if nsPaths[i] != "" {
        if |entries| > 0 {
          JoinSnoc(entries, nsPaths[i], ',');
        }
        if |nsBuf| > 0 {
          nsBuf := nsBuf + ",";
        }
        nsBuf := nsBuf + nsPaths[i];
        assert entries + [nsPaths[i]] + Entries(spec, i + 1) == entries + Entries(spec, i);
        entries := entries + [nsPaths[i]];
      }
    }
    NoMoreEntries(spec);
    assert entries + [] == entries;
  }

  lemma EntriesStep(spec: seq<Namespace>, i: nat)
    requires i < PLACES
    ensures Entries(spec, i) == (if Entry(spec, i) == "" then [] else [Entry(spec, i)]) + Entries(spec, i + 1)
  {
    hide Entry;
    assert [] + Entries(spec, i + 1) == Entries(spec, i + 1);
  }

  lemma NoMoreEntries(spec: seq<Namespace>)
    ensures Entries(spec, PLACES) == []
  {
  }

  // ------------------------------------------------------------------ pivot or chroot

  datatype Found = Found(path: string) | NotExisting | InvalidPath | Missing

  /** `findNS`: only the first namespace of the type is looked at. */
  method FindNS(existing: set<string>, namespaces: seq<Namespace>, t: NsType) returns (r: Found)
    ensures r == FirstOf(existing, namespaces, t)
  {
    for k := 0 to |namespaces|
      invariant FirstOf(existing, namespaces, t) == FirstOf(existing, namespaces[k..], t)
    {
      var ns := namespaces[k];
      assert namespaces[k..][1..] == namespaces[k + 1..];
      if ns.ty == t {
        if ns.path !in existing {
          return NotExisting;
        }
        if ',' in ns.path {
          return InvalidPath;
        }
        return Found(ns.path);
      }
    }
    return Missing;
  }

  function FirstOf(existing: set<string>, namespaces: seq<Namespace>, t: NsType): Found {
    if namespaces == [] then Missing
    else if namespaces[0].ty != t then FirstOf(existing, namespaces[1..], t)
    else if namespaces[0].path !in existing then NotExisting
    else if ',' in namespaces[0].path then InvalidPath
    else Found(namespaces[0].path)
  }

  /** The choice that Exec makes before it changes root. */
  method ChoosePivot(existing: set<string>, namespaces: seq<Namespace>) returns (withPivot: bool)
    ensures withPivot == Pivots(existing, namespaces)
  {
    var r := FindNS(existing, namespaces, Mount);
    withPivot := r.Found? || r.NotExisting?;
  }

  predicate Pivots(existing: set<string>, namespaces: seq<Namespace>) {
    var r := FirstOf(existing, namespaces, Mount);
    r.Found? || r.NotExisting?
  }
}
