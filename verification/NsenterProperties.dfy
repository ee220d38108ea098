/** What nsenter reads from the message, and what Exec concludes about the mount namespace. */
module NsenterProperties {
  import opened GoStrings
  import opened Netlink
  import opened Nsenter

  // ------------------------------------------------------------------ the reading side

  /** The prefix under which nsenter looks for the path of a namespace. */
  function Prefix(t: NsType): string
    requires !t.Unsupported?
  {
    match t
    case Ipc => "ipc:" case Uts => "uts:" case Network => "net:" case Pid => "pid:" case Mount => "mnt:"
    case Cgroup => "cgroup:" case Time => "time:"
  }

  /** The flag of clone(2) that nsenter looks for. */
  function CloneFlag(t: NsType): nat
    requires !t.Unsupported?
    ensures CloneFlag(t) > 0
  {
    match t
    case Ipc => 0x0800_0000 case Uts => 0x0400_0000 case Network => 0x4000_0000 case Pid => 0x2000_0000
    case Mount => 0x0002_0000 case Cgroup => 0x0200_0000 case Time => 0x80
  }

  lemma TablesAgree(t: NsType)
    requires !t.Unsupported?
    ensures Tag(t) == Prefix(t) && Flag(t) == CloneFlag(t)
  {
  }

  /** The payload of the attribute of a type. */
  function Payload(attrs: seq<Attr>, ty: uint16): Option<string> {
    if attrs == [] then None
    else if attrs[0].ty == ty then Some(attrs[0].payload)
    else Payload(attrs[1..], ty)
  }

  predicate ReadsFlag(attrs: seq<Attr>, t: NsType)
    requires !t.Unsupported?
  {
    var flags := Payload(attrs, 27281);
    flags.Some? && FromLE(flags.value) / CloneFlag(t) % 2 == 1
  }

  /** The paths attribute without its final NUL, split at the commas. */
  function ReadEntries(attrs: seq<Attr>): seq<string> {
    match Payload(attrs, 27282)
    case None => []
    case Some(p) => if p == "" then [] else Split(p[..|p| - 1], ',')
  }

  function Find(entries: seq<string>, t: NsType): string
    requires !t.Unsupported?
  {
    if entries == [] then ""
    else if HasPrefix(entries[0], Prefix(t)) then entries[0][|Prefix(t)|..]
    else Find(entries[1..], t)
  }

  function ReadPath(attrs: seq<Attr>, t: NsType): string
    requires !t.Unsupported?
  {
    Find(ReadEntries(attrs), t)
  }

  // ------------------------------------------------------------------ reading back what was written

  lemma JoinedPathIsListed(spec: seq<Namespace>, t: NsType)
    ensures JoinedPath(spec, t) != "" ==> Namespace(t, JoinedPath(spec, t)) in spec
  {
  }

  lemma PathsAreReadable(existing: set<string>, spec: seq<Namespace>, t: NsType)
    requires PathsValid(existing, spec) && !t.Unsupported?
    ensures ',' !in JoinedPath(spec, t)
  {
    JoinedPathIsListed(spec, t);
  }

  lemma TagsApart(t: NsType, u: NsType, path: string)
    requires !t.Unsupported? && !u.Unsupported?
    ensures HasPrefix(Tag(u) + path, Tag(t)) <==> t == u
  {
    var s := Tag(u) + path;
    assert s[0] == Tag(u)[0];
    assert s[..|Tag(u)|] == Tag(u);
    if HasPrefix(s, Tag(t)) {
      assert s[..|Tag(t)|][0] == s[0];
    }
  }

  lemma KindIndex(i: nat)
    requires 0 < i < PLACES
    ensures !Kind(i).Unsupported? && IndexOf(Kind(i)) == i
  {
  }

  lemma {:induction false} EntriesFree(existing: set<string>, spec: seq<Namespace>, i: nat)
    requires PathsValid(existing, spec) && i <= PLACES
    ensures AllFree(Entries(spec, i), ',')
    decreases PLACES - i
  {
    if i < PLACES {
      hide PathsValid, Entries, Kind, JoinedPath;
      EntriesFree(existing, spec, i + 1);
      EntriesStep(spec, i);
      if i > 0 {
        KindIndex(i);
        PathsAreReadable(existing, spec, Kind(i));
        TagFree(Kind(i));
      }
    } else {
      NoMoreEntries(spec);
    }
  }

  lemma TagFree(t: NsType)
    ensures ',' !in Tag(t)
  {
  }

  lemma {:induction false} FindEntries(spec: seq<Namespace>, i: nat, t: NsType)
    requires i <= PLACES && !t.Unsupported?
    ensures Find(Entries(spec, i), t) == if i <= IndexOf(t) then JoinedPath(spec, t) else ""
    decreases PLACES - i
  {
    if i < PLACES {
      hide Entries, JoinedPath, Tag, HasPrefix;
      FindEntries(spec, i + 1, t);
      EntriesStep(spec, i);
      var rest := Entries(spec, i + 1);
      if i > 0 {
        KindIndex(i);
        hide Kind, IndexOf;
        TagsApart(t, Kind(i), JoinedPath(spec, Kind(i)));
      }
      if Entry(spec, i) != "" {
        FindFirst(Entry(spec, i), rest, t);
        PathAfterTag(t, JoinedPath(spec, t));
      } else {
        assert [] + rest == rest;
      }
    } else {
      NoMoreEntries(spec);
    }
  }

  lemma FindFirst(entry: string, rest: seq<string>, t: NsType)
    requires !t.Unsupported?
    ensures Find([entry] + rest, t) == if HasPrefix(entry, Tag(t)) then entry[|Tag(t)|..] else Find(rest, t)
  {
    TablesAgree(t);
    hide HasPrefix, Tag, Prefix, Flag, CloneFlag;
    assert ([entry] + rest)[1..] == rest;
  }

  lemma PathAfterTag(t: NsType, path: string)
    ensures (Tag(t) + path)[|Tag(t)|..] == path
  {
  }

  lemma PayloadsWritten(spec: seq<Namespace>)
    ensures Payload(Attrs(spec), CLONE_FLAGS_ATTR) == if WritesFlags(spec) then Some(LE32(Word(spec))) else None
    ensures Payload(Attrs(spec), NS_PATHS_ATTR) ==
              if WritesPaths(spec) then Some(Join(Entries(spec, 0), ',') + "\0") else None
  {
    hide WritesFlags, WritesPaths, Word, Entries, Join, LE32;
    var flags, paths := FlagAttrs(spec), PathAttrs(spec);
    if flags == [] {
      assert flags + paths == paths;
    } else {
      assert (flags + paths)[1..] == paths;
    }
    if paths != [] {
      assert paths[1..] == [];
    }
  }

  /** nsenter reads exactly the namespaces of the spec: for each type, whether to create one, and the path to join.
      So two specs that ask for different things never give the same message. */
  lemma MessageSaysTheSpec(existing: set<string>, spec: seq<Namespace>, t: NsType)
    requires Buildable(existing, spec) && !t.Unsupported?
    ensures Decode(BytesOf(Attrs(spec))) == Some(Attrs(spec))
    ensures ReadsFlag(Attrs(spec), t) <==> Creates(spec, t)
    ensures ReadPath(Attrs(spec), t) == JoinedPath(spec, t)
  {
    DecodeBytes(Attrs(spec));
    PayloadsWritten(spec);
    FlagsRead(spec, t);
    PathsRead(existing, spec, t);
  }

  lemma FlagsRead(spec: seq<Namespace>, t: NsType)
    requires !t.Unsupported?
    ensures ReadsFlag(Attrs(spec), t) <==> Creates(spec, t)
  {
    PayloadsWritten(spec);
    WordFlags(spec, t);
    FromLE32(Word(spec));
    TablesAgree(t);
    hide Attrs, Payload, Word, LE32, FromLE, Flag, CloneFlag, Tag, Prefix;
  }

  lemma EntriesRead(existing: set<string>, spec: seq<Namespace>)
    requires PathsValid(existing, spec)
    ensures ReadEntries(Attrs(spec)) ==
              if !WritesPaths(spec) then [] else if Entries(spec, 0) == [] then [""] else Entries(spec, 0)
  {
    PayloadsWritten(spec);
    EntriesFree(existing, spec, 0);
    hide Attrs, Payload, WritesPaths, Entries, Split, PathsValid, AllFree;
    var value := Join(Entries(spec, 0), ',');
    assert (value + "\0")[..|value + "\0"| - 1] == value;
    if Entries(spec, 0) != [] {
      SplitJoin(Entries(spec, 0), ',');
    } else {
      SplitFree("", ',');
    }
  }

  lemma PathsRead(existing: set<string>, spec: seq<Namespace>, t: NsType)
    requires PathsValid(existing, spec) && !t.Unsupported?
    ensures ReadPath(Attrs(spec), t) == JoinedPath(spec, t)
  {
    EntriesRead(existing, spec);
    FindEntries(spec, 0, t);
    FindFirst("", [], t);
    NothingFound(t);
    JoinedPathIsListed(spec, t);
    hide Attrs, ReadEntries, Entries, Find, PathsValid;
    assert [""] + [] == [""];
  }

  lemma NothingFound(t: NsType)
    requires !t.Unsupported?
    ensures Find([], t) == "" && Find([""], t) == ""
  {
  }

  // ------------------------------------------------------------------ order

  /** The place of an entry in the order that nsenter joins namespaces in. */
  function Rank(entry: string): nat {
    if HasPrefix(entry, "ipc:") then 1
    else if HasPrefix(entry, "uts:") then 2
    else if HasPrefix(entry, "net:") then 3
    else if HasPrefix(entry, "pid:") then 4
    else if HasPrefix(entry, "mnt:") then 5
    else if HasPrefix(entry, "cgroup:") then 6
    else if HasPrefix(entry, "time:") then 7
    else 0
  }

  lemma RankOfEntry(i: nat, path: string)
    requires 0 < i < PLACES
    ensures Rank(Tag(Kind(i)) + path) == i
  {
    forall t: NsType | !t.Unsupported? ensures HasPrefix(Tag(Kind(i)) + path, Prefix(t)) <==> t == Kind(i) {
      KindIndex(i);
      TablesAgree(t);
      TagsApart(t, Kind(i), path);
    }
    hide HasPrefix, Tag;
    assert Prefix(Ipc) == "ipc:" && Prefix(Uts) == "uts:" && Prefix(Network) == "net:" && Prefix(Pid) == "pid:";
    assert Prefix(Mount) == "mnt:" && Prefix(Cgroup) == "cgroup:" && Prefix(Time) == "time:";
  }

  lemma {:induction false} RanksFrom(spec: seq<Namespace>, i: nat)
    requires i <= PLACES
    ensures forall j :: 0 <= j < |Entries(spec, i)| ==> i <= Rank(Entries(spec, i)[j])
    ensures forall j, k :: 0 <= j < k < |Entries(spec, i)| ==> Rank(Entries(spec, i)[j]) < Rank(Entries(spec, i)[k])
    decreases PLACES - i
  {
    hide Entries, Kind, Tag, JoinedPath, Rank;
    if i < PLACES {
      RanksFrom(spec, i + 1);
      EntriesStep(spec, i);
      if i > 0 {
        RankOfEntry(i, JoinedPath(spec, Kind(i)));
      }
    } else {
      NoMoreEntries(spec);
    }
  }

  /** The paths come in the order ipc, uts, net, pid, mnt, cgroup, time. */
  lemma PathsInOrder(existing: set<string>, spec: seq<Namespace>, j: nat, k: nat)
    requires Buildable(existing, spec) && j < k < |ReadEntries(Attrs(spec))|
    ensures 0 < Rank(ReadEntries(Attrs(spec))[j]) < Rank(ReadEntries(Attrs(spec))[k])
  {
    EntriesRead(existing, spec);
    RanksFrom(spec, 0);
    EntriesRanked(spec, j);
    hide Attrs, Entries, Rank, ReadEntries, PathsValid;
  }

  lemma EntriesRanked(spec: seq<Namespace>, j: nat)
    requires j < |Entries(spec, 0)|
    ensures Rank(Entries(spec, 0)[j]) > 0
  {
    EntriesStep(spec, 0);
    RanksFrom(spec, 1);
    hide Entries, Kind, Tag, JoinedPath, Rank;
    assert [] + Entries(spec, 1) == Entries(spec, 1);
  }

  /** No two different namespaces of one type. */
  ghost predicate OnePerType(spec: seq<Namespace>) {
    forall a, b :: a in spec && b in spec && a.ty == b.ty ==> a == b
  }

  ghost predicate SameNamespaces(a: seq<Namespace>, b: seq<Namespace>) {
    forall ns :: ns in a <==> ns in b
  }

  lemma {:induction false} JoinedPathOfListed(spec: seq<Namespace>, t: NsType, path: string)
    requires OnePerType(spec) && Namespace(t, path) in spec && path != ""
    ensures JoinedPath(spec, t) == path
  {
    var last, front := spec[|spec| - 1], spec[..|spec| - 1];
    if last.ty == t {
      assert last in spec;
    } else {
      assert spec == front + [last];
      JoinedPathOfListed(front, t, path);
    }
  }

  lemma SameRequests(a: seq<Namespace>, b: seq<Namespace>, t: NsType)
    requires SameNamespaces(a, b) && OnePerType(a)
    ensures Creates(a, t) == Creates(b, t) && JoinedPath(a, t) == JoinedPath(b, t)
  {
    assert Creates(a, t) <==> Namespace(t, "") in a;
    assert Creates(b, t) <==> Namespace(t, "") in b;
    JoinedPathIsListed(a, t);
    JoinedPathIsListed(b, t);
    assert OnePerType(b);
    if JoinedPath(a, t) != "" {
      JoinedPathOfListed(b, t, JoinedPath(a, t));
    } else if JoinedPath(b, t) != "" {
      JoinedPathOfListed(a, t, JoinedPath(b, t));
    }
  }

  lemma {:induction false} SameEntries(a: seq<Namespace>, b: seq<Namespace>, i: nat)
    requires SameNamespaces(a, b) && OnePerType(a) && i <= PLACES
    ensures Entries(a, i) == Entries(b, i)
    decreases PLACES - i
  {
    if i < PLACES {
      SameEntries(a, b, i + 1);
      SameRequests(a, b, Kind(i));
      hide SameNamespaces, OnePerType, JoinedPath, Kind, Tag;
    }
  }

  /** For a spec with at most one namespace of each type, its order does not matter: the same message is built, or
      both orders fail. */
  lemma OrderOfSpecDoesNotMatter(existing: set<string>, a: seq<Namespace>, b: seq<Namespace>)
    requires OnePerType(a) && multiset(a) == multiset(b)
    ensures Buildable(existing, a) <==> Buildable(existing, b)
    ensures Attrs(a) == Attrs(b)
  {
    forall ns ensures ns in a <==> ns in b {
      assert ns in a <==> ns in multiset(a);
      assert ns in b <==> ns in multiset(b);
    }
    SamePathsValid(existing, a, b);
    SameAttrs(a, b);
    hide Attrs, PathsValid;
  }

  lemma SamePathsValid(existing: set<string>, a: seq<Namespace>, b: seq<Namespace>)
    requires SameNamespaces(a, b)
    ensures PathsValid(existing, a) <==> PathsValid(existing, b)
    ensures WritesFlags(a) <==> WritesFlags(b)
    ensures WritesPaths(a) <==> WritesPaths(b)
  {
    hide ValidPath;
    assert forall i | 0 <= i < |a| :: a[i] in b;
    assert forall i | 0 <= i < |b| :: b[i] in a;
  }

  lemma SameAttrs(a: seq<Namespace>, b: seq<Namespace>)
    requires SameNamespaces(a, b) && OnePerType(a)
    ensures Attrs(a) == Attrs(b)
  {
    SamePathsValid({}, a, b);
    SameEntries(a, b, 0);
    forall t ensures Creates(a, t) == Creates(b, t) {
      SameRequests(a, b, t);
    }
    SameWord(a, b);
    hide SameNamespaces, OnePerType, Entries, Creates, WritesFlags, WritesPaths, PathsValid, JoinedPath, Word,
         Int32Msg, ByteMsg, Join;
  }

  lemma SameWord(a: seq<Namespace>, b: seq<Namespace>)
    requires forall t :: Creates(a, t) == Creates(b, t)
    ensures Word(a) == Word(b)
  {
    hide Creates, Flag;
  }

  // ------------------------------------------------------------------ pivot or chroot

  lemma {:induction false} FirstOfListed(existing: set<string>, spec: seq<Namespace>, t: NsType)
    requires forall ns :: ns in spec && ns.ty == t ==> ',' !in ns.path
    ensures !FirstOf(existing, spec, t).InvalidPath?
    ensures FirstOf(existing, spec, t).Missing? <==> forall ns :: ns in spec ==> ns.ty != t
  {
    if spec != [] {
      assert spec[0] in spec;
      assert spec == [spec[0]] + spec[1..];
      FirstOfListed(existing, spec[1..], t);
    }
  }

  /** If a message was built for the spec at create, then Exec, whatever paths exist by then, pivots exactly if that
      message creates a mount namespace or joins one. */
  lemma PivotsIfMessageHasMountNamespace(atCreate: set<string>, atExec: set<string>, spec: seq<Namespace>)
    requires Buildable(atCreate, spec)
    ensures Pivots(atExec, spec) <==> ReadsFlag(Attrs(spec), Mount) || ReadPath(Attrs(spec), Mount) != ""
  {
    MessageSaysTheSpec(atCreate, spec, Mount);
    forall ns | ns in spec && ns.ty == Mount ensures ',' !in ns.path {
      var i :| 0 <= i < |spec| && spec[i] == ns;
    }
    FirstOfListed(atExec, spec, Mount);
    MountListed(spec);
    hide Attrs, ReadsFlag, ReadPath, Buildable;
  }

  lemma MountListed(spec: seq<Namespace>)
    ensures Creates(spec, Mount) || JoinedPath(spec, Mount) != "" <==> exists ns :: ns in spec && ns.ty == Mount
  {
    JoinedPathIsListed(spec, Mount);
    if ns :| ns in spec && ns.ty == Mount {
      if ns.path == "" {
        assert Creates(spec, Mount);
      } else {
        ListedIsJoined(spec, ns);
      }
    }
  }

  lemma {:induction false} ListedIsJoined(spec: seq<Namespace>, ns: Namespace)
    requires ns in spec && ns.path != ""
    ensures JoinedPath(spec, ns.ty) != ""
  {
    var last, front := spec[|spec| - 1], spec[..|spec| - 1];
    if last != ns {
      assert spec == front + [last];
      ListedIsJoined(front, ns);
    }
  }
}
