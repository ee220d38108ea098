/** `MergeFileMountsIntoInitrd`: regular files are appended to an uncompressed newc archive in place. */
module InitrdMerge {
  import opened GoStrings
  import opened Newc
  import opened Padding
  import opened Archive
  import opened Inodes
  import Paths

  /** What stat and read say about a file of the host. Sources do not change during a merge. */
  datatype Source = Source(regular: bool, mode: u32, uid: u32, gid: u32, mtime: u32, content: string)

  /** The host's files. A path that is not a key cannot be opened. */
  type Host = map<string, Source>

  datatype Mount = Mount(source: string, destination: string)

  datatype MergeResult =
    | MergeOk | StatFailed | OpenFailed | ParseFailed | InvalidDestination | InodesExhausted | WriteFailed | IoFailed

  /** `cpio.TypeDir | 0o755` */
  const DIR_MODE := 0x41ED

  // ------------------------------------------------------------------ specification

  /** `regularFileBindMounts`; None if a source cannot be opened. */
  function RegularMounts(host: Host, mounts: seq<Mount>): (r: Option<seq<Mount>>)
    ensures r.Some? ==> AllRegular(host, r.value)
  {
    if mounts == [] then Some([])
    else if mounts[0].source !in host then None
    else
      match RegularMounts(host, mounts[1..])
      case None => None
      case Some(rest) => Some(if host[mounts[0].source].regular then [mounts[0]] + rest else rest)
  }

  predicate AllRegular(host: Host, mounts: seq<Mount>) {
    forall i :: 0 <= i < |mounts| ==> mounts[i].source in host && host[mounts[i].source].regular
  }

  function DirRecord(p: string, ino: u32): Record {
    Record(ino, DIR_MODE, 0, 0, 2, 0, 0, 0, 0, 0, 0, "./" + p, "")
  }

  function FileRecord(src: Source, name: string, ino: u32): Record {
    Record(ino, src.mode, src.uid, src.gid, 0, src.mtime, 0, 0, 0, 0, 0, name, src.content)
  }

  /** All records of the archive once `r` is written; a record whose sizes do not fit is not. */
  function Insert(rs: seq<Record>, r: Record): Option<seq<Record>> {
    if Fits(r) then Some(rs + [r]) else None
  }

  function AddDir(rs: seq<Record>, p: string): Option<seq<Record>> {
    if p in NamesOf(rs) then Some(rs)
    else
      match FirstUnused(InodesOf(rs), 1)
      case None => None
      case Some(ino) => Insert(rs, DirRecord(p, ino))
  }

  function AddDirs(rs: seq<Record>, ps: seq<string>): Option<seq<Record>>
    decreases |ps|
  {
    if ps == [] then Some(rs)
    else
      match AddDir(rs, ps[0])
      case None => None
      case Some(rs') => AddDirs(rs', ps[1..])
  }

  function AddFile(rs: seq<Record>, src: Source, destination: string): Option<seq<Record>> {
    match FirstUnused(InodesOf(rs), 1)
    case None => None
    case Some(ino) => Insert(rs, FileRecord(src, "./" + Paths.Lookup(destination), ino))
  }

  function AddMount(host: Host, rs: seq<Record>, m: Mount): Option<seq<Record>>
    requires m.source in host
  {
    if !Paths.IsAbs(m.destination) then None
    else
      match AddDirs(rs, Paths.ParentPaths(Paths.Elements(m.destination)))
      case None => None
      case Some(rs') => AddFile(rs', host[m.source], m.destination)
  }

  /** The records of the archive after the mounts: the old ones and, behind them, what the merge inserts. */
  function AddMounts(host: Host, rs: seq<Record>, mounts: seq<Mount>): Option<seq<Record>>
    requires AllRegular(host, mounts)
    decreases |mounts|
  {
    if mounts == [] then Some(rs)
    else
      match AddMount(host, rs, mounts[0])
      case None => None
      case Some(rs') => AddMounts(host, rs', mounts[1..])
  }

  /** `new` has the records of `old`, and records that fit behind them. */
  ghost predicate Extends(old_: seq<Record>, new_: seq<Record>) {
    |old_| <= |new_| && new_[..|old_|] == old_ && AllFit(new_[|old_|..])
  }

  /** The bytes of the archive after a merge that succeeds. */
  function Merged(host: Host, file: string, mounts: seq<Mount>): Option<string> {
    match RegularMounts(host, mounts)
    case None => None
    case Some(fileMounts) =>
      if fileMounts == [] then Some(file)
      else
        match ParseArchive(file)
        case None => None
        case Some(parsed) =>
          match AddMounts(host, parsed.records, fileMounts)
          case None => None
          case Some(rs) =>
            AddMountsExtends(host, parsed.records, fileMounts);
            Some(file[..parsed.trailerOffset] + PrintAll(rs[|parsed.records|..]) + Print(TRAILER))
  }

  // ------------------------------------------------------------------ about the specification

  lemma ExtendsTrans(a: seq<Record>, b: seq<Record>, c: seq<Record>)
    requires Extends(a, b) && Extends(b, c)
    ensures Extends(a, c)
    ensures c[|a|..] == b[|a|..] + c[|b|..]
  {
    assert c[..|b|] == b;
    assert c[..|a|] == b[..|a|];
    assert c[|a|..] == b[|a|..] + c[|b|..];
  }

  lemma InsertExtends(rs: seq<Record>, r: Record)
    requires Fits(r)
    ensures Extends(rs, rs + [r]) && (rs + [r])[|rs|..] == [r]
  {
  }

  lemma {:induction false} AddDirsExtends(rs: seq<Record>, ps: seq<string>)
    requires AddDirs(rs, ps).Some?
    ensures Extends(rs, AddDirs(rs, ps).value)
    decreases |ps|
  {
    if ps != [] {
      var rs' := AddDir(rs, ps[0]).value;
      assert Extends(rs, rs');
      AddDirsExtends(rs', ps[1..]);
      ExtendsTrans(rs, rs', AddDirs(rs, ps).value);
    }
  }

  lemma AddMountExtends(host: Host, rs: seq<Record>, m: Mount)
    requires m.source in host && AddMount(host, rs, m).Some?
    ensures Extends(rs, AddMount(host, rs, m).value)
  {
    var ps := Paths.ParentPaths(Paths.Elements(m.destination));
    AddDirsExtends(rs, ps);
    var rs' := AddDirs(rs, ps).value;
    assert Extends(rs', AddMount(host, rs, m).value);
    ExtendsTrans(rs, rs', AddMount(host, rs, m).value);
  }

  lemma {:induction false} AddMountsExtends(host: Host, rs: seq<Record>, mounts: seq<Mount>)
    requires AllRegular(host, mounts) && AddMounts(host, rs, mounts).Some?
    ensures Extends(rs, AddMounts(host, rs, mounts).value)
    decreases |mounts|
  {
    if mounts == [] {
      assert rs[..|rs|] == rs;
    } else {
      var rs' := AddMount(host, rs, mounts[0]).value;
      AddMountExtends(host, rs, mounts[0]);
      AddMountsExtends(host, rs', mounts[1..]);
      ExtendsTrans(rs, rs', AddMounts(host, rs, mounts).value);
    }
  }

  lemma {:induction false} AddDirsAppend(rs: seq<Record>, a: seq<string>, b: seq<string>)
    ensures AddDirs(rs, a + b) == match AddDirs(rs, a) { case None => None case Some(rs') => AddDirs(rs', b) }
    decreases |a|
  {
    if a == [] {
      assert a + b == b;
    } else {
      assert (a + b)[1..] == a[1..] + b;
      if AddDir(rs, a[0]).Some? {
        AddDirsAppend(AddDir(rs, a[0]).value, a[1..], b);
      }
    }
  }

  lemma {:induction false} AddMountsAppend(host: Host, rs: seq<Record>, a: seq<Mount>, b: seq<Mount>)
    requires AllRegular(host, a) && AllRegular(host, b)
    ensures AllRegular(host, a + b)
    ensures AddMounts(host, rs, a + b) ==
            match AddMounts(host, rs, a) { case None => None case Some(rs') => AddMounts(host, rs', b) }
    decreases |a|
  {
    if a == [] {
      assert a + b == b;
    } else {
      assert (a + b)[1..] == a[1..] + b;
      if AddMount(host, rs, a[0]).Some? {
        AddMountsAppend(host, AddMount(host, rs, a[0]).value, a[1..], b);
      }
    }
  }

  lemma {:induction false} RegularMountsAppend(host: Host, a: seq<Mount>, b: seq<Mount>)
    ensures RegularMounts(host, a + b) ==
            match (RegularMounts(host, a), RegularMounts(host, b)) {
              case (Some(x), Some(y)) => Some(x + y)
              case _ => None
            }
    decreases |a|
  {
    if a == [] {
      assert a + b == b;
      if RegularMounts(host, b).Some? {
        assert [] + RegularMounts(host, b).value == RegularMounts(host, b).value;
      }
    } else {
      assert (a + b)[1..] == a[1..] + b;
      RegularMountsAppend(host, a[1..], b);
      if RegularMounts(host, a).Some? && RegularMounts(host, b).Some? {
        var x, y := RegularMounts(host, a[1..]).value, RegularMounts(host, b).value;
        assert [a[0]] + (x + y) == ([a[0]] + x) + y;
      }
    }
  }

  // ------------------------------------------------------------------ the file, and writing to it

  /** Any operation on a file that is not sound may fail. */
  class ArchiveFile {
    var content: string
    const sound: bool

    constructor (content: string, sound: bool)
      ensures this.content == content && this.sound == sound
    {
      this.content := content;
      this.sound := sound;
    }

    /** Whether opening, reading, seeking or closing fails now. */
    method Fails() returns (fails: bool)
      ensures sound ==> !fails
    {
      fails := false;
      if !sound {
        fails := *;
      }
    }

    method Truncate(size: nat) returns (ok: bool)
      requires size <= |content|
      modifies this
      ensures sound ==> ok
      ensures content == if ok then old(content)[..size] else old(content)
    {
      var fails := Fails();
      if !fails {
        content := content[..size];
      }
      return !fails;
    }

    /** The cpio writer at the end of the file: header and data of one record, padded. A record whose sizes do not
        fit is not written at all; a write that fails may stop anywhere. */
    method WriteRecord(r: Record) returns (ok: bool)
      modifies this
      ensures ok ==> Fits(r) && content == old(content) + Print(r)
      ensures !Fits(r) ==> content == old(content)
      ensures Fits(r) && !ok ==> !sound && exists k :: 0 <= k <= |Print(r)| && content == old(content) + Print(r)[..k]
    {
      hide Print;
      if |r.name| + 1 >= 0x1_0000_0000 || |r.data| >= 0x1_0000_0000 {
        return false;
      }
      var fails := Fails();
      if fails {
        var k: int := *;
        if 0 <= k <= |Print(r)| {
          content := content + Print(r)[..k];
        } else {
          assert content == content + Print(r)[..0];
        }
        return false;
      }
      content := content + Print(r);
      return true;
    }
  }

  // ------------------------------------------------------------------ implementation

  method RegularFileBindMounts(host: Host, mounts: seq<Mount>) returns (r: Option<seq<Mount>>)
    ensures r == RegularMounts(host, mounts)
  {
    var fileMounts: seq<Mount> := [];
    for i := 0 to |mounts|
      invariant RegularMounts(host, mounts[..i]) == Some(fileMounts)
    {
      var m := mounts[i];
      assert mounts[..i + 1] == mounts[..i] + [m];
      RegularMountsAppend(host, mounts[..i], [m]);
      assert [m][1..] == [] && fileMounts + [] == fileMounts && [m] + [] == [m];
      if m.source !in host {
        assert mounts == mounts[..i + 1] + mounts[i + 1..];
        RegularMountsAppend(host, mounts[..i + 1], mounts[i + 1..]);
        return None;
      }
      if host[m.source].regular {
        fileMounts := fileMounts + [m];
      }
    }
    assert mounts[..|mounts|] == mounts;
    return Some(fileMounts);
  }

  /** Reads the archive record by record. If no read fails, it fails exactly on what is no archive with a valid
      trailer; otherwise it returns the offset of the trailer, the canonical names, and an allocator in which
      exactly the inodes of the archive are used. The file is only read. */
  method InspectInitrd(f: ArchiveFile)
    returns (ok: bool, trailerOffset: nat, names: set<string>, inodes: InodeAllocator)
    ensures f.content == old(f.content)
    ensures fresh(inodes) && inodes.Valid()
    ensures ok ==> ParseArchive(f.content).Some?
    ensures f.sound ==> ok == ParseArchive(f.content).Some?
    ensures ok ==> var p := ParseArchive(f.content).value;
                   trailerOffset == p.trailerOffset && names == NamesOf(p.records) && inodes.used == InodesOf(p.records)
  {
    names := {};
    inodes := new InodeAllocator();
    trailerOffset := 0;
    ghost var seen: seq<Record> := [];
    PrependNothing(ParseArchive(f.content));
    while true
      invariant fresh(inodes) && inodes.Valid() && f.content == old(f.content)
      invariant names == NamesOf(seen) && inodes.used == InodesOf(seen)
      invariant ParseArchive(f.content) == Prepend(seen, ParseFrom(f.content, trailerOffset))
      decreases |f.content| + 4 - trailerOffset
    {
      var fails := f.Fails();
      if fails {
        return false, 0, {}, inodes;
      }
      match NextEntry(f.content, trailerOffset) {
        case Malformed =>
          return false, 0, {}, inodes;
        case Eof =>
          ok := ValidateTrailerAt(f.content, trailerOffset) == TrailerOk;
          assert seen + [] == seen;
          return ok, trailerOffset, names, inodes;
        case Entry(rec, end) =>
          names := names + {Paths.Lookup(rec.name)};
          inodes.Reserve(rec.ino);
          ParseStep(f.content, seen, trailerOffset);
          NamesOfAppend(seen, [rec]);
          NamesOfOne(rec);
          seen := seen + [rec];
          trailerOffset := Align4(end);
      }
    }
  }

  lemma ParseStep(file: string, seen: seq<Record>, pos: nat)
    requires NextEntry(file, pos).Entry?
    ensures var e := NextEntry(file, pos);
            Prepend(seen, ParseFrom(file, pos)) == Prepend(seen + [e.rec], ParseFrom(file, Align4(e.end)))
  {
    hide NextEntry;
    var e := NextEntry(file, pos);
    PrependAppend(seen, [e.rec], ParseFrom(file, Align4(e.end)));
  }

  /** What the merge holds after `rs`, having started from the records `base` with the bytes `prefix`: the
      file has the records since then, and the names and the used inodes are those of all records. */
  ghost predicate Written(prefix: string, base: seq<Record>, rs: seq<Record>,
                          names: set<string>, used: set<int>, content: string)
  {
    && Extends(base, rs)
    && content == prefix + PrintAll(rs[|base|..])
    && names == NamesOf(rs)
    && used == InodesOf(rs)
  }

  lemma WrittenNothing(prefix: string, rs: seq<Record>)
    ensures Written(prefix, rs, rs, NamesOf(rs), InodesOf(rs), prefix)
  {
    assert rs[|rs|..] == [];
    assert prefix + "" == prefix;
  }

  lemma PrintOne(r: Record)
    requires Fits(r)
    ensures AllFit([r]) && PrintAll([r]) == Print(r)
  {
    hide Print, Fits;
    assert [r][1..] == [];
    assert Print(r) + "" == Print(r);
  }

  lemma TrailerFits()
    ensures Fits(TRAILER)
  {
  }

  /** One more record, in the file and in the caches. */
  lemma WrittenRecord(prefix: string, base: seq<Record>, rs: seq<Record>, r: Record,
                      names: set<string>, used: set<int>, content: string)
    requires Written(prefix, base, rs, names, used, content) && Fits(r)
    ensures Written(prefix, base, rs + [r], names + {Paths.Lookup(r.name)}, used + {r.ino}, content + Print(r))
  {
    hide Print, Fits, Paths.Lookup, NamesOf, InodesOf, PrintAll;
    InsertExtends(rs, r);
    ExtendsTrans(base, rs, rs + [r]);
    PrintAllAppend(rs[|base|..], [r]);
    PrintOne(r);
    NamesOfAppend(rs, [r]);
    NamesOfOne(r);
    assert prefix + PrintAll(rs[|base|..]) + Print(r) == prefix + (PrintAll(rs[|base|..]) + Print(r));
  }

  lemma WrittenGives(prefix: string, base: seq<Record>, rs: seq<Record>, names: set<string>, used: set<int>,
                     content: string)
    requires Written(prefix, base, rs, names, used, content)
    ensures names == NamesOf(rs) && used == InodesOf(rs) && prefix <= content
  {
    hide NamesOf, InodesOf, PrintAll, Extends;
  }

  /** The directories handled so far, one more, and the ones that are left. */
  lemma DirsUpTo(rs: seq<Record>, cur: seq<Record>, ps: seq<string>, i: nat)
    requires i < |ps| && AddDirs(rs, ps[..i]) == Some(cur)
    ensures AddDirs(rs, ps[..i + 1]) == AddDir(cur, ps[i])
    ensures AddDir(cur, ps[i]).None? ==> AddDirs(rs, ps).None?
  {
    hide AddDir;
    assert ps[..i + 1] == ps[..i] + [ps[i]];
    assert ps == ps[..i + 1] + ps[i + 1..];
    AddDirsAppend(rs, ps[..i], [ps[i]]);
    AddDirsAppend(rs, ps[..i + 1], ps[i + 1..]);
    assert [ps[i]][1..] == [];
    assert AddDirs(cur, [ps[i]]) == AddDir(cur, ps[i]);
  }

  /** Writes a directory record unless there is a record of that name. */
  method AddMissingParent(w: ArchiveFile, parentName: string, existingNames: set<string>, inodes: InodeAllocator,
                          ghost prefix: string, ghost base: seq<Record>, ghost rs: seq<Record>)
    returns (r: MergeResult, names: set<string>)
    requires Paths.Lookup("./" + parentName) == parentName
    requires inodes.Valid() && Written(prefix, base, rs, existingNames, inodes.used, w.content)
    modifies w, inodes
    ensures inodes.Valid()
    ensures r in {MergeOk, InodesExhausted, WriteFailed}
    ensures r.MergeOk? ==> AddDir(rs, parentName).Some?
    ensures r.MergeOk? ==> Written(prefix, base, AddDir(rs, parentName).value, names, inodes.used, w.content)
    ensures w.sound ==> r.MergeOk? == AddDir(rs, parentName).Some?
    ensures prefix <= w.content
  {
    hide Print, Fits, FirstUnused, Written, NamesOf, InodesOf, Paths.Lookup;
    names := existingNames;
    WrittenGives(prefix, base, rs, names, inodes.used, w.content);
    if parentName in names {
      return MergeOk, names;
    }
    var inode := inodes.Allocate();
    if inode.None? {
      return InodesExhausted, names;
    }
    var rec := DirRecord(parentName, inode.value);
    ghost var before := w.content;
    var written := w.WriteRecord(rec);
    if !written {
      return WriteFailed, names;
    }
    WrittenRecord(prefix, base, rs, rec, names, InodesOf(rs), before);
    names := names + {parentName};
    return MergeOk, names;
  }

  /** Writes a directory record for every ancestor that has no record yet, top down. `rs` are the records
      of the archive so far, which the file, the names and the allocator reflect. */
  method AddMissingParents(w: ArchiveFile, lookupName: string, existingNames: set<string>, inodes: InodeAllocator,
                           ghost elems: seq<string>, ghost prefix: string, ghost base: seq<Record>,
                           ghost rs: seq<Record>)
    returns (r: MergeResult, names: set<string>)
    requires Paths.AllPlain(elems) && lookupName == Paths.KeyOf(elems)
    requires inodes.Valid() && Written(prefix, base, rs, existingNames, inodes.used, w.content)
    modifies w, inodes
    ensures inodes.Valid()
    ensures r in {MergeOk, InodesExhausted, WriteFailed}
    ensures r.MergeOk? ==> AddDirs(rs, Paths.ParentPaths(elems)).Some?
    ensures r.MergeOk? ==>
              Written(prefix, base, AddDirs(rs, Paths.ParentPaths(elems)).value, names, inodes.used, w.content)
    ensures w.sound ==> r.MergeOk? == AddDirs(rs, Paths.ParentPaths(elems)).Some?
    ensures prefix <= w.content
  {
    hide AddDir, AddDirs, Written, Split, Join, Paths.JoinPath, Paths.Dir, Paths.Lookup, Paths.AllPlain, Paths.KeyOf,
         Paths.ParentPaths;
    var parentName := "";
    var components := Split(Paths.Dir(lookupName), '/');
    ghost var parents := Paths.ParentPaths(elems);
    Paths.DirOfKey(elems);
    Paths.ParentCount(elems);
    names := existingNames;
    ghost var cur := rs;
    ghost var done: nat := 0;
    NoDirs(rs, parents);
    WrittenGives(prefix, base, rs, names, inodes.used, w.content);
    Paths.OnlyDot(elems);
    for i := 0 to |components|
      invariant inodes.Valid() && Written(prefix, base, cur, names, inodes.used, w.content) && prefix <= w.content
      invariant done == if |elems| <= 1 then 0 else i
      invariant parentName == if done == 0 then "" else parents[done - 1]
      invariant AddDirs(rs, parents[..done]) == Some(cur)
    {
      var component := components[i];
      if component == "" || component == "." {
        continue;
      }
      parentName := Paths.JoinPath(parentName, component);
      Paths.NextParent(elems, i);
      DirsUpTo(rs, cur, parents, i);
      done := i + 1;
      r, names := AddMissingParent(w, parentName, names, inodes, prefix, base, cur);
      if !r.MergeOk? {
        return r, names;
      }
      cur := AddDir(cur, parentName).value;
    }
    assert parents[..|parents|] == parents;
    return MergeOk, names;
  }

  lemma NoDirs(rs: seq<Record>, ps: seq<string>)
    ensures AddDirs(rs, ps[..0]) == Some(rs)
  {
  }

  lemma NoMounts(host: Host, rs: seq<Record>, mounts: seq<Mount>)
    ensures AddMounts(host, rs, mounts[..0]) == Some(rs)
  {
  }

  /** Appends the file of one mount, after its missing parents. */
  method AddFileMount(f: ArchiveFile, host: Host, mount: Mount, existingNames: set<string>, inodes: InodeAllocator,
                      ghost prefix: string, ghost base: seq<Record>, ghost rs: seq<Record>)
    returns (r: MergeResult, names: set<string>)
    requires mount.source in host
    requires inodes.Valid() && Written(prefix, base, rs, existingNames, inodes.used, f.content)
    modifies f, inodes
    ensures inodes.Valid()
    ensures r in {MergeOk, InvalidDestination, InodesExhausted, WriteFailed}
    ensures r.MergeOk? ==> AddMount(host, rs, mount).Some?
    ensures r.MergeOk? ==> Written(prefix, base, AddMount(host, rs, mount).value, names, inodes.used, f.content)
    ensures f.sound ==> r.MergeOk? == AddMount(host, rs, mount).Some?
    ensures prefix <= f.content
  {
    hide Print, Fits, FirstUnused, AddDirs, Written, NamesOf, InodesOf;
    WrittenGives(prefix, base, rs, existingNames, inodes.used, f.content);
    var archiveName := Paths.ArchivePath(mount.destination);
    if archiveName.None? {
      return InvalidDestination, existingNames;
    }
    Paths.KeyOfDestination(mount.destination);
    ghost var elems := Paths.Elements(mount.destination);
    var lookupName := Paths.Lookup(archiveName.value);
    hide Paths.Lookup, Paths.Elements;
    r, names := AddMissingParents(f, lookupName, existingNames, inodes, elems, prefix, base, rs);
    if !r.MergeOk? {
      return r, names;
    }
    ghost var mid := AddDirs(rs, Paths.ParentPaths(elems)).value;
    WrittenGives(prefix, base, mid, names, inodes.used, f.content);
    var inode := inodes.Allocate();
    if inode.None? {
      return InodesExhausted, names;
    }
    var rec := FileRecord(host[mount.source], archiveName.value, inode.value);
    ghost var before := f.content;
    var written := f.WriteRecord(rec);
    if !written {
      return WriteFailed, names;
    }
    WrittenRecord(prefix, base, mid, rec, names, InodesOf(mid), before);
    names := names + {lookupName};
    WrittenGives(prefix, base, mid + [rec], names, inodes.used, f.content);
    return MergeOk, names;
  }

  /** There is something to merge, and all sources can be opened. */
  predicate Merges(host: Host, mounts: seq<Mount>) {
    RegularMounts(host, mounts) !in {None, Some([])}
  }

  /** Merges in place. On success the bytes are those of the specification, and if the file is sound, it succeeds
      exactly if the specification does. A source that cannot be opened and an archive that cannot be opened or parsed
      leave the file as it was; no failure, wherever an operation on the file stops, touches the bytes before the old
      trailer. */
  method MergeFileMountsIntoInitrd(f: ArchiveFile, host: Host, mounts: seq<Mount>) returns (r: MergeResult)
    modifies f
    ensures r.MergeOk? ==> Merged(host, old(f.content), mounts) == Some(f.content)
    ensures f.sound ==> r.MergeOk? == Merged(host, old(f.content), mounts).Some?
    ensures r.StatFailed? == RegularMounts(host, mounts).None?
    ensures Merges(host, mounts) && ParseArchive(old(f.content)).None? ==> r in {OpenFailed, ParseFailed}
    ensures f.sound ==> r !in {OpenFailed, IoFailed}
    ensures f.sound && r.ParseFailed? ==> Merges(host, mounts) && ParseArchive(old(f.content)).None?
    ensures r in {StatFailed, OpenFailed, ParseFailed} ==> f.content == old(f.content)
    ensures Merges(host, mounts) && ParseArchive(old(f.content)).Some? ==>
              old(f.content)[..ParseArchive(old(f.content)).value.trailerOffset] <= f.content
  {
    hide Print, Fits, PrintAll, FirstUnused, ParseArchive, AddMount;
    var regular := RegularFileBindMounts(host, mounts);
    if regular.None? {
      return StatFailed;
    }
    var fileMounts := regular.value;
    if |fileMounts| == 0 {
      return MergeOk;
    }
    var fails := f.Fails();
    if fails {
      return OpenFailed;
    }
    var parsed, trailerOffset, existingNames, inodes := InspectInitrd(f);
    if !parsed {
      return ParseFailed;
    }
    ghost var rs := ParseArchive(f.content).value.records;
    var ok := f.Truncate(trailerOffset);
    if ok {
      fails := f.Fails();
    }
    if !ok || fails {
      return IoFailed;
    }
    ghost var prefix := f.content;
    ghost var cur := rs;
    WrittenNothing(prefix, rs);
    NoMounts(host, rs, fileMounts);
    for i := 0 to |fileMounts|
      invariant inodes.Valid() && fresh(inodes) && prefix <= f.content
      invariant Written(prefix, rs, cur, existingNames, inodes.used, f.content)
      invariant AddMounts(host, rs, fileMounts[..i]) == Some(cur)
    {
      MountsUpTo(host, rs, cur, fileMounts, i);
      r, existingNames := AddFileMount(f, host, fileMounts[i], existingNames, inodes, prefix, rs, cur);
      if !r.MergeOk? {
        return r;
      }
      cur := AddMount(host, cur, fileMounts[i]).value;
    }
    assert fileMounts[..|fileMounts|] == fileMounts;
    TrailerFits();
    ok := f.WriteRecord(TRAILER);
    if !ok {
      return WriteFailed;
    }
    fails := f.Fails();
    return if fails then IoFailed else MergeOk;
  }

  /** The mounts handled so far, one more, and the ones that are left. */
  lemma MountsUpTo(host: Host, rs: seq<Record>, cur: seq<Record>, mounts: seq<Mount>, i: nat)
    requires AllRegular(host, mounts) && i < |mounts|
    requires AddMounts(host, rs, mounts[..i]) == Some(cur)
    ensures AddMounts(host, rs, mounts[..i + 1]) == AddMount(host, cur, mounts[i])
    ensures AddMount(host, cur, mounts[i]).None? ==> AddMounts(host, rs, mounts).None?
  {
    hide AddMount;
    var m := mounts[i];
    assert mounts[..i + 1] == mounts[..i] + [m];
    assert mounts == mounts[..i + 1] + mounts[i + 1..];
    AddMountsAppend(host, rs, mounts[..i], [m]);
    AddMountsAppend(host, rs, mounts[..i + 1], mounts[i + 1..]);
    assert [m][1..] == [];
    assert AddMounts(host, cur, [m]) == AddMount(host, cur, m);
  }
}
