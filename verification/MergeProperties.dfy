/** What a successful merge means: the archive is read back as an overlay of the mounts over the old
    archive, new inodes collide with none, directories come before what they hold, and merging twice is
    merging once. */
module MergeProperties {
  import opened GoStrings
  import opened Newc
  import opened Archive
  import opened Inodes
  import opened InitrdMerge
  import Paths

  // ------------------------------------------------------------------ what is inserted

  ghost predicate Prefixed(r: Record) {
    HasPrefix(r.name, "./") && Fits(r)
  }

  /** What the merge leaves unset: the devices and the checksum. */
  predicate NothingElse(r: Record) {
    r.devMajor == 0 && r.devMinor == 0 && r.rdevMajor == 0 && r.rdevMinor == 0 && r.check == 0
  }

  /** Mode, owner, group, time and content are those of the source. */
  predicate CopiedFrom(src: Source, name: string, r: Record) {
    r.mode == src.mode && r.uid == src.uid && r.gid == src.gid && r.mtime == src.mtime && r.data == src.content
    && r.name == name && r.nlink == 0 && NothingElse(r)
  }

  /** A directory of root with mode 040755 and two links, and no data. */
  predicate IsDirOf(p: string, r: Record) {
    r.name == "./" + p && r.mode == 4 * 0x1000 + 7 * 0x40 + 5 * 8 + 5 && r.nlink == 2 && r.data == ""
    && r.uid == 0 && r.gid == 0 && r.mtime == 0 && NothingElse(r)
  }

  /** A directory that some mount needs and that had no record. */
  ghost predicate NeededDir(mounts: seq<Mount>, before: seq<Record>, r: Record) {
    exists p :: IsDirOf(p, r) && Paths.Lookup(r.name) == p && p !in NamesOf(before) && NeededBy(mounts, p)
  }

  /** `p` is a directory on the way to some mount. */
  ghost predicate NeededBy(mounts: seq<Mount>, p: string) {
    exists i :: 0 <= i < |mounts| && Paths.IsProperAncestor(p, Paths.Key(mounts[i].destination))
  }

  ghost predicate MountedFile(host: Host, mounts: seq<Mount>, r: Record) {
    exists i :: 0 <= i < |mounts| && IsFileOf(host, mounts[i], r)
  }

  /** The file of a mount: mode, owner, group, time and content are those of its source. */
  ghost predicate IsFileOf(host: Host, m: Mount, r: Record) {
    && Paths.IsAbs(m.destination) && m.source in host
    && CopiedFrom(host[m.source], "./" + Paths.Lookup(m.destination), r)
    && Paths.Lookup(r.name) == Paths.Key(m.destination)
  }

  /** An inserted record, given the records before it: its inode is the smallest positive one that none of
      them has, all directories on the way to it are among them, and it is the file of a mount or a
      directory that a mount needs and none of them names. */
  ghost predicate WellInserted(host: Host, mounts: seq<Mount>, before: seq<Record>, r: Record) {
    && Prefixed(r)
    && FirstUnused(InodesOf(before), 1) == Some(r.ino)
    && (forall p :: Paths.IsProperAncestor(p, Paths.Lookup(r.name)) ==> p in NamesOf(before))
    && (MountedFile(host, mounts, r) || NeededDir(mounts, before, r))
  }

  ghost predicate AllWellInserted(host: Host, mounts: seq<Mount>, rs: seq<Record>, rs': seq<Record>) {
    && |rs| <= |rs'| && rs'[..|rs|] == rs
    && forall j :: |rs| <= j < |rs'| ==> WellInserted(host, mounts, rs'[..j], rs'[j])
  }

  lemma WellInsertedMore(host: Host, some: seq<Mount>, mounts: seq<Mount>, before: seq<Record>, r: Record)
    requires WellInserted(host, some, before, r)
    requires forall m :: m in some ==> m in mounts
    ensures WellInserted(host, mounts, before, r)
  {
    hide FirstUnused, InodesOf, Paths.Lookup, Paths.Key, Fits;
    if MountedFile(host, some, r) {
      var i :| 0 <= i < |some| && IsFileOf(host, some[i], r);
      assert some[i] in mounts;
      var k :| 0 <= k < |mounts| && mounts[k] == some[i];
    } else {
      var p :| IsDirOf(p, r) && Paths.Lookup(r.name) == p && p !in NamesOf(before) && NeededBy(some, p);
      var i :| 0 <= i < |some| && Paths.IsProperAncestor(p, Paths.Key(some[i].destination));
      assert some[i] in mounts;
      var k :| 0 <= k < |mounts| && mounts[k] == some[i];
      assert NeededBy(mounts, p);
    }
  }

  lemma AllWellInsertedTrans(host: Host, mounts: seq<Mount>, a: seq<Record>, b: seq<Record>, c: seq<Record>)
    requires AllWellInserted(host, mounts, a, b) && AllWellInserted(host, mounts, b, c)
    ensures AllWellInserted(host, mounts, a, c)
  {
    hide WellInserted;
    assert c[..|a|] == c[..|b|][..|a|];
    forall j | |a| <= j < |c| ensures WellInserted(host, mounts, c[..j], c[j]) {
      if j < |b| {
        assert c[j] == c[..|b|][j] && c[..j] == c[..|b|][..j];
      }
    }
  }

  lemma OneWellInserted(host: Host, mounts: seq<Mount>, rs: seq<Record>, r: Record)
    requires WellInserted(host, mounts, rs, r)
    ensures AllWellInserted(host, mounts, rs, rs + [r])
  {
    hide WellInserted;
    assert (rs + [r])[..|rs|] == rs;
  }

  lemma DotSlash(s: string)
    ensures HasPrefix("./" + s, "./")
  {
  }

  /** The directories of one mount. */
  lemma {:induction false} DirsWellInserted(host: Host, m: Mount, elems: seq<string>, rs: seq<Record>, n: nat)
    requires Paths.IsAbs(m.destination) && elems == Paths.Elements(m.destination) && Paths.AllPlain(elems)
    requires n <= |Paths.ParentPaths(elems)| && AddDirs(rs, Paths.ParentPaths(elems)[..n]).Some?
    ensures var rs' := AddDirs(rs, Paths.ParentPaths(elems)[..n]).value;
            && AllWellInserted(host, [m], rs, rs')
            && forall i :: 0 <= i < n ==> Paths.ParentPaths(elems)[i] in NamesOf(rs')
    decreases n
  {
    hide WellInserted, AllWellInserted, NamesOf, FirstUnused, InodesOf, Fits, Paths.ParentPaths, Paths.Elements;
    var ps := Paths.ParentPaths(elems);
    if n == 0 {
      NothingInserted(host, [m], rs);
      NoDirs(rs, ps);
    } else {
      var p := ps[n - 1];
      var cur := UpTo(rs, ps, n - 1);
      DirsWellInserted(host, m, elems, rs, n - 1);
      var rs' := AddDir(cur, p).value;
      if p in NamesOf(cur) {
        assert rs' == cur;
      } else {
        DirWellInserted(host, m, elems, cur, n - 1);
        var r := rs'[|cur|];
        OneWellInserted(host, [m], cur, r);
        AllWellInsertedTrans(host, [m], rs, cur, rs');
        NamesOfAppend(cur, [r]);
        NamesOfOne(r);
      }
    }
  }

  lemma NothingInserted(host: Host, mounts: seq<Mount>, rs: seq<Record>)
    ensures AllWellInserted(host, mounts, rs, rs)
  {
    assert rs[..|rs|] == rs;
  }

  /** The records once the first `n` directories are there. */
  lemma UpTo(rs: seq<Record>, ps: seq<string>, n: nat) returns (cur: seq<Record>)
    requires n < |ps| && AddDirs(rs, ps[..n + 1]).Some?
    ensures AddDirs(rs, ps[..n]) == Some(cur) && AddDirs(rs, ps[..n + 1]) == AddDir(cur, ps[n])
  {
    hide AddDir;
    assert ps[..n + 1] == ps[..n] + [ps[n]];
    AddDirsAppend(rs, ps[..n], [ps[n]]);
    cur := AddDirs(rs, ps[..n]).value;
    assert [ps[n]][1..] == [] && AddDirs(cur, [ps[n]]) == AddDir(cur, ps[n]);
  }

  lemma DirWellInserted(host: Host, m: Mount, elems: seq<string>, cur: seq<Record>, n: nat)
    requires Paths.IsAbs(m.destination) && elems == Paths.Elements(m.destination) && Paths.AllPlain(elems)
    requires n < |Paths.ParentPaths(elems)| && forall i :: 0 <= i < n ==> Paths.ParentPaths(elems)[i] in NamesOf(cur)
    requires Paths.ParentPaths(elems)[n] !in NamesOf(cur) && AddDir(cur, Paths.ParentPaths(elems)[n]).Some?
    ensures var rs' := AddDir(cur, Paths.ParentPaths(elems)[n]).value;
            && |rs'| == |cur| + 1 && rs' == cur + [rs'[|cur|]] && WellInserted(host, [m], cur, rs'[|cur|])
            && Paths.Lookup(rs'[|cur|].name) == Paths.ParentPaths(elems)[n]
  {
    hide NamesOf, FirstUnused, InodesOf, Paths.Lookup, Paths.Key, Paths.Elements, Paths.IsProperAncestor, Join;
    var p := Paths.ParentPaths(elems)[n];
    var ino := FirstUnused(InodesOf(cur), 1).value;
    var r := DirRecord(p, ino);
    DotSlash(p);
    Paths.ParentPathIsPlainKey(elems, n);
    Paths.KeyOfDestination(m.destination);
    Paths.ParentPathsAreAncestors(elems, p);
    assert Paths.IsProperAncestor(p, Paths.Key([m][0].destination));
    assert NeededBy([m], p);
    assert NeededDir([m], cur, r);
    forall q | Paths.IsProperAncestor(q, p) ensures q in NamesOf(cur) {
      Paths.ParentPathsAreAncestors(elems[..n + 1], q);
      assert Paths.KeyOf(elems[..n + 1]) == p;
      var i :| 0 <= i < |Paths.ParentPaths(elems[..n + 1])| && Paths.ParentPaths(elems[..n + 1])[i] == q;
      assert elems[..n + 1][..i + 1] == elems[..i + 1];
      assert Paths.ParentPaths(elems)[i] == q;
    }
  }

  lemma MountWellInserted(host: Host, rs: seq<Record>, m: Mount)
    requires m.source in host && AddMount(host, rs, m).Some?
    ensures AllWellInserted(host, [m], rs, AddMount(host, rs, m).value)
    ensures var rs' := AddMount(host, rs, m).value;
            |rs'| > |rs| && IsFileOf(host, m, rs'[|rs'| - 1])
  {
    hide WellInserted, NamesOf, FirstUnused, InodesOf, Paths.Lookup, Paths.Key;
    Paths.KeyOfDestination(m.destination);
    var elems := Paths.Elements(m.destination);
    var ps := Paths.ParentPaths(elems);
    assert ps[..|ps|] == ps;
    DirsWellInserted(host, m, elems, rs, |ps|);
    var mid := AddDirs(rs, ps).value;
    var rs' := AddMount(host, rs, m).value;
    var r := rs'[|mid|];
    assert rs' == mid + [r];
    assert IsFileOf(host, m, r);
    FileWellInserted(host, m, elems, mid, r);
    OneWellInserted(host, [m], mid, r);
    AllWellInsertedTrans(host, [m], rs, mid, rs');
  }

  lemma FileWellInserted(host: Host, m: Mount, elems: seq<string>, mid: seq<Record>, r: Record)
    requires elems == Paths.Elements(m.destination) && Paths.AllPlain(elems) && IsFileOf(host, m, r) && Fits(r)
    requires forall i :: 0 <= i < |Paths.ParentPaths(elems)| ==> Paths.ParentPaths(elems)[i] in NamesOf(mid)
    requires FirstUnused(InodesOf(mid), 1) == Some(r.ino)
    ensures WellInserted(host, [m], mid, r)
  {
    hide NamesOf, FirstUnused, InodesOf, Paths.Lookup, Paths.Key, Fits;
    Paths.KeyOfDestination(m.destination);
    DotSlash(Paths.Lookup(m.destination));
    assert IsFileOf(host, [m][0], r);
    forall p | Paths.IsProperAncestor(p, Paths.Lookup(r.name)) ensures p in NamesOf(mid) {
      Paths.ParentPathsAreAncestors(elems, p);
    }
  }

  /** Everything a merge inserts is well inserted, with regard to all mounts. */
  lemma {:induction false} MountsWellInserted(host: Host, rs: seq<Record>, mounts: seq<Mount>)
    requires AllRegular(host, mounts) && AddMounts(host, rs, mounts).Some?
    ensures AllWellInserted(host, mounts, rs, AddMounts(host, rs, mounts).value)
    decreases |mounts|
  {
    hide WellInserted, AddMount;
    if mounts == [] {
      assert rs[..|rs|] == rs;
    } else {
      var mid := AddMount(host, rs, mounts[0]).value;
      MountWellInserted(host, rs, mounts[0]);
      MountsWellInserted(host, mid, mounts[1..]);
      var rs' := AddMounts(host, rs, mounts).value;
      AllWellInsertedFor(host, [mounts[0]], mounts, rs, mid);
      AllWellInsertedFor(host, mounts[1..], mounts, mid, rs');
      AllWellInsertedTrans(host, mounts, rs, mid, rs');
    }
  }

  lemma AllWellInsertedFor(host: Host, some: seq<Mount>, mounts: seq<Mount>, rs: seq<Record>, rs': seq<Record>)
    requires AllWellInserted(host, some, rs, rs')
    requires forall m :: m in some ==> m in mounts
    ensures AllWellInserted(host, mounts, rs, rs')
  {
    hide WellInserted;
    forall j | |rs| <= j < |rs'| ensures WellInserted(host, mounts, rs'[..j], rs'[j]) {
      WellInsertedMore(host, some, mounts, rs'[..j], rs'[j]);
    }
  }

  /** The inserted inodes are positive, pairwise distinct and none of the archive's. */
  lemma InsertedInodesDistinct(host: Host, rs: seq<Record>, mounts: seq<Mount>)
    requires AllRegular(host, mounts) && AddMounts(host, rs, mounts).Some?
    ensures var rs' := AddMounts(host, rs, mounts).value;
            forall i, j :: |rs| <= j < |rs'| && 0 <= i < j ==> rs'[i].ino != rs'[j].ino
    ensures var rs' := AddMounts(host, rs, mounts).value;
            forall j :: |rs| <= j < |rs'| ==> 1 <= rs'[j].ino <= MAX_INODE
  {
    MountsWellInserted(host, rs, mounts);
    var rs' := AddMounts(host, rs, mounts).value;
    forall j | |rs| <= j < |rs'|
      ensures 1 <= rs'[j].ino <= MAX_INODE && forall i :: 0 <= i < j ==> rs'[i].ino != rs'[j].ino
    {
      assert WellInserted(host, mounts, rs'[..j], rs'[j]);
      forall i | 0 <= i < j ensures rs'[i].ino != rs'[j].ino {
        assert rs'[..j][i].ino in InodesOf(rs'[..j]);
      }
    }
  }

  /** Every directory on the way to a mounted file has a record before that file, inserted directories come
      top down, and a directory is inserted only for a name that no record before it has. */
  lemma AncestorsComeFirst(host: Host, rs: seq<Record>, mounts: seq<Mount>, j: nat, p: string)
    requires AllRegular(host, mounts) && AddMounts(host, rs, mounts).Some?
    requires |rs| <= j < |AddMounts(host, rs, mounts).value|
    ensures var rs' := AddMounts(host, rs, mounts).value;
            && (Paths.IsProperAncestor(p, Paths.Lookup(rs'[j].name)) ==>
                  exists i :: 0 <= i < j && Paths.Lookup(rs'[i].name) == p)
            && (MountedFile(host, mounts, rs'[j])
                || (IsDirOf(Paths.Lookup(rs'[j].name), rs'[j])
                    && forall i :: 0 <= i < j ==> Paths.Lookup(rs'[i].name) != Paths.Lookup(rs'[j].name)))
  {
    hide FirstUnused, InodesOf, Paths.Lookup, Paths.Key;
    MountsWellInserted(host, rs, mounts);
    var rs' := AddMounts(host, rs, mounts).value;
    var before := rs'[..j];
    assert WellInserted(host, mounts, before, rs'[j]);
    if Paths.IsProperAncestor(p, Paths.Lookup(rs'[j].name)) {
      var i :| 0 <= i < |before| && Paths.Lookup(before[i].name) == p;
      assert rs'[i] == before[i];
    }
    forall i | 0 <= i < j ensures Paths.Lookup(rs'[i].name) in NamesOf(before) {
      assert before[i] == rs'[i];
    }
  }

  // ------------------------------------------------------------------ the overlay

  /** The record that counts for a path: the last one whose name has this canonical form. */
  function LastAt(rs: seq<Record>, p: string): (r: Option<Record>)
    ensures r.Some? <==> p in NamesOf(rs)
    ensures r.Some? ==> Paths.Lookup(r.value.name) == p
  {
    if rs == [] then None
    else
      var n := |rs| - 1;
      NamesOfAppend(rs[..n], [rs[n]]);
      NamesOfOne(rs[n]);
      assert rs[..n] + [rs[n]] == rs;
      if Paths.Lookup(rs[n].name) == p then Some(rs[n]) else LastAt(rs[..n], p)
  }

  lemma LastAtSnoc(rs: seq<Record>, r: Record, p: string)
    ensures LastAt(rs + [r], p) == if Paths.Lookup(r.name) == p then Some(r) else LastAt(rs, p)
  {
    assert (rs + [r])[..|rs|] == rs;
  }

  function LastMount(mounts: seq<Mount>, p: string): Option<Mount> {
    if mounts == [] then None
    else
      match LastMount(mounts[1..], p)
      case Some(m) => Some(m)
      case None => if Paths.Key(mounts[0].destination) == p then Some(mounts[0]) else None
  }

  /** At `p` the new archive has the last mount with that destination, else what the old archive has, else
      a directory if `p` leads to some mount, else nothing. */
  ghost predicate Overlaid(host: Host, rs: seq<Record>, mounts: seq<Mount>, rs': seq<Record>, p: string) {
    match LastMount(mounts, p)
    case Some(m) => LastAt(rs', p).Some? && IsFileOf(host, m, LastAt(rs', p).value)
    case None =>
      if LastAt(rs, p).Some? then LastAt(rs', p) == LastAt(rs, p)
      else if NeededBy(mounts, p) then
        LastAt(rs', p).Some? && IsDirOf(p, LastAt(rs', p).value)
      else LastAt(rs', p) == None
  }

  lemma {:induction false} DirsOverlaid(rs: seq<Record>, ps: seq<string>, p: string)
    requires AddDirs(rs, ps).Some?
    requires forall i :: 0 <= i < |ps| ==> Paths.Lookup("./" + ps[i]) == ps[i]
    ensures var rs' := AddDirs(rs, ps).value;
            if LastAt(rs, p).Some? then LastAt(rs', p) == LastAt(rs, p)
            else if p in ps then
              LastAt(rs', p).Some? && IsDirOf(p, LastAt(rs', p).value)
            else LastAt(rs', p) == None
    decreases |ps|
  {
    hide FirstUnused, InodesOf, Paths.Lookup, NamesOf, Fits, LastAt;
    if ps != [] {
      var mid := AddDir(rs, ps[0]).value;
      if ps[0] !in NamesOf(rs) {
        LastAtSnoc(rs, mid[|rs|], p);
      }
      DirsOverlaid(mid, ps[1..], p);
      assert ps == [ps[0]] + ps[1..];
    }
  }

  lemma MountOverlaid(host: Host, rs: seq<Record>, m: Mount, p: string)
    requires m.source in host && AddMount(host, rs, m).Some?
    ensures Overlaid(host, rs, [m], AddMount(host, rs, m).value, p)
  {
    hide FirstUnused, InodesOf, Paths.Lookup, NamesOf, Fits, LastAt, Paths.Key, Paths.IsProperAncestor;
    Paths.KeyOfDestination(m.destination);
    var elems := Paths.Elements(m.destination);
    var ps := Paths.ParentPaths(elems);
    forall i | 0 <= i < |ps| ensures Paths.Lookup("./" + ps[i]) == ps[i] {
      Paths.ParentPathIsPlainKey(elems, i);
    }
    DirsOverlaid(rs, ps, p);
    Paths.ParentPathsAreAncestors(elems, p);
    var mid := AddDirs(rs, ps).value;
    var rs' := AddMount(host, rs, m).value;
    LastAtSnoc(mid, rs'[|mid|], p);
    assert LastMount([m], p) == if Paths.Key(m.destination) == p then Some(m) else None by {
      assert [m][1..] == [];
    }
    assert NeededBy([m], p) <==> p in ps by {
      assert NeededBy([m], p) <==> Paths.IsProperAncestor(p, Paths.Key([m][0].destination));
    }
  }

  lemma {:induction false} MountsOverlaid(host: Host, rs: seq<Record>, mounts: seq<Mount>, p: string)
    requires AllRegular(host, mounts) && AddMounts(host, rs, mounts).Some?
    ensures Overlaid(host, rs, mounts, AddMounts(host, rs, mounts).value, p)
    decreases |mounts|
  {
    hide Paths.Lookup, NamesOf, LastAt, Paths.Key, Paths.IsProperAncestor, AddMount, IsFileOf;
    if mounts != [] {
      var m := mounts[0];
      var mid := AddMount(host, rs, m).value;
      MountOverlaid(host, rs, m, p);
      MountsOverlaid(host, mid, mounts[1..], p);
      assert LastMount([m], p) == if Paths.Key(m.destination) == p then Some(m) else None by {
        assert [m][1..] == [];
      }
      NeededBySplit(mounts, p);
    }
  }

  lemma NeededBySplit(mounts: seq<Mount>, p: string)
    requires mounts != []
    ensures NeededBy(mounts, p) <==> NeededBy([mounts[0]], p) || NeededBy(mounts[1..], p)
  {
    hide Paths.Key, Paths.IsProperAncestor;
    var one := [mounts[0]];
    if NeededBy(mounts, p) {
      var i :| 0 <= i < |mounts| && Paths.IsProperAncestor(p, Paths.Key(mounts[i].destination));
      if i == 0 {
        assert one[0] == mounts[0];
      } else {
        assert mounts[1..][i - 1] == mounts[i];
      }
    }
    if NeededBy(one, p) {
      var i :| 0 <= i < |one| && Paths.IsProperAncestor(p, Paths.Key(one[i].destination));
      assert mounts[0] == one[i];
    }
    if NeededBy(mounts[1..], p) {
      var i :| 0 <= i < |mounts[1..]| && Paths.IsProperAncestor(p, Paths.Key(mounts[1..][i].destination));
      assert mounts[i + 1] == mounts[1..][i];
    }
  }

  // ------------------------------------------------------------------ the merged file

  lemma NewRecordsPrintable(host: Host, rs: seq<Record>, mounts: seq<Mount>)
    requires AllRegular(host, mounts) && AddMounts(host, rs, mounts).Some?
    ensures var rs' := AddMounts(host, rs, mounts).value;
            |rs| <= |rs'| && AllFit(rs'[|rs|..]) && NoTrailerName(rs'[|rs|..])
  {
    hide FirstUnused, InodesOf, Paths.Lookup, NamesOf, Fits;
    MountsWellInserted(host, rs, mounts);
    var rs' := AddMounts(host, rs, mounts).value;
    var more := rs'[|rs|..];
    forall j | 0 <= j < |more| ensures Fits(more[j]) && more[j].name != TRAILER_NAME {
      assert more[j] == rs'[|rs| + j];
      assert WellInserted(host, mounts, rs'[..|rs| + j], rs'[|rs| + j]);
      assert more[j].name[..2][0] == '.';
    }
  }

  /** A merged archive is one again: read back, it has the old records and then the inserted ones before a
      single trailer, and every byte before the old trailer is as it was. */
  lemma MergedReadsBack(host: Host, file: string, mounts: seq<Mount>)
    requires Merged(host, file, mounts).Some? && RegularMounts(host, mounts).value != []
    ensures var merged := Merged(host, file, mounts).value;
            var fileMounts := RegularMounts(host, mounts).value;
            && ParseArchive(file).Some?
            && var old_ := ParseArchive(file).value;
            && AddMounts(host, old_.records, fileMounts).Some?
            && var rs := AddMounts(host, old_.records, fileMounts).value;
            && Extends(old_.records, rs)
            && var more := PrintAll(rs[|old_.records|..]);
            && merged == file[..old_.trailerOffset] + more + Print(TRAILER)
            && ParseArchive(merged) == Some(Parsed(rs, old_.trailerOffset + |more|))
  {
    hide Print, PrintAll, ParseFrom, AddMounts, Fits;
    var merged := Merged(host, file, mounts).value;
    var fileMounts := RegularMounts(host, mounts).value;
    var old_ := ParseArchive(file).value;
    var off := old_.trailerOffset;
    var rs := AddMounts(host, old_.records, fileMounts).value;
    AddMountsExtends(host, old_.records, fileMounts);
    NewRecordsPrintable(host, old_.records, fileMounts);
    TrailerFits();
    var more := rs[|old_.records|..];
    ThreeParts(file[..off], PrintAll(more), Print(TRAILER));
    assert merged == file[..off] + PrintAll(more) + Print(TRAILER);
    ParsePrinted(merged, off, more);
    ParseBeforeTrailer(file, merged, 0);
    assert old_.records + more == rs;
  }

  lemma ThreeParts(a: string, b: string, c: string)
    ensures (a + b + c)[..|a|] == a && (a + b + c)[|a|..] == b + c
    ensures (a + b + c)[..|a| + |b|] == a + b
  {
  }

  /** The merge is a map overlay, stated about the bytes: what the archive that was written holds at any path. */
  lemma MergeIsOverlay(host: Host, file: string, mounts: seq<Mount>, p: string)
    requires Merged(host, file, mounts).Some? && RegularMounts(host, mounts).value != []
    ensures ParseArchive(file).Some? && ParseArchive(Merged(host, file, mounts).value).Some?
    ensures Overlaid(host, ParseArchive(file).value.records, RegularMounts(host, mounts).value,
                     ParseArchive(Merged(host, file, mounts).value).value.records, p)
  {
    hide Print, PrintAll, ParseFrom, AddMounts, Fits, Overlaid;
    MergedReadsBack(host, file, mounts);
    MountsOverlaid(host, ParseArchive(file).value.records, RegularMounts(host, mounts).value, p);
  }

  /** A mount of a file to anything but the root is found under its clean destination, unless a later one replaces
      it: with the mode, owner, group, time and content of its source, and nothing else set. */
  lemma MountedFileIsFound(host: Host, file: string, mounts: seq<Mount>, m: Mount)
    requires Merged(host, file, mounts).Some? && RegularMounts(host, mounts).value != []
    requires Paths.IsAbs(m.destination) && Paths.Clean(m.destination) != "/"
    requires LastMount(RegularMounts(host, mounts).value, Paths.Lookup(m.destination)) == Some(m)
    ensures ParseArchive(Merged(host, file, mounts).value).Some? && m.source in host
    ensures var found := LastAt(ParseArchive(Merged(host, file, mounts).value).value.records,
                                Paths.Lookup(m.destination));
            found.Some? && CopiedFrom(host[m.source], "./" + Paths.Lookup(m.destination), found.value)
  {
    hide Print, PrintAll, ParseFrom, AddMounts, Fits, Merged, LastAt, LastMount, Paths.Lookup;
    MergeIsOverlay(host, file, mounts, Paths.Lookup(m.destination));
  }

  /** Merging `a` and then `b` gives the same bytes as merging `a + b` at once, and fails in the same cases. */
  lemma MergeComposes(host: Host, file: string, a: seq<Mount>, b: seq<Mount>)
    ensures Merged(host, file, a + b) ==
            match Merged(host, file, a) { case None => None case Some(file') => Merged(host, file', b) }
  {
    hide Print, PrintAll, ParseFrom, AddMounts, Fits, RegularMounts, Extends;
    RegularMountsAppend(host, a, b);
    if RegularMounts(host, a).Some? && RegularMounts(host, b).Some? {
      var x, y := RegularMounts(host, a).value, RegularMounts(host, b).value;
      if x == [] {
        assert x + y == y;
      } else if y == [] {
        assert x + y == x;
      } else if ParseArchive(file).Some? {
        AddMountsAppend(host, ParseArchive(file).value.records, x, y);
        if Merged(host, file, a).Some? {
          MergedReadsBack(host, file, a);
          SecondMerge(host, file, a, b);
        }
      }
    }
  }

  lemma SecondMerge(host: Host, file: string, a: seq<Mount>, b: seq<Mount>)
    requires Merged(host, file, a).Some? && RegularMounts(host, b).Some? && RegularMounts(host, a + b).Some?
    requires RegularMounts(host, a).value != [] && RegularMounts(host, b).value != []
    requires RegularMounts(host, a + b).value == RegularMounts(host, a).value + RegularMounts(host, b).value
    ensures Merged(host, file, a + b) == Merged(host, Merged(host, file, a).value, b)
  {
    hide Print, PrintAll, ParseFrom, AddMounts, Fits, RegularMounts;
    var x, y := RegularMounts(host, a).value, RegularMounts(host, b).value;
    MergedReadsBack(host, file, a);
    var file' := Merged(host, file, a).value;
    var old_ := ParseArchive(file).value;
    var off := old_.trailerOffset;
    var rs := AddMounts(host, old_.records, x).value;
    AddMountsAppend(host, old_.records, x, y);
    if AddMounts(host, rs, y).Some? {
      var rs' := AddMounts(host, rs, y).value;
      AddMountsExtends(host, rs, y);
      ExtendsTrans(old_.records, rs, rs');
      var first, second := rs[|old_.records|..], rs'[|rs|..];
      PrintAllAppend(first, second);
      TrailerFits();
      ThreeParts(file[..off], PrintAll(first), Print(TRAILER));
      assert file[..off] + (PrintAll(first) + PrintAll(second)) == (file[..off] + PrintAll(first)) + PrintAll(second);
    }
  }
}
