/** Which mounts of a list a merge is about, and when it succeeds. */
module MergeOutcome {
  import opened GoStrings
  import opened Newc
  import opened Archive
  import opened Inodes
  import opened InitrdMerge
  import opened MergeProperties
  import Paths

  // ------------------------------------------------------------------ the mounts of files

  predicate IsFileMount(host: Host, m: Mount) {
    m.source in host && host[m.source].regular
  }

  /** The merge is about the mounts of regular files, each as often as it is listed. */
  lemma {:induction false} FileMountsExactly(host: Host, mounts: seq<Mount>, m: Mount)
    ensures RegularMounts(host, mounts).Some? <==> forall i :: 0 <= i < |mounts| ==> mounts[i].source in host
    ensures RegularMounts(host, mounts).Some? ==>
              multiset(RegularMounts(host, mounts).value)[m] == if IsFileMount(host, m) then multiset(mounts)[m] else 0
  {
    if mounts != [] {
      FileMountsExactly(host, mounts[1..], m);
      assert mounts == [mounts[0]] + mounts[1..];
    }
  }

  /** No later mount of a file has the destination. */
  ghost predicate IsLastFileMount(host: Host, mounts: seq<Mount>, i: nat, p: string) {
    i < |mounts| && IsFileMount(host, mounts[i]) && Paths.Key(mounts[i].destination) == p
    && forall j :: i < j < |mounts| && IsFileMount(host, mounts[j]) ==> Paths.Key(mounts[j].destination) != p
  }

  lemma {:induction false} NoFileMountAt(host: Host, mounts: seq<Mount>, p: string)
    requires RegularMounts(host, mounts).Some?
    requires forall j :: 0 <= j < |mounts| && IsFileMount(host, mounts[j]) ==> Paths.Key(mounts[j].destination) != p
    ensures LastMount(RegularMounts(host, mounts).value, p) == None
  {
    hide Paths.Key;
    if mounts != [] {
      assert forall j | 0 <= j < |mounts[1..]| :: mounts[1..][j] == mounts[j + 1];
      NoFileMountAt(host, mounts[1..], p);
      LastMountFirst(mounts[0], RegularMounts(host, mounts[1..]).value, p);
    }
  }

  lemma LastMountFirst(m: Mount, rest: seq<Mount>, p: string)
    ensures LastMount([m] + rest, p) ==
              if LastMount(rest, p).Some? then LastMount(rest, p)
              else if Paths.Key(m.destination) == p then Some(m) else None
  {
    hide Paths.Key;
    assert ([m] + rest)[1..] == rest;
  }

  lemma {:induction false} LastFileMount(host: Host, mounts: seq<Mount>, i: nat, p: string)
    requires RegularMounts(host, mounts).Some? && IsLastFileMount(host, mounts, i, p)
    ensures LastMount(RegularMounts(host, mounts).value, p) == Some(mounts[i])
  {
    hide Paths.Key;
    var rest := mounts[1..];
    assert forall j | 0 <= j < |rest| :: rest[j] == mounts[j + 1];
    if i == 0 {
      NoFileMountAt(host, rest, p);
    } else {
      LastFileMount(host, rest, i - 1, p);
    }
    LastMountFirst(mounts[0], RegularMounts(host, rest).value, p);
  }

  /** The statement about the whole list: after a merge that succeeds, the archive holds, at the clean destination of a
      mount of a file, a copy of its source with its mode, owner, group and time, unless a later mount of a file has
      the same destination. */
  lemma FileMountIsFound(host: Host, file: string, mounts: seq<Mount>, i: nat)
    requires Merged(host, file, mounts).Some? && i < |mounts|
    requires Paths.IsAbs(mounts[i].destination) && Paths.Clean(mounts[i].destination) != "/"
    requires IsLastFileMount(host, mounts, i, Paths.Lookup(mounts[i].destination))
    ensures ParseArchive(Merged(host, file, mounts).value).Some?
    ensures var p := Paths.Lookup(mounts[i].destination);
            var found := LastAt(ParseArchive(Merged(host, file, mounts).value).value.records, p);
            found.Some? && CopiedFrom(host[mounts[i].source], "./" + p, found.value)
  {
    hide Print, PrintAll, ParseFrom, AddMounts, Fits, LastAt, LastMount, Paths.Lookup, Paths.Key, RegularMounts;
    var p := Paths.Lookup(mounts[i].destination);
    LastFileMount(host, mounts, i, p);
    NothingIsLast(p);
    MountedFileIsFound(host, file, mounts, mounts[i]);
  }

  lemma NothingIsLast(p: string)
    ensures LastMount([], p) == None
  {
  }

  // ------------------------------------------------------------------ room for the new records

  lemma {:induction false} AllInodesUsed(used: set<int>, n: nat)
    requires forall i :: 1 <= i <= n ==> i in used
    ensures |used| >= n
  {
    if n > 0 {
      AllInodesUsed(used - {n}, n - 1);
    }
  }

  lemma OneMore(s: set<int>, one: set<int>, x: int)
    requires one == {x}
    ensures |s + one| <= |s| + 1
  {
    assert x in s ==> s + one == s;
  }

  lemma {:induction false} InodeCount(rs: seq<Record>)
    ensures |InodesOf(rs)| <= |rs|
  {
    if rs != [] {
      var front, last := rs[..|rs| - 1], rs[|rs| - 1];
      InodeCount(front);
      hide InodesOf, NamesOf;
      assert rs == front + [last];
      NamesOfAppend(front, [last]);
      NamesOfOne(last);
      OneMore(InodesOf(front), InodesOf([last]), last.ino);
    }
  }

  /** An archive with fewer records than there are inodes leaves one free. */
  lemma InodeLeft(rs: seq<Record>)
    requires |rs| < MAX_INODE
    ensures FirstUnused(InodesOf(rs), 1).Some?
  {
    InodeCount(rs);
    hide InodesOf;
    if FirstUnused(InodesOf(rs), 1).None? {
      AllInodesUsed(InodesOf(rs), MAX_INODE);
      assert false;
    }
  }

  // ------------------------------------------------------------------ when it succeeds

  /** The header has room for the sizes of name and content. */
  predicate FitsHeader(host: Host, m: Mount)
    requires m.source in host
  {
    |Paths.Lookup(m.destination)| + 3 < 0x1_0000_0000 && |host[m.source].content| < 0x1_0000_0000
  }

  predicate CanMount(host: Host, m: Mount)
    requires m.source in host
  {
    Paths.IsAbs(m.destination) && FitsHeader(host, m)
  }

  /** How many records a mount adds at most: one for each element of its destination, and one if that is the root. */
  function Records(mounts: seq<Mount>): nat {
    if mounts == [] then 0 else |Paths.Elements(mounts[0].destination)| + 1 + Records(mounts[1..])
  }

  lemma {:induction false} DirsAreAdded(rs: seq<Record>, ps: seq<string>)
    requires |rs| + |ps| <= MAX_INODE && forall i :: 0 <= i < |ps| ==> |ps[i]| + 3 < 0x1_0000_0000
    ensures AddDirs(rs, ps).Some? && |AddDirs(rs, ps).value| <= |rs| + |ps|
    decreases |ps|
  {
    hide FirstUnused, InodesOf, NamesOf;
    if ps != [] {
      InodeLeft(rs);
      DirsAreAdded(AddDir(rs, ps[0]).value, ps[1..]);
    }
  }

  lemma MountIsAdded(host: Host, rs: seq<Record>, m: Mount)
    requires m.source in host && CanMount(host, m) && |rs| + |Paths.Elements(m.destination)| < MAX_INODE
    ensures AddMount(host, rs, m).Some?
    ensures |AddMount(host, rs, m).value| <= |rs| + |Paths.Elements(m.destination)| + 1
  {
    var elems := Paths.Elements(m.destination);
    var ps := Paths.ParentPaths(elems);
    Paths.KeyOfDestination(m.destination);
    Paths.ParentCount(elems);
    ParentsFit(m.destination);
    hide Paths.Elements, Paths.ParentPaths, Paths.Lookup, FirstUnused, InodesOf, AddDirs;
    DirsAreAdded(rs, ps);
    InodeLeft(AddDirs(rs, ps).value);
  }

  lemma ParentsFit(destination: string)
    requires Paths.IsAbs(destination)
    ensures var ps := Paths.ParentPaths(Paths.Elements(destination));
            forall i :: 0 <= i < |ps| ==> |ps[i]| <= |Paths.Lookup(destination)|
  {
    var elems := Paths.Elements(destination);
    Paths.KeyOfDestination(destination);
    Paths.LookupAbs(destination);
    hide Paths.Elements, Paths.Lookup;
    forall i | 0 <= i < |Paths.ParentPaths(elems)|
      ensures |Paths.ParentPaths(elems)[i]| <= |Paths.Lookup(destination)| {
      Paths.ParentPathsAreAncestors(elems, Paths.ParentPaths(elems)[i]);
    }
  }

  lemma MountIsRefused(host: Host, rs: seq<Record>, m: Mount)
    requires m.source in host && !CanMount(host, m)
    ensures AddMount(host, rs, m).None?
  {
    hide AddDirs, FirstUnused, InodesOf, Paths.Lookup;
  }

  /** With enough inodes, mounting succeeds exactly if all destinations are absolute and all sizes fit. */
  lemma {:induction false} MountsAreAdded(host: Host, rs: seq<Record>, mounts: seq<Mount>)
    requires AllRegular(host, mounts) && |rs| + Records(mounts) <= MAX_INODE
    ensures AddMounts(host, rs, mounts).Some? <==> forall i :: 0 <= i < |mounts| ==> CanMount(host, mounts[i])
    decreases |mounts|
  {
    hide AddMount, CanMount, Paths.Elements;
    if mounts != [] {
      assert mounts == [mounts[0]] + mounts[1..];
      if CanMount(host, mounts[0]) {
        MountIsAdded(host, rs, mounts[0]);
        MountsAreAdded(host, AddMount(host, rs, mounts[0]).value, mounts[1..]);
      } else {
        MountIsRefused(host, rs, mounts[0]);
      }
    }
  }

  /** When a merge succeeds, if there are enough inodes: all sources can be opened, and unless none is a regular file,
      the archive is one, all destinations are absolute, and all sizes fit the header. */
  lemma MergeSucceedsExactly(host: Host, file: string, mounts: seq<Mount>)
    requires RegularMounts(host, mounts).Some? && ParseArchive(file).Some? ==>
               |ParseArchive(file).value.records| + Records(RegularMounts(host, mounts).value) <= MAX_INODE
    ensures Merged(host, file, mounts).Some? <==>
              RegularMounts(host, mounts).Some?
              && var files := RegularMounts(host, mounts).value;
                 files == []
                 || (ParseArchive(file).Some? && forall i :: 0 <= i < |files| ==> CanMount(host, files[i]))
  {
    hide RegularMounts, ParseArchive, AddMounts, Print, PrintAll, CanMount, Records;
    if RegularMounts(host, mounts).Some? && ParseArchive(file).Some? {
      MountsAreAdded(host, ParseArchive(file).value.records, RegularMounts(host, mounts).value);
    }
  }
}
