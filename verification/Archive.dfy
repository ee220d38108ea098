/** A whole newc archive: the records before the trailer, and where the trailer is. */
module Archive {
  import opened GoStrings
  import opened Newc
  import opened Padding
  import Paths

  datatype Parsed = Parsed(records: seq<Record>, trailerOffset: nat)

  /** The archive with more records in front. */
  function Prepend(rs: seq<Record>, tail: Option<Parsed>): Option<Parsed> {
    if tail.None? then None else Some(Parsed(rs + tail.value.records, tail.value.trailerOffset))
  }

  /** The records from `pos` on. An archive whose last record is not followed by a valid trailer is none. */
  function ParseFrom(file: string, pos: nat): (r: Option<Parsed>)
    ensures r.Some? ==> pos <= r.value.trailerOffset <= |file| && AllFit(r.value.records)
    ensures r.Some? && pos % 4 == 0 ==> r.value.trailerOffset % 4 == 0
    decreases |file| + 4 - pos
  {
    match NextEntry(file, pos)
    case Malformed => None
    case Eof => if ValidateTrailerAt(file, pos) == TrailerOk then Some(Parsed([], pos)) else None
    case Entry(rec, end) => Prepend([rec], ParseFrom(file, Align4(end)))
  }

  function ParseArchive(file: string): (r: Option<Parsed>)
    ensures r.Some? ==> r.value.trailerOffset <= |file| && AllFit(r.value.records)
    ensures r.Some? ==> r.value.trailerOffset % 4 == 0
  {
    ParseFrom(file, 0)
  }

  // ------------------------------------------------------------------ parsing an edited file

  /** Whatever replaces the bytes from the trailer on, the records before it are read as before. */
  lemma {:induction false} ParseBeforeTrailer(file: string, file': string, pos: nat)
    requires pos % 4 == 0 && ParseFrom(file, pos).Some?
    requires ParseFrom(file, pos).value.trailerOffset <= |file'|
    requires var off := ParseFrom(file, pos).value.trailerOffset; file[..off] == file'[..off]
    ensures var p := ParseFrom(file, pos).value;
            ParseFrom(file', pos) == Prepend(p.records, ParseFrom(file', p.trailerOffset))
    decreases |file| + 4 - pos
  {
    hide NextEntry, ValidateTrailerAt;
    var p := ParseFrom(file, pos).value;
    match NextEntry(file, pos)
    case Malformed =>
    case Eof =>
      PrependNothing(ParseFrom(file', pos));
    case Entry(rec, end) =>
      ParseBeforeTrailer(file, file', Align4(end));
      NextEntryLocal(file, file', pos, p.trailerOffset);
      PrependAppend([rec], ParseFrom(file, Align4(end)).value.records, ParseFrom(file', p.trailerOffset));
  }

  lemma PrependNothing(tail: Option<Parsed>)
    ensures Prepend([], tail) == tail
  {
    if tail.Some? {
      assert [] + tail.value.records == tail.value.records;
    }
  }

  lemma PrependAppend(a: seq<Record>, b: seq<Record>, tail: Option<Parsed>)
    ensures Prepend(a, Prepend(b, tail)) == Prepend(a + b, tail)
  {
    if tail.Some? {
      assert a + (b + tail.value.records) == (a + b) + tail.value.records;
    }
  }

  ghost predicate NoTrailerName(rs: seq<Record>) {
    forall i :: 0 <= i < |rs| ==> rs[i].name != TRAILER_NAME
  }

  lemma ParsePrintedTrailer(file: string, pos: nat, r: Record)
    requires Fits(r) && r.name == TRAILER_NAME && r.data == ""
    requires pos <= |file| && file[pos..] == Print(r)
    ensures ParseFrom(file, pos) == Some(Parsed([], pos))
  {
    hide NextEntry, ValidateTrailerAt, Print, PrintedSize;
    assert file[pos..pos + PrintedSize(r)] == file[pos..];
    PrintedTrailer(file, pos, r);
  }

  lemma ParsePrintedHead(file: string, pos: nat, r: Record, rest: string)
    requires pos % 4 == 0 && pos <= |file| && Fits(r) && r.name != TRAILER_NAME
    requires file[pos..] == Print(r) + rest
    ensures var next := pos + PrintedSize(r);
            && next <= |file| && file[next..] == rest
            && ParseFrom(file, pos) == Prepend([r], ParseFrom(file, next))
  {
    hide NextEntry, ValidateTrailerAt, Print, PrintedSize;
    var next := pos + PrintedSize(r);
    assert file[pos..next] == file[pos..][..|Print(r)|];
    assert file[next..] == file[pos..][|Print(r)|..];
    NextEntryOfPrinted(file, pos, r);
  }

  /** Parsing undoes printing: records and a trailer, printed at an aligned offset, are read back. */
  lemma {:induction false} ParsePrinted(file: string, pos: nat, rs: seq<Record>)
    requires pos % 4 == 0 && pos <= |file| && AllFit(rs) && NoTrailerName(rs)
    requires file[pos..] == PrintAll(rs) + Print(TRAILER)
    ensures ParseFrom(file, pos) == Some(Parsed(rs, pos + |PrintAll(rs)|))
    decreases |rs|
  {
    hide ParseFrom, Print, PrintedSize;
    if rs == [] {
      assert file[pos..] == Print(TRAILER);
      ParsePrintedTrailer(file, pos, TRAILER);
    } else {
      var rest := PrintAll(rs[1..]) + Print(TRAILER);
      assert file[pos..] == Print(rs[0]) + rest;
      ParsePrintedHead(file, pos, rs[0], rest);
      ParsePrinted(file, pos + PrintedSize(rs[0]), rs[1..]);
      assert [rs[0]] + rs[1..] == rs;
    }
  }

  /** The names and inodes of an archive, as the merge keeps them. */
  function NamesOf(rs: seq<Record>): set<string> {
    set i | 0 <= i < |rs| :: Paths.Lookup(rs[i].name)
  }

  function InodesOf(rs: seq<Record>): set<int> {
    set i | 0 <= i < |rs| :: rs[i].ino
  }

  lemma NamesOfAppend(a: seq<Record>, b: seq<Record>)
    ensures NamesOf(a + b) == NamesOf(a) + NamesOf(b)
    ensures InodesOf(a + b) == InodesOf(a) + InodesOf(b)
  {
    var c := a + b;
    forall x | x in NamesOf(a) + NamesOf(b) ensures x in NamesOf(c) {
      if x in NamesOf(a) {
        var i :| 0 <= i < |a| && Paths.Lookup(a[i].name) == x;
        assert c[i] == a[i];
      } else {
        var i :| 0 <= i < |b| && Paths.Lookup(b[i].name) == x;
        assert c[|a| + i] == b[i];
      }
    }
    forall x | x in InodesOf(a) + InodesOf(b) ensures x in InodesOf(c) {
      if x in InodesOf(a) {
        var i :| 0 <= i < |a| && a[i].ino == x;
        assert c[i] == a[i];
      } else {
        var i :| 0 <= i < |b| && b[i].ino == x;
        assert c[|a| + i] == b[i];
      }
    }
  }

  lemma NamesOfOne(r: Record)
    ensures NamesOf([r]) == {Paths.Lookup(r.name)}
    ensures InodesOf([r]) == {r.ino}
  {
    assert [r][0] == r;
  }
}
