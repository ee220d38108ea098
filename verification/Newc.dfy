/** The "New ASCII Format" of cpio(5): a record is a 110-byte header, the name with its NUL, padding to a
    multiple of four, the data and padding again. Printing a record and reading one at an offset. */
module Newc {
  import opened GoStrings
  import opened Padding

  type u32 = x: int | 0 <= x < 0x1_0000_0000

  const HEADER_SIZE := 110
  const TRAILER_NAME := "TRAILER!!!"

  /** The two sizes are not fields: a record has the sizes of its name and its data. */
  datatype Record = Record(
    ino: u32, mode: u32, uid: u32, gid: u32, nlink: u32, mtime: u32,
    devMajor: u32, devMinor: u32, rdevMajor: u32, rdevMinor: u32, check: u32,
    name: string, data: string)

  const TRAILER := Record(0, 0, 0, 0, 1, 0, 0, 0, 0, 0, 0, TRAILER_NAME, "")

  /** The sizes fit the eight digits that the header has for them. */
  predicate Fits(r: Record) {
    |r.name| + 1 < 0x1_0000_0000 && |r.data| < 0x1_0000_0000
  }

  // ------------------------------------------------------------------ header fields

  const DIGITS := "0123456789ABCDEF"

  function DigitValue(c: char): Option<nat> {
    if '0' <= c <= '9' then Some(c as int - '0' as int)
    else if 'A' <= c <= 'F' then Some(c as int - 'A' as int + 10)
    else if 'a' <= c <= 'f' then Some(c as int - 'a' as int + 10)
    else None
  }

  /** The last `n` hexadecimal digits of `x`. */
  function Hex(x: nat, n: nat): (s: string)
    ensures |s| == n
  {
    if n == 0 then "" else Hex(x / 16, n - 1) + [DIGITS[x % 16]]
  }

  /** `strconv.ParseUint(s, 16, 32)` on a field of eight bytes. */
  function ParseHex(s: string): Option<nat> {
    if s == "" then Some(0)
    else
      match (ParseHex(s[..|s| - 1]), DigitValue(s[|s| - 1]))
      case (Some(hi), Some(lo)) => Some(16 * hi + lo)
      case _ => None
  }

  function Pow16(n: nat): (p: nat)
    ensures p > 0
  {
    if n == 0 then 1 else 16 * Pow16(n - 1)
  }

  lemma {:induction false} ParseHexOfHex(x: nat, n: nat)
    requires x < Pow16(n)
    ensures ParseHex(Hex(x, n)) == Some(x)
  {
    if n > 0 {
      ParseHexOfHex(x / 16, n - 1);
      var s := Hex(x, n);
      assert s[..n - 1] == Hex(x / 16, n - 1);
      DigitsValue(x % 16);
    }
  }

  lemma DigitsValue(d: nat)
    requires d < 16
    ensures DigitValue(DIGITS[d]) == Some(d)
  {
  }

  lemma {:induction false} ParseHexBound(s: string)
    ensures ParseHex(s).Some? ==> ParseHex(s).value < Pow16(|s|)
  {
    if s != "" {
      ParseHexBound(s[..|s| - 1]);
    }
  }

  lemma Pow16Of8()
    ensures Pow16(8) == 0x1_0000_0000
  {
    assert Pow16(4) == 0x1_0000;
    assert Pow16(6) == 0x100_0000;
  }

  function ParseField(s: string): (r: Option<u32>)
    requires |s| == 8
  {
    ParseHexBound(s);
    Pow16Of8();
    ParseHex(s)
  }

  function PrintFields(fields: seq<u32>): (s: string)
    ensures |s| == 8 * |fields|
  {
    if fields == [] then "" else Hex(fields[0], 8) + PrintFields(fields[1..])
  }

  function ParseFields(s: string): (r: Option<seq<u32>>)
    requires |s| % 8 == 0
    ensures r.Some? ==> 8 * |r.value| == |s|
  {
    if s == "" then Some([])
    else
      match (ParseField(s[..8]), ParseFields(s[8..]))
      case (Some(first), Some(rest)) => Some([first] + rest)
      case _ => None
  }

  lemma SliceOfSlice(file: string, pos: nat, len: nat, i: nat, j: nat)
    requires i <= j <= len && pos + len <= |file|
    ensures file[pos..pos + len][i..j] == file[pos + i..pos + j]
  {
    var part := file[pos..pos + len];
    forall k | 0 <= k < j - i ensures part[i..j][k] == file[pos + i..pos + j][k] {
      assert part[i..j][k] == part[i + k] == file[pos + (i + k)];
    }
  }

  lemma {:induction false} ParsePrintFields(fields: seq<u32>)
    ensures ParseFields(PrintFields(fields)) == Some(fields)
  {
    if fields != [] {
      ParsePrintFields(fields[1..]);
      Pow16Of8();
      ParseHexOfHex(fields[0], 8);
      var first, rest := Hex(fields[0], 8), PrintFields(fields[1..]);
      assert (first + rest)[..8] == first && (first + rest)[8..] == rest;
      assert ParseField(first) == Some(fields[0]);
      assert [fields[0]] + fields[1..] == fields;
    }
  }

  /** Each field is where its offset says: field `k` takes the bytes from `8 * k`. */
  lemma {:induction false} ParseFieldsAt(s: string, k: nat)
    requires |s| % 8 == 0 && ParseFields(s).Some? && 8 * k < |s|
    ensures ParseField(s[8 * k..8 * k + 8]) == Some(ParseFields(s).value[k])
    decreases k
  {
    if k > 0 {
      ParseFieldsAt(s[8..], k - 1);
      SliceOfSlice(s, 8, |s| - 8, 8 * (k - 1), 8 * k);
      assert s[8..8 + (|s| - 8)] == s[8..];
    }
  }

  // ------------------------------------------------------------------ printing

  function HeaderFields(r: Record): (fields: seq<u32>)
    requires Fits(r)
    ensures |fields| == 13
  {
    [r.ino, r.mode, r.uid, r.gid, r.nlink, r.mtime, |r.data|,
     r.devMajor, r.devMinor, r.rdevMajor, r.rdevMinor, |r.name| + 1, r.check]
  }

  function FromFields(fields: seq<u32>, name: string, data: string): Record
    requires |fields| == 13
  {
    Record(fields[0], fields[1], fields[2], fields[3], fields[4], fields[5],
           fields[7], fields[8], fields[9], fields[10], fields[12], name, data)
  }

  /** The length of header, name and its padding. */
  function DataOffset(nameSize: nat): nat {
    Align4(HEADER_SIZE + nameSize)
  }

  function PrintedSize(r: Record): (n: nat)
    ensures n % 4 == 0
  {
    Align4(DataOffset(|r.name| + 1) + |r.data|)
  }

  function Print(r: Record): (s: string)
    requires Fits(r)
    ensures |s| == PrintedSize(r)
  {
    var header := "070701" + PrintFields(HeaderFields(r));
    var dataOffset := DataOffset(|r.name| + 1);
    header + r.name + Zeros(dataOffset - HEADER_SIZE - |r.name|)
    + r.data + Zeros(PrintedSize(r) - dataOffset - |r.data|)
  }

  ghost predicate AllFit(rs: seq<Record>) {
    forall i :: 0 <= i < |rs| ==> Fits(rs[i])
  }

  function PrintAll(rs: seq<Record>): string
    requires AllFit(rs)
  {
    if rs == [] then "" else Print(rs[0]) + PrintAll(rs[1..])
  }

  lemma {:induction false} PrintAllAppend(a: seq<Record>, b: seq<Record>)
    requires AllFit(a) && AllFit(b)
    ensures PrintAll(a + b) == PrintAll(a) + PrintAll(b)
  {
    if a == [] {
      assert a + b == b;
    } else {
      assert (a + b)[1..] == a[1..] + b;
      PrintAllAppend(a[1..], b);
    }
  }

  // ------------------------------------------------------------------ the layout in numbers

  /** Digit `k` of a field, counted from the left, is the hexadecimal digit for its power of sixteen. */
  lemma {:induction false} HexDigit(x: nat, n: nat, k: nat)
    requires k < n
    ensures Hex(x, n)[k] == "0123456789ABCDEF"[x / Pow16(n - 1 - k) % 16]
  {
    if k < n - 1 {
      HexDigit(x / 16, n - 1, k);
      DivideTwice(x, Pow16(n - 2 - k));
      assert n - 1 - k > 0 && Pow16(n - 1 - k) == 16 * Pow16(n - 2 - k);
    } else {
      assert Pow16(0) == 1;
    }
  }

  lemma DivideTwice(x: nat, p: nat)
    requires p > 0
    ensures x / 16 / p == x / (16 * p)
  {
    var q, r := x / 16 / p, x / 16 % p;
    assert x / 16 == q * p + r;
    assert x == 16 * (q * p + r) + x % 16;
    assert x == q * (16 * p) + (16 * r + x % 16) && 16 * r + x % 16 < 16 * p;
    QuotientIs(x, 16 * p, q, 16 * r + x % 16);
  }

  lemma QuotientIs(x: nat, d: nat, q: nat, r: nat)
    requires r < d && x == q * d + r
    ensures x / d == q
  {
    var e := x / d - q;
    assert x / d * d + x % d == q * d + r;
    assert e * d == r - x % d;
    if e >= 1 {
      AtLeastOnce(e, d);
    } else if e <= -1 {
      AtLeastOnce(-e, d);
    }
  }

  lemma AtLeastOnce(e: int, d: nat)
    requires e >= 1
    ensures e * d >= d && (-e) * d <= -(d as int)
  {
  }

  lemma {:induction false} FieldAt(fields: seq<u32>, k: nat)
    requires k < |fields|
    ensures PrintFields(fields)[8 * k..8 * k + 8] == Hex(fields[k], 8)
  {
    var first, rest := Hex(fields[0], 8), PrintFields(fields[1..]);
    assert PrintFields(fields) == first + rest;
    hide Hex, PrintFields;
    if k > 0 {
      FieldAt(fields[1..], k - 1);
      SliceBehind(first, rest, 8 * (k - 1), 8 * k);
    } else {
      assert (first + rest)[0..8] == first;
    }
  }

  lemma SliceBehind(first: string, rest: string, i: nat, j: nat)
    requires i <= j <= |rest|
    ensures (first + rest)[|first| + i..|first| + j] == rest[i..j]
  {
    var s := first + rest;
    forall k | 0 <= k < j - i ensures s[|first| + i..|first| + j][k] == rest[i..j][k] {
      assert s[|first| + i..|first| + j][k] == s[|first| + (i + k)] == rest[i + k];
    }
  }

  lemma HeaderFieldAt(r: Record, k: nat)
    requires Fits(r) && k < 13
    ensures Print(r)[6 + 8 * k..14 + 8 * k] == Hex(HeaderFields(r)[k], 8)
  {
    PrintParts(r);
    FieldAt(HeaderFields(r), k);
    hide Print, HeaderFields, PrintFields, Hex;
    SliceOfSlice(Print(r), 6, HEADER_SIZE - 6, 8 * k, 8 * k + 8);
  }

  /** The header of a record, byte by byte: the magic number and thirteen fields of eight hexadecimal digits, in the
      order of cpio(5). */
  lemma HeaderLayout(r: Record)
    requires Fits(r)
    ensures var s := Print(r);
            && s[0..6] == "070701" && s[6..14] == Hex(r.ino, 8) && s[14..22] == Hex(r.mode, 8)
            && s[22..30] == Hex(r.uid, 8) && s[30..38] == Hex(r.gid, 8) && s[38..46] == Hex(r.nlink, 8)
            && s[46..54] == Hex(r.mtime, 8) && s[54..62] == Hex(|r.data|, 8) && s[62..70] == Hex(r.devMajor, 8)
            && s[70..78] == Hex(r.devMinor, 8) && s[78..86] == Hex(r.rdevMajor, 8) && s[86..94] == Hex(r.rdevMinor, 8)
            && s[94..102] == Hex(|r.name| + 1, 8) && s[102..110] == Hex(r.check, 8)
  {
    PrintParts(r);
    FirstFields(r);
    LastFields(r);
    hide Print, PrintFields, Hex;
  }

  lemma FieldOrder(r: Record)
    requires Fits(r)
    ensures var f := HeaderFields(r);
            f[0] == r.ino && f[1] == r.mode && f[2] == r.uid && f[3] == r.gid && f[4] == r.nlink && f[5] == r.mtime
            && f[6] == |r.data| && f[7] == r.devMajor && f[8] == r.devMinor && f[9] == r.rdevMajor
            && f[10] == r.rdevMinor && f[11] == |r.name| + 1 && f[12] == r.check
  {
  }

  lemma FirstFields(r: Record)
    requires Fits(r)
    ensures var s := Print(r);
            s[6..14] == Hex(r.ino, 8) && s[14..22] == Hex(r.mode, 8) && s[22..30] == Hex(r.uid, 8)
            && s[30..38] == Hex(r.gid, 8) && s[38..46] == Hex(r.nlink, 8) && s[46..54] == Hex(r.mtime, 8)
            && s[54..62] == Hex(|r.data|, 8)
  {
    FieldOrder(r);
    hide Print, HeaderFields, Hex;
    HeaderFieldAt(r, 0);
    HeaderFieldAt(r, 1);
    HeaderFieldAt(r, 2);
    HeaderFieldAt(r, 3);
    HeaderFieldAt(r, 4);
    HeaderFieldAt(r, 5);
    HeaderFieldAt(r, 6);
  }

  lemma LastFields(r: Record)
    requires Fits(r)
    ensures var s := Print(r);
            s[62..70] == Hex(r.devMajor, 8) && s[70..78] == Hex(r.devMinor, 8) && s[78..86] == Hex(r.rdevMajor, 8)
            && s[86..94] == Hex(r.rdevMinor, 8) && s[94..102] == Hex(|r.name| + 1, 8) && s[102..110] == Hex(r.check, 8)
  {
    FieldOrder(r);
    hide Print, HeaderFields, Hex;
    HeaderFieldAt(r, 7);
    HeaderFieldAt(r, 8);
    HeaderFieldAt(r, 9);
    HeaderFieldAt(r, 10);
    HeaderFieldAt(r, 11);
    HeaderFieldAt(r, 12);
  }

  /** What follows the header: the name, one to four zeros up to a multiple of four, the data, and none to three zeros
      up to a multiple of four. */
  lemma BodyLayout(r: Record)
    requires Fits(r)
    ensures exists a, b ::
              Print(r) == Print(r)[..110] + r.name + Zeros(a) + r.data + Zeros(b)
              && 1 <= a <= 4 && (110 + |r.name| + a) % 4 == 0 && 0 <= b <= 3 && |Print(r)| % 4 == 0
  {
    var header := "070701" + PrintFields(HeaderFields(r));
    var a := DataOffset(|r.name| + 1) - HEADER_SIZE - |r.name|;
    var b := PrintedSize(r) - DataOffset(|r.name| + 1) - |r.data|;
    assert Print(r) == header + r.name + Zeros(a) + r.data + Zeros(b);
    hide PrintFields, HeaderFields;
    assert |header| == 110;
    assert (header + r.name + Zeros(a) + r.data + Zeros(b))[..110] == header;
  }

  // ------------------------------------------------------------------ reading

  /** What the reader finds at an offset. An entry ends where its data does, before the padding. */
  datatype Entry = Entry(rec: Record, end: nat) | Eof | Malformed

  predicate KnownMagic(magic: string) {
    magic == "070701" || magic == "070702"
  }

  /** The next entry of the archive, or the end: the trailer's name, or no byte left at all. */
  function NextEntry(file: string, pos: nat): (e: Entry)
    ensures e.Entry? ==> pos < e.end <= |file|
    ensures e.Entry? ==> e.rec.name != TRAILER_NAME && Fits(e.rec)
    ensures e.Entry? ==> e.end == pos + DataOffset(|e.rec.name| + 1) + |e.rec.data|
  {
    if |file| <= pos then Eof
    else if |file| < pos + HEADER_SIZE then Malformed
    else if !KnownMagic(file[pos..pos + 6]) then Malformed
    else
      match ParseFields(file[pos + 6..pos + HEADER_SIZE])
      case None => Malformed
      case Some(fields) =>
        var nameEnd := pos + HEADER_SIZE + fields[11];
        if fields[11] == 0 || |file| < nameEnd then Malformed
        else
          var name := file[pos + HEADER_SIZE..nameEnd - 1];
          if name == TRAILER_NAME then Eof
          else
            var dataStart := pos + DataOffset(fields[11]);
            var dataEnd := dataStart + fields[6];
            if |file| < dataEnd then Malformed
            else Entry(FromFields(fields, name, file[dataStart..dataEnd]), dataEnd)
  }

  /** The bytes of a printed record, located in a longer file. */
  lemma PrintedAt(file: string, pos: nat, r: Record)
    requires Fits(r) && pos + PrintedSize(r) <= |file|
    requires file[pos..pos + PrintedSize(r)] == Print(r)
    ensures file[pos..pos + 6] == "070701"
    ensures ParseFields(file[pos + 6..pos + HEADER_SIZE]) == Some(HeaderFields(r))
    ensures file[pos + HEADER_SIZE..pos + HEADER_SIZE + |r.name|] == r.name
    ensures file[pos + HEADER_SIZE + |r.name|] == '\0'
    ensures var d := DataOffset(|r.name| + 1); file[pos + d..pos + d + |r.data|] == r.data
  {
    hide Print, HeaderFields, ParseFields, PrintFields;
    var s := Print(r);
    var n := |r.name|;
    var d := DataOffset(n + 1);
    PrintParts(r);
    ParsePrintFields(HeaderFields(r));
    SliceOfSlice(file, pos, |s|, 0, 6);
    SliceOfSlice(file, pos, |s|, 6, HEADER_SIZE);
    SliceOfSlice(file, pos, |s|, HEADER_SIZE, HEADER_SIZE + n);
    SliceOfSlice(file, pos, |s|, d, d + |r.data|);
    assert file[pos..pos + |s|][HEADER_SIZE + n] == file[pos + HEADER_SIZE + n];
  }

  /** The parts of a printed record. */
  lemma PrintParts(r: Record)
    requires Fits(r)
    ensures var s, n, d := Print(r), |r.name|, DataOffset(|r.name| + 1);
            && s[..6] == "070701" && s[6..HEADER_SIZE] == PrintFields(HeaderFields(r))
            && s[HEADER_SIZE..HEADER_SIZE + n] == r.name && s[HEADER_SIZE + n] == '\0'
            && s[d..d + |r.data|] == r.data
  {
    var n, d := |r.name|, DataOffset(|r.name| + 1);
    var magic, fields := "070701", PrintFields(HeaderFields(r));
    var zeros := Zeros(d - HEADER_SIZE - n);
    var more := Zeros(PrintedSize(r) - d - |r.data|);
    assert Print(r) == magic + fields + r.name + zeros + r.data + more;
    assert |magic| == 6 && |fields| == 104;
    assert zeros != "" && zeros[0] == '\0';
    hide Print, PrintFields, HeaderFields;
    Parts(magic, fields, r.name, zeros, r.data, more);
  }

  lemma Parts(a: string, b: string, c: string, d: string, e: string, f: string)
    ensures var s := a + b + c + d + e + f;
            var i := |a| + |b|;
            var j := i + |c| + |d|;
            && s[..|a|] == a && s[|a|..i] == b && s[i..i + |c|] == c
            && (d != "" ==> s[i + |c|] == d[0]) && s[j..j + |e|] == e
  {
    var s := a + b + c + d + e + f;
    var ef := e + f;
    var def := d + ef;
    var cdef := c + def;
    Assoc(a + b + c + d, e, f);
    Assoc(a + b + c, d, ef);
    Assoc(a + b, c, def);
    Assoc(a, b, cdef);
    assert s == a + (b + cdef) && "" + a == a;
    Middle(s, "", a, b + cdef);
    Middle(s, a, b, cdef);
    Middle(s, a + b, c, def);
    Middle(s, a + b + c, d, ef);
    Middle(s, a + b + c + d, e, f);
    var i := |a| + |b| + |c|;
    if d != "" {
      assert s[i] == s[i..i + |d|][0];
    }
  }

  lemma Assoc(u: string, v: string, w: string)
    ensures u + v + w == u + (v + w)
  {
  }

  lemma Middle(s: string, before: string, part: string, after: string)
    requires s == before + part + after
    ensures s[|before|..|before| + |part|] == part
  {
  }

  /** Reading undoes printing, wherever in a file the record is. */
  lemma NextEntryOfPrinted(file: string, pos: nat, r: Record)
    requires Fits(r) && r.name != TRAILER_NAME && pos + PrintedSize(r) <= |file| && pos % 4 == 0
    requires file[pos..pos + PrintedSize(r)] == Print(r)
    ensures var e := NextEntry(file, pos); e.Entry? && e.rec == r && Align4(e.end) == pos + PrintedSize(r)
  {
    hide Print, HeaderFields, FromFields, ParseFields;
    PrintedAt(file, pos, r);
    FieldsBack(r);
    AlignShift(pos, DataOffset(|r.name| + 1) + |r.data|);
  }

  lemma FieldsBack(r: Record)
    requires Fits(r)
    ensures HeaderFields(r)[11] == |r.name| + 1 && HeaderFields(r)[6] == |r.data|
    ensures FromFields(HeaderFields(r), r.name, r.data) == r
  {
  }

  /** Padding relative to a record and padding relative to the file agree at aligned offsets. */
  lemma AlignShift(pos: nat, n: nat)
    requires pos % 4 == 0
    ensures Align4(pos + n) == pos + Align4(n)
  {
  }

  /** The reader looks at no byte behind the entry it returns. */
  lemma NextEntryLocal(file: string, file': string, pos: nat, upto: nat)
    requires NextEntry(file, pos).Entry? && NextEntry(file, pos).end <= upto <= |file| && upto <= |file'|
    requires file[..upto] == file'[..upto]
    ensures NextEntry(file', pos) == NextEntry(file, pos)
  {
    var e := NextEntry(file, pos);
    assert forall i, j | 0 <= i <= j <= upto :: file[i..j] == file'[i..j] by {
      forall i, j | 0 <= i <= j <= upto ensures file[i..j] == file'[i..j] {
        assert file[i..j] == file[..upto][i..j] && file'[i..j] == file'[..upto][i..j];
      }
    }
  }

  /** Where the reader takes an entry from: its inode at byte 6 of the header, the size of its data at 54, that of its
      name, with the NUL, at 94; the name behind the header, and the data at the next multiple of four. */
  lemma EntryReads(file: string, pos: nat)
    requires NextEntry(file, pos).Entry? && pos % 4 == 0
    ensures var r, end := NextEntry(file, pos).rec, NextEntry(file, pos).end;
            && pos + 110 + |r.name| < end - |r.data| <= pos + 110 + |r.name| + 4
            && (end - |r.data|) % 4 == 0 && end <= |file|
            && ParseField(file[pos + 6..pos + 14]) == Some(r.ino)
            && ParseField(file[pos + 54..pos + 62]) == Some(|r.data|)
            && ParseField(file[pos + 94..pos + 102]) == Some(|r.name| + 1)
            && file[pos + 110..pos + 110 + |r.name|] == r.name && file[end - |r.data|..end] == r.data
  {
    hide NextEntry, ParseField;
    EntryFields(file, pos);
    EntryEnds(file, pos);
  }

  lemma EntryFields(file: string, pos: nat)
    requires NextEntry(file, pos).Entry?
    ensures var r, end := NextEntry(file, pos).rec, NextEntry(file, pos).end;
            end <= |file| && pos + 110 + |r.name| < end - |r.data|
            && ParseField(file[pos + 6..pos + 14]) == Some(r.ino)
            && ParseField(file[pos + 54..pos + 62]) == Some(|r.data|)
            && ParseField(file[pos + 94..pos + 102]) == Some(|r.name| + 1)
  {
    FieldsRead(file, pos);
    hide ParseFields, ParseField;
  }

  lemma EntryEnds(file: string, pos: nat)
    requires NextEntry(file, pos).Entry? && pos % 4 == 0
    ensures var r, end := NextEntry(file, pos).rec, NextEntry(file, pos).end;
            end <= |file| && pos + 110 + |r.name| < end - |r.data| <= pos + 110 + |r.name| + 4
            && (end - |r.data|) % 4 == 0
            && file[pos + 110..pos + 110 + |r.name|] == r.name && file[end - |r.data|..end] == r.data
  {
    hide ParseFields, ParseField;
  }

  lemma FieldsRead(file: string, pos: nat)
    requires pos + HEADER_SIZE <= |file| && ParseFields(file[pos + 6..pos + HEADER_SIZE]).Some?
    ensures var values := ParseFields(file[pos + 6..pos + HEADER_SIZE]).value;
            && |values| == 13 && ParseField(file[pos + 6..pos + 14]) == Some(values[0])
            && ParseField(file[pos + 54..pos + 62]) == Some(values[6])
            && ParseField(file[pos + 94..pos + 102]) == Some(values[11])
  {
    var fields := file[pos + 6..pos + HEADER_SIZE];
    ParseFieldsAt(fields, 0);
    ParseFieldsAt(fields, 6);
    ParseFieldsAt(fields, 11);
    hide ParseFields, ParseField;
    SliceOfSlice(file, pos + 6, HEADER_SIZE - 6, 0, 8);
    SliceOfSlice(file, pos + 6, HEADER_SIZE - 6, 48, 56);
    SliceOfSlice(file, pos + 6, HEADER_SIZE - 6, 88, 96);
  }

  // ------------------------------------------------------------------ the trailer

  datatype TrailerStatus =
    | TrailerOk
    | MissingTrailer
    | ShortHeader
    | UnsupportedMagic
    | InvalidFileSize
    | NonzeroFileSize
    | InvalidNameSize
    | WrongNameSize
    | ShortName
    | WrongName

  /** `validateTrailerAt` */
  function ValidateTrailerAt(file: string, offset: nat): TrailerStatus {
    if |file| <= offset then MissingTrailer
    else if |file| < offset + HEADER_SIZE then ShortHeader
    else
      var header := file[offset..offset + HEADER_SIZE];
      if !KnownMagic(header[..6]) then UnsupportedMagic
      else
        match ParseField(header[54..62])
        case None => InvalidFileSize
        case Some(size) =>
          if size != 0 then NonzeroFileSize
          else
            match ParseField(header[94..102])
            case None => InvalidNameSize
            case Some(nameSize) =>
              var expectedName := TRAILER_NAME + "\0";
              if nameSize != |expectedName| then WrongNameSize
              else if |file| < offset + HEADER_SIZE + |expectedName| then ShortName
              else if file[offset + HEADER_SIZE..offset + HEADER_SIZE + |expectedName|] != expectedName then WrongName
              else TrailerOk
  }

  /** What the check accepts, byte by byte: a header with one of the two magic numbers, no data, and a name of eleven
      bytes, and behind it the trailer's name. */
  lemma ValidTrailerExactly(file: string, offset: nat)
    ensures ValidateTrailerAt(file, offset) == TrailerOk <==>
              && |file| >= offset + 121
              && (file[offset..offset + 6] == "070701" || file[offset..offset + 6] == "070702")
              && ParseField(file[offset + 54..offset + 62]) == Some(0)
              && ParseField(file[offset + 94..offset + 102]) == Some(11)
              && file[offset + 110..offset + 121] == "TRAILER!!!\0"
  {
    hide ParseField;
    if |file| >= offset + HEADER_SIZE {
      SliceOfSlice(file, offset, HEADER_SIZE, 0, 6);
      SliceOfSlice(file, offset, HEADER_SIZE, 54, 62);
      SliceOfSlice(file, offset, HEADER_SIZE, 94, 102);
      assert file[offset..offset + HEADER_SIZE][0..6] == file[offset..offset + HEADER_SIZE][..6];
    }
  }

  /** A printed record with the trailer's name and no data passes the check, and is where the reader stops. */
  lemma PrintedTrailer(file: string, pos: nat, r: Record)
    requires Fits(r) && r.name == TRAILER_NAME && r.data == ""
    requires pos + PrintedSize(r) <= |file| && file[pos..pos + PrintedSize(r)] == Print(r)
    ensures NextEntry(file, pos) == Eof && ValidateTrailerAt(file, pos) == TrailerOk
  {
    PrintedAt(file, pos, r);
    HeaderSlices(file, pos);
    var fields := file[pos + 6..pos + HEADER_SIZE];
    ParseFieldsAt(fields, 6);
    ParseFieldsAt(fields, 11);
    var n := |TRAILER_NAME|;
    var name := file[pos + HEADER_SIZE..pos + HEADER_SIZE + n];
    assert file[pos + HEADER_SIZE..pos + HEADER_SIZE + n + 1] == name + [file[pos + HEADER_SIZE + n]];
    assert [file[pos + HEADER_SIZE + n]] == "\0";
  }

  lemma HeaderSlices(file: string, pos: nat)
    requires pos + HEADER_SIZE <= |file|
    ensures var header := file[pos..pos + HEADER_SIZE];
            var fields := file[pos + 6..pos + HEADER_SIZE];
            && header[..6] == file[pos..pos + 6]
            && header[54..62] == fields[8 * 6..8 * 6 + 8]
            && header[94..102] == fields[8 * 11..8 * 11 + 8]
  {
  }

  /** What the check accepts is an end for the reader too, if the other fields are digits: the trailer's name. */
  lemma ValidTrailerEndsReading(file: string, offset: nat)
    requires ValidateTrailerAt(file, offset) == TrailerOk
    ensures !NextEntry(file, offset).Entry?
    ensures ParseFields(file[offset + 6..offset + HEADER_SIZE]).Some? ==> NextEntry(file, offset) == Eof
  {
    var fields := file[offset + 6..offset + HEADER_SIZE];
    HeaderSlices(file, offset);
    if ParseFields(fields).Some? {
      ParseFieldsAt(fields, 11);
      var nameEnd := offset + HEADER_SIZE + 11;
      assert file[offset + HEADER_SIZE..nameEnd - 1] == file[offset + HEADER_SIZE..nameEnd][..10];
      assert (TRAILER_NAME + "\0")[..10] == TRAILER_NAME;
    }
  }
}
