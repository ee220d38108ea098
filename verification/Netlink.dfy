/** The netlink attributes that ipc_message.go serializes: a length and a type of two bytes each, the payload,
    and padding to a multiple of four. Numbers are little-endian, as on the architectures urunc runs on. */
module Netlink {
  import opened GoStrings
  import opened Padding

  const NLA_HDRLEN := 4
  const MAX_UINT16 := 0xFFFF

  type uint16 = x: int | 0 <= x < 0x1_0000
  type uint32 = x: int | 0 <= x < 0x1_0000_0000

  datatype Attr = Attr(ty: uint16, payload: string)

  function Byte(n: nat): char {
    (n % 256) as char
  }

  function LE16(n: uint16): (s: string)
    ensures |s| == 2
  {
    [Byte(n), Byte(n / 256)]
  }

  function LE32(n: uint32): (s: string)
    ensures |s| == 4
  {
    LE16(n % 0x1_0000) + LE16(n / 0x1_0000)
  }

  function FromLE(s: string): nat {
    if s == "" then 0 else s[0] as nat + 256 * FromLE(s[1..])
  }

  lemma FromLE16(n: uint16)
    ensures FromLE(LE16(n)) == n
  {
    var s := LE16(n);
    assert s[1..] == [Byte(n / 256)];
    assert s[1..][1..] == "";
    assert FromLE(s[1..]) == n / 256;
  }

  lemma FromLE32(n: uint32)
    ensures FromLE(LE32(n)) == n
  {
    var lo, hi := LE16(n % 0x1_0000), LE16(n / 0x1_0000);
    FromLE16(n % 0x1_0000);
    FromLE16(n / 0x1_0000);
    assert LE32(n)[0] == lo[0] && LE32(n)[1..][0] == lo[1] && LE32(n)[1..][1..] == hi;
    assert lo[1..][0] == lo[1] && lo[1..][1..] == "";
    assert FromLE(lo) == lo[0] as nat + 256 * (lo[1] as nat + 256 * FromLE(""));
  }

  function Len(a: Attr): nat {
    NLA_HDRLEN + |a.payload|
  }

  predicate Fits(a: Attr) {
    Len(a) <= MAX_UINT16
  }

  function Bytes(a: Attr): (s: string)
    requires Fits(a)
    ensures |s| == Align4(Len(a))
  {
    LE16(Len(a)) + LE16(a.ty) + a.payload + Zeros(Align4(Len(a)) - Len(a))
  }

  /** `bytemsg`: the value ends with a NUL. */
  function ByteMsg(ty: uint16, value: string): Attr {
    Attr(ty, value + "\0")
  }

  /** `int32msg` */
  function Int32Msg(ty: uint16, value: uint32): Attr {
    Attr(ty, LE32(value))
  }

  // ------------------------------------------------------------------ serializing

  method PutUint16(buf: array<char>, at: nat, n: uint16)
    requires at + 2 <= buf.Length
    modifies buf
    ensures buf[..] == old(buf[..])[..at] + LE16(n) + old(buf[..])[at + 2..]
  {
    buf[at], buf[at + 1] := Byte(n), Byte(n / 256);
  }

  method CopyAt(buf: array<char>, at: nat, value: string)
    requires at + |value| <= buf.Length
    modifies buf
    ensures buf[..] == old(buf[..])[..at] + value + old(buf[..])[at + |value|..]
  {
    forall i | 0 <= i < |value| {
      buf[at + i] := value[i];
    }
  }

  /** `int32msg.Serialize` */
  method SerializeInt32(ty: uint16, value: uint32) returns (buf: array<char>)
    ensures fresh(buf) && Fits(Int32Msg(ty, value)) && buf[..] == Bytes(Int32Msg(ty, value))
  {
    buf := new char[NLA_HDRLEN + 4](_ => '\0');
    PutUint16(buf, 0, NLA_HDRLEN + 4);
    PutUint16(buf, 2, ty);
    CopyAt(buf, 4, LE32(value));
    assert Zeros(0) == "";
  }

  /** `bytemsg.Serialize`: it fails exactly on a value whose length does not fit two bytes. */
  method SerializeBytes(ty: uint16, value: string) returns (ok: bool, buf: array<char>)
    ensures fresh(buf)
    ensures ok == Fits(ByteMsg(ty, value))
    ensures ok ==> buf[..] == Bytes(ByteMsg(ty, value))
  {
    var l := NLA_HDRLEN + |value| + 1;
    if l > MAX_UINT16 {
      buf := new char[0];
      return false, buf;
    }
    buf := new char[Align4(l)](_ => '\0');
    ghost var zeros := buf[..];
    PutUint16(buf, 0, l);
    ghost var s1 := buf[..];
    PutUint16(buf, 2, ty);
    ghost var s2 := buf[..];
    CopyAt(buf, 4, value);
    ThreeWrites(zeros, LE16(l), LE16(ty), value, s1, s2, buf[..]);
    assert zeros[4 + |value|..] == "\0" + Zeros(Align4(l) - l);
    hide LE16, Zeros;
    assert value + ("\0" + Zeros(Align4(l) - l)) == (value + "\0") + Zeros(Align4(l) - l);
    return true, buf;
  }

  lemma ThreeWrites(zeros: string, a: string, b: string, value: string, s1: string, s2: string, s3: string)
    requires |a| == 2 && |b| == 2 && 4 + |value| <= |zeros|
    requires s1 == zeros[..0] + a + zeros[2..] && s2 == s1[..2] + b + s1[4..]
    requires s3 == s2[..4] + value + s2[4 + |value|..]
    ensures s3 == a + b + (value + zeros[4 + |value|..])
  {
    assert s1[..2] == a && s1[4..] == zeros[4..];
    assert s2[..4] == a + b && s2[4 + |value|..] == zeros[4 + |value|..];
  }

  // ------------------------------------------------------------------ reading back

  ghost predicate AllFit(attrs: seq<Attr>) {
    forall i :: 0 <= i < |attrs| ==> Fits(attrs[i])
  }

  function BytesOf(attrs: seq<Attr>): string
    requires AllFit(attrs)
  {
    if attrs == [] then "" else Bytes(attrs[0]) + BytesOf(attrs[1..])
  }

  /** What a reader that knows the format makes of a message. */
  function Decode(msg: string): Option<seq<Attr>>
    decreases |msg|
  {
    if msg == "" then Some([])
    else if |msg| < NLA_HDRLEN then None
    else
      var len := FromLE(msg[..2]);
      var ty := FromLE(msg[2..4]);
      if len < NLA_HDRLEN || |msg| < Align4(len) || ty > MAX_UINT16 then None
      else
        match Decode(msg[Align4(len)..])
        case None => None
        case Some(rest) => Some([Attr(ty, msg[4..len])] + rest)
  }

  /** A message is read back as the attributes it was made of: the length is exact, and the next attribute
      starts at a multiple of four. */
  lemma {:induction false} DecodeBytes(attrs: seq<Attr>)
    requires AllFit(attrs)
    ensures Decode(BytesOf(attrs)) == Some(attrs)
    decreases |attrs|
  {
    if attrs != [] {
      var a, rest := attrs[0], BytesOf(attrs[1..]);
      DecodeBytes(attrs[1..]);
      DecodeFirst(a, rest);
      assert [a] + attrs[1..] == attrs;
    }
  }

  lemma DecodeFirst(a: Attr, rest: string)
    requires Fits(a) && Decode(rest).Some?
    ensures Decode(Bytes(a) + rest) == Some([a] + Decode(rest).value)
  {
    var len, ty := LE16(Len(a)), LE16(a.ty);
    var msg := Bytes(a) + rest;
    var pad := Zeros(Align4(Len(a)) - Len(a));
    FromLE16(Len(a));
    FromLE16(a.ty);
    hide LE16, FromLE;
    assert msg == len + ty + a.payload + pad + rest;
    assert msg[..2] == len && msg[2..4] == ty;
    assert msg[4..Len(a)] == a.payload;
    assert msg[Align4(Len(a))..] == rest;
  }
}
