/** The out-of-band wire format: big-endian integers and the 53-byte endpoint record. */
module Wire {
  import opened Base

  type Byte = x: int | 0 <= x < 0x100
  type U16 = x: int | 0 <= x < 0x1_0000
  type U32 = x: int | 0 <= x < 0x1_0000_0000
  type U64 = x: int | 0 <= x < 0x1_0000_0000_0000_0000

  /** The n low-order bytes of v, most significant first. */
  function BigEndian(v: nat, n: nat): (bytes: seq<Byte>)
    ensures |bytes| == n
  {
    if n == 0 then [] else BigEndian(v / 0x100, n - 1) + [v % 0x100]
  }

  function Value(bytes: seq<Byte>): nat {
    if bytes == [] then 0 else 0x100 * Value(bytes[..|bytes| - 1]) + bytes[|bytes| - 1]
  }

  function Pow256(n: nat): (p: nat)
    ensures p > 0
  {
    if n == 0 then 1 else 0x100 * Pow256(n - 1)
  }

  lemma {:induction false} ValueAppend(bytes: seq<Byte>, b: Byte)
    ensures Value(bytes + [b]) == 0x100 * Value(bytes) + b
  {
    assert (bytes + [b])[..|bytes|] == bytes;
  }

  lemma {:induction false} ValueBound(bytes: seq<Byte>)
    ensures Value(bytes) < Pow256(|bytes|)
  {
    if bytes != [] {
      ValueBound(bytes[..|bytes| - 1]);
    }
  }

  lemma {:induction false} DivDiv(v: nat, n: nat)
    ensures v / 0x100 / Pow256(n) == v / Pow256(n + 1)
  {
    var a, m := v / 0x100, Pow256(n);
    var q := a / m;
    assert a == m * q + a % m;
    assert v == 0x100 * a + v % 0x100;
    var rest := 0x100 * (a % m) + v % 0x100;
    assert 0x100 * (m * q) == (0x100 * m) * q;
    assert v == (0x100 * m) * q + rest && 0 <= rest < 0x100 * m;
    DivModUnique(v, 0x100 * m, q, rest);
  }

  /** Byte k is the value shifted right by 8 (n - 1 - k) bits, truncated. */
  lemma {:induction false} BigEndianByte(v: nat, n: nat, k: nat)
    requires k < n
    ensures BigEndian(v, n)[k] == v / Pow256(n - 1 - k) % 0x100
  {
    if k < n - 1 {
      BigEndianByte(v / 0x100, n - 1, k);
      DivDiv(v, n - 2 - k);
    }
  }

  lemma {:induction false} ValueOfBigEndian(v: nat, n: nat)
    requires v < Pow256(n)
    ensures Value(BigEndian(v, n)) == v
  {
    if n > 0 {
      ValueOfBigEndian(v / 0x100, n - 1);
      ValueAppend(BigEndian(v / 0x100, n - 1), v % 0x100);
    }
  }

  lemma {:induction false} BigEndianOfValue(bytes: seq<Byte>)
    ensures BigEndian(Value(bytes), |bytes|) == bytes
  {
    if bytes != [] {
      var n := |bytes| - 1;
      BigEndianOfValue(bytes[..n]);
      assert Value(bytes) / 0x100 == Value(bytes[..n]) && Value(bytes) % 0x100 == bytes[n];
    }
  }

  lemma {:induction false} Powers()
    ensures Pow256(0) == 1 && Pow256(1) == 0x100 && Pow256(2) == 0x1_0000 && Pow256(3) == 0x100_0000
    ensures Pow256(4) == 0x1_0000_0000 && Pow256(8) == 0x1_0000_0000_0000_0000
  {
    assert Pow256(1) == 0x100 * Pow256(0);
    assert Pow256(2) == 0x100 * Pow256(1);
    assert Pow256(3) == 0x100 * Pow256(2);
    assert Pow256(4) == 0x100 * Pow256(3);
    assert Pow256(5) == 0x100 * Pow256(4);
    assert Pow256(6) == 0x100 * Pow256(5);
    assert Pow256(7) == 0x100 * Pow256(6);
    assert Pow256(8) == 0x100 * Pow256(7);
  }

  /** Four bytes as a number, the first of them the most significant. */
  function Weigh4(a: int, b: int, c: int, d: int): int {
    0x100_0000 * a + 0x1_0000 * b + 0x100 * c + d
  }

  lemma {:induction false} ValueConcat(a: seq<Byte>, b: seq<Byte>)
    ensures Value(a + b) == Value(a) * Pow256(|b|) + Value(b)
  {
    if b == [] {
      assert a + b == a;
    } else {
      var n := |b| - 1;
      ValueConcat(a, b[..n]);
      assert (a + b)[..|a + b| - 1] == a + b[..n];
      assert Value(a) * Pow256(|b|) == 0x100 * (Value(a) * Pow256(n));
    }
  }

  lemma {:induction false} WeighOne(b: seq<Byte>)
    requires |b| == 1
    ensures Value(b) == b[0]
  {
    assert b[..0] == [];
  }

  lemma {:induction false} WeighTwo(b: seq<Byte>)
    requires |b| == 2
    ensures Value(b) == 0x100 * (b[0] as int) + b[1] as int
  {
    WeighOne(b[..1]);
  }

  lemma {:induction false} WeighFour(b: seq<Byte>)
    requires |b| == 4
    ensures Value(b) == Weigh4(b[0], b[1], b[2], b[3])
  {
    assert b == b[..2] + b[2..];
    ValueConcat(b[..2], b[2..]);
    WeighTwo(b[..2]);
    WeighTwo(b[2..]);
    Powers();
  }

  lemma {:induction false} WeighEight(b: seq<Byte>)
    requires |b| == 8
    ensures Value(b) == 0x1_0000_0000 * Weigh4(b[0], b[1], b[2], b[3]) + Weigh4(b[4], b[5], b[6], b[7])
    ensures 0 <= Weigh4(b[4], b[5], b[6], b[7]) < 0x1_0000_0000
  {
    assert b == b[..4] + b[4..];
    ValueConcat(b[..4], b[4..]);
    WeighFour(b[..4]);
    WeighFour(b[4..]);
    Powers();
  }

  // ----- the byte cursor

  /** `buf` holds `bytes` from p on, and is otherwise as it was. */
  twostate predicate Stored(buf: array<Byte>, p: nat, bytes: seq<Byte>)
    requires p + |bytes| <= buf.Length
    reads buf
  {
    buf[..p + |bytes|] == old(buf[..p]) + bytes && buf[p + |bytes|..] == old(buf[p + |bytes|..])
  }

  method PutU8(buf: array<Byte>, p: nat, v: Byte) returns (p': nat)
    requires p + 1 <= buf.Length
    modifies buf
    ensures p' == p + 1 && Stored(buf, p, BigEndian(v, 1)) && buf[p] == v
  {
    BigEndianByte(v, 1, 0);
    assert Pow256(0) == 1;
    buf[p] := v;
    p' := p + 1;
  }

  method PutU16(buf: array<Byte>, p: nat, v: U16) returns (p': nat)
    requires p + 2 <= buf.Length
    modifies buf
    ensures p' == p + 2 && Stored(buf, p, BigEndian(v, 2))
  {
    Powers();
    BigEndianByte(v, 2, 0);
    BigEndianByte(v, 2, 1);
    buf[p] := v / 0x100 % 0x100;
    buf[p + 1] := v % 0x100;
    p' := p + 2;
  }

  method PutU32(buf: array<Byte>, p: nat, v: U32) returns (p': nat)
    requires p + 4 <= buf.Length
    modifies buf
    ensures p' == p + 4 && Stored(buf, p, BigEndian(v, 4))
  {
    Powers();
    BigEndianByte(v, 4, 0);
    BigEndianByte(v, 4, 1);
    BigEndianByte(v, 4, 2);
    BigEndianByte(v, 4, 3);
    buf[p] := v / 0x100_0000 % 0x100;
    buf[p + 1] := v / 0x1_0000 % 0x100;
    buf[p + 2] := v / 0x100 % 0x100;
    buf[p + 3] := v % 0x100;
    p' := p + 4;
  }

  method PutU64(buf: array<Byte>, p: nat, v: U64) returns (p': nat)
    requires p + 8 <= buf.Length
    modifies buf
    ensures p' == p + 8 && Stored(buf, p, BigEndian(v, 8))
  {
    p' := p;
    var k := 8;
    while k > 0
      invariant 0 <= k <= 8 && p' == p + (8 - k)
      invariant buf[..p] == old(buf[..p]) && buf[p + 8..] == old(buf[p + 8..])
      invariant buf[p..p'] == BigEndian(v, 8)[..8 - k]
    {
      BigEndianByte(v, 8, 8 - k);
      buf[p'] := v / Pow256(k - 1) % 0x100;
      p' := p' + 1;
      k := k - 1;
    }
  }

  method GetU8(buf: array<Byte>, p: nat) returns (v: Byte, p': nat)
    requires p + 1 <= buf.Length
    ensures p' == p + 1 && v == Value(buf[p..p']) && v == buf[p]
  {
    assert buf[p..p + 1] == [] + [buf[p]];
    ValueAppend([], buf[p]);
    v, p' := buf[p], p + 1;
  }

  method GetU16(buf: array<Byte>, p: nat) returns (v: U16, p': nat)
    requires p + 2 <= buf.Length
    ensures p' == p + 2 && v == Value(buf[p..p'])
    ensures v / 0x100 == buf[p] && v % 0x100 == buf[p + 1]
  {
    var hi: U16, lo: U16 := buf[p], buf[p + 1];
    assert buf[p..p + 2] == [] + [buf[p]] + [buf[p + 1]];
    ValueAppend([], buf[p]);
    ValueAppend([] + [buf[p]], buf[p + 1]);
    v, p' := 0x100 * hi + lo, p + 2;
  }

  method GetU32(buf: array<Byte>, p: nat) returns (v: U32, p': nat)
    requires p + 4 <= buf.Length
    ensures p' == p + 4 && v == Value(buf[p..p'])
    ensures v == Weigh4(buf[p], buf[p + 1], buf[p + 2], buf[p + 3])
  {
    var a: U32, b: U32, c: U32, d: U32 := buf[p], buf[p + 1], buf[p + 2], buf[p + 3];
    assert buf[p..p + 4] == [] + [buf[p]] + [buf[p + 1]] + [buf[p + 2]] + [buf[p + 3]];
    ValueAppend([], buf[p]);
    ValueAppend([] + [buf[p]], buf[p + 1]);
    ValueAppend([] + [buf[p]] + [buf[p + 1]], buf[p + 2]);
    ValueAppend([] + [buf[p]] + [buf[p + 1]] + [buf[p + 2]], buf[p + 3]);
    v, p' := 0x100_0000 * a + 0x1_0000 * b + 0x100 * c + d, p + 4;
  }

  /** The shift drops what leaves 64 bits; nothing ever does. */
  method GetU64(buf: array<Byte>, p: nat) returns (v: U64, p': nat)
    requires p + 8 <= buf.Length
    ensures p' == p + 8 && v == Value(buf[p..p'])
    ensures v / 0x1_0000_0000 == Weigh4(buf[p], buf[p + 1], buf[p + 2], buf[p + 3])
    ensures v % 0x1_0000_0000 == Weigh4(buf[p + 4], buf[p + 5], buf[p + 6], buf[p + 7])
  {
    v := 0;
    for i := 0 to 8
      invariant v == Value(buf[p..p + i]) < Pow256(i)
    {
      assert buf[p..p + i + 1][..i] == buf[p..p + i];
      Powers();
      PowMonotone(i + 1, 8);
      v := (0x100 * v) % 0x1_0000_0000_0000_0000 + buf[p + i];
    }
    p' := p + 8;
    WeighEight(buf[p..p']);
  }

  lemma {:induction false} PowMonotone(a: nat, b: nat)
    requires a <= b
    ensures Pow256(a) <= Pow256(b)
    decreases b - a
  {
    if a < b {
      PowMonotone(a + 1, b);
    }
  }

  // ----- the endpoint record

  type Gid = g: seq<Byte> | |g| == 16 witness seq(16, i => 0)

  datatype EndpointInfo = EndpointInfo(
    rank: U32, qpNum: U32, psn: U32, lid: U16, port: Byte, mtu: Byte, gidIndex: Byte,
    gid: Gid, rkey: U32, addr: U64, bufLen: U64)

  const WIRE_SIZE: nat := 53

  /** What stands before the address of the port. */
  function Head(info: EndpointInfo): (bytes: seq<Byte>)
    ensures |bytes| == 17
  {
    BigEndian(info.rank, 4) + BigEndian(info.qpNum, 4) + BigEndian(info.psn, 4) + BigEndian(info.lid, 2)
    + BigEndian(info.port, 1) + BigEndian(info.mtu, 1) + BigEndian(info.gidIndex, 1)
  }

  function Tail(info: EndpointInfo): (bytes: seq<Byte>)
    ensures |bytes| == 36
  {
    info.gid + BigEndian(info.rkey, 4) + BigEndian(info.addr, 8) + BigEndian(info.bufLen, 8)
  }

  function Encode(info: EndpointInfo): (bytes: seq<Byte>)
    ensures |bytes| == WIRE_SIZE
  {
    Head(info) + Tail(info)
  }

  /** The integer in bytes p to q, for fields of up to 8 bytes. */
  function Field(bytes: seq<Byte>, p: nat, q: nat): (v: nat)
    requires p <= q <= |bytes|
    ensures v < Pow256(q - p)
  {
    ValueBound(bytes[p..q]);
    Value(bytes[p..q])
  }

  function Decode(bytes: seq<Byte>): EndpointInfo
    requires |bytes| == WIRE_SIZE
  {
    Powers();
    EndpointInfo(Field(bytes, 0, 4), Field(bytes, 4, 8), Field(bytes, 8, 12), Field(bytes, 12, 14),
                 Field(bytes, 14, 15), Field(bytes, 15, 16), Field(bytes, 16, 17),
                 bytes[17..33], Field(bytes, 33, 37), Field(bytes, 37, 45), Field(bytes, 45, 53))
  }

  /** A reader at p that expects n bytes of v finds them and moves on to what follows. */
  lemma {:induction false} ReadField(e: seq<Byte>, p: nat, v: nat, n: nat, rest: seq<Byte>)
    requires v < Pow256(n) && p <= |e| && e[p..] == BigEndian(v, n) + rest
    ensures p + n <= |e| && Field(e, p, p + n) == v && e[p + n..] == rest
  {
    assert e[p..p + n] == e[p..][..n] == BigEndian(v, n);
    assert e[p + n..] == e[p..][n..];
    ValueOfBigEndian(v, n);
  }

  lemma {:induction false} ReadHead(e: seq<Byte>, info: EndpointInfo, rest: seq<Byte>)
    requires |e| == WIRE_SIZE && e == Head(info) + rest
    ensures e[17..] == rest
    ensures Field(e, 0, 4) == info.rank && Field(e, 4, 8) == info.qpNum && Field(e, 8, 12) == info.psn
    ensures Field(e, 12, 14) == info.lid && Field(e, 14, 15) == info.port && Field(e, 15, 16) == info.mtu
    ensures Field(e, 16, 17) == info.gidIndex
  {
    Powers();
    var r6 := BigEndian(info.gidIndex, 1) + rest;
    var r5 := BigEndian(info.mtu, 1) + r6;
    var r4 := BigEndian(info.port, 1) + r5;
    var r3 := BigEndian(info.lid, 2) + r4;
    var r2 := BigEndian(info.psn, 4) + r3;
    var r1 := BigEndian(info.qpNum, 4) + r2;
    assert e[0..] == BigEndian(info.rank, 4) + r1;
    ReadField(e, 0, info.rank, 4, r1);
    ReadField(e, 4, info.qpNum, 4, r2);
    ReadField(e, 8, info.psn, 4, r3);
    ReadField(e, 12, info.lid, 2, r4);
    ReadField(e, 14, info.port, 1, r5);
    ReadField(e, 15, info.mtu, 1, r6);
    ReadField(e, 16, info.gidIndex, 1, rest);
  }

  lemma {:induction false} ReadTail(e: seq<Byte>, info: EndpointInfo)
    requires |e| == WIRE_SIZE && e[17..] == Tail(info)
    ensures e[17..33] == info.gid && Field(e, 33, 37) == info.rkey && Field(e, 37, 45) == info.addr
    ensures Field(e, 45, 53) == info.bufLen
  {
    Powers();
    var r2 := BigEndian(info.bufLen, 8) + [];
    var r1 := BigEndian(info.addr, 8) + r2;
    var r0 := BigEndian(info.rkey, 4) + r1;
    assert e[17..] == info.gid + r0;
    assert e[17..33] == e[17..][..16] && e[33..] == e[17..][16..];
    ReadField(e, 33, info.rkey, 4, r1);
    ReadField(e, 37, info.addr, 8, r2);
    ReadField(e, 45, info.bufLen, 8, []);
  }

  /** A field of one, two, four or eight bytes is read most significant byte first. */
  lemma {:induction false} FieldBytes(b: seq<Byte>, p: nat)
    ensures p + 1 <= |b| ==> Field(b, p, p + 1) == b[p]
    ensures p + 2 <= |b| ==> Field(b, p, p + 2) == 0x100 * (b[p] as int) + b[p + 1] as int
    ensures p + 4 <= |b| ==> Field(b, p, p + 4) == Weigh4(b[p], b[p + 1], b[p + 2], b[p + 3])
    ensures p + 8 <= |b| ==> Field(b, p, p + 8) == 0x1_0000_0000 * Weigh4(b[p], b[p + 1], b[p + 2], b[p + 3])
                                                   + Weigh4(b[p + 4], b[p + 5], b[p + 6], b[p + 7])
  {
    if p + 1 <= |b| { WeighOne(b[p..p + 1]); }
    if p + 2 <= |b| { WeighTwo(b[p..p + 2]); }
    if p + 4 <= |b| { WeighFour(b[p..p + 4]); }
    if p + 8 <= |b| { WeighEight(b[p..p + 8]); }
  }

  /** Where each field of a record stands. */
  lemma {:induction false} RecordLayout(info: EndpointInfo)
    ensures var e := Encode(info);
            && |e| == 53 && Field(e, 0, 4) == info.rank && Field(e, 4, 8) == info.qpNum && Field(e, 8, 12) == info.psn
            && Field(e, 12, 14) == info.lid && Field(e, 14, 15) == info.port && Field(e, 15, 16) == info.mtu
            && Field(e, 16, 17) == info.gidIndex && e[17..33] == info.gid && Field(e, 33, 37) == info.rkey
            && Field(e, 37, 45) == info.addr && Field(e, 45, 53) == info.bufLen
  {
    ReadHead(Encode(info), info, Tail(info));
    ReadTail(Encode(info), info);
  }

  /** Nothing is lost on the wire. */
  lemma {:induction false} DecodeEncode(info: EndpointInfo)
    ensures Decode(Encode(info)) == info
  {
    ReadHead(Encode(info), info, Tail(info));
    ReadTail(Encode(info), info);
  }

  /** Every 53-byte string is the encoding of what it decodes to. */
  lemma {:induction false} EncodeDecode(bytes: seq<Byte>)
    requires |bytes| == WIRE_SIZE
    ensures Encode(Decode(bytes)) == bytes
  {
    var b := bytes;
    BigEndianOfValue(b[0..4]);
    BigEndianOfValue(b[4..8]);
    BigEndianOfValue(b[8..12]);
    BigEndianOfValue(b[12..14]);
    BigEndianOfValue(b[14..15]);
    BigEndianOfValue(b[15..16]);
    BigEndianOfValue(b[16..17]);
    BigEndianOfValue(b[33..37]);
    BigEndianOfValue(b[37..45]);
    BigEndianOfValue(b[45..53]);
    var info := Decode(bytes);
    assert b[..17] == Head(info);
    assert b[17..] == Tail(info);
  }

  method PutGid(buf: array<Byte>, p: nat, gid: Gid) returns (p': nat)
    requires p + 16 <= buf.Length
    modifies buf
    ensures p' == p + 16 && Stored(buf, p, gid)
  {
    p' := p;
    for i := 0 to 16
      invariant p' == p + i
      invariant buf[..p] == old(buf[..p]) && buf[p + 16..] == old(buf[p + 16..])
      invariant buf[p..p'] == gid[..i]
    {
      buf[p'] := gid[i];
      p' := p' + 1;
    }
  }

  method EncodeEndpointInfo(info: EndpointInfo, out: array<Byte>)
    requires out.Length == WIRE_SIZE
    modifies out
    ensures out[..] == Encode(info)
  {
    var p := PutU32(out, 0, info.rank);
    assert out[..p] == BigEndian(info.rank, 4);
    p := PutU32(out, p, info.qpNum);
    p := PutU32(out, p, info.psn);
    p := PutU16(out, p, info.lid);
    p := PutU8(out, p, info.port);
    p := PutU8(out, p, info.mtu);
    p := PutU8(out, p, info.gidIndex);
    assert out[..p] == Head(info);
    p := PutTail(out, p, info);
    assert p == out.Length;
    assert out[..] == out[..p];
  }

  method PutTail(out: array<Byte>, p: nat, info: EndpointInfo) returns (p': nat)
    requires p + 36 <= out.Length
    modifies out
    ensures p' == p + 36 && out[..p'] == old(out[..p]) + Tail(info)
  {
    ghost var head := out[..p];
    p' := PutGid(out, p, info.gid);
    p' := PutU32(out, p', info.rkey);
    p' := PutU64(out, p', info.addr);
    p' := PutU64(out, p', info.bufLen);
    assert out[..p'] == head + info.gid + BigEndian(info.rkey, 4) + BigEndian(info.addr, 8) + BigEndian(info.bufLen, 8);
    assert out[..p'] == head + Tail(info);
  }

  method DecodeEndpointInfo(bytes: array<Byte>) returns (info: EndpointInfo)
    requires bytes.Length == WIRE_SIZE
    ensures info == Decode(bytes[..])
  {
    var p := 0;
    var rank, qpNum, psn, rkey: U32;
    var lid: U16;
    var port, mtu, gidIndex: Byte;
    var addr, bufLen: U64;
    rank, p := GetU32(bytes, p);
    qpNum, p := GetU32(bytes, p);
    psn, p := GetU32(bytes, p);
    lid, p := GetU16(bytes, p);
    port, p := GetU8(bytes, p);
    mtu, p := GetU8(bytes, p);
    gidIndex, p := GetU8(bytes, p);
    var gid: Gid := bytes[p..p + 16];
    p := p + 16;
    rkey, p := GetU32(bytes, p);
    addr, p := GetU64(bytes, p);
    bufLen, p := GetU64(bytes, p);
    assert p == bytes.Length;
    info := EndpointInfo(rank, qpNum, psn, lid, port, mtu, gidIndex, gid, rkey, addr, bufLen);
  }
}
