/** Bootstrap messages: entries, counted frames of entries, and reading them piecemeal. */
module Frames {
  import opened Base
  import opened Wire

  type Int32 = x: int | -0x8000_0000 <= x < 0x8000_0000

  /** One endpoint record and the rank it is addressed to. */
  datatype Entry = Entry(dst: Int32, info: EndpointInfo)

  const ENTRY_SIZE: nat := 57

  function AsUnsigned(x: Int32): U32 {
    if x < 0 then x + 0x1_0000_0000 else x
  }

  function AsSigned(x: U32): Int32 {
    if x < 0x8000_0000 then x else x - 0x1_0000_0000
  }

  function EncodeEntry(e: Entry): (bytes: seq<Byte>)
    ensures |bytes| == ENTRY_SIZE
  {
    BigEndian(AsUnsigned(e.dst), 4) + Encode(e.info)
  }

  function DecodeEntry(bytes: seq<Byte>): Entry
    requires |bytes| == ENTRY_SIZE
  {
    Powers();
    Entry(AsSigned(Field(bytes, 0, 4)), Decode(bytes[4..]))
  }

  /** Where the parts of an entry stand: the destination first, as a 32-bit two's complement
      number, most significant byte first, then the record. */
  lemma {:induction false} EntryLayout(e: Entry)
    ensures var b := EncodeEntry(e);
            && |b| == 57 && Weigh4(b[0], b[1], b[2], b[3]) == (if e.dst >= 0 then e.dst else e.dst + 0x1_0000_0000)
            && b[4..] == Encode(e.info)
  {
    ReadCount(EncodeEntry(e), AsUnsigned(e.dst), Encode(e.info));
  }

  /** And how an entry is read. */
  lemma {:induction false} EntryRead(b: seq<Byte>)
    requires |b| == 57
    ensures var n := Weigh4(b[0], b[1], b[2], b[3]);
            DecodeEntry(b) == Entry(if n < 0x8000_0000 then n else n - 0x1_0000_0000, Decode(b[4..]))
  {
    FieldBytes(b, 0);
  }

  lemma {:induction false} DecodeEncodeEntry(e: Entry)
    ensures DecodeEntry(EncodeEntry(e)) == e
  {
    Powers();
    var bytes := EncodeEntry(e);
    assert bytes[0..] == bytes;
    ReadField(bytes, 0, AsUnsigned(e.dst), 4, Encode(e.info));
    DecodeEncode(e.info);
  }

  lemma {:induction false} EncodeDecodeEntry(bytes: seq<Byte>)
    requires |bytes| == ENTRY_SIZE
    ensures EncodeEntry(DecodeEntry(bytes)) == bytes
  {
    Powers();
    BigEndianOfValue(bytes[0..4]);
    EncodeDecode(bytes[4..]);
    assert bytes == bytes[0..4] + bytes[4..];
  }

  function EntryBytes(es: seq<Entry>): (bytes: seq<Byte>)
    ensures |bytes| == ENTRY_SIZE * |es|
  {
    if es == [] then [] else EntryBytes(es[..|es| - 1]) + EncodeEntry(es[|es| - 1])
  }

  /** A count, truncated to 32 bits as the source casts it, and that many entries. */
  function FrameOf(es: seq<Entry>): (bytes: seq<Byte>)
    ensures |bytes| == 4 + ENTRY_SIZE * |es| >= 4
  {
    BigEndian(|es|, 4) + EntryBytes(es)
  }

  lemma {:induction false} EntryAt(es: seq<Entry>, i: nat)
    requires i < |es|
    ensures 57 * i + 57 <= |EntryBytes(es)| && EntryBytes(es)[57 * i..57 * i + 57] == EncodeEntry(es[i])
  {
    var n := |es| - 1;
    var before, last := EntryBytes(es[..n]), EncodeEntry(es[n]);
    if i < n {
      EntryAt(es[..n], i);
      assert (before + last)[57 * i..57 * i + 57] == before[57 * i..57 * i + 57];
    } else {
      assert (before + last)[57 * i..57 * i + 57] == last;
    }
  }

  /** Where the parts of a frame stand: the count in the first four bytes, then the entries in
      order, 57 bytes each. */
  lemma {:induction false} FrameLayout(es: seq<Entry>, i: nat)
    requires Small(es)
    ensures var b := FrameOf(es);
            && |b| == 4 + 57 * |es| && Weigh4(b[0], b[1], b[2], b[3]) == |es|
            && (i < |es| ==> b[4 + 57 * i..4 + 57 * i + 57] == EncodeEntry(es[i]))
  {
    ReadCount(FrameOf(es), |es|, EntryBytes(es));
    if i < |es| {
      EntryAt(es, i);
      SliceAfter(FrameOf(es), EntryBytes(es), 57 * i);
    }
  }

  lemma {:induction false} SliceAfter(b: seq<Byte>, rest: seq<Byte>, p: nat)
    requires |b| == 4 + |rest| && b[4..] == rest && p + 57 <= |rest|
    ensures b[4 + p..4 + p + 57] == rest[p..p + 57]
  {
    assert b[4..][p..p + 57] == b[4 + p..4 + p + 57];
  }

  /** A number in the first four bytes. */
  lemma {:induction false} ReadCount(b: seq<Byte>, v: nat, rest: seq<Byte>)
    requires v < 0x1_0000_0000 && b == BigEndian(v, 4) + rest
    ensures |b| == 4 + |rest| && Weigh4(b[0], b[1], b[2], b[3]) == v && b[4..] == rest
  {
    Powers();
    assert b[0..] == b;
    ReadField(b, 0, v, 4, rest);
    FieldBytes(b, 0);
  }

  predicate Small(es: seq<Entry>) {
    |es| < 0x1_0000_0000
  }

  lemma {:induction false} EntryBytesAppend(es: seq<Entry>, e: Entry)
    ensures EntryBytes(es + [e]) == EntryBytes(es) + EncodeEntry(e)
  {
    assert (es + [e])[..|es|] == es;
  }

  lemma {:induction false} SameSplit(a: seq<Byte>, b: seq<Byte>, x: seq<Byte>, y: seq<Byte>)
    requires a + b == x + y && |a| == |x|
    ensures a == x && b == y
  {
    assert a == (a + b)[..|a|] && x == (x + y)[..|x|];
    assert b == (a + b)[|a|..] && y == (x + y)[|x|..];
  }

  lemma {:induction false} EncodeEntryInjective(a: Entry, b: Entry)
    requires EncodeEntry(a) == EncodeEntry(b)
    ensures a == b
  {
    DecodeEncodeEntry(a);
    DecodeEncodeEntry(b);
  }

  lemma {:induction false} EntryBytesInjective(a: seq<Entry>, b: seq<Entry>)
    requires EntryBytes(a) == EntryBytes(b)
    ensures a == b
  {
    assert |b| == |a|;
    if a != [] {
      var n := |a| - 1;
      SameSplit(EntryBytes(a[..n]), EncodeEntry(a[n]), EntryBytes(b[..n]), EncodeEntry(b[n]));
      EntryBytesInjective(a[..n], b[..n]);
      EncodeEntryInjective(a[n], b[n]);
    }
  }

  // ----- a frame that is being read

  /** The count, once its four bytes are in; the entries that are complete; and the bytes of
      the message that `recv_exact` is still filling. */
  datatype Frame = Frame(total: Option<nat>, entries: seq<Entry>, part: seq<Byte>)

  const EMPTY: Frame := Frame(None, [], [])

  predicate Complete(f: Frame) {
    f.total.Some? && |f.entries| == f.total.value
  }

  /** How many bytes the current message still lacks; a reader never asks for more. */
  function Want(f: Frame): int {
    if f.total.None? then 4 - |f.part| else if Complete(f) then 0 else ENTRY_SIZE - |f.part|
  }

  predicate FrameOk(f: Frame) {
    match f.total
    case None => f.entries == [] && |f.part| < 4
    case Some(n) =>
      n < 0x1_0000_0000 && |f.entries| <= n && |f.part| < ENTRY_SIZE && (|f.entries| == n ==> f.part == [])
  }

  /** What happens when `bytes` more arrive. */
  function Feed(f: Frame, bytes: seq<Byte>): Frame
    requires |bytes| <= Want(f)
  {
    var part := f.part + bytes;
    if f.total.None? && |part| == 4 then Frame(Some(Value(part)), [], [])
    else if f.total.Some? && |part| == ENTRY_SIZE then f.(entries := f.entries + [DecodeEntry(part)], part := [])
    else f.(part := part)
  }

  /** Everything read so far. */
  function Bytes(f: Frame): seq<Byte> {
    match f.total
    case None => f.part
    case Some(n) => BigEndian(n, 4) + EntryBytes(f.entries) + f.part
  }

  lemma {:induction false} FeedCount(part: seq<Byte>)
    requires |part| == 4
    ensures Value(part) < 0x1_0000_0000 && Bytes(Frame(Some(Value(part)), [], [])) == part
  {
    BigEndianOfValue(part);
    ValueBound(part);
    Powers();
  }

  lemma {:induction false} FeedEntry(n: nat, es: seq<Entry>, part: seq<Byte>)
    requires |part| == ENTRY_SIZE
    ensures Bytes(Frame(Some(n), es + [DecodeEntry(part)], [])) == BigEndian(n, 4) + EntryBytes(es) + part
  {
    EncodeDecodeEntry(part);
    EntryBytesAppend(es, DecodeEntry(part));
    assert BigEndian(n, 4) + (EntryBytes(es) + part) + [] == BigEndian(n, 4) + EntryBytes(es) + part;
  }

  /** However the stream is cut, nothing is lost, duplicated or reordered. */
  lemma {:induction false} FeedKeepsBytes(f: Frame, bytes: seq<Byte>)
    requires FrameOk(f) && |bytes| <= Want(f)
    ensures FrameOk(Feed(f, bytes)) && Bytes(Feed(f, bytes)) == Bytes(f) + bytes
  {
    var part := f.part + bytes;
    if f.total.None? {
      if |part| == 4 {
        FeedCount(part);
      }
    } else {
      var head := BigEndian(f.total.value, 4) + EntryBytes(f.entries);
      assert (head + f.part) + bytes == head + part;
      if |part| == ENTRY_SIZE {
        FeedEntry(f.total.value, f.entries, part);
      }
    }
  }

  lemma {:induction false} SameCount(n: nat, es: seq<Entry>, tail: seq<Byte>)
    requires n < 0x1_0000_0000 && Small(es) && BigEndian(n, 4) + tail == FrameOf(es)
    ensures n == |es| && tail == EntryBytes(es)
  {
    Powers();
    assert (BigEndian(n, 4) + tail)[..4] == BigEndian(n, 4) && (BigEndian(n, 4) + tail)[4..] == tail;
    assert FrameOf(es)[..4] == BigEndian(|es|, 4) && FrameOf(es)[4..] == EntryBytes(es);
    ValueOfBigEndian(n, 4);
    ValueOfBigEndian(|es|, 4);
  }

  lemma {:induction false} LeftOver(k: nat, n: nat, part: nat, rest: nat)
    requires k <= n && part < ENTRY_SIZE && (k == n ==> part == 0) && ENTRY_SIZE * k + part + rest == ENTRY_SIZE * n
    ensures k == n <==> rest == 0
    ensures k < n ==> ENTRY_SIZE - part <= rest
  {
  }

  lemma {:induction false} ReadsEntries(got: seq<Entry>, part: seq<Byte>, rest: seq<Byte>, es: seq<Entry>)
    requires |got| <= |es| && |part| < ENTRY_SIZE && (|got| == |es| ==> part == [])
    requires EntryBytes(got) + part + rest == EntryBytes(es)
    ensures |got| == |es| <==> rest == []
    ensures |got| < |es| ==> ENTRY_SIZE - |part| <= |rest|
    ensures rest == [] ==> got == es
  {
    assert |EntryBytes(got) + part + rest| == ENTRY_SIZE * |got| + |part| + |rest|;
    LeftOver(|got|, |es|, |part|, |rest|);
    if rest == [] {
      assert EntryBytes(got) + part + rest == EntryBytes(got);
      EntryBytesInjective(got, es);
    }
  }

  /** A reader that has consumed a prefix of a frame is complete exactly at its end, has then
      read exactly its entries, and never asks for a byte beyond it. */
  lemma {:induction false} ReadsWholeFrame(f: Frame, es: seq<Entry>, rest: seq<Byte>)
    requires FrameOk(f) && Small(es) && Bytes(f) + rest == FrameOf(es)
    ensures Complete(f) <==> rest == []
    ensures Complete(f) ==> f.entries == es
    ensures 0 <= Want(f) <= |rest|
    ensures rest != [] ==> Want(f) > 0
  {
    if f.total.None? {
      assert |Bytes(f) + rest| == |f.part| + |rest|;
    } else {
      var tail := EntryBytes(f.entries) + f.part + rest;
      assert Bytes(f) + rest == BigEndian(f.total.value, 4) + tail;
      SameCount(f.total.value, es, tail);
      ReadsEntries(f.entries, f.part, rest, es);
    }
  }

  lemma {:induction false} Regroup(a: seq<Byte>, b: seq<Byte>, n: nat, c: seq<Byte>)
    requires n <= |b|
    ensures a + b + c == a + b[..n] + (b[n..] + c) == a + b[..n] + b[n..] + c
  {
    assert b == b[..n] + b[n..];
  }

  /** One read of n bytes out of `flight`, with `later` still unwritten: the frame completes
      exactly when nothing is left anywhere, and then with the entries that were sent. */
  lemma {:induction false} ReadSome(f: Frame, es: seq<Entry>, flight: seq<Byte>, n: nat, later: seq<Byte>)
    requires FrameOk(f) && Small(es) && Bytes(f) + flight + later == FrameOf(es)
    requires n <= Want(f) && n <= |flight|
    ensures var f' := Feed(f, flight[..n]);
            && FrameOk(f') && Bytes(f') + flight[n..] + later == FrameOf(es)
            && (Complete(f') <==> flight[n..] == [] && later == [])
            && (Complete(f') ==> f'.entries == es)
  {
    FeedKeepsBytes(f, flight[..n]);
    Regroup(Bytes(f), flight, n, later);
    ReadsWholeFrame(Feed(f, flight[..n]), es, flight[n..] + later);
  }

  // ----- what a rank makes of the table

  /** The records addressed to rank r, by the rank that produced them, cast to a signed
      integer; a later one wins. */
  function Addressed(table: seq<Entry>, r: int): map<int, EndpointInfo> {
    if table == [] then map[]
    else
      var n := |table| - 1;
      var rest := Addressed(table[..n], r);
      if table[n].dst == r then rest[AsSigned(table[n].info.rank) := table[n].info] else rest
  }

  lemma {:induction false} AddressedConcat(a: seq<Entry>, b: seq<Entry>, r: int)
    ensures Addressed(a + b, r) == Addressed(a, r) + Addressed(b, r)
  {
    if b == [] {
      assert a + b == a;
    } else {
      var n := |b| - 1;
      AddressedConcat(a, b[..n], r);
      assert (a + b)[..|a + b| - 1] == a + b[..n];
    }
  }
}
