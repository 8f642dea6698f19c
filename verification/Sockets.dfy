/** The loops of the bootstrap over sockets that transfer as little as they like. */
module Sockets {
  import opened Wire
  import opened Frames

  /** How a blocking read ends: with a value, by the peer having closed the connection, or
      not at all, because the connection is open and what it waits for has not been written. */
  datatype Outcome<+T> = Got(value: T) | Closed | Blocked

  /** One direction of a connection: the bytes its writer has produced and its reader has not
      taken, and whether the writer closes the connection after them. */
  class Stream {
    var data: seq<Byte>
    const closed: bool

    constructor (closed: bool)
      ensures data == [] && this.closed == closed
    {
      data := [];
      this.closed := closed;
    }

    /** What becomes of a read that needs more than there is. */
    function Shortage<T>(): (res: Outcome<T>)
      ensures !res.Got? && (res.Closed? <==> closed)
    {
      if closed then Closed else Blocked
    }

    /** send(2): some non-empty part of the bytes is taken. */
    method Send(bytes: seq<Byte>) returns (n: nat)
      requires bytes != []
      modifies this
      ensures 0 < n <= |bytes| && data == old(data) + bytes[..n]
    {
      n :| 0 < n <= |bytes|;
      data := data + bytes[..n];
    }

    /** recv(2): some non-empty part of what is there; with nothing there it returns only at
        the end of the stream. */
    method Recv(limit: nat) returns (res: Outcome<seq<Byte>>)
      requires limit > 0
      modifies this
      ensures res.Got? <==> old(data) != []
      ensures res.Got? ==> 0 < |res.value| <= limit && res.value + data == old(data)
      ensures !res.Got? ==> res == Shortage() && data == []
    {
      if data == [] {
        return Shortage();
      }
      var n :| 0 < n <= limit && n <= |data|;
      res := Got(data[..n]);
      data := data[n..];
    }
  }

  method SendExact(s: Stream, buf: seq<Byte>)
    modifies s
    ensures s.data == old(s.data) + buf
  {
    var sent := 0;
    while sent < |buf|
      invariant 0 <= sent <= |buf|
      invariant s.data == old(s.data) + buf[..sent]
    {
      var n := s.Send(buf[sent..]);
      assert buf[..sent] + buf[sent..][..n] == buf[..sent + n];
      sent := sent + n;
    }
  }

  /** Exactly the next `len` bytes, however they arrive. If there are fewer, the call fails on a
      closed connection and waits on an open one. */
  method RecvExact(s: Stream, len: nat) returns (res: Outcome<seq<Byte>>)
    modifies s
    ensures res.Got? <==> len <= |old(s.data)|
    ensures res.Got? ==> res.value == old(s.data)[..len] && s.data == old(s.data)[len..]
    ensures !res.Got? ==> res == s.Shortage() && s.data == []
  {
    ghost var all := s.data;
    var buf: seq<Byte> := [];
    while |buf| < len
      invariant |buf| <= len && buf + s.data == all
    {
      var got := s.Recv(len - |buf|);
      if !got.Got? {
        assert |all| == |buf| + |s.data|;
        return s.Shortage();
      }
      assert buf + (got.value + s.data) == (buf + got.value) + s.data;
      buf := buf + got.value;
    }
    assert all[..len] == buf && all[len..] == s.data;
    res := Got(buf);
  }

  // ----- frames

  method SendFrame(s: Stream, es: seq<Entry>)
    modifies s
    ensures s.data == old(s.data) + FrameOf(es)
  {
    SendExact(s, BigEndian(|es|, 4));
    for i := 0 to |es|
      invariant s.data == old(s.data) + (BigEndian(|es|, 4) + EntryBytes(es[..i]))
    {
      SendExact(s, EncodeEntry(es[i]));
      assert es[..i + 1] == es[..i] + [es[i]];
      EntryBytesAppend(es[..i], es[i]);
      Regrow(old(s.data), BigEndian(|es|, 4), EntryBytes(es[..i]), EncodeEntry(es[i]));
    }
    assert es[..|es|] == es;
  }

  /** Of the bytes `was`, the frame of `es` has been read and `now` is left. */
  ghost predicate FrameRead(was: seq<Byte>, es: seq<Entry>, now: seq<Byte>) {
    Small(es) && FrameOf(es) + now == was
  }

  ghost predicate StartsWithFrame(data: seq<Byte>) {
    exists es, rest :: FrameRead(data, es, rest)
  }

  /** A string of bytes starts with at most one frame. */
  lemma {:induction false} FrameUnique(a: seq<Entry>, x: seq<Byte>, b: seq<Entry>, y: seq<Byte>)
    requires Small(a) && Small(b) && FrameOf(a) + x == FrameOf(b) + y
    ensures a == b && x == y
  {
    CountOfFrame(a, x);
    CountOfFrame(b, y);
    SameSplit(FrameOf(a), x, FrameOf(b), y);
    SameCount(|a|, b, EntryBytes(a));
    EntryBytesInjective(a, b);
  }

  lemma {:induction false} CountOfFrame(es: seq<Entry>, rest: seq<Byte>)
    requires Small(es)
    ensures Value((FrameOf(es) + rest)[..4]) == |es|
  {
    Powers();
    ValueOfBigEndian(|es|, 4);
    assert (FrameOf(es) + rest)[..4] == BigEndian(|es|, 4);
  }

  lemma {:induction false} TooShort(data: seq<Byte>)
    requires |data| < 4 || |data| < 4 + ENTRY_SIZE * Value(data[..4])
    ensures !StartsWithFrame(data)
  {
    if StartsWithFrame(data) {
      var es, rest :| FrameRead(data, es, rest);
      CountOfFrame(es, rest);
    }
  }

  /** Read the count, then that many entries. The call returns exactly if the stream starts
      with a frame, then with its entries, and consumes not a byte more; otherwise it fails on a
      closed connection and waits on an open one. */
  method RecvFrame(s: Stream) returns (res: Outcome<seq<Entry>>)
    modifies s
    ensures res.Got? <==> StartsWithFrame(old(s.data))
    ensures res.Got? ==> FrameRead(old(s.data), res.value, s.data)
    ensures !res.Got? ==> res == s.Shortage()
  {
    ghost var all := s.data;
    var header := RecvExact(s, 4);
    if !header.Got? {
      TooShort(all);
      return s.Shortage();
    }
    var n := Value(header.value);
    BigEndianOfValue(header.value);
    ValueBound(header.value);
    Powers();
    var es: seq<Entry> := [];
    assert all == header.value + EntryBytes(es) + s.data;
    for i := 0 to n
      invariant |es| == i && all == header.value + EntryBytes(es) + s.data
    {
      ghost var rest := s.data;
      var entry := RecvExact(s, ENTRY_SIZE);
      if !entry.Got? {
        assert |all| < 4 + ENTRY_SIZE * (i + 1) <= 4 + ENTRY_SIZE * n && all[..4] == header.value;
        TooShort(all);
        return s.Shortage();
      }
      EncodeDecodeEntry(entry.value);
      EntryBytesAppend(es, DecodeEntry(entry.value));
      assert rest == entry.value + s.data;
      Reassociate(header.value, EntryBytes(es), entry.value, s.data);
      es := es + [DecodeEntry(entry.value)];
    }
    assert FrameRead(all, es, s.data);
    res := Got(es);
  }

  lemma {:induction false} Regrow(a: seq<Byte>, b: seq<Byte>, c: seq<Byte>, d: seq<Byte>)
    ensures a + (b + c) + d == a + (b + (c + d))
  {
  }

  lemma {:induction false} Reassociate(a: seq<Byte>, b: seq<Byte>, c: seq<Byte>, d: seq<Byte>)
    ensures a + b + (c + d) == a + (b + c) + d
  {
  }

  /** Entry j is the last one that gives rank `rank` a record of the producer `key`. */
  ghost predicate LastFrom(table: seq<Entry>, rank: int, key: int, j: nat) {
    && j < |table| && table[j].dst == rank && AsSigned(table[j].info.rank) == key
    && forall l :: j < l < |table| && table[l].dst == rank ==> AsSigned(table[l].info.rank) != key
  }

  lemma {:induction false} LastFromStep(table: seq<Entry>, rank: int, key: int, j: nat)
    requires table != []
    requires table[|table| - 1].dst == rank ==> AsSigned(table[|table| - 1].info.rank) != key
    ensures LastFrom(table, rank, key, j) <==> LastFrom(table[..|table| - 1], rank, key, j)
  {
  }

  lemma {:induction false} AddressedLast(table: seq<Entry>, rank: int, key: int) returns (j: nat)
    ensures key in Addressed(table, rank) ==>
              LastFrom(table, rank, key, j) && Addressed(table, rank)[key] == table[j].info
    ensures key !in Addressed(table, rank) ==> forall l: nat :: !LastFrom(table, rank, key, l)
  {
    j := 0;
    if table != [] {
      var n := |table| - 1;
      if table[n].dst == rank && AsSigned(table[n].info.rank) == key {
        j := n;
      } else {
        j := AddressedLast(table[..n], rank, key);
        LastFromStep(table, rank, key, j);
        forall l: nat ensures LastFrom(table, rank, key, l) <==> LastFrom(table[..n], rank, key, l) {
          LastFromStep(table, rank, key, l);
        }
      }
    }
  }

  lemma {:induction false} LastFromUnique(table: seq<Entry>, rank: int, key: int, i: nat, j: nat)
    requires LastFrom(table, rank, key, i) && LastFrom(table, rank, key, j)
    ensures i == j
  {
  }

  /** The last loop of an exchange: each producer's last record for this rank, and no other. */
  method ResultFor(table: seq<Entry>, rank: int) returns (result: map<int, EndpointInfo>)
    ensures result == Addressed(table, rank)
    ensures forall key, j: nat {:trigger LastFrom(table, rank, key, j)} ::
              LastFrom(table, rank, key, j) ==> key in result && result[key] == table[j].info
    ensures forall key :: key in result ==> exists j: nat :: LastFrom(table, rank, key, j)
  {
    result := map[];
    for i := 0 to |table|
      invariant result == Addressed(table[..i], rank)
    {
      assert table[..i + 1][..i] == table[..i];
      if table[i].dst == rank {
        result := result[AsSigned(table[i].info.rank) := table[i].info];
      }
    }
    assert table[..|table|] == table;
    forall key, j: nat {:trigger LastFrom(table, rank, key, j)} | LastFrom(table, rank, key, j)
      ensures key in result && result[key] == table[j].info
    {
      var l := AddressedLast(table, rank, key);
      LastFromUnique(table, rank, key, l, j);
    }
    forall key | key in result ensures exists j: nat :: LastFrom(table, rank, key, j) {
      var l := AddressedLast(table, rank, key);
    }
  }

  // ----- one exchange

  /** A rank other than 0: write everything, then read everything. */
  method ExchangePeer(up: Stream, down: Stream, outgoing: seq<Entry>, rank: int)
    returns (res: Outcome<map<int, EndpointInfo>>, ghost table: seq<Entry>)
    requires up != down
    modifies up, down
    ensures up.data == old(up.data) + FrameOf(outgoing)
    ensures res.Got? <==> StartsWithFrame(old(down.data))
    ensures res.Got? ==> FrameRead(old(down.data), table, down.data) && res.value == Addressed(table, rank)
    ensures !res.Got? ==> res == down.Shortage()
  {
    table := [];
    SendFrame(up, outgoing);
    var got := RecvFrame(down);
    if !got.Got? {
      return down.Shortage(), [];
    }
    var result := ResultFor(got.value, rank);
    return Got(result), got.value;
  }

  ghost predicate Distinct(ss: seq<Stream>) {
    forall i, j :: 0 <= i < j < |ss| ==> ss[i] != ss[j]
  }

  function Flatten(parts: seq<seq<Entry>>): seq<Entry> {
    if parts == [] then [] else Flatten(parts[..|parts| - 1]) + parts[|parts| - 1]
  }

  /** The first r streams, which held `was`, have each lost one frame, and the rest nothing. */
  ghost predicate ReadUpTo(ups: seq<Stream>, was: seq<seq<Byte>>, parts: seq<seq<Entry>>, r: nat)
    reads ups
  {
    && |parts| == r <= |ups| == |was|
    && (forall i :: 0 <= i < r ==> FrameRead(was[i], parts[i], ups[i].data))
    && (forall i :: r <= i < |ups| ==> ups[i].data == was[i])
  }

  method CollectOne(ups: seq<Stream>, r: nat, ghost was: seq<seq<Byte>>, ghost parts: seq<seq<Entry>>)
    returns (res: Outcome<seq<Entry>>)
    requires Distinct(ups) && r < |ups| && ReadUpTo(ups, was, parts, r)
    modifies ups[r]
    ensures res.Got? <==> StartsWithFrame(was[r])
    ensures res.Got? ==> ReadUpTo(ups, was, parts + [res.value], r + 1)
    ensures !res.Got? ==> res == ups[r].Shortage()
  {
    res := RecvFrame(ups[r]);
  }

  /** Stream r is the first that does not start with a frame. */
  ghost predicate FirstShort(was: seq<seq<Byte>>, r: nat) {
    r < |was| && !StartsWithFrame(was[r]) && forall i :: 0 <= i < r ==> StartsWithFrame(was[i])
  }

  /** Rank 0 reads one frame from every peer, in rank order. The first peer without one decides
      whether the call fails or waits. */
  method CollectTable(ups: seq<Stream>, own: seq<Entry>, ghost was: seq<seq<Byte>>)
    returns (res: Outcome<seq<Entry>>, ghost parts: seq<seq<Entry>>, ghost short: nat)
    requires Distinct(ups) && ReadUpTo(ups, was, [], 0)
    modifies ups
    ensures res.Got? <==> forall i :: 0 <= i < |ups| ==> StartsWithFrame(was[i])
    ensures res.Got? ==> ReadUpTo(ups, was, parts, |ups|) && res.value == own + Flatten(parts)
    ensures res.Got? ==> forall i :: 0 <= i < |ups| ==> own + Flatten(parts[..i]) + parts[i] <= res.value
    ensures !res.Got? ==> |was| == |ups| && FirstShort(was, short) && res == ups[short].Shortage()
  {
    var table := own;
    parts, short := [], 0;
    for r := 0 to |ups|
      invariant ReadUpTo(ups, was, parts, r) && table == own + Flatten(parts)
      invariant forall i :: 0 <= i < r ==> StartsWithFrame(was[i])
    {
      var got := CollectOne(ups, r, was, parts);
      if !got.Got? {
        return ups[r].Shortage(), [], r;
      }
      FlattenAppend(own, parts, got.value);
      parts := parts + [got.value];
      table := table + got.value;
    }
    forall i | 0 <= i < |ups| ensures own + Flatten(parts[..i]) + parts[i] <= table {
      FlattenPrefix(own, parts, i);
    }
    res := Got(table);
  }

  lemma {:induction false} FlattenPrefix(own: seq<Entry>, parts: seq<seq<Entry>>, i: nat)
    requires i < |parts|
    ensures own + Flatten(parts[..i]) + parts[i] <= own + Flatten(parts)
  {
    var n := |parts| - 1;
    assert own + Flatten(parts[..n]) + parts[n] == own + Flatten(parts);
    if i < n {
      FlattenPrefix(own, parts[..n], i);
      assert parts[..n][..i] == parts[..i];
    }
  }

  lemma {:induction false} FlattenAppend(own: seq<Entry>, parts: seq<seq<Entry>>, es: seq<Entry>)
    ensures own + Flatten(parts + [es]) == own + Flatten(parts) + es
  {
    assert (parts + [es])[..|parts|] == parts;
    assert own + Flatten(parts) + es == own + (Flatten(parts) + es);
  }

  /** Rank 0 then writes the whole table to every peer. */
  method ReplyAll(downs: seq<Stream>, table: seq<Entry>)
    requires Distinct(downs)
    modifies downs
    ensures forall i :: 0 <= i < |downs| ==> downs[i].data == old(downs[i].data) + FrameOf(table)
  {
    for r := 0 to |downs|
      invariant forall i :: 0 <= i < r ==> downs[i].data == old(downs[i].data) + FrameOf(table)
      invariant forall i :: r <= i < |downs| ==> downs[i].data == old(downs[i].data)
    {
      SendFrame(downs[r], table);
    }
  }
}
