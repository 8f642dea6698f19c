/** How many elements each rank sends, for every split, even or uneven, full or empty. */
module Traffic {
  import opened Base
  import opened Transport
  import opened Chunking
  import opened Ring
  import opened Bits
  import opened RecursiveDoubling

  function SendLen(op: Op): nat {
    if op.send.None? then 0 else op.send.value.slice.len
  }

  /** The elements rank r sends in its first t rounds. */
  function SentBy(rounds: seq<Round>, r: nat, t: nat): nat
    requires HasRank(rounds, r) && t <= |rounds|
  {
    if t == 0 then 0 else SentBy(rounds, r, t - 1) + SendLen(rounds[t - 1][r])
  }

  /** The elements the first k ranks send in a whole program. */
  function TotalSent(rounds: seq<Round>, k: nat): nat
    requires forall r: nat :: r < k ==> HasRank(rounds, r)
  {
    if k == 0 then 0 else TotalSent(rounds, k - 1) + SentBy(rounds, k - 1, |rounds|)
  }

  // ----- sums of chunks around the ring

  /** The elements of the first k chunks. */
  function Prefix(chunks: seq<Chunk>, k: nat): nat
    requires k <= |chunks|
  {
    if k == 0 then 0 else Prefix(chunks, k - 1) + chunks[k - 1].count
  }

  lemma {:induction false} PrefixOfChunks(total: nat, n: nat, chunks: seq<Chunk>, k: nat)
    requires n > 0 && chunks == Chunks(total, n) && k <= n
    ensures Prefix(chunks, k) == if k < n then chunks[k].offset else total
  {
    if k > 0 {
      PrefixOfChunks(total, n, chunks, k - 1);
      ChunkStep(total, n, k - 1);
    } else {
      ChunkStep(total, n, 0);
    }
  }

  /** The chunks at positions r, r - 1, ..., r - t + 1 of the ring. */
  function Backward(chunks: seq<Chunk>, r: nat, t: nat): nat
    requires r < |chunks| && t <= 2 * |chunks|
  {
    if t == 0 then 0 else Backward(chunks, r, t - 1) + chunks[Back(r, t - 1, |chunks|)].count
  }

  lemma {:induction false} BackwardSum(chunks: seq<Chunk>, r: nat, t: nat)
    requires r < |chunks| && t <= 2 * |chunks|
    ensures var p := |chunks|;
            var total := Prefix(chunks, p);
            Backward(chunks, r, t) == Prefix(chunks, r + 1)
              + if t <= r + 1 then 0 - Prefix(chunks, r + 1 - t)
                else if t <= r + 1 + p then total - Prefix(chunks, r + 1 + p - t)
                else 2 * total - Prefix(chunks, r + 1 + 2 * p - t)
  {
    if t > 0 {
      BackwardSum(chunks, r, t - 1);
    }
  }

  /** What is missing from two full turns. */
  function TwoTurns(chunks: seq<Chunk>, r: nat): int
    requires r < |chunks|
  {
    var next := Succ(r, |chunks|);
    2 * Prefix(chunks, |chunks|) - chunks[next].count - chunks[Succ(next, |chunks|)].count
  }

  lemma {:induction false} BackwardIsTwoTurns(chunks: seq<Chunk>, r: nat)
    requires r < |chunks| && |chunks| >= 2
    ensures Backward(chunks, r, 2 * (|chunks| - 1)) == TwoTurns(chunks, r)
  {
    var p := |chunks|;
    BackwardSum(chunks, r, 2 * (p - 1));
    assert Prefix(chunks, 0) == 0 && Prefix(chunks, 1) == chunks[0].count;
    assert Prefix(chunks, 2) == chunks[0].count + chunks[1].count;
    assert Prefix(chunks, p) == Prefix(chunks, p - 2) + chunks[p - 2].count + chunks[p - 1].count;
    if r < p - 3 {
      assert Prefix(chunks, r + 3) == Prefix(chunks, r + 1) + chunks[r + 1].count + chunks[r + 2].count;
    }
  }

  // ----- the ring's traffic

  /** Rank r's column of the program is a ring column on its own split, whatever the others do. */
  ghost predicate RingColumn(rounds: seq<Round>, chunks: seq<Chunk>, op: ReduceOp, data: nat, scratch: nat, r: nat) {
    && r < |chunks| && |rounds| == 2 * (|chunks| - 1) && HasRank(rounds, r)
    && forall t :: 0 <= t < |rounds| ==> rounds[t][r] == RingOp(chunks, op, data, scratch, r, t)
  }

  lemma {:induction false} ColumnTraffic(rounds: seq<Round>, chunks: seq<Chunk>, op: ReduceOp, data: nat, scratch: nat,
                                         r: nat, t: nat)
    requires RingColumn(rounds, chunks, op, data, scratch, r) && t <= |rounds|
    ensures SentBy(rounds, r, t) == Backward(chunks, r, t)
  {
    if t > 0 {
      ColumnTraffic(rounds, chunks, op, data, scratch, r, t - 1);
    }
  }

  lemma {:induction false} RingHasColumn(call: ReduceCall, chunks: seq<Chunk>, r: nat)
    requires |call.dataAt| == |call.scratch| == |chunks| && r < |chunks|
    ensures RingColumn(RingRounds(chunks, call), chunks, call.op, call.dataAt[r], call.scratch[r].off, r)
  {
  }

  predicate SendsTwoTurns(rounds: seq<Round>, chunks: seq<Chunk>, r: nat) {
    HasRank(rounds, r) && r < |chunks| && SentBy(rounds, r, |rounds|) == TwoTurns(chunks, r)
  }

  lemma {:induction false} RingSendsTwoTurns(call: ReduceCall, chunks: seq<Chunk>, rounds: seq<Round>, r: nat)
    requires |call.dataAt| == |call.scratch| == |chunks| >= 2 && r < |chunks| && rounds == RingRounds(chunks, call)
    ensures SendsTwoTurns(rounds, chunks, r)
  {
    RingHasColumn(call, chunks, r);
    ColumnTraffic(rounds, chunks, call.op, call.dataAt[r], call.scratch[r].off, r, |rounds|);
    BackwardIsTwoTurns(chunks, r);
  }

  /** Rank r sends two buffers less the chunk of the next rank and that of the one after, so
      never more than two buffers. */
  lemma {:induction false} RingTraffic(call: ReduceCall, ranks: nat, chunks: seq<Chunk>, rounds: seq<Round>, r: nat)
    requires |call.dataAt| == |call.scratch| == ranks >= 2 && r < ranks
    requires chunks == Chunks(call.count, ranks) && rounds == RingRounds(chunks, call)
    ensures HasRank(rounds, r)
    ensures var next := Succ(r, ranks);
            SentBy(rounds, r, |rounds|) == 2 * call.count - chunks[next].count - chunks[Succ(next, ranks)].count
    ensures SentBy(rounds, r, |rounds|) <= 2 * call.count
  {
    RingSendsTwoTurns(call, chunks, rounds, r);
    PrefixOfChunks(call.count, ranks, chunks, ranks);
  }

  /** The chunks after rank 0, ..., after rank k - 1, going round once. */
  function Turned(chunks: seq<Chunk>, k: nat): nat
    requires k <= |chunks| + 2 && |chunks| >= 2
  {
    if k <= |chunks| then Prefix(chunks, k) else Prefix(chunks, |chunks|) + Prefix(chunks, k - |chunks|)
  }

  lemma {:induction false} TotalTraffic(rounds: seq<Round>, chunks: seq<Chunk>, total: nat, k: nat)
    requires |chunks| >= 2 && k <= |chunks| && total == Prefix(chunks, |chunks|)
    requires forall r: nat :: r < |chunks| ==> SendsTwoTurns(rounds, chunks, r)
    ensures forall r: nat :: r < k ==> HasRank(rounds, r)
    ensures TotalSent(rounds, k) == k * (2 * total)
              - (Turned(chunks, k + 1) - Prefix(chunks, 1)) - (Turned(chunks, k + 2) - Prefix(chunks, 2))
  {
    forall r: nat | r < k ensures HasRank(rounds, r) {
      assert SendsTwoTurns(rounds, chunks, r);
    }
    if k > 0 {
      TotalTraffic(rounds, chunks, total, k - 1);
      assert SendsTwoTurns(rounds, chunks, k - 1);
      assert k * (2 * total) == (k - 1) * (2 * total) + 2 * total;
      TurnedStep(chunks, k);
      TurnedStep(chunks, k + 1);
    }
  }

  lemma {:induction false} TurnedStep(chunks: seq<Chunk>, k: nat)
    requires |chunks| >= 2 && k <= |chunks| + 1
    ensures Turned(chunks, k + 1) == Turned(chunks, k) + chunks[if k < |chunks| then k else k - |chunks|].count
  {
  }

  lemma {:induction false} AllTraffic(rounds: seq<Round>, chunks: seq<Chunk>, total: nat)
    requires |chunks| >= 2 && total == Prefix(chunks, |chunks|)
    requires forall r: nat :: r < |chunks| ==> SendsTwoTurns(rounds, chunks, r)
    ensures forall r: nat :: r < |chunks| ==> HasRank(rounds, r)
    ensures TotalSent(rounds, |chunks|) == 2 * (|chunks| - 1) * total
  {
    TotalTraffic(rounds, chunks, total, |chunks|);
    assert |chunks| * (2 * total) - 2 * total == 2 * (|chunks| - 1) * total;
  }

  /** All ranks together send exactly 2 (P - 1) buffers, for uneven and empty chunks too. */
  lemma {:induction false} RingTotalTraffic(call: ReduceCall, ranks: nat, chunks: seq<Chunk>, rounds: seq<Round>)
    requires |call.dataAt| == |call.scratch| == ranks >= 2
    requires chunks == Chunks(call.count, ranks) && rounds == RingRounds(chunks, call)
    ensures forall r: nat :: r < ranks ==> HasRank(rounds, r)
    ensures TotalSent(rounds, ranks) == 2 * (ranks - 1) * call.count
  {
    PrefixOfChunks(call.count, ranks, chunks, ranks);
    forall r: nat | r < ranks ensures SendsTwoTurns(rounds, chunks, r) {
      RingSendsTwoTurns(call, chunks, rounds, r);
    }
    AllTraffic(rounds, chunks, call.count);
  }

  // ----- the documented share

  /** The elements of the two chunks rank r never sends beyond their even share. */
  function Extra(count: nat, ranks: nat, r: nat): nat
    requires r < ranks
  {
    var next := Succ(r, ranks);
    (if next < count % ranks then 1 else 0) + if Succ(next, ranks) < count % ranks then 1 else 0
  }

  lemma {:induction false} ShareExact(count: nat, ranks: nat, q: nat, m: nat, extra: nat, sent: int)
    requires count == ranks * q + m && sent == 2 * count - 2 * q - extra
    ensures ranks * sent == 2 * (ranks - 1) * count <==> ranks * extra == 2 * m
  {
    assert ranks * sent == 2 * (ranks * count) - 2 * (ranks * q) - ranks * extra;
    assert 2 * (ranks - 1) * count == 2 * (ranks * count) - 2 * count;
  }

  lemma {:induction false} TwoCounts(count: nat, ranks: nat, chunks: seq<Chunk>, r: nat)
    requires r < ranks && chunks == Chunks(count, ranks)
    ensures var next := Succ(r, ranks);
            chunks[next].count + chunks[Succ(next, ranks)].count == 2 * (count / ranks) + Extra(count, ranks, r)
  {
  }

  ghost predicate EvenShare(rounds: seq<Round>, ranks: nat, count: nat, r: nat) {
    HasRank(rounds, r) && ranks * SentBy(rounds, r, |rounds|) == 2 * (ranks - 1) * count
  }

  lemma {:induction false} SentShare(rounds: seq<Round>, ranks: nat, count: nat, r: nat, extra: nat)
    requires ranks > 0 && HasRank(rounds, r) && SentBy(rounds, r, |rounds|) == 2 * count - 2 * (count / ranks) - extra
    ensures EvenShare(rounds, ranks, count, r) <==> ranks * extra == 2 * (count % ranks)
  {
    ShareExact(count, ranks, count / ranks, count % ranks, extra, SentBy(rounds, r, |rounds|));
  }

  /** When rank r sends the documented share of 2 (P - 1) / P buffers. */
  lemma {:induction false} RankShare(call: ReduceCall, ranks: nat, chunks: seq<Chunk>, rounds: seq<Round>, r: nat)
    requires |call.dataAt| == |call.scratch| == ranks >= 2 && r < ranks
    requires chunks == Chunks(call.count, ranks) && rounds == RingRounds(chunks, call)
    ensures EvenShare(rounds, ranks, call.count, r) <==> ranks * Extra(call.count, ranks, r) == 2 * (call.count % ranks)
  {
    RingTraffic(call, ranks, chunks, rounds, r);
    TwoCounts(call.count, ranks, chunks, r);
    SentShare(rounds, ranks, call.count, r, Extra(call.count, ranks, r));
  }

  ghost predicate EvenEverywhere(rounds: seq<Round>, ranks: nat, count: nat) {
    forall r: nat :: r < ranks ==> EvenShare(rounds, ranks, count, r)
  }

  /** The header says that every rank moves 2 (P - 1) / P of the buffer. That is exact on
      every rank if and only if there are two ranks or P divides the count. */
  lemma {:induction false} DocumentedShare(call: ReduceCall, ranks: nat, chunks: seq<Chunk>, rounds: seq<Round>)
    requires |call.dataAt| == |call.scratch| == ranks >= 2
    requires chunks == Chunks(call.count, ranks) && rounds == RingRounds(chunks, call)
    ensures EvenEverywhere(rounds, ranks, call.count) <==> ranks == 2 || call.count % ranks == 0
  {
    var m := call.count % ranks;
    if ranks == 2 || m == 0 {
      forall r: nat | r < ranks ensures EvenShare(rounds, ranks, call.count, r) {
        RankShare(call, ranks, chunks, rounds, r);
        assert Extra(call.count, ranks, r) == if m == 0 then 0 else 1;
      }
    } else {
      RankShare(call, ranks, chunks, rounds, ranks - 1);
      assert Extra(call.count, ranks, ranks - 1) == if m == 1 then 1 else 2;
      assert !EvenShare(rounds, ranks, call.count, ranks - 1);
    }
  }

  /** One element on three ranks: the last rank sends one element, not four thirds of one. */
  lemma {:induction false} DocumentedShareFails(call: ReduceCall, rounds: seq<Round>)
    requires |call.dataAt| == |call.scratch| == 3 && call.count == 1 && rounds == RingRounds(Chunks(1, 3), call)
    ensures HasRank(rounds, 2) && SentBy(rounds, 2, |rounds|) == 1 && !EvenShare(rounds, 3, 1, 2)
  {
    RingTraffic(call, 3, Chunks(1, 3), rounds, 2);
  }

  lemma {:induction false} DoublingTraffic(call: ReduceCall, steps: nat, rounds: seq<Round>, r: nat, t: nat)
    requires |call.dataAt| == |call.scratch| && r < |call.dataAt| && rounds == RdRounds(call, steps) && t <= steps
    ensures HasRank(rounds, r) && SentBy(rounds, r, t) == t * call.count
  {
    if t > 0 {
      DoublingTraffic(call, steps, rounds, r, t - 1);
      assert rounds[t - 1][r] == RdOp(call.count, call.op, call.dataAt[r], call.scratch[r].off, r, t - 1);
      assert t * call.count == (t - 1) * call.count + call.count;
    }
  }

  /** On 2^k ranks, k >= 1, no rank of the ring sends more than recursive doubling would. */
  lemma {:induction false} RingSendsNoMore(call: ReduceCall, steps: nat, ranks: nat, ring: seq<Round>,
                                           doubling: seq<Round>, r: nat)
    requires steps >= 1 && ranks == Pow2(steps) && |call.dataAt| == |call.scratch| == ranks && r < ranks
    requires ring == RingRounds(Chunks(call.count, ranks), call) && doubling == RdRounds(call, steps)
    ensures HasRank(ring, r) && HasRank(doubling, r)
    ensures SentBy(ring, r, |ring|) <= SentBy(doubling, r, |doubling|) == steps * call.count
  {
    var chunks := Chunks(call.count, ranks);
    assert Pow2(steps) == 2 * Pow2(steps - 1);
    RingTraffic(call, ranks, chunks, ring, r);
    DoublingTraffic(call, steps, doubling, r, steps);
    if steps == 1 {
      assert Pow2(0) == 1 && ranks == 2;
      PrefixOfChunks(call.count, ranks, chunks, ranks);
      assert Prefix(chunks, 2) == chunks[0].count + chunks[1].count;
    } else {
      assert steps * call.count >= 2 * call.count;
    }
  }
}
