/**
 The collectives as the loops each rank executes: the guards, the index arithmetic and
 the transport calls of one rank, proved to be that rank's column of the program whose
 runs the other modules reason about.
 */
module Programs {
  import opened Base
  import opened Transport
  import opened Lockstep
  import opened Guarantees
  import opened Stuttering
  import opened Collectives
  import opened Chunking
  import opened Ring
  import opened Bits
  import opened RecursiveDoubling
  import opened Circulation

  /** In the second loop of the ring the offsets are one chunk ahead: its step s is step
      s + P - 1 of the combined schedule. */
  lemma {:induction false} SecondLoopIndices(r: nat, step: nat, ranks: nat)
    requires r < ranks && step < ranks
    ensures ModP(r - step + 1, ranks) == Back(r, step + ranks - 1, ranks)
    ensures ModP(r - step, ranks) == Back(r, step + ranks, ranks)
  {
    ModPIsBack(r, step, ranks);
    if step > 0 {
      ModPIsBack(r, step - 1, ranks);
    }
  }

  /** One step: post the receive, post the send, wait for both, reduce; each part is skipped
      when its chunk is empty. */
  method RingCalls(out: Chunk, into: Chunk, op: ReduceOp, reducing: bool, data: nat, scratch: nat, sendTo: nat,
                   recvFrom: nat)
    returns (step: Op)
    ensures step.recv == if into.count == 0 then None else
              Some(Transfer(recvFrom, Slice(if reducing then scratch else data + into.offset, into.count)))
    ensures step.send == if out.count == 0 then None else Some(Transfer(sendTo, Slice(data + out.offset, out.count)))
    ensures step.fold == if into.count == 0 || !reducing then None else
              Some(Fold(data + into.offset, scratch, into.count, op))
  {
    step := Op(None, None, None);
    if into.count > 0 {
      var at := if reducing then scratch else data + into.offset;
      step := step.(recv := Some(Transfer(recvFrom, Slice(at, into.count))));
    }
    if out.count > 0 {
      step := step.(send := Some(Transfer(sendTo, Slice(data + out.offset, out.count))));
    }
    if into.count > 0 && reducing {
      step := step.(fold := Some(Fold(data + into.offset, scratch, into.count, op)));
    }
  }

  method ReduceScatterStep(chunks: seq<Chunk>, op: ReduceOp, data: nat, scratch: nat, rank: nat,
                           step: nat) returns (next: Op)
    requires rank < |chunks| && step < |chunks| - 1
    ensures next == RingOp(chunks, op, data, scratch, rank, step)
  {
    var ranks := |chunks|;
    ModPIsBack(rank, 1, ranks);
    ModPIsBack(rank, step, ranks);
    ModPIsBack(rank, step + 1, ranks);
    next := RingCalls(chunks[ModP(rank - step, ranks)], chunks[ModP(rank - step - 1, ranks)], op, true, data, scratch,
                      ModP(rank + 1, ranks), ModP(rank - 1, ranks));
  }

  method AllgatherStep(chunks: seq<Chunk>, op: ReduceOp, data: nat, scratch: nat, rank: nat,
                       step: nat) returns (next: Op)
    requires rank < |chunks| && step < |chunks| - 1
    ensures next == RingOp(chunks, op, data, scratch, rank, |chunks| - 1 + step)
  {
    var ranks := |chunks|;
    ModPIsBack(rank, 1, ranks);
    SecondLoopIndices(rank, step, ranks);
    next := RingCalls(chunks[ModP(rank - step + 1, ranks)], chunks[ModP(rank - step, ranks)], op, false, data, scratch,
                      ModP(rank + 1, ranks), ModP(rank - 1, ranks));
  }

  /** The first n operations rank r issues for a split into `chunks`. */
  ghost predicate RingPrefix(ops: seq<Op>, chunks: seq<Chunk>, op: ReduceOp, data: nat, scratch: nat, r: nat, n: nat) {
    && |ops| == n <= 2 * (|chunks| - 1) && r < |chunks|
    && forall t :: 0 <= t < n ==> ops[t] == RingOp(chunks, op, data, scratch, r, t)
  }

  /** The two loops. */
  method RingLoops(chunks: seq<Chunk>, op: ReduceOp, data: nat, scratch: nat, rank: nat) returns (ops: seq<Op>)
    requires rank < |chunks| && |chunks| > 1
    ensures RingPrefix(ops, chunks, op, data, scratch, rank, 2 * (|chunks| - 1))
  {
    ops := [];
    for step := 0 to |chunks| - 1
      invariant RingPrefix(ops, chunks, op, data, scratch, rank, step)
    {
      var next := ReduceScatterStep(chunks, op, data, scratch, rank, step);
      ops := ops + [next];
    }
    for step := 0 to |chunks| - 1
      invariant RingPrefix(ops, chunks, op, data, scratch, rank, |chunks| - 1 + step)
    {
      var next := AllgatherStep(chunks, op, data, scratch, rank, step);
      ops := ops + [next];
    }
  }

  /** Ring allreduce on one rank. It refuses exactly a count beyond the data region or, with
      more than one rank, a scratch buffer that cannot hold every chunk. */
  method AllreduceRing(ranks: nat, rank: nat, region: nat, count: nat, op: ReduceOp, data: nat, scratch: Slice)
    returns (res: Result<seq<Op>>)
    requires rank < ranks
    ensures res.Err? <==>
              count > region || (ranks > 1 && exists c :: 0 <= c < ranks && Chunks(count, ranks)[c].count > scratch.len)
    ensures res.Ok? ==> RingPrefix(res.value, Chunks(count, ranks), op, data, scratch.off, rank, 2 * (ranks - 1))
  {
    if count > region {
      return Err;
    }
    if ranks == 1 {
      return Ok([]);
    }
    var split := ComputeChunks(count, ranks);
    var largest := MaxChunk(split.value, count, ranks);
    if scratch.len < largest {
      return Err;
    }
    var ops := RingLoops(split.value, op, data, scratch.off, rank);
    res := Ok(ops);
  }

  /** Recursive doubling on one rank. It refuses exactly a count beyond the data region, a
      world size that is not a power of two or, with more than one rank, a scratch buffer
      smaller than the data; otherwise it takes log2(ranks) steps. */
  method AllreduceRecursiveDoubling(ranks: nat, rank: nat, region: nat, count: nat, op: ReduceOp, data: nat,
                                    scratch: Slice)
    returns (res: Result<seq<Op>>)
    requires rank < ranks
    ensures res.Err? <==> count > region || !Power(ranks) || (ranks > 1 && scratch.len < count)
    ensures res.Ok? ==> Pow2(|res.value|) == ranks
    ensures res.Ok? ==> forall k :: 0 <= k < |res.value| ==> res.value[k] == RdOp(count, op, data, scratch.off, rank, k)
  {
    PowerOfTwoTest(ranks);
    if count > region || !IsPowerOfTwo(ranks) {
      return Err;
    }
    if ranks == 1 {
      assert Pow2(0) == 1;
      return Ok([]);
    }
    if scratch.len < count {
      return Err;
    }
    var steps := CountSteps(ranks);
    var ops: seq<Op> := [];
    for step := 0 to steps
      invariant |ops| == step
      invariant forall k :: 0 <= k < step ==> ops[k] == RdOp(count, op, data, scratch.off, rank, k)
    {
      var partner := Xor(rank, Pow2(step));
      ops := ops + [Op(Some(Transfer(partner, Slice(scratch.off, count))), Some(Transfer(partner, Slice(data, count))),
                       Some(Fold(data, scratch.off, count, op)))];
    }
    res := Ok(ops);
  }

  method SegmentCalls(at: nat, n: nat, out: nat, into: nat, sendTo: nat, recvFrom: nat,
                      ghost segs: seq<Chunk>) returns (step: Op)
    requires segs == Segments(n, |segs|) && out < |segs| && into < |segs|
    ensures step == Op(Some(Transfer(recvFrom, SegSlice(segs, at, into))),
                       Some(Transfer(sendTo, SegSlice(segs, at, out))), None)
  {
    step := Op(Some(Transfer(recvFrom, Slice(at + into * n, n))), Some(Transfer(sendTo, Slice(at + out * n, n))), None);
  }

  method SegmentStep(ranks: nat, at: nat, n: nat, rank: nat, step: nat, ghost segs: seq<Chunk>) returns (next: Op)
    requires segs == Segments(n, |segs|) && |segs| == ranks && rank < ranks && step < ranks - 1
    ensures next == GatherOp(segs, at, rank, step)
  {
    ModPIsBack(rank, 1, ranks);
    ModPIsBack(rank, step, ranks);
    ModPIsBack(rank, step + 1, ranks);
    next := SegmentCalls(at, n, ModP(rank - step, ranks), ModP(rank - step - 1, ranks), ModP(rank + 1, ranks),
                         ModP(rank - 1, ranks), segs);
  }

  /** Allgather on one rank: no segment is skipped, and it refuses exactly a buffer region
      too small for all segments. */
  method AllgatherRing(ranks: nat, rank: nat, region: nat, n: nat, at: nat) returns (res: Result<seq<Op>>)
    requires rank < ranks
    ensures res.Err? <==> ranks * n > region
    ensures res.Ok? ==> |res.value| == ranks - 1
    ensures res.Ok? ==> forall t :: 0 <= t < ranks - 1 ==> res.value[t] == GatherOp(Segments(n, ranks), at, rank, t)
  {
    if ranks * n > region {
      return Err;
    }
    if ranks == 1 {
      return Ok([]);
    }
    ghost var segs := Segments(n, ranks);
    var ops: seq<Op> := [];
    for step := 0 to ranks - 1
      invariant |ops| == step
      invariant forall t :: 0 <= t < step ==> ops[t] == GatherOp(segs, at, rank, t)
    {
      var next := SegmentStep(ranks, at, n, rank, step, segs);
      ops := ops + [next];
    }
    res := Ok(ops);
  }

  // ----- broadcast

  /** What rank r calls in the first n rounds of a broadcast, without the rounds it sits out. */
  function CastCalls(root: nat, count: nat, at: nat, r: nat, n: nat): seq<Op> {
    if n == 0 then []
    else
      var last := CastOp(root, count, at, r, n - 1);
      CastCalls(root, count, at, r, n - 1) + if last == IDLE then [] else [last]
  }

  /** A rank other than the root takes part in the one round that serves it. */
  lemma {:induction false} ReceivesOnce(root: nat, count: nat, at: nat, r: nat, n: nat)
    requires r != root
    ensures CastCalls(root, count, at, r, n) ==
              if r < Served(root, n) then [Op(Some(Transfer(root, Slice(at, count))), None, None)] else []
  {
    if n > 0 {
      ReceivesOnce(root, count, at, r, n - 1);
    }
  }

  /** Broadcast on one rank: the root sends to every other rank in order, the others receive once. */
  method BroadcastFlat(ranks: nat, rank: nat, count: nat, at: nat, root: int) returns (res: Result<seq<Op>>)
    requires rank < ranks
    ensures res.Err? <==> root < 0 || root >= ranks
    ensures res.Ok? ==> res.value == CastCalls(root, count, at, rank, ranks - 1)
    ensures res.Ok? && rank != root ==> res.value == [Op(Some(Transfer(root, Slice(at, count))), None, None)]
    ensures res.Ok? && rank == root ==> |res.value| == ranks - 1
    ensures res.Ok? && rank == root ==>
              forall p :: 0 <= p < ranks && p != root ==>
                res.value[if p < root then p else p - 1] == Op(None, Some(Transfer(p, Slice(at, count))), None)
  {
    if root < 0 || root >= ranks {
      return Err;
    }
    var ops: seq<Op> := [];
    if rank == root {
      for peer := 0 to ranks
        invariant ops == CastCalls(root, count, at, rank, if peer <= root then peer else peer - 1)
        invariant |ops| == if peer <= root then peer else peer - 1
        invariant forall p :: 0 <= p < peer && p != root ==>
                    ops[if p < root then p else p - 1] == Op(None, Some(Transfer(p, Slice(at, count))), None)
      {
        if peer == root {
          continue;
        }
        ops := ops + [Op(None, Some(Transfer(peer, Slice(at, count))), None)];
      }
    } else {
      ReceivesOnce(root, count, at, rank, ranks - 1);
      ops := [Op(Some(Transfer(root, Slice(at, count))), None, None)];
    }
    res := Ok(ops);
  }

  // ----- from the ranks' calls to the program they run together

  ghost predicate AllIssue(progs: seq<seq<Op>>, n: nat) {
    forall r :: 0 <= r < |progs| ==> |progs[r]| == n
  }

  /** Round t of the whole is what each rank issues t-th. */
  ghost function Assembled(progs: seq<seq<Op>>, n: nat): (rounds: seq<Round>)
    requires AllIssue(progs, n)
    ensures |rounds| == n
  {
    seq(n, t requires 0 <= t < n => seq(|progs|, r requires 0 <= r < |progs| => progs[r][t]))
  }

  /** What all ranks issue for a ring allreduce, taken together, is the ring program. */
  lemma {:induction false} RingAssembles(chunks: seq<Chunk>, call: ReduceCall, progs: seq<seq<Op>>)
    requires |progs| == |call.dataAt| == |call.scratch| == |chunks| > 0
    requires forall r :: 0 <= r < |progs| ==>
               RingPrefix(progs[r], chunks, call.op, call.dataAt[r], call.scratch[r].off, r, 2 * (|chunks| - 1))
    ensures AllIssue(progs, 2 * (|chunks| - 1))
    ensures Assembled(progs, 2 * (|chunks| - 1)) == RingRounds(chunks, call)
  {
    forall r | 0 <= r < |progs| ensures |progs[r]| == 2 * (|chunks| - 1) {
      assert RingPrefix(progs[r], chunks, call.op, call.dataAt[r], call.scratch[r].off, r, 2 * (|chunks| - 1));
    }
    var rounds: seq<seq<Op>>, whole: seq<seq<Op>> := RingRounds(chunks, call), Assembled(progs, 2 * (|chunks| - 1));
    forall t | 0 <= t < |rounds| ensures whole[t] == rounds[t] {
      forall r | 0 <= r < |progs| ensures whole[t][r] == rounds[t][r] {
        assert RingPrefix(progs[r], chunks, call.op, call.dataAt[r], call.scratch[r].off, r, 2 * (|chunks| - 1));
      }
    }
  }

  ghost predicate IssuesDoubling(prog: seq<Op>, call: ReduceCall, steps: nat, r: nat) {
    && |prog| == steps && r < |call.dataAt| == |call.scratch|
    && forall k :: 0 <= k < steps ==> prog[k] == RdOp(call.count, call.op, call.dataAt[r], call.scratch[r].off, r, k)
  }

  /** Likewise for recursive doubling. */
  lemma {:induction false} DoublingAssembles(call: ReduceCall, steps: nat, progs: seq<seq<Op>>)
    requires |progs| == |call.dataAt| == |call.scratch|
    requires forall r :: 0 <= r < |progs| ==> IssuesDoubling(progs[r], call, steps, r)
    ensures AllIssue(progs, steps) && Assembled(progs, steps) == RdRounds(call, steps)
  {
    forall r | 0 <= r < |progs| ensures |progs[r]| == steps {
      assert IssuesDoubling(progs[r], call, steps, r);
    }
    var rounds: seq<seq<Op>>, whole: seq<seq<Op>> := RdRounds(call, steps), Assembled(progs, steps);
    forall k | 0 <= k < steps ensures whole[k] == rounds[k] {
      forall r | 0 <= r < |progs| ensures whole[k][r] == rounds[k][r] {
        assert IssuesDoubling(progs[r], call, steps, r);
      }
    }
  }

  ghost predicate IssuesGather(prog: seq<Op>, segs: seq<Chunk>, bufAt: seq<nat>, r: nat) {
    && r < |bufAt| == |segs| && |prog| == |segs| - 1
    && forall t :: 0 <= t < |prog| ==> prog[t] == GatherOp(segs, bufAt[r], r, t)
  }

  /** Likewise for allgather. */
  lemma {:induction false} GatherAssembles(segs: seq<Chunk>, bufAt: seq<nat>, progs: seq<seq<Op>>)
    requires |progs| == |bufAt| == |segs| > 0
    requires forall r :: 0 <= r < |progs| ==> IssuesGather(progs[r], segs, bufAt, r)
    ensures AllIssue(progs, |segs| - 1) && Assembled(progs, |segs| - 1) == GatherRounds(segs, bufAt)
  {
    forall r | 0 <= r < |progs| ensures |progs[r]| == |segs| - 1 {
      assert IssuesGather(progs[r], segs, bufAt, r);
    }
    var rounds: seq<seq<Op>>, whole: seq<seq<Op>> := GatherRounds(segs, bufAt), Assembled(progs, |segs| - 1);
    forall t | 0 <= t < |rounds| ensures whole[t] == rounds[t] {
      forall r | 0 <= r < |progs| ensures whole[t][r] == rounds[t][r] {
        assert IssuesGather(progs[r], segs, bufAt, r);
      }
    }
  }

  /** In a broadcast a rank issues its column of the program without the idle rounds. */
  lemma {:induction false} CastCallsAreBusy(call: CastCall, r: nat, n: nat)
    requires r < |call.bufAt| && n <= |call.bufAt| - 1
    ensures BusyCalls(CastRounds(call), r, n) == CastCalls(call.root, call.count, call.bufAt[r], r, n)
  {
    if n > 0 {
      CastCallsAreBusy(call, r, n - 1);
    }
  }

  lemma {:induction false} CastCallsNotIdle(root: nat, count: nat, at: nat, r: nat, n: nat)
    ensures IDLE !in CastCalls(root, count, at, r, n) && |CastCalls(root, count, at, r, n)| <= n
  {
    if n > 0 {
      CastCallsNotIdle(root, count, at, r, n - 1);
    }
  }

  /** What every rank issues for a broadcast. */
  ghost predicate IssuesCast(call: CastCall, progs: seq<seq<Op>>, r: nat) {
    && r < |progs| == |call.bufAt|
    && progs[r] == CastCalls(call.root, call.count, call.bufAt[r], r, |call.bufAt| - 1)
  }

  lemma {:induction false} CastSameCalls(call: CastCall, progs: seq<seq<Op>>, x: seq<Round>, y: seq<Round>, r: nat)
    requires IssuesCast(call, progs, r) && x == Unpadded(progs, |call.bufAt| - 1) && y == CastRounds(call)
    ensures SameCalls(x, y, r) && SameCalls(y, x, r)
  {
    var n := |call.bufAt| - 1;
    CastCallsNotIdle(call.root, call.count, call.bufAt[r], r, n);
    UnpaddedCalls(progs, n, x, r, n);
    assert progs[r][..|progs[r]|] == progs[r];
    CastCallsAreBusy(call, r, n);
  }

  /** The ranks' lists of calls and the broadcast program are the same program but for idle rounds. */
  lemma {:induction false} CastUnpadded<T>(call: CastCall, progs: seq<seq<Op>>, f: (ReduceOp, T, T) -> T,
                                           init: seq<seq<T>>)
    requires |init| == |progs| == |call.bufAt| > 0
    requires forall r {:trigger IssuesCast(call, progs, r)} :: 0 <= r < |progs| ==> IssuesCast(call, progs, r)
    ensures SamePrograms(Config(Unpadded(progs, |init| - 1), f, init), Config(CastRounds(call), f, init))
    ensures SamePrograms(Config(CastRounds(call), f, init), Config(Unpadded(progs, |init| - 1), f, init))
  {
    var x, y := Unpadded(progs, |init| - 1), CastRounds(call);
    forall r | 0 <= r < |init| ensures SameCalls(x, y, r) && SameCalls(y, x, r) {
      assert IssuesCast(call, progs, r);
      CastSameCalls(call, progs, x, y, r);
    }
  }

  /** Every run of the ranks' lists of broadcast calls is, up to idle rounds, a run of the
      broadcast program: it ends with every rank at the same point of the same calls, with the
      same memory and the same requests outstanding. */
  lemma {:induction false} CastRunsRefine<T>(call: CastCall, progs: seq<seq<Op>>, f: (ReduceOp, T, T) -> T,
                                             init: seq<seq<T>>, run: seq<State<T>>) returns (run': seq<State<T>>)
    requires |init| == |progs| == |call.bufAt| > 0
    requires forall r {:trigger IssuesCast(call, progs, r)} :: 0 <= r < |progs| ==> IssuesCast(call, progs, r)
    requires Shaped(Config(Unpadded(progs, |init| - 1), f, init))
    requires IsRun(Config(Unpadded(progs, |init| - 1), f, init), run)
    ensures Shaped(Config(CastRounds(call), f, init)) && IsRun(Config(CastRounds(call), f, init), run')
    ensures AllAlike(Unpadded(progs, |init| - 1), CastRounds(call), run[|run| - 1], run'[|run'| - 1])
  {
    CastUnpadded(call, progs, f, init);
    run' := SameCallsSameRuns(Config(Unpadded(progs, |init| - 1), f, init), Config(CastRounds(call), f, init), run);
  }

  /** Hence the ranks' lists of calls broadcast. */
  lemma {:induction false} CastListsCorrect<T>(call: CastCall, progs: seq<seq<Op>>, f: (ReduceOp, T, T) -> T,
                                               init: seq<seq<T>>, run: seq<State<T>>)
    requires |init| == |progs| && CastCallOk(call, Sizes(init))
    requires forall r {:trigger IssuesCast(call, progs, r)} :: 0 <= r < |progs| ==> IssuesCast(call, progs, r)
    requires Shaped(Config(Unpadded(progs, |init| - 1), f, init))
    requires IsRun(Config(Unpadded(progs, |init| - 1), f, init), run)
    requires AllDone(Config(Unpadded(progs, |init| - 1), f, init), run[|run| - 1])
    ensures CastOutcome(call, init, Memories(run[|run| - 1]))
  {
    var cfg := Config(CastRounds(call), f, init);
    CastUnpadded(call, progs, f, init);
    var full := SameCallsSameResults(Config(Unpadded(progs, |init| - 1), f, init), cfg, run);
    CastSync(call, f, init);
    CompletedRun(cfg, full, |full| - 1);
    assert Memories(run[|run| - 1]) == Sync(cfg.rounds, f, init);
  }

  // ----- what passing the guards gives

  /** A rank's data region of `region` elements and its scratch region really exist, apart
      from each other, in a memory of `size` elements. */
  predicate Placed(data: nat, region: nat, scratch: Slice, size: nat) {
    data + region <= size && Within(scratch, size) && Disjoint(Slice(data, region), scratch)
  }

  /** If every rank's regions exist, the guards of the ring are all it needs. */
  lemma {:induction false} RingGuardsSuffice(call: ReduceCall, regions: seq<nat>, sizes: seq<nat>)
    requires |call.dataAt| == |call.scratch| == |regions| == |sizes| > 0
    requires forall r :: 0 <= r < |sizes| ==> Placed(call.dataAt[r], regions[r], call.scratch[r], sizes[r])
    requires forall r :: 0 <= r < |sizes| ==> call.count <= regions[r]
    requires |sizes| > 1 ==>
               forall r, c :: 0 <= r < |sizes| && 0 <= c < |sizes| ==>
                 Chunks(call.count, |sizes|)[c].count <= call.scratch[r].len
    ensures RingCallOk(call, sizes)
  {
    if |sizes| > 1 {
      RingScratchExact(call.count, |sizes|);
    }
    forall r | 0 <= r < |sizes| ensures BuffersFit(call, RingScratch(call.count, |sizes|), r, sizes[r]) {
      assert Placed(call.dataAt[r], regions[r], call.scratch[r], sizes[r]);
    }
  }

  /** Likewise those of recursive doubling. */
  lemma {:induction false} DoublingGuardsSuffice(call: ReduceCall, steps: nat, regions: seq<nat>, sizes: seq<nat>)
    requires |call.dataAt| == |call.scratch| == |regions| == |sizes| == Pow2(steps)
    requires forall r :: 0 <= r < |sizes| ==> Placed(call.dataAt[r], regions[r], call.scratch[r], sizes[r])
    requires forall r :: 0 <= r < |sizes| ==> call.count <= regions[r]
    requires |sizes| > 1 ==> forall r :: 0 <= r < |sizes| ==> call.count <= call.scratch[r].len
    ensures RdCallOk(call, steps, sizes)
  {
    forall r | 0 <= r < |sizes| ensures BuffersFit(call, RdScratch(call.count, steps), r, sizes[r]) {
      assert Placed(call.dataAt[r], regions[r], call.scratch[r], sizes[r]);
    }
  }
}
