/**
 The library's collectives as programs of the data path, and what any sequence of them
 does when every rank issues the same sequence, with no barrier in between.
 */
module Collectives {
  import opened Base
  import opened Transport
  import opened Lockstep
  import opened Guarantees
  import opened Discipline
  import opened Chunking
  import opened Ring
  import opened RecursiveDoubling
  import opened Circulation

  datatype Call =
    | RingAllreduce(reduce: ReduceCall)
    | DoublingAllreduce(reduce: ReduceCall, steps: nat)
    | Allgather(gather: GatherCall)
    | Broadcast(cast: CastCall)

  /** What the collective demands of its callers, on ranks with memories of these sizes. */
  ghost predicate CallOk(call: Call, sizes: seq<nat>) {
    match call
    case RingAllreduce(c) => RingCallOk(c, sizes)
    case DoublingAllreduce(c, steps) => RdCallOk(c, steps, sizes)
    case Allgather(c) => GatherCallOk(c, sizes)
    case Broadcast(c) => CastCallOk(c, sizes)
  }

  function Program(call: Call, ranks: nat): seq<Round>
    requires ranks > 0
    requires match call
             case RingAllreduce(c) => |c.dataAt| == |c.scratch| == ranks
             case DoublingAllreduce(c, _) => |c.dataAt| == |c.scratch| == ranks
             case Allgather(c) => |c.bufAt| == ranks
             case Broadcast(c) => |c.bufAt| == ranks
  {
    match call
    case RingAllreduce(c) => RingRounds(Chunks(c.count, ranks), c)
    case DoublingAllreduce(c, steps) => RdRounds(c, steps)
    case Allgather(c) => GatherRounds(Segments(c.n, ranks), c.bufAt)
    case Broadcast(c) => CastRounds(c)
  }

  /** What the collective promises to turn the ranks' memories into. */
  ghost predicate Meets<T>(call: Call, f: (ReduceOp, T, T) -> T, before: seq<seq<T>>, after: seq<seq<T>>) {
    match call
    case RingAllreduce(c) => RingOutcome(c, f, before, after)
    case DoublingAllreduce(c, steps) => RdOutcome(c, steps, f, before, after)
    case Allgather(c) => GatherOutcome(c, before, after)
    case Broadcast(c) => CastOutcome(c, before, after)
  }

  lemma {:induction false} RingMeets<T>(c: ReduceCall, f: (ReduceOp, T, T) -> T, ms: seq<seq<T>>)
    requires RingCallOk(c, Sizes(ms))
    ensures |ms| > 0 && RoundsOk(Program(RingAllreduce(c), |ms|), Sizes(ms))
    ensures Meets(RingAllreduce(c), f, ms, Sync(Program(RingAllreduce(c), |ms|), f, ms))
  {
    RingSync(Chunks(c.count, |ms|), c, f, ms);
  }

  lemma {:induction false} DoublingMeets<T>(c: ReduceCall, steps: nat, f: (ReduceOp, T, T) -> T, ms: seq<seq<T>>)
    requires RdCallOk(c, steps, Sizes(ms))
    ensures |ms| > 0 && RoundsOk(Program(DoublingAllreduce(c, steps), |ms|), Sizes(ms))
    ensures Meets(DoublingAllreduce(c, steps), f, ms, Sync(Program(DoublingAllreduce(c, steps), |ms|), f, ms))
  {
    RdSync(c, f, ms, steps);
  }

  lemma {:induction false} AllgatherMeets<T>(c: GatherCall, f: (ReduceOp, T, T) -> T, ms: seq<seq<T>>)
    requires GatherCallOk(c, Sizes(ms))
    ensures |ms| > 0 && RoundsOk(Program(Allgather(c), |ms|), Sizes(ms))
    ensures Meets(Allgather(c), f, ms, Sync(Program(Allgather(c), |ms|), f, ms))
  {
    GatherSync(Segments(c.n, |ms|), |ms| * c.n, c, f, ms);
  }

  lemma {:induction false} BroadcastMeets<T>(c: CastCall, f: (ReduceOp, T, T) -> T, ms: seq<seq<T>>)
    requires CastCallOk(c, Sizes(ms))
    ensures |ms| > 0 && RoundsOk(Program(Broadcast(c), |ms|), Sizes(ms))
    ensures Meets(Broadcast(c), f, ms, Sync(Program(Broadcast(c), |ms|), f, ms))
  {
    CastSync(c, f, ms);
  }

  /** Every collective, run synchronously, keeps its promise. */
  lemma {:induction false} CallMeets<T>(call: Call, f: (ReduceOp, T, T) -> T, ms: seq<seq<T>>)
    requires CallOk(call, Sizes(ms))
    ensures |ms| > 0 && RoundsOk(Program(call, |ms|), Sizes(ms))
    ensures Meets(call, f, ms, Sync(Program(call, |ms|), f, ms))
  {
    match call
    case RingAllreduce(c) => RingMeets(c, f, ms);
    case DoublingAllreduce(c, steps) => DoublingMeets(c, steps, f, ms);
    case Allgather(c) => AllgatherMeets(c, f, ms);
    case Broadcast(c) => BroadcastMeets(c, f, ms);
  }

  // ----- sequences of collectives

  ghost predicate CallsOk(calls: seq<Call>, sizes: seq<nat>) {
    |sizes| > 0 && forall k :: 0 <= k < |calls| ==> CallOk(calls[k], sizes)
  }

  /** The program of a whole sequence: each collective right after the other. */
  function Programs(calls: seq<Call>, sizes: seq<nat>): seq<Round>
    requires CallsOk(calls, sizes)
  {
    var n := |calls| - 1;
    if calls == [] then [] else Programs(calls[..n], sizes) + Program(calls[n], |sizes|)
  }

  /** The round in which a rank enters the k-th collective. */
  function Entry(calls: seq<Call>, sizes: seq<nat>, k: nat): nat
    requires CallsOk(calls, sizes) && k <= |calls|
  {
    |Programs(calls[..k], sizes)|
  }

  /** `ms[k]` is what the ranks' memories are between collective k - 1 and collective k. */
  ghost predicate Chained<T>(calls: seq<Call>, f: (ReduceOp, T, T) -> T, init: seq<seq<T>>, ms: seq<seq<seq<T>>>) {
    && |ms| == |calls| + 1 && ms[0] == init
    && (forall k :: 0 <= k < |ms| ==> |ms[k]| == |init| && Sizes(ms[k]) == Sizes(init))
    && forall k {:trigger MeetsAt(calls, f, ms, k)} :: 0 <= k < |calls| ==> MeetsAt(calls, f, ms, k)
  }

  ghost predicate MeetsAt<T>(calls: seq<Call>, f: (ReduceOp, T, T) -> T, ms: seq<seq<seq<T>>>, k: nat)
    requires k < |calls| && |ms| == |calls| + 1
  {
    Meets(calls[k], f, ms[k], ms[k + 1])
  }

  lemma {:induction false} ExtendChain<T>(calls: seq<Call>, call: Call, f: (ReduceOp, T, T) -> T, init: seq<seq<T>>,
                       ms: seq<seq<seq<T>>>, after: seq<seq<T>>)
    requires Chained(calls, f, init, ms) && |after| == |init| && Sizes(after) == Sizes(init)
    requires Meets(call, f, ms[|calls|], after)
    ensures Chained(calls + [call], f, init, ms + [after])
  {
    var calls', ms' := calls + [call], ms + [after];
    forall k | 0 <= k < |calls'| ensures MeetsAt(calls', f, ms', k) {
      if k < |calls| {
        assert MeetsAt(calls, f, ms, k);
      }
    }
  }

  lemma {:induction false} ProgramsOk<T>(calls: seq<Call>, f: (ReduceOp, T, T) -> T, init: seq<seq<T>>)
    requires CallsOk(calls, Sizes(init))
    ensures RoundsOk(Programs(calls, Sizes(init)), Sizes(init))
  {
    if calls != [] {
      var n := |calls| - 1;
      ProgramsOk(calls[..n], f, init);
      CallMeets(calls[n], f, init);
    }
  }

  lemma {:induction false} ProgramsPrefix(calls: seq<Call>, sizes: seq<nat>, k: nat)
    requires CallsOk(calls, sizes) && k <= |calls|
    ensures Programs(calls[..k], sizes) <= Programs(calls, sizes)
    decreases |calls|
  {
    if k < |calls| {
      var n := |calls| - 1;
      ProgramsPrefix(calls[..n], sizes, k);
      assert calls[..n][..k] == calls[..k];
    } else {
      assert calls[..k] == calls;
    }
  }

  function SequenceConfig<T>(calls: seq<Call>, f: (ReduceOp, T, T) -> T, init: seq<seq<T>>): Config<T>
    requires CallsOk(calls, Sizes(init))
  {
    Config(Programs(calls, Sizes(init)), f, init)
  }

  /** A rank at the entry of collective k has nothing outstanding and the memory `mem`. */
  ghost predicate CleanAt<T>(rk: Rank<T>, mem: seq<T>) {
    !rk.failed && rk.sq == [] && rk.rq == [] && rk.scq == [] && rk.rcq == [] && rk.mem == mem
  }

  /** In state n, if rank r is between collective k - 1 and collective k, it is clean and has
      the memory the chain gives it there. */
  ghost predicate BoundaryKept<T>(calls: seq<Call>, sizes: seq<nat>, run: seq<State<T>>, ms: seq<seq<seq<T>>>,
                                  n: nat, r: nat, k: nat)
    requires CallsOk(calls, sizes) && k <= |calls| && n < |run| && r < |run[n]| && k < |ms| && r < |ms[k]|
  {
    run[n][r].pc.PostRecv? && run[n][r].round == Entry(calls, sizes, k) ==> CleanAt(run[n][r], ms[k][r])
  }

  /** `now` is what the synchronous program gives the ranks on entry to collective k. */
  ghost predicate IsEntry<T>(calls: seq<Call>, f: (ReduceOp, T, T) -> T, init: seq<seq<T>>, now: seq<seq<T>>, k: nat)
    requires CallsOk(calls, Sizes(init)) && k <= |calls| && RoundsOk(Programs(calls, Sizes(init)), Sizes(init))
  {
    && Entry(calls, Sizes(init), k) <= |Programs(calls, Sizes(init))|
    && now == Sync(Programs(calls, Sizes(init))[..Entry(calls, Sizes(init), k)], f, init)
  }

  /** The program up to the entry of collective k, and of the one after it. */
  lemma {:induction false} EntryStep(calls: seq<Call>, sizes: seq<nat>, k: nat)
    requires CallsOk(calls, sizes) && k < |calls|
    ensures Entry(calls, sizes, k) <= Entry(calls, sizes, k + 1) <= |Programs(calls, sizes)|
    ensures Programs(calls, sizes)[..Entry(calls, sizes, k)] == Programs(calls[..k], sizes)
    ensures Programs(calls, sizes)[..Entry(calls, sizes, k + 1)]
            == Programs(calls[..k], sizes) + Program(calls[k], |sizes|)
  {
    ProgramsPrefix(calls, sizes, k);
    ProgramsPrefix(calls, sizes, k + 1);
    assert calls[..k + 1][..k] == calls[..k];
  }

  lemma {:induction false} NextInChain<T>(calls: seq<Call>, f: (ReduceOp, T, T) -> T, init: seq<seq<T>>,
                                          now: seq<seq<T>>, k: nat) returns (after: seq<seq<T>>)
    requires CallsOk(calls, Sizes(init)) && k < |calls| && RoundsOk(Programs(calls, Sizes(init)), Sizes(init))
    requires IsEntry(calls, f, init, now, k)
    ensures |after| == |init| && Sizes(after) == Sizes(init) && Meets(calls[k], f, now, after)
    ensures IsEntry(calls, f, init, after, k + 1)
  {
    var first, rounds := Programs(calls[..k], Sizes(init)), Program(calls[k], |init|);
    EntryStep(calls, Sizes(init), k);
    CallMeets(calls[k], f, now);
    after := Sync(rounds, f, now);
    ProgramsOk(calls[..k], f, init);
    SyncConcat(first, rounds, f, init);
  }

  /** The chain of the first j collectives. */
  lemma {:induction false} ChainUpTo<T>(calls: seq<Call>, f: (ReduceOp, T, T) -> T, init: seq<seq<T>>, j: nat)
    returns (ms: seq<seq<seq<T>>>)
    requires CallsOk(calls, Sizes(init)) && j <= |calls| && RoundsOk(Programs(calls, Sizes(init)), Sizes(init))
    ensures Chained(calls[..j], f, init, ms)
    ensures forall k {:trigger IsEntry(calls, f, init, ms[k], k)} :: 0 <= k <= j ==> IsEntry(calls, f, init, ms[k], k)
  {
    if j == 0 {
      ms := [init];
      assert calls[..0] == [] && Programs(calls[..0], Sizes(init)) == [];
      assert IsEntry(calls, f, init, ms[0], 0);
    } else {
      var before := ChainUpTo(calls, f, init, j - 1);
      assert IsEntry(calls, f, init, before[j - 1], j - 1);
      var after := NextInChain(calls, f, init, before[j - 1], j - 1);
      ExtendChain(calls[..j - 1], calls[j - 1], f, init, before, after);
      assert calls[..j] == calls[..j - 1] + [calls[j - 1]];
      ms := before + [after];
      forall k {:trigger IsEntry(calls, f, init, ms[k], k)} | 0 <= k <= j ensures IsEntry(calls, f, init, ms[k], k) {
        if k < j {
          assert IsEntry(calls, f, init, before[k], k);
        }
      }
    }
  }

  /** Composition without barriers. One chain of memories, in which every collective keeps its
      promise, describes the whole run: whatever the interleaving, and however far apart the
      ranks are in the sequence, every rank between two collectives, in every state, has nothing
      outstanding and exactly the memory of the chain there. */
  lemma {:induction false} SequenceBoundary<T>(calls: seq<Call>, f: (ReduceOp, T, T) -> T, init: seq<seq<T>>,
                                               run: seq<State<T>>) returns (ms: seq<seq<seq<T>>>)
    requires CallsOk(calls, Sizes(init))
    requires Shaped(SequenceConfig(calls, f, init)) && IsRun(SequenceConfig(calls, f, init), run)
    ensures Chained(calls, f, init, ms) && RoundsOk(Programs(calls, Sizes(init)), Sizes(init))
    ensures forall k {:trigger IsEntry(calls, f, init, ms[k], k)} ::
              0 <= k <= |calls| ==> IsEntry(calls, f, init, ms[k], k)
    ensures forall n, r, k {:trigger BoundaryKept(calls, Sizes(init), run, ms, n, r, k)} ::
              0 <= n < |run| && 0 <= r < |init| && 0 <= k <= |calls| ==>
                   BoundaryKept(calls, Sizes(init), run, ms, n, r, k)
  {
    var cfg := SequenceConfig(calls, f, init);
    SequenceMatched(calls, f, init);
    ms := ChainUpTo(calls, f, init, |calls|);
    assert calls[..|calls|] == calls;
    forall n, r, k {:trigger BoundaryKept(calls, Sizes(init), run, ms, n, r, k)} |
      0 <= n < |run| && 0 <= r < |init| && 0 <= k <= |calls|
      ensures BoundaryKept(calls, Sizes(init), run, ms, n, r, k)
    {
      assert IsEntry(calls, f, init, ms[k], k);
      if run[n][r].pc.PostRecv? {
        BoundaryIsLockstep(cfg, run, n, r);
      }
    }
  }

  lemma {:induction false} SequenceMatched<T>(calls: seq<Call>, f: (ReduceOp, T, T) -> T, init: seq<seq<T>>)
    requires CallsOk(calls, Sizes(init))
    ensures Matched(SequenceConfig(calls, f, init)) && Shaped(SequenceConfig(calls, f, init))
  {
    ProgramsOk(calls, f, init);
  }

  function Memories<T>(st: State<T>): (ms: seq<seq<T>>)
    ensures |ms| == |st| && forall r :: 0 <= r < |st| ==> ms[r] == st[r].mem
  {
    if st == [] then [] else Memories(st[..|st| - 1]) + [st[|st| - 1].mem]
  }

  /** Total correctness of any sequence of collectives: no run deadlocks or fails a check, and
      a run that cannot be continued has every rank returned and every promise kept. */
  lemma {:induction false} SequenceCompletes<T>(calls: seq<Call>, f: (ReduceOp, T, T) -> T, init: seq<seq<T>>,
                                                run: seq<State<T>>, n: nat)
    returns (ms: seq<seq<seq<T>>>)
    requires CallsOk(calls, Sizes(init))
    requires Shaped(SequenceConfig(calls, f, init)) && IsRun(SequenceConfig(calls, f, init), run) && n < |run|
    requires Quiescent(SequenceConfig(calls, f, init), run[n])
    ensures AllDone(SequenceConfig(calls, f, init), run[n])
    ensures Chained(calls, f, init, ms) && ms[|calls|] == Memories(run[n])
  {
    var cfg := SequenceConfig(calls, f, init);
    SequenceMatched(calls, f, init);
    DeadlockFree(cfg, run, n);
    CompletedRun(cfg, run, n);
    ms := ChainUpTo(calls, f, init, |calls|);
    assert IsEntry(calls, f, init, ms[|calls|], |calls|) && calls[..|calls|] == calls;
    assert cfg.rounds[..|cfg.rounds|] == cfg.rounds;
    assert ms[|calls|] == Memories(run[n]);
  }

  /** Every run of any sequence of collectives is finite, none of its checks ever throws, and
      it can always go on unless every rank has returned. */
  lemma {:induction false} SequenceProgress<T>(calls: seq<Call>, f: (ReduceOp, T, T) -> T, init: seq<seq<T>>,
                                               run: seq<State<T>>, n: nat)
    requires CallsOk(calls, Sizes(init))
    requires Shaped(SequenceConfig(calls, f, init)) && IsRun(SequenceConfig(calls, f, init), run) && n < |run|
    ensures |run| - 1 <= |init| * (13 * |Programs(calls, Sizes(init))| + 13)
    ensures forall r :: 0 <= r < |init| ==> !run[n][r].failed
    ensures Quiescent(SequenceConfig(calls, f, init), run[n]) <==> AllDone(SequenceConfig(calls, f, init), run[n])
  {
    var cfg := SequenceConfig(calls, f, init);
    SequenceMatched(calls, f, init);
    RunsAreFinite(cfg, run);
    DeadlockFree(cfg, run, n);
    forall r | 0 <= r < |init| ensures !run[n][r].failed {
      NeverThrows(cfg, run, n, r);
    }
  }
}
