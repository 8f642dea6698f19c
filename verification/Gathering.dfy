/** Ring allgather on every interleaving. */
module Gathering {
  import opened Base
  import opened Transport
  import opened Lockstep
  import opened Guarantees
  import opened Chunking
  import opened Ring
  import opened Circulation
  import opened Collectives

  function GatherConfig<T>(call: GatherCall, f: (ReduceOp, T, T) -> T, init: seq<seq<T>>): Config<T>
    requires GatherCallOk(call, Sizes(init))
  {
    Config(GatherRounds(Segments(call.n, |init|), call.bufAt), f, init)
  }

  lemma {:induction false} GatherMatched<T>(call: GatherCall, f: (ReduceOp, T, T) -> T, init: seq<seq<T>>)
    requires GatherCallOk(call, Sizes(init))
    ensures Matched(GatherConfig(call, f, init)) && Shaped(GatherConfig(call, f, init))
    ensures GatherFits(Segments(call.n, |init|), |init| * call.n, call.bufAt, Sizes(init))
    ensures IsGather(GatherConfig(call, f, init).rounds, Segments(call.n, |init|), call.bufAt)
  {
    SegmentsTile(call.n, |init|);
    GatherRoundsOk(Segments(call.n, |init|), |init| * call.n, call.bufAt, Sizes(init));
  }

  lemma {:induction false} GatherAt<T>(rounds: seq<Round>, segs: seq<Chunk>, total: nat, bufAt: seq<nat>,
                                       f: (ReduceOp, T, T) -> T, ms: seq<seq<T>>, t: nat, r: nat, s: nat, i: nat)
    requires GatherFits(segs, total, bufAt, Sizes(ms)) && IsGather(rounds, segs, bufAt) && RoundsOk(rounds, Sizes(ms))
    requires t <= |rounds| && r < |ms| && s < |ms| && Holds(segs[s], i)
    ensures Gathered(bufAt, ms, Sync(rounds[..t], f, ms)[r], t, r, s, i)
  {
    var tr := TraceOf(rounds, f, ms);
    TraceAt(rounds, f, ms, tr, t);
    GatherInvariant(rounds, segs, total, bufAt, f, ms, tr, t, r, s, i);
  }

  /** A program that circulates the segments `segs` of buffers of `total` elements. */
  ghost predicate Circulates<T>(cfg: Config<T>, segs: seq<Chunk>, total: nat, bufAt: seq<nat>) {
    Matched(cfg) && IsGather(cfg.rounds, segs, bufAt) && GatherFits(segs, total, bufAt, Sizes(cfg.init))
  }

  lemma {:induction false} GatheredAtBoundary<T>(cfg: Config<T>, segs: seq<Chunk>, total: nat, bufAt: seq<nat>,
                                                 run: seq<State<T>>, n: nat, r: nat, s: nat, i: nat)
    requires Circulates(cfg, segs, total, bufAt) && IsRun(cfg, run) && n < |run|
    requires r < |cfg.init| && s < |cfg.init| && Holds(segs[s], i) && run[n][r].pc.PostRecv?
    ensures run[n][r].round <= |cfg.init| - 1
    ensures Gathered(bufAt, cfg.init, run[n][r].mem, run[n][r].round, r, s, i)
  {
    BoundaryIsLockstep(cfg, run, n, r);
    GatherAt(cfg.rounds, segs, total, bufAt, cfg.f, cfg.init, run[n][r].round, r, s, i);
  }

  /** Whatever the other ranks have done, a rank that has finished t steps has its own segment
      and those of the t ranks before it, and its initial elements everywhere else. */
  lemma {:induction false} GatherInvariantOnRuns<T>(call: GatherCall, segs: seq<Chunk>, f: (ReduceOp, T, T) -> T,
                                                    init: seq<seq<T>>, run: seq<State<T>>, n: nat, r: nat, s: nat,
                                                    i: nat)
    requires GatherCallOk(call, Sizes(init)) && segs == Segments(call.n, |init|)
    requires Shaped(GatherConfig(call, f, init)) && IsRun(GatherConfig(call, f, init), run) && n < |run|
    requires r < |init| && s < |init| && Holds(segs[s], i) && run[n][r].pc.PostRecv?
    ensures run[n][r].round <= |init| - 1
    ensures Gathered(call.bufAt, init, run[n][r].mem, run[n][r].round, r, s, i)
  {
    GatherMatched(call, f, init);
    GatheredAtBoundary(GatherConfig(call, f, init), segs, |init| * call.n, call.bufAt, run, n, r, s, i);
  }

  lemma {:induction false} PostedSend<T>(cfg: Config<T>, run: seq<State<T>>, n: nat, r: nat)
    requires Matched(cfg) && IsRun(cfg, run) && n < |run| && r < |cfg.init| && run[n][r].sq != []
    ensures run[n][r].round < |cfg.rounds| && cfg.rounds[run[n][r].round][r].send.Some? && run[n][r].pc.WaitSend?
    ensures run[n][r].sq[0].slice == cfg.rounds[run[n][r].round][r].send.value.slice
  {
    RankTracks(cfg, run, n, r);
  }

  /** The slice of a posted send holds what the synchronous round has there. */
  lemma {:induction false} SendSliceElement<T>(cfg: Config<T>, run: seq<State<T>>, n: nat, r: nat, at: nat)
    requires Matched(cfg) && IsRun(cfg, run) && n < |run| && r < |cfg.init| && run[n][r].sq != []
    requires InSlice(at, run[n][r].sq[0].slice)
    ensures run[n][r].round < |cfg.rounds|
    ensures at < |run[n][r].mem| && at < |SyncAt(cfg, run[n][r].round)[r]|
    ensures run[n][r].mem[at] == SyncAt(cfg, run[n][r].round)[r][at]
  {
    RunInv(cfg, run, n);
    PostedSend(cfg, run, n, r);
    SendSliceIntact(cfg, run[n], r);
    var slice := run[n][r].sq[0].slice;
    assert Read(run[n][r].mem, slice)[at - slice.off] == Read(SyncAt(cfg, run[n][r].round)[r], slice)[at - slice.off];
  }

  lemma {:induction false} ForwardsSegment<T>(cfg: Config<T>, segs: seq<Chunk>, total: nat, bufAt: seq<nat>,
                                              run: seq<State<T>>, n: nat, r: nat)
    requires Circulates(cfg, segs, total, bufAt) && IsRun(cfg, run) && n < |run| && r < |cfg.init| && run[n][r].sq != []
    ensures run[n][r].round < |segs| - 1
    ensures run[n][r].sq[0].slice == SegSlice(segs, bufAt[r], Back(r, run[n][r].round, |segs|))
  {
    PostedSend(cfg, run, n, r);
    var t := run[n][r].round;
    assert IsGatherRound(cfg.rounds[t], segs, bufAt, t) && RunsGatherOp(cfg.rounds[t], segs, bufAt, t, r);
  }

  lemma {:induction false} ForwardsElement<T>(cfg: Config<T>, segs: seq<Chunk>, total: nat, bufAt: seq<nat>,
                                              run: seq<State<T>>, n: nat, r: nat, s: nat, i: nat)
    requires Circulates(cfg, segs, total, bufAt) && IsRun(cfg, run) && n < |run| && r < |cfg.init| && run[n][r].sq != []
    requires run[n][r].round < |segs| - 1 && s == Back(r, run[n][r].round, |segs|) && Holds(segs[s], i)
    ensures CopiedFrom(bufAt, cfg.init, run[n][r].mem, r, s, i)
  {
    ForwardsSegment(cfg, segs, total, bufAt, run, n, r);
    SendSliceElement(cfg, run, n, r, bufAt[r] + i);
    GatherAt(cfg.rounds, segs, total, bufAt, cfg.f, cfg.init, run[n][r].round, r, s, i);
    assert Dist(r, s, |segs|) == run[n][r].round;
  }

  /** In every state of every run, a posted send's slice holds the original segment of the rank
      it belongs to: no rank ever forwards a segment it has not received. */
  lemma {:induction false} ForwardsWhatItHas<T>(call: GatherCall, segs: seq<Chunk>, f: (ReduceOp, T, T) -> T,
                                                init: seq<seq<T>>, run: seq<State<T>>, n: nat, r: nat, i: nat)
    requires GatherCallOk(call, Sizes(init)) && segs == Segments(call.n, |init|)
    requires Shaped(GatherConfig(call, f, init)) && IsRun(GatherConfig(call, f, init), run) && n < |run|
    requires r < |init| && run[n][r].sq != []
    ensures run[n][r].round < |init| - 1
    ensures var s := Back(r, run[n][r].round, |init|);
            && run[n][r].sq[0].slice == SegSlice(segs, call.bufAt[r], s)
            && (Holds(segs[s], i) ==> CopiedFrom(call.bufAt, init, run[n][r].mem, r, s, i))
  {
    var cfg, total := GatherConfig(call, f, init), |init| * call.n;
    GatherMatched(call, f, init);
    ForwardsSegment(cfg, segs, total, call.bufAt, run, n, r);
    var s := Back(r, run[n][r].round, |init|);
    if Holds(segs[s], i) {
      ForwardsElement(cfg, segs, total, call.bufAt, run, n, r, s, i);
    }
  }

  /** In every state of every run, a rank's own segment is what it was. */
  lemma {:induction false} KeepsItsOwn<T>(call: GatherCall, f: (ReduceOp, T, T) -> T, init: seq<seq<T>>,
                                          run: seq<State<T>>, n: nat, r: nat, i: nat)
    requires GatherCallOk(call, Sizes(init))
    requires Shaped(GatherConfig(call, f, init)) && IsRun(GatherConfig(call, f, init), run) && n < |run|
    requires r < |init| && Holds(Segments(call.n, |init|)[r], i)
    ensures CopiedFrom(call.bufAt, init, run[n][r].mem, r, r, i)
  {
    var cfg, segs, total := GatherConfig(call, f, init), Segments(call.n, |init|), |init| * call.n;
    GatherMatched(call, f, init);
    assert EndsBy(segs, r, total);
    GatherHasData(segs, total, call.bufAt, init, i);
    NeverReceivesOwn(cfg.rounds, segs, total, call.bufAt, r, i);
    Frame(cfg, run, n, r, call.bufAt[r] + i);
  }

  lemma {:induction false} NeverReceivesOwn(rounds: seq<Round>, segs: seq<Chunk>, total: nat, bufAt: seq<nat>, r: nat,
                                            i: nat)
    requires IsGather(rounds, segs, bufAt) && Tiles(segs, total) && |bufAt| == |segs| && r < |segs| && Holds(segs[r], i)
    ensures forall t :: 0 <= t < |rounds| ==> r < |rounds[t]| && !Writes(rounds[t][r], bufAt[r] + i)
  {
    forall t | 0 <= t < |rounds| ensures r < |rounds[t]| && !Writes(rounds[t][r], bufAt[r] + i) {
      assert IsGatherRound(rounds[t], segs, bufAt, t) && RunsGatherOp(rounds[t], segs, bufAt, t, r);
      TilesDisjoint(segs, total, r, Back(r, t + 1, |segs|));
    }
  }

  /** When nothing more can happen, every rank has returned and every buffer is the
      concatenation of all ranks' original segments. */
  lemma {:induction false} AllgatherCorrect<T>(call: GatherCall, f: (ReduceOp, T, T) -> T, init: seq<seq<T>>,
                                               run: seq<State<T>>, n: nat)
    requires GatherCallOk(call, Sizes(init))
    requires Shaped(GatherConfig(call, f, init)) && IsRun(GatherConfig(call, f, init), run) && n < |run|
    requires Quiescent(GatherConfig(call, f, init), run[n])
    ensures AllDone(GatherConfig(call, f, init), run[n])
    ensures GatherOutcome(call, init, Memories(run[n]))
  {
    var cfg := GatherConfig(call, f, init);
    GatherMatched(call, f, init);
    DeadlockFree(cfg, run, n);
    CompletedRun(cfg, run, n);
    GatherSync(Segments(call.n, |init|), |init| * call.n, call, f, init);
    assert Memories(run[n]) == Sync(cfg.rounds, f, init);
  }
}
