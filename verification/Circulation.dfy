/** The two collectives that move data without combining it: ring allgather and flat broadcast. */
module Circulation {
  import opened Base
  import opened Transport
  import opened Lockstep
  import opened Chunking
  import opened Ring

  // ----- allgather

  /** Rank r's buffer starts at bufAt[r] and holds one segment of n elements per rank. */
  datatype GatherCall = GatherCall(n: nat, bufAt: seq<nat>)

  function Segments(n: nat, ranks: nat): (segs: seq<Chunk>)
    ensures |segs| == ranks
  {
    seq(ranks, s requires 0 <= s < ranks => Chunk(s * n, n))
  }

  lemma {:induction false} SegmentsTile(n: nat, ranks: nat)
    ensures Tiles(Segments(n, ranks), ranks * n)
  {
    var segs := Segments(n, ranks);
    forall i | 0 <= i < ranks ensures EndsBy(segs, i, ranks * n) {
      assert i * n + n == (i + 1) * n <= ranks * n;
    }
    forall i, j | 0 <= i < j < ranks ensures Precedes(segs, i, j) {
      assert i * n + n == (i + 1) * n <= j * n;
    }
    forall x | 0 <= x < ranks * n ensures Covered(segs, x) {
      SegmentOf(n, ranks, x);
      assert Holds(segs[x / n], x);
    }
  }

  lemma {:induction false} SegmentOf(n: nat, ranks: nat, x: nat)
    requires x < ranks * n
    ensures n > 0 && 0 <= x / n < ranks && x / n * n <= x < x / n * n + n
  {
    var s := x / n;
    assert x == n * s + x % n;
    assert s >= ranks ==> s * n >= ranks * n;
  }

  function SegSlice(segs: seq<Chunk>, at: nat, s: nat): Slice
    requires s < |segs|
  {
    Slice(at + segs[s].offset, segs[s].count)
  }

  /** No segment is skipped, not even an empty one. */
  function GatherOp(segs: seq<Chunk>, at: nat, r: nat, t: nat): Op
    requires r < |segs| && t < |segs| - 1
  {
    var ranks := |segs|;
    Op(Some(Transfer(Pred(r, ranks), SegSlice(segs, at, Back(r, t + 1, ranks)))),
       Some(Transfer(Succ(r, ranks), SegSlice(segs, at, Back(r, t, ranks)))),
       None)
  }

  function GatherRound(segs: seq<Chunk>, bufAt: seq<nat>, t: nat): (round: Round)
    requires |bufAt| == |segs| && t < |segs| - 1
    ensures |round| == |segs|
  {
    seq(|segs|, r requires 0 <= r < |segs| => GatherOp(segs, bufAt[r], r, t))
  }

  function GatherRounds(segs: seq<Chunk>, bufAt: seq<nat>): (rounds: seq<Round>)
    requires |bufAt| == |segs| > 0
    ensures |rounds| == |segs| - 1
  {
    seq(|segs| - 1, t requires 0 <= t < |segs| - 1 => GatherRound(segs, bufAt, t))
  }

  predicate RunsGatherOp(round: Round, segs: seq<Chunk>, bufAt: seq<nat>, t: nat, r: nat)
    requires |round| == |bufAt| == |segs| && r < |segs| && t < |segs| - 1
  {
    round[r] == GatherOp(segs, bufAt[r], r, t)
  }

  ghost predicate IsGatherRound(round: Round, segs: seq<Chunk>, bufAt: seq<nat>, t: nat) {
    && |round| == |bufAt| == |segs| && t < |segs| - 1
    && forall r {:trigger RunsGatherOp(round, segs, bufAt, t, r)} ::
         0 <= r < |segs| ==> RunsGatherOp(round, segs, bufAt, t, r)
  }

  ghost predicate IsGather(rounds: seq<Round>, segs: seq<Chunk>, bufAt: seq<nat>) {
    && |rounds| == |segs| - 1
    && forall t {:trigger IsGatherRound(rounds[t], segs, bufAt, t)} ::
         0 <= t < |rounds| ==> IsGatherRound(rounds[t], segs, bufAt, t)
  }

  predicate BufferFits(at: nat, total: nat, size: nat) {
    at + total <= size
  }

  ghost predicate GatherFits(segs: seq<Chunk>, total: nat, bufAt: seq<nat>, sizes: seq<nat>) {
    && |bufAt| == |segs| == |sizes| > 0 && Tiles(segs, total)
    && forall r {:trigger BufferFits(bufAt[r], total, sizes[r])} ::
         0 <= r < |sizes| ==> BufferFits(bufAt[r], total, sizes[r])
  }

  lemma {:induction false} GatherRoundOk(segs: seq<Chunk>, total: nat, bufAt: seq<nat>, sizes: seq<nat>, t: nat)
    requires GatherFits(segs, total, bufAt, sizes) && t < |segs| - 1
    ensures RoundOk(GatherRound(segs, bufAt, t), sizes)
  {
    var ranks := |sizes|;
    var round := GatherRound(segs, bufAt, t);
    forall r | 0 <= r < ranks ensures OpOk(round[r], r, ranks, sizes[r]) && SendMet(round, r) && RecvMet(round, r) {
      var out, into := Back(r, t, ranks), Back(r, t + 1, ranks);
      assert BufferFits(bufAt[r], total, sizes[r]) && EndsBy(segs, out, total) && EndsBy(segs, into, total);
      TilesDisjoint(segs, total, into, out);
      assert Back(Succ(r, ranks), t + 1, ranks) == out && Back(Pred(r, ranks), t, ranks) == into;
    }
  }

  lemma {:induction false} GatherRoundsOk(segs: seq<Chunk>, total: nat, bufAt: seq<nat>, sizes: seq<nat>)
    requires GatherFits(segs, total, bufAt, sizes)
    ensures RoundsOk(GatherRounds(segs, bufAt), sizes) && IsGather(GatherRounds(segs, bufAt), segs, bufAt)
  {
    forall t | 0 <= t < |sizes| - 1 ensures RoundOk(GatherRounds(segs, bufAt)[t], sizes) {
      GatherRoundOk(segs, total, bufAt, sizes, t);
    }
  }

  /** After t synchronous steps rank r has the segments of the t ranks before it and its own;
      the others still hold what they held. Here i is an index of segment s. */
  ghost predicate Gathered<T>(bufAt: seq<nat>, ms: seq<seq<T>>, mem: seq<T>, t: nat, r: nat, s: nat, i: nat) {
    && r < |ms| && s < |ms| && HasData(ms, bufAt, i) && bufAt[r] + i < |mem|
    && mem[bufAt[r] + i] == if Dist(r, s, |ms|) <= t then ms[s][bufAt[s] + i] else ms[r][bufAt[r] + i]
  }

  lemma {:induction false} GatherStep<T>(round: Round, segs: seq<Chunk>, total: nat, bufAt: seq<nat>,
                                         f: (ReduceOp, T, T) -> T, ms: seq<seq<T>>,
                      now: seq<seq<T>>, now': seq<seq<T>>, t: nat, r: nat, s: nat, i: nat)
    requires GatherFits(segs, total, bufAt, Sizes(ms)) && Sizes(now) == Sizes(ms) && |now| == |ms|
    requires IsGatherRound(round, segs, bufAt, t) && IsStep(round, f, now, now')
    requires r < |ms| && s < |ms| && Holds(segs[s], i)
    requires Gathered(bufAt, ms, now[r], t, r, s, i) && Gathered(bufAt, ms, now[Pred(r, |ms|)], t, Pred(r, |ms|), s, i)
    ensures Gathered(bufAt, ms, now'[r], t + 1, r, s, i)
  {
    var ranks, q := |ms|, Pred(r, |ms|);
    var into := Back(r, t + 1, ranks);
    assert RunsGatherOp(round, segs, bufAt, t, r) && RunsGatherOp(round, segs, bufAt, t, q);
    if s == into {
      assert Back(q, t, ranks) == into && Dist(q, s, ranks) == t && Dist(r, s, ranks) == t + 1;
      RoundCopies(round, f, now, now', r, q, SegSlice(segs, bufAt[r], s), SegSlice(segs, bufAt[q], s),
                  i - segs[s].offset);
    } else {
      assert Dist(r, s, ranks) != t + 1;
      TilesDisjoint(segs, total, s, into);
      RoundKeeps(round, f, now, now', r, bufAt[r] + i);
    }
  }

  lemma {:induction false} GatherHasData<T>(segs: seq<Chunk>, total: nat, bufAt: seq<nat>, ms: seq<seq<T>>, i: nat)
    requires GatherFits(segs, total, bufAt, Sizes(ms)) && i < total
    ensures HasData(ms, bufAt, i)
  {
    forall r | 0 <= r < |ms| ensures bufAt[r] + i < |ms[r]| {
      assert BufferFits(bufAt[r], total, Sizes(ms)[r]);
    }
  }

  /** A rank only ever forwards a segment it owns or has received, and never loses one. */
  lemma {:induction false} GatherInvariant<T>(rounds: seq<Round>, segs: seq<Chunk>, total: nat, bufAt: seq<nat>,
                                              f: (ReduceOp, T, T) -> T,
                                              ms: seq<seq<T>>, tr: seq<seq<seq<T>>>, t: nat, r: nat, s: nat, i: nat)
    requires GatherFits(segs, total, bufAt, Sizes(ms)) && IsGather(rounds, segs, bufAt) && IsTrace(rounds, f, ms, tr)
    requires t < |tr| && r < |ms| && s < |ms| && Holds(segs[s], i)
    ensures Gathered(bufAt, ms, tr[t][r], t, r, s, i)
    decreases t
  {
    if t == 0 {
      assert EndsBy(segs, s, total);
      GatherHasData(segs, total, bufAt, ms, i);
    } else {
      var n := t - 1;
      GatherInvariant(rounds, segs, total, bufAt, f, ms, tr, n, r, s, i);
      GatherInvariant(rounds, segs, total, bufAt, f, ms, tr, n, Pred(r, |ms|), s, i);
      assert StepAt(rounds, f, tr, n) && IsGatherRound(rounds[n], segs, bufAt, n);
      GatherStep(rounds[n], segs, total, bufAt, f, ms, tr[n], tr[t], n, r, s, i);
    }
  }

  /** Element i of rank r's buffer is rank s's. */
  ghost predicate CopiedFrom<T>(bufAt: seq<nat>, before: seq<seq<T>>, mem: seq<T>, r: nat, s: nat, i: nat) {
    && |bufAt| == |before| && r < |before| && s < |before| && bufAt[s] + i < |before[s]| && bufAt[r] + i < |mem|
    && mem[bufAt[r] + i] == before[s][bufAt[s] + i]
  }

  ghost predicate BufferFrame<T>(bufAt: seq<nat>, total: nat, before: seq<seq<T>>, after: seq<seq<T>>) {
    && |bufAt| == |before| == |after|
    && forall r, k {:trigger KeptAt(before[r], after[r], k)} ::
         0 <= r < |before| && 0 <= k < |before[r]| && !InSlice(k, Slice(bufAt[r], total)) ==>
              KeptAt(before[r], after[r], k)
  }

  ghost predicate GatherOutcomeOn<T>(segs: seq<Chunk>, total: nat, bufAt: seq<nat>, before: seq<seq<T>>,
                                     after: seq<seq<T>>) {
    && |segs| == |before| == |after| && Sizes(after) == Sizes(before)
    && (forall r, s, i {:trigger CopiedFrom(bufAt, before, after[r], r, s, i)} ::
          0 <= r < |before| && 0 <= s < |before| && 0 <= i < total && Holds(segs[s], i) ==>
               CopiedFrom(bufAt, before, after[r], r, s, i))
    && BufferFrame(bufAt, total, before, after)
  }

  /** What an allgather does: every rank's buffer becomes the concatenation of all ranks'
      segments, and nothing outside it changes. */
  ghost predicate GatherOutcome<T>(call: GatherCall, before: seq<seq<T>>, after: seq<seq<T>>) {
    GatherOutcomeOn(Segments(call.n, |before|), |before| * call.n, call.bufAt, before, after)
  }

  ghost predicate GatherCallOk(call: GatherCall, sizes: seq<nat>) {
    && |call.bufAt| == |sizes| > 0
    && forall r {:trigger BufferFits(call.bufAt[r], |sizes| * call.n, sizes[r])} ::
         0 <= r < |sizes| ==> BufferFits(call.bufAt[r], |sizes| * call.n, sizes[r])
  }

  lemma {:induction false} GatherFrame<T>(rounds: seq<Round>, segs: seq<Chunk>, total: nat, bufAt: seq<nat>,
                                          f: (ReduceOp, T, T) -> T,
                       ms: seq<seq<T>>, tr: seq<seq<seq<T>>>, r: nat, k: nat)
    requires GatherFits(segs, total, bufAt, Sizes(ms)) && IsGather(rounds, segs, bufAt) && IsTrace(rounds, f, ms, tr)
    requires r < |ms| && k < |ms[r]| && !InSlice(k, Slice(bufAt[r], total))
    ensures KeptAt(ms[r], tr[|rounds|][r], k)
  {
    forall t | 0 <= t < |rounds| ensures r < |rounds[t]| && !Writes(rounds[t][r], k) {
      assert IsGatherRound(rounds[t], segs, bufAt, t) && RunsGatherOp(rounds[t], segs, bufAt, t, r);
      assert EndsBy(segs, Back(r, t + 1, |segs|), total);
    }
    TraceKeeps(rounds, f, ms, tr, |rounds|, r, k);
  }

  lemma {:induction false} GatherTraceOutcome<T>(rounds: seq<Round>, segs: seq<Chunk>, total: nat, bufAt: seq<nat>,
                                                 f: (ReduceOp, T, T) -> T,
                              ms: seq<seq<T>>, tr: seq<seq<seq<T>>>, after: seq<seq<T>>)
    requires GatherFits(segs, total, bufAt, Sizes(ms)) && IsGather(rounds, segs, bufAt)
    requires IsTrace(rounds, f, ms, tr) && after == tr[|rounds|]
    ensures GatherOutcomeOn(segs, total, bufAt, ms, after)
  {
    forall r, s, i {:trigger CopiedFrom(bufAt, ms, after[r], r, s, i)} |
      0 <= r < |ms| && 0 <= s < |ms| && 0 <= i < total && Holds(segs[s], i)
      ensures CopiedFrom(bufAt, ms, after[r], r, s, i)
    {
      GatherInvariant(rounds, segs, total, bufAt, f, ms, tr, |rounds|, r, s, i);
    }
    forall r, k {:trigger KeptAt(ms[r], after[r], k)} |
      0 <= r < |ms| && 0 <= k < |ms[r]| && !InSlice(k, Slice(bufAt[r], total))
      ensures KeptAt(ms[r], after[r], k)
    {
      GatherFrame(rounds, segs, total, bufAt, f, ms, tr, r, k);
    }
  }

  /** The synchronous allgather. */
  lemma {:induction false} GatherSync<T>(segs: seq<Chunk>, total: nat, call: GatherCall, f: (ReduceOp, T, T) -> T,
                                         ms: seq<seq<T>>)
    requires GatherCallOk(call, Sizes(ms)) && segs == Segments(call.n, |ms|) && total == |ms| * call.n
    ensures RoundsOk(GatherRounds(segs, call.bufAt), Sizes(ms))
    ensures GatherOutcome(call, ms, Sync(GatherRounds(segs, call.bufAt), f, ms))
  {
    SegmentsTile(call.n, |ms|);
    GatherRoundsOk(segs, total, call.bufAt, Sizes(ms));
    GatherSyncOn(GatherRounds(segs, call.bufAt), segs, total, call.bufAt, f, ms);
  }

  lemma {:induction false} GatherSyncOn<T>(rounds: seq<Round>, segs: seq<Chunk>, total: nat, bufAt: seq<nat>,
                                           f: (ReduceOp, T, T) -> T, ms: seq<seq<T>>)
    requires GatherFits(segs, total, bufAt, Sizes(ms)) && IsGather(rounds, segs, bufAt) && RoundsOk(rounds, Sizes(ms))
    ensures GatherOutcomeOn(segs, total, bufAt, ms, Sync(rounds, f, ms))
  {
    var tr := TraceOf(rounds, f, ms);
    GatherTraceOutcome(rounds, segs, total, bufAt, f, ms, tr, tr[|rounds|]);
  }

  // ----- broadcast

  datatype CastCall = CastCall(root: nat, count: nat, bufAt: seq<nat>)

  /** The peer the root serves in its t-th send: every rank but itself, in order. */
  function Served(root: nat, t: nat): (peer: nat)
    ensures peer != root
  {
    if t < root then t else t + 1
  }

  function CastOp(root: nat, count: nat, at: nat, r: nat, t: nat): Op {
    if r == root then Op(None, Some(Transfer(Served(root, t), Slice(at, count))), None)
    else if r == Served(root, t) then Op(Some(Transfer(root, Slice(at, count))), None, None)
    else Op(None, None, None)
  }

  function CastRound(call: CastCall, t: nat): (round: Round)
    ensures |round| == |call.bufAt|
  {
    seq(|call.bufAt|, r requires 0 <= r < |call.bufAt| => CastOp(call.root, call.count, call.bufAt[r], r, t))
  }

  function CastRounds(call: CastCall): (rounds: seq<Round>)
    requires |call.bufAt| > 0
    ensures |rounds| == |call.bufAt| - 1
  {
    seq(|call.bufAt| - 1, t requires 0 <= t < |call.bufAt| - 1 => CastRound(call, t))
  }

  predicate RunsCastOp(round: Round, call: CastCall, t: nat, r: nat)
    requires r < |round| == |call.bufAt|
  {
    round[r] == CastOp(call.root, call.count, call.bufAt[r], r, t)
  }

  ghost predicate IsCastRound(round: Round, call: CastCall, t: nat) {
    && |round| == |call.bufAt|
    && forall r {:trigger RunsCastOp(round, call, t, r)} :: 0 <= r < |round| ==> RunsCastOp(round, call, t, r)
  }

  ghost predicate IsCast(rounds: seq<Round>, call: CastCall) {
    && |rounds| == |call.bufAt| - 1
    && forall t {:trigger IsCastRound(rounds[t], call, t)} :: 0 <= t < |rounds| ==> IsCastRound(rounds[t], call, t)
  }

  ghost predicate CastCallOk(call: CastCall, sizes: seq<nat>) {
    && |call.bufAt| == |sizes| && call.root < |sizes|
    && forall r {:trigger BufferFits(call.bufAt[r], call.count, sizes[r])} ::
         0 <= r < |sizes| ==> BufferFits(call.bufAt[r], call.count, sizes[r])
  }

  lemma {:induction false} CastRoundOk(call: CastCall, sizes: seq<nat>, t: nat)
    requires CastCallOk(call, sizes) && t < |sizes| - 1
    ensures RoundOk(CastRound(call, t), sizes)
  {
    var round := CastRound(call, t);
    forall r | 0 <= r < |round| ensures OpOk(round[r], r, |round|, sizes[r]) && SendMet(round, r) && RecvMet(round, r) {
      assert BufferFits(call.bufAt[r], call.count, sizes[r]);
    }
  }

  lemma {:induction false} CastRoundsOk(call: CastCall, sizes: seq<nat>)
    requires CastCallOk(call, sizes)
    ensures RoundsOk(CastRounds(call), sizes) && IsCast(CastRounds(call), call)
  {
    forall t | 0 <= t < |sizes| - 1 ensures RoundOk(CastRounds(call)[t], sizes) {
      CastRoundOk(call, sizes, t);
    }
  }

  /** After t sends rank r holds the root's element if it is the root or was served. */
  ghost predicate CastIs<T>(call: CastCall, ms: seq<seq<T>>, mem: seq<T>, t: nat, r: nat, i: nat) {
    if r == call.root || r < Served(call.root, t) then CopiedFrom(call.bufAt, ms, mem, r, call.root, i)
    else CopiedFrom(call.bufAt, ms, mem, r, r, i)
  }

  lemma {:induction false} CastStep<T>(round: Round, call: CastCall, f: (ReduceOp, T, T) -> T, ms: seq<seq<T>>,
                    now: seq<seq<T>>, now': seq<seq<T>>, t: nat, r: nat, i: nat)
    requires CastCallOk(call, Sizes(ms)) && Sizes(now) == Sizes(ms) && |now| == |ms|
    requires t < |ms| - 1 && r < |ms| && i < call.count
    requires IsCastRound(round, call, t) && IsStep(round, f, now, now')
    requires CastIs(call, ms, now[r], t, r, i) && CastIs(call, ms, now[call.root], t, call.root, i)
    ensures CastIs(call, ms, now'[r], t + 1, r, i)
  {
    var root := call.root;
    assert RunsCastOp(round, call, t, r) && RunsCastOp(round, call, t, root);
    if r == Served(root, t) {
      RoundCopies(round, f, now, now', r, root, Slice(call.bufAt[r], call.count), Slice(call.bufAt[root], call.count),
                  i);
    } else {
      assert Sizes(now)[r] == |now[r]|;
      RoundKeeps(round, f, now, now', r, call.bufAt[r] + i);
    }
  }

  lemma {:induction false} CastInvariant<T>(rounds: seq<Round>, call: CastCall, f: (ReduceOp, T, T) -> T,
                                            ms: seq<seq<T>>, tr: seq<seq<seq<T>>>, t: nat, r: nat, i: nat)
    requires CastCallOk(call, Sizes(ms)) && IsCast(rounds, call) && IsTrace(rounds, f, ms, tr)
    requires t < |tr| && r < |ms| && i < call.count
    ensures CastIs(call, ms, tr[t][r], t, r, i)
    decreases t
  {
    if t == 0 {
      assert BufferFits(call.bufAt[r], call.count, Sizes(ms)[r]);
    } else {
      var n := t - 1;
      CastInvariant(rounds, call, f, ms, tr, n, r, i);
      CastInvariant(rounds, call, f, ms, tr, n, call.root, i);
      assert StepAt(rounds, f, tr, n) && IsCastRound(rounds[n], call, n);
      CastStep(rounds[n], call, f, ms, tr[n], tr[t], n, r, i);
    }
  }

  /** What a broadcast does: every rank's buffer becomes the root's, and nothing else changes. */
  ghost predicate CastOutcome<T>(call: CastCall, before: seq<seq<T>>, after: seq<seq<T>>) {
    && |before| == |after| && Sizes(after) == Sizes(before)
    && (forall r, i {:trigger CopiedFrom(call.bufAt, before, after[r], r, call.root, i)} ::
          0 <= r < |before| && 0 <= i < call.count ==> CopiedFrom(call.bufAt, before, after[r], r, call.root, i))
    && BufferFrame(call.bufAt, call.count, before, after)
  }

  lemma {:induction false} CastFrame<T>(rounds: seq<Round>, call: CastCall, f: (ReduceOp, T, T) -> T, ms: seq<seq<T>>,
                                        tr: seq<seq<seq<T>>>, r: nat, k: nat)
    requires CastCallOk(call, Sizes(ms)) && IsCast(rounds, call) && IsTrace(rounds, f, ms, tr)
    requires r < |ms| && k < |ms[r]| && !InSlice(k, Slice(call.bufAt[r], call.count))
    ensures KeptAt(ms[r], tr[|rounds|][r], k)
  {
    forall t | 0 <= t < |rounds| ensures r < |rounds[t]| && !Writes(rounds[t][r], k) {
      assert IsCastRound(rounds[t], call, t) && RunsCastOp(rounds[t], call, t, r);
    }
    TraceKeeps(rounds, f, ms, tr, |rounds|, r, k);
  }

  lemma {:induction false} CastTraceOutcome<T>(rounds: seq<Round>, call: CastCall, f: (ReduceOp, T, T) -> T,
                                               ms: seq<seq<T>>,
                            tr: seq<seq<seq<T>>>, after: seq<seq<T>>)
    requires CastCallOk(call, Sizes(ms)) && IsCast(rounds, call) && IsTrace(rounds, f, ms, tr) && after == tr[|rounds|]
    ensures CastOutcome(call, ms, after)
  {
    forall r, i {:trigger CopiedFrom(call.bufAt, ms, after[r], r, call.root, i)} | 0 <= r < |ms| && 0 <= i < call.count
      ensures CopiedFrom(call.bufAt, ms, after[r], r, call.root, i)
    {
      CastInvariant(rounds, call, f, ms, tr, |rounds|, r, i);
    }
    forall r, k {:trigger KeptAt(ms[r], after[r], k)} |
      0 <= r < |ms| && 0 <= k < |ms[r]| && !InSlice(k, Slice(call.bufAt[r], call.count))
      ensures KeptAt(ms[r], after[r], k)
    {
      CastFrame(rounds, call, f, ms, tr, r, k);
    }
  }

  /** The synchronous broadcast. */
  lemma {:induction false} CastSync<T>(call: CastCall, f: (ReduceOp, T, T) -> T, ms: seq<seq<T>>)
    requires CastCallOk(call, Sizes(ms))
    ensures RoundsOk(CastRounds(call), Sizes(ms))
    ensures CastOutcome(call, ms, Sync(CastRounds(call), f, ms))
  {
    CastRoundsOk(call, Sizes(ms));
    var tr := TraceOf(CastRounds(call), f, ms);
    CastTraceOutcome(CastRounds(call), call, f, ms, tr, tr[|CastRounds(call)|]);
  }
}
