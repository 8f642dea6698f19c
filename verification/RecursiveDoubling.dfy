/** Recursive-doubling allreduce: log2(P) whole-buffer exchanges with ever more distant partners. */
module RecursiveDoubling {
  import opened Base
  import opened Transport
  import opened Lockstep
  import opened Terms
  import opened Bits
  import opened Ring

  /** What rank r does in step k: exchange the whole buffer with its partner, then reduce. */
  function RdOp(count: nat, op: ReduceOp, data: nat, scratch: nat, r: nat, k: nat): Op {
    var partner := Partner(r, k);
    Op(Some(Transfer(partner, Slice(scratch, count))),
       Some(Transfer(partner, Slice(data, count))),
       Some(Fold(data, scratch, count, op)))
  }

  function RdRound(call: ReduceCall, k: nat): (round: Round)
    requires |call.dataAt| == |call.scratch|
    ensures |round| == |call.dataAt|
  {
    seq(|call.dataAt|, r requires 0 <= r < |call.dataAt| =>
      RdOp(call.count, call.op, call.dataAt[r], call.scratch[r].off, r, k))
  }

  function RdRounds(call: ReduceCall, steps: nat): (rounds: seq<Round>)
    requires |call.dataAt| == |call.scratch|
    ensures |rounds| == steps
  {
    seq(steps, k requires 0 <= k < steps => RdRound(call, k))
  }

  predicate RunsRdOp(round: Round, call: ReduceCall, k: nat, r: nat)
    requires r < |call.dataAt| == |call.scratch| == |round|
  {
    round[r] == RdOp(call.count, call.op, call.dataAt[r], call.scratch[r].off, r, k)
  }

  ghost predicate IsRdRound(round: Round, call: ReduceCall, k: nat) {
    && |round| == |call.dataAt| == |call.scratch|
    && forall r {:trigger RunsRdOp(round, call, k, r)} :: 0 <= r < |round| ==> RunsRdOp(round, call, k, r)
  }

  ghost predicate IsRd(rounds: seq<Round>, call: ReduceCall) {
    forall k {:trigger IsRdRound(rounds[k], call, k)} :: 0 <= k < |rounds| ==> IsRdRound(rounds[k], call, k)
  }

  /** The scratch elements needed: the whole buffer, or none on a single rank. */
  function RdScratch(count: nat, steps: nat): nat {
    if steps == 0 then 0 else count
  }

  /** What recursive doubling demands of its callers: 2^steps ranks, and a scratch buffer
      as large as the data, if it is used at all, and disjoint from it. */
  ghost predicate RdCallOk(call: ReduceCall, steps: nat, sizes: seq<nat>) {
    && |call.dataAt| == |call.scratch| == |sizes| == Pow2(steps)
    && forall r {:trigger BuffersFit(call, RdScratch(call.count, steps), r, sizes[r])} ::
         0 <= r < |sizes| ==> BuffersFit(call, RdScratch(call.count, steps), r, sizes[r])
  }

  /** In each step the ranks exchange in pairs. */
  lemma {:induction false} RdRoundOk(call: ReduceCall, steps: nat, sizes: seq<nat>, k: nat)
    requires RdCallOk(call, steps, sizes) && k < steps
    ensures RoundOk(RdRound(call, k), sizes)
  {
    var round := RdRound(call, k);
    forall r | 0 <= r < |round| ensures OpOk(round[r], r, |round|, sizes[r]) && SendMet(round, r) && RecvMet(round, r) {
      PartnerInvolution(r, k);
      PartnerInRange(r, k, steps);
      assert BuffersFit(call, RdScratch(call.count, steps), r, sizes[r]);
    }
  }

  lemma {:induction false} RdRoundsOk(call: ReduceCall, steps: nat, sizes: seq<nat>)
    requires RdCallOk(call, steps, sizes)
    ensures RoundsOk(RdRounds(call, steps), sizes)
  {
    forall k | 0 <= k < steps ensures RoundOk(RdRounds(call, steps)[k], sizes) {
      RdRoundOk(call, steps, sizes, k);
    }
  }

  // ----- what every rank holds after k steps

  /** The balanced tree rank r has combined after k steps. */
  function Tree(k: nat, r: nat): Term {
    if k == 0 then Leaf(r) else Node(Tree(k - 1, r), Tree(k - 1, Partner(r, k - 1)))
  }

  /** After k steps rank r has combined exactly the ranks of its block of 2^k, each once. */
  lemma {:induction false} TreeOccurs(k: nat, r: nat, v: nat)
    ensures Occurs(Tree(k, r), v) == if Shift(v, k) == Shift(r, k) then 1 else 0
  {
    if k > 0 {
      TreeOccurs(k - 1, r, v);
      TreeOccurs(k - 1, Partner(r, k - 1), v);
      BlockHalves(v, r, k - 1);
    }
  }

  /** At the end rank r has combined every rank, each once. */
  lemma {:induction false} TreeCountsOnce(steps: nat, r: nat)
    requires r < Pow2(steps)
    ensures CountsOnce(Tree(steps, r), Pow2(steps))
  {
    forall v: nat ensures Occurs(Tree(steps, r), v) == if v < Pow2(steps) then 1 else 0 {
      TreeOccurs(steps, r, v);
      ShiftBelow(v, steps);
      ShiftBelow(r, steps);
    }
  }

  /** Commutativity alone, without associativity, makes the ranks of a block agree. */
  lemma {:induction false} BlocksAgree<T(!new)>(f: (ReduceOp, T, T) -> T, op: ReduceOp, k: nat, r: nat, q: nat,
                                                xs: seq<T>)
    requires Commutative(f, op) && Shift(r, k) == Shift(q, k)
    requires Over(Tree(k, r), |xs|) && Over(Tree(k, q), |xs|)
    ensures Eval(f, op, Tree(k, r), xs) == Eval(f, op, Tree(k, q), xs)
  {
    if k > 0 {
      var r', q' := Partner(r, k - 1), Partner(q, k - 1);
      BlockHalves(q, r, k - 1);
      PartnerShift(r, k - 1);
      PartnerShift(q, k - 1);
      if Shift(q, k - 1) == Shift(r, k - 1) {
        BlocksAgree(f, op, k - 1, r, q, xs);
        BlocksAgree(f, op, k - 1, r', q', xs);
      } else {
        PartnerInvolution(Shift(r, k - 1), 0);
        BlocksAgree(f, op, k - 1, r, q', xs);
        BlocksAgree(f, op, k - 1, r', q, xs);
      }
    }
  }

  lemma {:induction false} RdReduces<T>(round: Round, call: ReduceCall, f: (ReduceOp, T, T) -> T, ms: seq<seq<T>>,
                                        ms': seq<seq<T>>,
                     steps: nat, k: nat, r: nat, q: nat, i: nat)
    requires RdCallOk(call, steps, Sizes(ms)) && k < steps && r < |ms| && q < |ms| && q == Partner(r, k)
    requires i < call.count
    requires IsRdRound(round, call, k) && IsStep(round, f, ms, ms')
    ensures |ms'[r]| == |ms[r]| && call.dataAt[r] + i < |ms[r]| && call.dataAt[q] + i < |ms[q]|
    ensures ms'[r][call.dataAt[r] + i] == f(call.op, ms[r][call.dataAt[r] + i], ms[q][call.dataAt[q] + i])
  {
    PartnerInvolution(r, k);
    assert RunsRdOp(round, call, k, r) && RunsRdOp(round, call, k, q);
    assert BuffersFit(call, RdScratch(call.count, steps), r, Sizes(ms)[r]);
    RoundReduces(round, f, ms, ms', r, q, Slice(call.scratch[r].off, call.count),
                 Slice(call.dataAt[q], call.count), call.dataAt[r], call.op, i);
  }

  lemma {:induction false} RdHasData<T>(call: ReduceCall, ms: seq<seq<T>>, steps: nat, i: nat)
    requires RdCallOk(call, steps, Sizes(ms)) && i < call.count
    ensures HasData(ms, call.dataAt, i)
  {
    forall r | 0 <= r < |ms| ensures call.dataAt[r] + i < |ms[r]| {
      assert BuffersFit(call, RdScratch(call.count, steps), r, Sizes(ms)[r]);
    }
  }

  lemma {:induction false} RdCarries<T>(round: Round, call: ReduceCall, f: (ReduceOp, T, T) -> T, ms: seq<seq<T>>,
                     now: seq<seq<T>>, now': seq<seq<T>>, steps: nat, k: nat, r: nat, q: nat, i: nat)
    requires RdCallOk(call, steps, Sizes(ms)) && Sizes(now) == Sizes(ms) && |now| == |ms|
    requires k < steps && r < |ms| && i < call.count && q == Partner(r, k) && q < |ms|
    requires IsRdRound(round, call, k) && IsStep(round, f, now, now')
    requires Carries(call, f, ms, now[r], r, Tree(k, r), i) && Carries(call, f, ms, now[q], q, Tree(k, q), i)
    ensures Carries(call, f, ms, now'[r], r, Tree(k + 1, r), i)
  {
    RdReduces(round, call, f, now, now', steps, k, r, q, i);
    assert Tree(k + 1, r) == Node(Tree(k, r), Tree(k, q));
  }

  lemma {:induction false} RdStart<T>(call: ReduceCall, f: (ReduceOp, T, T) -> T, ms: seq<seq<T>>, steps: nat, r: nat,
                                      i: nat)
    requires RdCallOk(call, steps, Sizes(ms)) && r < |ms| && i < call.count
    ensures Carries(call, f, ms, ms[r], r, Tree(0, r), i)
  {
    RdHasData(call, ms, steps, i);
  }

  lemma {:induction false} RdTraceStep<T>(rounds: seq<Round>, call: ReduceCall, f: (ReduceOp, T, T) -> T,
                                          ms: seq<seq<T>>, tr: seq<seq<seq<T>>>, k: nat, r: nat, q: nat, i: nat)
    requires RdCallOk(call, |rounds|, Sizes(ms)) && IsRd(rounds, call) && IsTrace(rounds, f, ms, tr)
    requires k < |rounds| && r < |ms| && i < call.count && q == Partner(r, k) && q < |ms|
    requires Carries(call, f, ms, tr[k][r], r, Tree(k, r), i) && Carries(call, f, ms, tr[k][q], q, Tree(k, q), i)
    ensures Carries(call, f, ms, tr[k + 1][r], r, Tree(k + 1, r), i)
  {
    assert StepAt(rounds, f, tr, k) && IsRdRound(rounds[k], call, k);
    RdCarries(rounds[k], call, f, ms, tr[k], tr[k + 1], |rounds|, k, r, q, i);
  }

  /** The butterfly invariant: after k synchronous steps every element on rank r is the
      balanced tree `Tree(k, r)` of the ranks' inputs. */
  lemma {:induction false} RdInvariant<T>(rounds: seq<Round>, call: ReduceCall, f: (ReduceOp, T, T) -> T,
                                          ms: seq<seq<T>>, tr: seq<seq<seq<T>>>, k: nat, r: nat, i: nat)
    requires RdCallOk(call, |rounds|, Sizes(ms)) && IsRd(rounds, call) && IsTrace(rounds, f, ms, tr)
    requires k <= |rounds| && r < |ms| && i < call.count
    ensures Carries(call, f, ms, tr[k][r], r, Tree(k, r), i)
    decreases k
  {
    if k == 0 {
      RdStart(call, f, ms, |rounds|, r, i);
    } else {
      var n := k - 1;
      var q := Partner(r, n);
      PartnerInRange(r, n, |rounds|);
      RdInvariant(rounds, call, f, ms, tr, n, r, i);
      RdInvariant(rounds, call, f, ms, tr, n, q, i);
      RdTraceStep(rounds, call, f, ms, tr, n, r, q, i);
    }
  }

  // ----- the result

  /** What recursive doubling does: every element becomes, on rank r, rank r's balanced tree,
      and nothing outside the data and `RdScratch` scratch elements changes. */
  ghost predicate RdOutcome<T>(call: ReduceCall, steps: nat, f: (ReduceOp, T, T) -> T, before: seq<seq<T>>,
                               after: seq<seq<T>>) {
    && |before| == |after| == Pow2(steps) && Sizes(after) == Sizes(before)
    && (forall r, i {:trigger Carries(call, f, before, after[r], r, Tree(steps, r), i)} ::
          0 <= r < |before| && 0 <= i < call.count ==> Carries(call, f, before, after[r], r, Tree(steps, r), i))
    && FrameKept(call, RdScratch(call.count, steps), before, after)
  }

  lemma {:induction false} RdFrame<T>(rounds: seq<Round>, call: ReduceCall, f: (ReduceOp, T, T) -> T, ms: seq<seq<T>>,
                   tr: seq<seq<seq<T>>>, r: nat, k: nat)
    requires RdCallOk(call, |rounds|, Sizes(ms)) && IsRd(rounds, call) && IsTrace(rounds, f, ms, tr)
    requires r < |ms| && k < |ms[r]| && Untouched(call, RdScratch(call.count, |rounds|), r, k)
    ensures KeptAt(ms[r], tr[|rounds|][r], k)
  {
    forall t | 0 <= t < |rounds| ensures r < |rounds[t]| && !Writes(rounds[t][r], k) {
      assert IsRdRound(rounds[t], call, t) && RunsRdOp(rounds[t], call, t, r);
    }
    TraceKeeps(rounds, f, ms, tr, |rounds|, r, k);
  }

  lemma {:induction false} RdTraceOutcome<T>(rounds: seq<Round>, call: ReduceCall, f: (ReduceOp, T, T) -> T,
                                             ms: seq<seq<T>>,
                          tr: seq<seq<seq<T>>>, steps: nat, after: seq<seq<T>>)
    requires steps == |rounds| && RdCallOk(call, steps, Sizes(ms)) && IsRd(rounds, call)
    requires IsTrace(rounds, f, ms, tr) && after == tr[steps]
    ensures RdOutcome(call, steps, f, ms, after)
  {
    forall r, i {:trigger Carries(call, f, ms, after[r], r, Tree(steps, r), i)} | 0 <= r < |ms| && 0 <= i < call.count
      ensures Carries(call, f, ms, after[r], r, Tree(steps, r), i)
    {
      RdInvariant(rounds, call, f, ms, tr, steps, r, i);
    }
    forall r, k {:trigger KeptAt(ms[r], after[r], k)} |
      0 <= r < |ms| && 0 <= k < |ms[r]| && Untouched(call, RdScratch(call.count, |rounds|), r, k)
      ensures KeptAt(ms[r], after[r], k)
    {
      RdFrame(rounds, call, f, ms, tr, r, k);
    }
  }

  /** Synchronous recursive doubling, for every operator whatsoever. */
  lemma {:induction false} RdSync<T>(call: ReduceCall, f: (ReduceOp, T, T) -> T, ms: seq<seq<T>>, steps: nat)
    requires RdCallOk(call, steps, Sizes(ms))
    ensures RoundsOk(RdRounds(call, steps), Sizes(ms))
    ensures RdOutcome(call, steps, f, ms, Sync(RdRounds(call, steps), f, ms))
  {
    RdRoundsOk(call, steps, Sizes(ms));
    var tr := TraceOf(RdRounds(call, steps), f, ms);
    RdTraceOutcome(RdRounds(call, steps), call, f, ms, tr, steps, tr[steps]);
  }
}
