/**
 Int32 Sum. Signed overflow is undefined, so two things are proved of both algorithms: no
 addition any rank performs in any run leaves the range, and the result is the exact sum.
 */
module Int32Sums {
  import opened Base
  import opened Transport
  import opened Lockstep
  import opened Guarantees
  import opened Chunking
  import opened Terms
  import opened Ring
  import opened Bits
  import opened RecursiveDoubling
  import opened Allreduce

  /** The magnitudes of all ranks' elements at index i total at most 2^31 - 1. */
  ghost predicate Modest(ms: seq<seq<int>>, dataAt: seq<nat>, i: nat) {
    && ms != [] && HasData(ms, dataAt, i)
    && SerialFold(Plus, Sum, Magnitudes(Column(ms, dataAt, i))) <= INT32_MAX
  }

  /** Iteration k of the reduction loop adds two numbers in range whose sum is in range. */
  ghost predicate AdditionSafe(f: (ReduceOp, int, int) -> int, x: Fold, mem: seq<int>, k: nat) {
    && k < x.len && FoldInRange(Some(x), |mem|)
    && var now := FoldN(f, x, mem, k);
       InInt32(now[x.dst + k]) && InInt32(now[x.src + k]) && InInt32(now[x.dst + k] + now[x.src + k])
  }

  lemma {:induction false} SafeFromOperands(f: (ReduceOp, int, int) -> int, x: Fold, mem: seq<int>, k: nat)
    requires k < x.len && FoldInRange(Some(x), |mem|) && Disjoint(Slice(x.dst, x.len), Slice(x.src, x.len))
    requires InInt32(mem[x.dst + k]) && InInt32(mem[x.src + k]) && InInt32(mem[x.dst + k] + mem[x.src + k])
    ensures AdditionSafe(f, x, mem, k)
  {
    FoldNElement(f, x, mem, k, x.dst + k);
    FoldNElement(f, x, mem, k, x.src + k);
  }

  /** A rank that reduces what landed adds safely where both ranks' elements do. */
  lemma {:induction false} LandedSafe(round: Round, f: (ReduceOp, int, int) -> int, now: seq<seq<int>>, r: nat, q: nat,
                                      into: Slice, from: Slice, x: Fold, k: nat)
    requires RoundOk(round, Sizes(now)) && r < |now| && q < |now| && k < into.len
    requires round[r].recv == Some(Transfer(q, into)) && round[q].send == Some(Transfer(r, from))
    requires round[r].fold == Some(x) && x.src == into.off && x.len == into.len && Disjoint(into, Slice(x.dst, x.len))
    requires x.dst + k < |now[r]| && from.off + k < |now[q]|
    requires var a, b := now[r][x.dst + k], now[q][from.off + k]; InInt32(a) && InInt32(b) && InInt32(a + b)
    ensures AdditionSafe(f, x, Landed(round, now, r), k)
  {
    assert OpOk(round[r], r, |round|, |now[r]|);
    ReduceOperands(round, now, r, q, into, from, x.dst, k);
    SafeFromOperands(f, x, Landed(round, now, r), k);
  }

  // ----- ring

  /** A prefix of the ring's term adds no more than the whole. */
  lemma {:induction false} RingPrefixSafe(c: nat, j: nat, ranks: nat, xs: seq<int>)
    requires c < ranks == |xs| && j < ranks && NoOverflow(FullTerm(c, ranks), xs)
    ensures NoOverflow(RingTerm(c, j, ranks), xs)
    decreases ranks - j
  {
    if j + 1 < ranks {
      RingPrefixSafe(c, j + 1, ranks, xs);
    }
  }

  lemma {:induction false} RingTermSafe(f: (ReduceOp, int, int) -> int, c: nat, j: nat, ms: seq<seq<int>>,
                                        dataAt: seq<nat>, i: nat)
    requires SumsInRange(f) && Modest(ms, dataAt, i) && c < |ms| && j < |ms|
    ensures NoOverflow(RingTerm(c, j, |ms|), Column(ms, dataAt, i))
  {
    FullTermCountsOnce(c, |ms|);
    Int32SumExact(f, FullTerm(c, |ms|), Column(ms, dataAt, i));
    RingPrefixSafe(c, j, |ms|, Column(ms, dataAt, i));
  }

  /** Ranks r and q hold at index i two numbers in range whose sum is in range. */
  ghost predicate PairSafe(now: seq<seq<int>>, dataAt: seq<nat>, r: nat, q: nat, i: nat) {
    && r < |now| == |dataAt| && q < |now| && dataAt[r] + i < |now[r]| && dataAt[q] + i < |now[q]|
    && var x, y := now[r][dataAt[r] + i], now[q][dataAt[q] + i];
       InInt32(x) && InInt32(y) && InInt32(x + y)
  }

  /** The operands of reduce-scatter step t on rank r, at an index of the chunk it receives. */
  lemma {:induction false} RingOperands(call: ReduceCall, f: (ReduceOp, int, int) -> int, ms: seq<seq<int>>,
                                        now: seq<seq<int>>, t: nat, r: nat, q: nat, c: nat, i: nat)
    requires call.op == Sum && SumsInRange(f) && Modest(ms, call.dataAt, i) && |now| == |ms|
    requires t < |ms| - 1 && r < |ms| && c == Back(r, t + 1, |ms|) && q == Pred(r, |ms|)
    requires Carries(call, f, ms, now[r], r, Held(r, c, t, |ms|), i)
    requires Carries(call, f, ms, now[q], q, Held(q, c, t, |ms|), i)
    ensures PairSafe(now, call.dataAt, r, q, i)
  {
    HeldReduced(r, t, |ms|);
    RingTermSafe(f, c, t + 1, ms, call.dataAt, i);
    OperandsInRange(f, Held(r, c, t, |ms|), Held(q, c, t, |ms|), Column(ms, call.dataAt, i));
  }

  lemma {:induction false} RingSyncOperands(rounds: seq<Round>, chunks: seq<Chunk>, call: ReduceCall,
                                            f: (ReduceOp, int, int) -> int, ms: seq<seq<int>>, t: nat, r: nat, i: nat)
    requires IsRing(rounds, chunks, call) && RingFits(chunks, call, Sizes(ms)) && RoundsOk(rounds, Sizes(ms))
    requires call.op == Sum && SumsInRange(f) && Modest(ms, call.dataAt, i)
    requires t < |chunks| - 1 && r < |ms| && Holds(chunks[Back(r, t + 1, |ms|)], i)
    ensures PairSafe(Sync(rounds[..t], f, ms), call.dataAt, r, Pred(r, |ms|), i)
  {
    var c, q := Back(r, t + 1, |ms|), Pred(r, |ms|);
    RingAt(rounds, chunks, call, f, ms, t, r, c, i);
    RingAt(rounds, chunks, call, f, ms, t, q, c, i);
    RingOperands(call, f, ms, Sync(rounds[..t], f, ms), t, r, q, c, i);
  }

  lemma {:induction false} RingFoldSafe(round: Round, chunks: seq<Chunk>, call: ReduceCall,
                                        f: (ReduceOp, int, int) -> int,
                                        now: seq<seq<int>>, t: nat, r: nat, x: Fold, k: nat, i: nat)
    requires IsRingRound(round, chunks, call, t) && RingFits(chunks, call, Sizes(now)) && RoundOk(round, Sizes(now))
    requires r < |now| && round[r].fold == Some(x) && k < x.len && x.dst + k == call.dataAt[r] + i
    requires PairSafe(now, call.dataAt, r, Pred(r, |now|), i)
    ensures AdditionSafe(f, x, Landed(round, now, r), k)
  {
    var q, c := Pred(r, |now|), chunks[Back(r, t + 1, |chunks|)];
    RingFoldShape(round, chunks, call, Sizes(now), t, r, x);
    var into, from := Slice(call.scratch[r].off, c.count), Slice(call.dataAt[q] + c.offset, c.count);
    LandedSafe(round, f, now, r, q, into, from, x, k);
  }

  /** The ring never overflows: in every state of every run, whenever a rank is about to reduce,
      each addition at an index whose magnitudes fit stays in range. Nothing is assumed of
      additions that would overflow. */
  lemma {:induction false} RingAdditionsSafe(call: ReduceCall, f: (ReduceOp, int, int) -> int, init: seq<seq<int>>,
                                             run: seq<State<int>>, n: nat, r: nat, x: Fold, k: nat, i: nat)
    requires RingCallOk(call, Sizes(init)) && call.op == Sum && SumsInRange(f)
    requires Shaped(RingConfig(call, f, init)) && IsRun(RingConfig(call, f, init), run) && n < |run| && r < |init|
    requires run[n][r].pc.Reduce? && run[n][r].round < 2 * (|init| - 1)
    requires RingConfig(call, f, init).rounds[run[n][r].round][r].fold == Some(x)
    requires k < x.len && x.dst + k == call.dataAt[r] + i && Modest(init, call.dataAt, i)
    ensures AdditionSafe(f, x, run[n][r].mem, k)
  {
    var chunks, cfg := Chunks(call.count, |init|), RingConfig(call, f, init);
    RingMatched(call, f, init);
    RingCallFits(chunks, RingScratch(call.count, |init|), call, Sizes(init));
    RingRoundsAreRing(chunks, call);
    ReducingMemory(cfg, run, n, r);
    RingRoundSafe(cfg.rounds, chunks, call, f, init, run[n][r].round, r, x, k, i);
  }

  lemma {:induction false} RingRoundSafe(rounds: seq<Round>, chunks: seq<Chunk>, call: ReduceCall,
                                         f: (ReduceOp, int, int) -> int,
                                         ms: seq<seq<int>>, t: nat, r: nat, x: Fold, k: nat, i: nat)
    requires IsRing(rounds, chunks, call) && RingFits(chunks, call, Sizes(ms)) && RoundsOk(rounds, Sizes(ms))
    requires call.op == Sum && SumsInRange(f) && t < |rounds| && r < |ms| && rounds[t][r].fold == Some(x)
    requires k < x.len && x.dst + k == call.dataAt[r] + i && Modest(ms, call.dataAt, i)
    ensures AdditionSafe(f, x, Landed(rounds[t], Sync(rounds[..t], f, ms), r), k)
  {
    assert IsRingRound(rounds[t], chunks, call, t);
    RingFoldShape(rounds[t], chunks, call, Sizes(ms), t, r, x);
    RingSyncOperands(rounds, chunks, call, f, ms, t, r, i);
    RingFoldSafe(rounds[t], chunks, call, f, Sync(rounds[..t], f, ms), t, r, x, k, i);
  }

  /** Only the first loop reduces, and what it reduces is the chunk it received into scratch. */
  lemma {:induction false} RingFoldShape(round: Round, chunks: seq<Chunk>, call: ReduceCall, sizes: seq<nat>, t: nat,
                                         r: nat, x: Fold)
    requires RingFits(chunks, call, sizes) && IsRingRound(round, chunks, call, t) && r < |chunks|
    requires round[r].fold == Some(x)
    ensures t < |chunks| - 1
    ensures var c, q := chunks[Back(r, t + 1, |chunks|)], Pred(r, |chunks|);
            && x == Fold(call.dataAt[r] + c.offset, call.scratch[r].off, c.count, call.op)
            && round[r].recv == Some(Transfer(q, Slice(call.scratch[r].off, c.count)))
            && round[q].send == Some(Transfer(r, Slice(call.dataAt[q] + c.offset, c.count)))
            && Disjoint(Slice(call.scratch[r].off, c.count), Slice(x.dst, x.len))
  {
    var c := Back(r, t + 1, |chunks|);
    RingStepShape(round, chunks, call, t, r);
    assert BuffersFit(call, chunks[c].count, r, sizes[r]) && EndsBy(chunks, c, call.count);
  }

  /** The exact sum on every rank. */
  lemma {:induction false} RingInt32Sum(call: ReduceCall, f: (ReduceOp, int, int) -> int,
                                        before: seq<seq<int>>, after: seq<seq<int>>, i: nat, r: nat)
    requires RingOutcome(call, f, before, after) && call.op == Sum && SumsInRange(f) && i < call.count && r < |before|
    requires Modest(before, call.dataAt, i)
    ensures DataIs(call, after, r, i, SerialFold(Plus, Sum, Column(before, call.dataAt, i)))
  {
    var c := RingElementTerm(call, f, before, after, i);
    FullTermCountsOnce(c, |before|);
    Int32SumExact(f, FullTerm(c, |before|), Column(before, call.dataAt, i));
    assert DataIs(call, after, r, i, Eval(f, Sum, FullTerm(c, |before|), Column(before, call.dataAt, i)));
  }

  // ----- recursive doubling

  /** The tree of fewer steps is part of the tree of more. */
  lemma {:induction false} TreePrefixSafe(k: nat, steps: nat, r: nat, xs: seq<int>)
    requires k <= steps && Over(Tree(steps, r), |xs|) && NoOverflow(Tree(steps, r), xs)
    ensures Over(Tree(k, r), |xs|) && NoOverflow(Tree(k, r), xs)
    decreases steps - k
  {
    if k < steps {
      TreePrefixSafe(k, steps - 1, r, xs);
    }
  }

  lemma {:induction false} DoublingOperands(call: ReduceCall, steps: nat, f: (ReduceOp, int, int) -> int,
                                            ms: seq<seq<int>>, now: seq<seq<int>>, k: nat, r: nat, q: nat, i: nat)
    requires call.op == Sum && SumsInRange(f) && Modest(ms, call.dataAt, i) && |now| == |ms| == Pow2(steps)
    requires k < steps && r < |ms| && q == Partner(r, k) && q < |ms|
    requires Carries(call, f, ms, now[r], r, Tree(k, r), i) && Carries(call, f, ms, now[q], q, Tree(k, q), i)
    ensures PairSafe(now, call.dataAt, r, q, i)
  {
    var xs := Column(ms, call.dataAt, i);
    TreeCountsOnce(steps, r);
    Int32SumExact(f, Tree(steps, r), xs);
    TreePrefixSafe(k + 1, steps, r, xs);
    assert Tree(k + 1, r) == Node(Tree(k, r), Tree(k, q));
    OperandsInRange(f, Tree(k, r), Tree(k, q), xs);
  }

  /** Recursive doubling never overflows either. */
  lemma {:induction false} DoublingAdditionsSafe(call: ReduceCall, steps: nat, f: (ReduceOp, int, int) -> int,
                                                 init: seq<seq<int>>,
                                                 run: seq<State<int>>, n: nat, r: nat, x: Fold, k: nat, i: nat)
    requires RdCallOk(call, steps, Sizes(init)) && call.op == Sum && SumsInRange(f)
    requires Shaped(DoublingConfig(call, steps, f, init)) && IsRun(DoublingConfig(call, steps, f, init), run)
    requires n < |run| && r < |init| && run[n][r].pc.Reduce? && run[n][r].round < steps
    requires DoublingConfig(call, steps, f, init).rounds[run[n][r].round][r].fold == Some(x)
    requires k < x.len && x.dst + k == call.dataAt[r] + i && Modest(init, call.dataAt, i)
    ensures AdditionSafe(f, x, run[n][r].mem, k)
  {
    var cfg := DoublingConfig(call, steps, f, init);
    DoublingMatched(call, steps, f, init);
    ReducingMemory(cfg, run, n, r);
    DoublingRoundSafe(cfg.rounds, call, f, init, run[n][r].round, r, x, k, i);
  }

  lemma {:induction false} DoublingRoundSafe(rounds: seq<Round>, call: ReduceCall, f: (ReduceOp, int, int) -> int,
                                             ms: seq<seq<int>>, t: nat, r: nat, x: Fold, k: nat, i: nat)
    requires IsRd(rounds, call) && RdCallOk(call, |rounds|, Sizes(ms)) && RoundsOk(rounds, Sizes(ms))
    requires call.op == Sum && SumsInRange(f) && t < |rounds| && r < |ms| && rounds[t][r].fold == Some(x)
    requires k < x.len && x.dst + k == call.dataAt[r] + i && Modest(ms, call.dataAt, i)
    ensures AdditionSafe(f, x, Landed(rounds[t], Sync(rounds[..t], f, ms), r), k)
  {
    var q := Partner(r, t);
    PartnerInRange(r, t, |rounds|);
    assert IsRdRound(rounds[t], call, t) && RunsRdOp(rounds[t], call, t, r);
    DoublingAt(rounds, call, f, ms, t, r, i);
    DoublingAt(rounds, call, f, ms, t, q, i);
    DoublingOperands(call, |rounds|, f, ms, Sync(rounds[..t], f, ms), t, r, q, i);
    DoublingFoldSafe(rounds[t], call, |rounds|, f, Sync(rounds[..t], f, ms), t, r, q, x, k, i);
  }

  lemma {:induction false} DoublingFoldSafe(round: Round, call: ReduceCall, steps: nat, f: (ReduceOp, int, int) -> int,
                                            now: seq<seq<int>>, t: nat, r: nat, q: nat, x: Fold, k: nat, i: nat)
    requires IsRdRound(round, call, t) && RdCallOk(call, steps, Sizes(now)) && RoundOk(round, Sizes(now))
    requires t < steps && r < |now| && q == Partner(r, t) && q < |now|
    requires round[r].fold == Some(x) && k < x.len && x.dst + k == call.dataAt[r] + i
    requires PairSafe(now, call.dataAt, r, q, i)
    ensures AdditionSafe(f, x, Landed(round, now, r), k)
  {
    PartnerInvolution(r, t);
    assert RunsRdOp(round, call, t, r) && RunsRdOp(round, call, t, q);
    assert BuffersFit(call, RdScratch(call.count, steps), r, Sizes(now)[r]);
    var into, from := Slice(call.scratch[r].off, call.count), Slice(call.dataAt[q], call.count);
    LandedSafe(round, f, now, r, q, into, from, x, k);
  }

  /** And ends with the exact sum. */
  lemma {:induction false} DoublingInt32Sum(call: ReduceCall, steps: nat, f: (ReduceOp, int, int) -> int,
                                            before: seq<seq<int>>, after: seq<seq<int>>, i: nat, r: nat)
    requires RdOutcome(call, steps, f, before, after) && call.op == Sum && SumsInRange(f)
    requires i < call.count && r < |before| && Modest(before, call.dataAt, i)
    ensures DataIs(call, after, r, i, SerialFold(Plus, Sum, Column(before, call.dataAt, i)))
  {
    assert Carries(call, f, before, after[r], r, Tree(steps, r), i);
    TreeCountsOnce(steps, r);
    Int32SumExact(f, Tree(steps, r), Column(before, call.dataAt, i));
  }
}
