/**
 Both allreduce algorithms on every interleaving: what they compute with no algebra at
 all, when their ranks agree, and when they compute the same thing.
 */
module Allreduce {
  import opened Base
  import opened Transport
  import opened Lockstep
  import opened Guarantees
  import opened Chunking
  import opened Terms
  import opened Ring
  import opened Bits
  import opened RecursiveDoubling
  import opened Collectives

  function RingConfig<T>(call: ReduceCall, f: (ReduceOp, T, T) -> T, init: seq<seq<T>>): Config<T>
    requires RingCallOk(call, Sizes(init))
  {
    Config(RingRounds(Chunks(call.count, |init|), call), f, init)
  }

  function DoublingConfig<T>(call: ReduceCall, steps: nat, f: (ReduceOp, T, T) -> T, init: seq<seq<T>>): Config<T>
    requires RdCallOk(call, steps, Sizes(init))
  {
    Config(RdRounds(call, steps), f, init)
  }

  lemma {:induction false} RingMatched<T>(call: ReduceCall, f: (ReduceOp, T, T) -> T, init: seq<seq<T>>)
    requires RingCallOk(call, Sizes(init))
    ensures Matched(RingConfig(call, f, init)) && Shaped(RingConfig(call, f, init))
  {
    RingCallRoundsOk(Chunks(call.count, |init|), call, Sizes(init));
  }

  lemma {:induction false} DoublingMatched<T>(call: ReduceCall, steps: nat, f: (ReduceOp, T, T) -> T, init: seq<seq<T>>)
    requires RdCallOk(call, steps, Sizes(init))
    ensures Matched(DoublingConfig(call, steps, f, init)) && Shaped(DoublingConfig(call, steps, f, init))
  {
    RdRoundsOk(call, steps, Sizes(init));
  }

  // ----- results over runs

  /** Ring allreduce, any operator, any interleaving: when nothing more can happen every rank
      has returned, and every element of chunk c is on every rank the one nested term
      x(c-1) op (x(c-2) op (... (x(c+1) op x(c)))). */
  lemma {:induction false} RingAllreduceCorrect<T>(call: ReduceCall, f: (ReduceOp, T, T) -> T, init: seq<seq<T>>,
                                                   run: seq<State<T>>, n: nat)
    requires RingCallOk(call, Sizes(init))
    requires Shaped(RingConfig(call, f, init)) && IsRun(RingConfig(call, f, init), run) && n < |run|
    requires Quiescent(RingConfig(call, f, init), run[n])
    ensures AllDone(RingConfig(call, f, init), run[n])
    ensures RingOutcome(call, f, init, Memories(run[n]))
  {
    var cfg := RingConfig(call, f, init);
    RingMatched(call, f, init);
    DeadlockFree(cfg, run, n);
    CompletedRun(cfg, run, n);
    RingSync(Chunks(call.count, |init|), call, f, init);
    assert Memories(run[n]) == Sync(cfg.rounds, f, init);
  }

  /** Recursive doubling, any operator, any interleaving: when nothing more can happen every
      rank has returned and rank r holds its own balanced tree of all inputs. */
  lemma {:induction false} DoublingAllreduceCorrect<T>(call: ReduceCall, steps: nat, f: (ReduceOp, T, T) -> T,
                                                       init: seq<seq<T>>, run: seq<State<T>>, n: nat)
    requires RdCallOk(call, steps, Sizes(init))
    requires Shaped(DoublingConfig(call, steps, f, init)) && IsRun(DoublingConfig(call, steps, f, init), run)
    requires n < |run|
    requires Quiescent(DoublingConfig(call, steps, f, init), run[n])
    ensures AllDone(DoublingConfig(call, steps, f, init), run[n])
    ensures RdOutcome(call, steps, f, init, Memories(run[n]))
  {
    var cfg := DoublingConfig(call, steps, f, init);
    DoublingMatched(call, steps, f, init);
    DeadlockFree(cfg, run, n);
    CompletedRun(cfg, run, n);
    RdSync(call, f, init, steps);
    assert Memories(run[n]) == Sync(cfg.rounds, f, init);
  }

  /** The ring invariant on every interleaving: whatever the other ranks have done, a rank that
      has finished t steps holds in chunk c exactly the term `Held(r, c, t)` of the inputs. */
  lemma {:induction false} RingInvariantOnRuns<T>(call: ReduceCall, f: (ReduceOp, T, T) -> T, init: seq<seq<T>>,
                                                  run: seq<State<T>>, n: nat, r: nat, c: nat, i: nat)
    requires RingCallOk(call, Sizes(init)) && |init| > 1
    requires Shaped(RingConfig(call, f, init)) && IsRun(RingConfig(call, f, init), run) && n < |run|
    requires r < |init| && c < |init| && Holds(Chunks(call.count, |init|)[c], i) && run[n][r].pc.PostRecv?
    ensures run[n][r].round <= 2 * (|init| - 1)
    ensures Carries(call, f, init, run[n][r].mem, r, Held(r, c, run[n][r].round, |init|), i)
  {
    var chunks := Chunks(call.count, |init|);
    RingMatched(call, f, init);
    BoundaryIsLockstep(RingConfig(call, f, init), run, n, r);
    RingCallFits(chunks, RingScratch(call.count, |init|), call, Sizes(init));
    RingRoundsAreRing(chunks, call);
    RingAt(RingRounds(chunks, call), chunks, call, f, init, run[n][r].round, r, c, i);
  }

  lemma {:induction false} RingAt<T>(rounds: seq<Round>, chunks: seq<Chunk>, call: ReduceCall, f: (ReduceOp, T, T) -> T,
                                     ms: seq<seq<T>>, t: nat, r: nat, c: nat, i: nat)
    requires IsRing(rounds, chunks, call) && RingFits(chunks, call, Sizes(ms)) && RoundsOk(rounds, Sizes(ms))
    requires t <= |rounds| && r < |ms| && c < |chunks| && Holds(chunks[c], i)
    ensures Carries(call, f, ms, Sync(rounds[..t], f, ms)[r], r, Held(r, c, t, |chunks|), i)
  {
    var tr := TraceOf(rounds, f, ms);
    TraceAt(rounds, f, ms, tr, t);
    RingInvariant(rounds, chunks, call, f, ms, tr, t, r, c, i);
  }

  /** The butterfly invariant on every interleaving: a rank that has finished k steps holds its
      balanced tree of the 2^k ranks of its block. */
  lemma {:induction false} DoublingInvariantOnRuns<T>(call: ReduceCall, steps: nat, f: (ReduceOp, T, T) -> T,
                                                      init: seq<seq<T>>, run: seq<State<T>>, n: nat, r: nat, i: nat)
    requires RdCallOk(call, steps, Sizes(init))
    requires Shaped(DoublingConfig(call, steps, f, init)) && IsRun(DoublingConfig(call, steps, f, init), run)
    requires n < |run|
    requires r < |init| && i < call.count && run[n][r].pc.PostRecv?
    ensures Carries(call, f, init, run[n][r].mem, r, Tree(run[n][r].round, r), i)
  {
    DoublingMatched(call, steps, f, init);
    BoundaryIsLockstep(DoublingConfig(call, steps, f, init), run, n, r);
    DoublingAt(RdRounds(call, steps), call, f, init, run[n][r].round, r, i);
  }

  lemma {:induction false} DoublingAt<T>(rounds: seq<Round>, call: ReduceCall, f: (ReduceOp, T, T) -> T,
                                         ms: seq<seq<T>>, k: nat, r: nat, i: nat)
    requires RdCallOk(call, |rounds|, Sizes(ms)) && IsRd(rounds, call) && RoundsOk(rounds, Sizes(ms))
    requires k <= |rounds| && r < |ms| && i < call.count
    ensures Carries(call, f, ms, Sync(rounds[..k], f, ms)[r], r, Tree(k, r), i)
  {
    var tr := TraceOf(rounds, f, ms);
    TraceAt(rounds, f, ms, tr, k);
    RdInvariant(rounds, call, f, ms, tr, k, r, i);
  }

  // ----- what the results mean

  /** Element i of the data is `v` on rank r. */
  ghost predicate DataIs<T>(call: ReduceCall, ms: seq<seq<T>>, r: nat, i: nat, v: T) {
    r < |ms| && r < |call.dataAt| && call.dataAt[r] + i < |ms[r]| && ms[r][call.dataAt[r] + i] == v
  }

  lemma {:induction false} RingElementTerm<T>(call: ReduceCall, f: (ReduceOp, T, T) -> T, before: seq<seq<T>>,
                                              after: seq<seq<T>>, i: nat)
    returns (c: nat)
    requires RingOutcome(call, f, before, after) && i < call.count
    ensures c < |before| && Holds(Chunks(call.count, |before|)[c], i) && HasData(before, call.dataAt, i)
    ensures forall r :: 0 <= r < |before| ==>
              DataIs(call, after, r, i, Eval(f, call.op, FullTerm(c, |before|), Column(before, call.dataAt, i)))
  {
    var ranks := |before|;
    ChunksTile(call.count, ranks);
    assert Covered(Chunks(call.count, ranks), i);
    var k :| 0 <= k < ranks && Holds(Chunks(call.count, ranks)[k], i);
    c := k;
    assert Carries(call, f, before, after[0], 0, FullTerm(c, ranks), i);
    forall r | 0 <= r < ranks
      ensures DataIs(call, after, r, i, Eval(f, call.op, FullTerm(c, ranks), Column(before, call.dataAt, i)))
    {
      assert Carries(call, f, before, after[r], r, FullTerm(c, ranks), i);
    }
  }

  /** The ring's ranks agree exactly, even for operators that are neither associative nor
      commutative, such as rounded addition. */
  lemma {:induction false} RingRanksAgree<T>(call: ReduceCall, f: (ReduceOp, T, T) -> T, before: seq<seq<T>>,
                                             after: seq<seq<T>>, i: nat, r: nat, q: nat)
    requires RingOutcome(call, f, before, after) && i < call.count && r < |before| && q < |before|
    ensures r < |call.dataAt| && call.dataAt[r] + i < |after[r]|
    ensures DataIs(call, after, q, i, after[r][call.dataAt[r] + i])
  {
    var c := RingElementTerm(call, f, before, after, i);
    var v := Eval(f, call.op, FullTerm(c, |before|), Column(before, call.dataAt, i));
    assert DataIs(call, after, r, i, v) && DataIs(call, after, q, i, v);
  }

  /** The ranks of recursive doubling agree if the operator is commutative; associativity is
      not needed. */
  lemma {:induction false} DoublingRanksAgree<T(!new)>(call: ReduceCall, steps: nat, f: (ReduceOp, T, T) -> T,
                                                       before: seq<seq<T>>, after: seq<seq<T>>, i: nat, r: nat, q: nat)
    requires RdOutcome(call, steps, f, before, after) && Commutative(f, call.op)
    requires i < call.count && r < |before| && q < |before|
    ensures r < |call.dataAt| && call.dataAt[r] + i < |after[r]|
    ensures DataIs(call, after, q, i, after[r][call.dataAt[r] + i])
  {
    assert Carries(call, f, before, after[r], r, Tree(steps, r), i);
    assert Carries(call, f, before, after[q], q, Tree(steps, q), i);
    TreesAgree(call, steps, f, before, after[r], after[q], i, r, q);
  }

  lemma {:induction false} TreesAgree<T(!new)>(call: ReduceCall, steps: nat, f: (ReduceOp, T, T) -> T,
                                               before: seq<seq<T>>, mine: seq<T>, yours: seq<T>, i: nat, r: nat, q: nat)
    requires Commutative(f, call.op) && |before| == Pow2(steps)
    requires Carries(call, f, before, mine, r, Tree(steps, r), i)
    requires Carries(call, f, before, yours, q, Tree(steps, q), i)
    ensures mine[call.dataAt[r] + i] == yours[call.dataAt[q] + i]
  {
    ShiftBelow(r, steps);
    ShiftBelow(q, steps);
    BlocksAgree(f, call.op, steps, r, q, Column(before, call.dataAt, i));
  }

  /** In the last state of a completed two-rank run both ranks have the same data. */
  ghost predicate EndsAlike<T(!new)>(call: ReduceCall, f: (ReduceOp, T, T) -> T, init: seq<seq<T>>,
                                     run: seq<State<T>>) {
    Completed(call, f, init, run) ==> SameData(call, Memories(run[|run| - 1]))
  }

  ghost predicate Completed<T>(call: ReduceCall, f: (ReduceOp, T, T) -> T, init: seq<seq<T>>, run: seq<State<T>>) {
    && RdCallOk(call, 1, Sizes(init)) && Shaped(DoublingConfig(call, 1, f, init))
    && IsRun(DoublingConfig(call, 1, f, init), run)
    && AllDone(DoublingConfig(call, 1, f, init), run[|run| - 1])
  }

  ghost predicate SameData<T>(call: ReduceCall, ms: seq<seq<T>>) {
    forall i: nat :: i < call.count ==> SameElement(call, ms, i)
  }

  ghost predicate SameElement<T>(call: ReduceCall, ms: seq<seq<T>>, i: nat) {
    && |ms| == |call.dataAt| == 2 && call.dataAt[0] + i < |ms[0]| && call.dataAt[1] + i < |ms[1]|
    && ms[0][call.dataAt[0] + i] == ms[1][call.dataAt[1] + i]
  }

  lemma {:induction false} CompletedDoubling<T(!new)>(call: ReduceCall, steps: nat, f: (ReduceOp, T, T) -> T,
                                                      init: seq<seq<T>>, run: seq<State<T>>)
    requires RdCallOk(call, steps, Sizes(init)) && Shaped(DoublingConfig(call, steps, f, init))
    requires IsRun(DoublingConfig(call, steps, f, init), run)
    requires AllDone(DoublingConfig(call, steps, f, init), run[|run| - 1])
    ensures RdOutcome(call, steps, f, init, Memories(run[|run| - 1]))
  {
    DoublingMatched(call, steps, f, init);
    DeadlockFree(DoublingConfig(call, steps, f, init), run, |run| - 1);
    DoublingAllreduceCorrect(call, steps, f, init, run, |run| - 1);
  }

  function Filled<T>(n: nat, x: T): (xs: seq<T>)
    ensures |xs| == n && forall i :: 0 <= i < n ==> xs[i] == x
  {
    if n == 0 then [] else Filled(n - 1, x) + [x]
  }

  /** Two ranks that start with a and b everywhere end with a op b and b op a. */
  lemma {:induction false} TwoRankOutcome<T>(call: ReduceCall, f: (ReduceOp, T, T) -> T, init: seq<seq<T>>,
                                             after: seq<seq<T>>, a: T, b: T)
    requires RdOutcome(call, 1, f, init, after) && call.count > 0 && |init| == 2
    requires (forall k :: 0 <= k < |init[0]| ==> init[0][k] == a) && forall k :: 0 <= k < |init[1]| ==> init[1][k] == b
    ensures DataIs(call, after, 0, 0, f(call.op, a, b)) && DataIs(call, after, 1, 0, f(call.op, b, a))
  {
    PartnerZero(0);
    PartnerZero(1);
    assert Tree(1, 0) == Node(Tree(0, 0), Tree(0, 1)) && Tree(1, 1) == Node(Tree(0, 1), Tree(0, 0));
    assert Carries(call, f, init, after[0], 0, Tree(1, 0), 0) && Carries(call, f, init, after[1], 1, Tree(1, 1), 0);
    var xs := Column(init, call.dataAt, 0);
    assert Eval(f, call.op, Tree(0, 0), xs) == a && Eval(f, call.op, Tree(0, 1), xs) == b;
  }

  lemma {:induction false} AgreementCommutes<T(!new)>(call: ReduceCall, f: (ReduceOp, T, T) -> T, sizes: seq<nat>, a: T,
                                                      b: T)
    requires RdCallOk(call, 1, sizes) && call.count > 0 && forall init, run :: EndsAlike(call, f, init, run)
    ensures f(call.op, a, b) == f(call.op, b, a)
  {
    assert Pow2(1) == 2 * Pow2(0);
    var init := [Filled(sizes[0], a), Filled(sizes[1], b)];
    assert Sizes(init) == sizes;
    var cfg := DoublingConfig(call, 1, f, init);
    DoublingMatched(call, 1, f, init);
    var run := RunCompletes(cfg, [Init(cfg)]);
    CompletedDoubling(call, 1, f, init, run);
    var after := Memories(run[|run| - 1]);
    TwoRankOutcome(call, f, init, after, a, b);
    assert EndsAlike(call, f, init, run) && SameElement(call, after, 0);
  }

  /** On two ranks commutativity is exactly what agreement needs: all completed runs on all
      inputs end with the same data on both ranks if and only if the operator is commutative. */
  lemma {:induction false} AgreementIffCommutative<T(!new)>(call: ReduceCall, f: (ReduceOp, T, T) -> T, sizes: seq<nat>)
    requires RdCallOk(call, 1, sizes) && call.count > 0
    ensures (forall init, run :: EndsAlike(call, f, init, run)) <==> Commutative(f, call.op)
  {
    if forall init, run :: EndsAlike(call, f, init, run) {
      forall a, b ensures f(call.op, a, b) == f(call.op, b, a) {
        AgreementCommutes(call, f, sizes, a, b);
      }
    }
    if Commutative(f, call.op) {
      forall init, run ensures EndsAlike(call, f, init, run) {
        CommutingEndsAlike(call, f, init, run);
      }
    }
  }

  lemma {:induction false} CommutingEndsAlike<T(!new)>(call: ReduceCall, f: (ReduceOp, T, T) -> T, init: seq<seq<T>>,
                                                       run: seq<State<T>>)
    requires Commutative(f, call.op)
    ensures EndsAlike(call, f, init, run)
  {
    if Completed(call, f, init, run) {
      assert Pow2(1) == 2 * Pow2(0);
      CompletedDoubling(call, 1, f, init, run);
      var after := Memories(run[|run| - 1]);
      forall i: nat | i < call.count ensures SameElement(call, after, i) {
        DoublingRanksAgree(call, 1, f, init, after, i, 0, 1);
      }
    }
  }

  /** For an associative and commutative operator the ring computes the serial fold. */
  lemma {:induction false} RingIsSerialFold<T(!new)>(call: ReduceCall, f: (ReduceOp, T, T) -> T,
                                                     before: seq<seq<T>>, after: seq<seq<T>>, i: nat, r: nat)
    requires RingOutcome(call, f, before, after) && Associative(f, call.op) && Commutative(f, call.op)
    requires i < call.count && r < |before|
    ensures HasData(before, call.dataAt, i)
    ensures DataIs(call, after, r, i, SerialFold(f, call.op, Column(before, call.dataAt, i)))
  {
    var c := RingElementTerm(call, f, before, after, i);
    FullTermCountsOnce(c, |before|);
    EvalIsSerialFold(f, call.op, FullTerm(c, |before|), Column(before, call.dataAt, i));
    assert DataIs(call, after, r, i, Eval(f, call.op, FullTerm(c, |before|), Column(before, call.dataAt, i)));
  }

  /** So does recursive doubling: the two algorithms refine the same specification. */
  lemma {:induction false} DoublingIsSerialFold<T(!new)>(call: ReduceCall, steps: nat, f: (ReduceOp, T, T) -> T,
                                                         before: seq<seq<T>>, after: seq<seq<T>>, i: nat, r: nat)
    requires RdOutcome(call, steps, f, before, after) && Associative(f, call.op) && Commutative(f, call.op)
    requires i < call.count && r < |before|
    ensures HasData(before, call.dataAt, i)
    ensures DataIs(call, after, r, i, SerialFold(f, call.op, Column(before, call.dataAt, i)))
  {
    assert Carries(call, f, before, after[r], r, Tree(steps, r), i);
    TreeCountsOnce(steps, r);
    EvalIsSerialFold(f, call.op, Tree(steps, r), Column(before, call.dataAt, i));
  }

  // ----- drift

  lemma {:induction false} NoEmptyChunk(call: ReduceCall, ranks: nat, r: nat)
    requires |call.dataAt| == |call.scratch| == ranks && r < ranks <= call.count
    ensures AlwaysSendsTo(RingRounds(Chunks(call.count, ranks), call), r, Succ(r, ranks))
  {
    var rounds: seq<seq<Op>> := RingRounds(Chunks(call.count, ranks), call);
    forall t | 0 <= t < |rounds| ensures rounds[t][r].send.Some? && rounds[t][r].send.value.peer == Succ(r, ranks) {
      ChunksBalanced(call.count, ranks, Back(r, t, ranks), Back(r, t, ranks));
    }
  }

  /** With at least one element per rank, ring neighbours are never more than one step apart. */
  lemma {:induction false} NeighbourDrift<T>(call: ReduceCall, f: (ReduceOp, T, T) -> T, init: seq<seq<T>>,
                                             run: seq<State<T>>, n: nat, r: nat)
    requires RingCallOk(call, Sizes(init)) && |init| <= call.count
    requires Shaped(RingConfig(call, f, init)) && IsRun(RingConfig(call, f, init), run) && n < |run| && r < |init|
    ensures |run[n]| == |init| && -1 <= run[n][Succ(r, |init|)].round - run[n][r].round <= 1
  {
    RingMatched(call, f, init);
    NoEmptyChunk(call, |init|, r);
    SendersKeepUp(RingConfig(call, f, init), run, n, r, Succ(r, |init|));
  }

  /** Hence any two ranks differ by at most their distance around the ring, either way. */
  lemma {:induction false} BoundedDrift<T>(call: ReduceCall, f: (ReduceOp, T, T) -> T, init: seq<seq<T>>,
                                           run: seq<State<T>>, n: nat, r: nat, q: nat)
    requires RingCallOk(call, Sizes(init)) && |init| <= call.count
    requires Shaped(RingConfig(call, f, init)) && IsRun(RingConfig(call, f, init), run) && n < |run| && r < |init|
    requires q < |init|
    ensures |run[n]| == |init|
    ensures run[n][r].round <= run[n][q].round + Dist(r, q, |init|)
    ensures run[n][q].round <= run[n][r].round + Dist(r, q, |init|)
    decreases Dist(r, q, |init|)
  {
    var ranks := |init|;
    if r != q {
      NeighbourDrift(call, f, init, run, n, Pred(r, ranks));
      assert Dist(Pred(r, ranks), q, ranks) == Dist(r, q, ranks) - 1;
      BoundedDrift(call, f, init, run, n, Pred(r, ranks), q);
    }
  }
}
