/**
 What skipping empty chunks can do to ranks that disagree about counts over several calls:
 messages of different ring allreduces meet, no check fails, and every rank returns.
 */
module Mixups {
  import opened Base
  import opened Transport
  import opened Lockstep
  import opened Guarantees
  import opened Chunking
  import opened Terms
  import opened Ring
  import opened Collectives
  import opened Allreduce
  import opened Stuttering
  import opened Disagreement

  /** One of two consecutive ring allreduces has `n` elements on this rank, the other none. */
  predicate OneEmpty(n: nat, early: bool, first: Part, second: Part) {
    if early then first.count == n && second.count == 0 else first.count == 0 && second.count == n
  }

  ghost predicate SplitCalls(n: nat, op: ReduceOp, early: seq<bool>, first: seq<Part>, second: seq<Part>) {
    && |early| == |first| == |second| > 0
    && forall r :: 0 <= r < |early| ==>
         OneEmpty(n, early[r], first[r], second[r]) && first[r].op == second[r].op == op
  }

  /** The parts that carry elements. */
  function Carrying(early: seq<bool>, first: seq<Part>, second: seq<Part>): (parts: seq<Part>)
    requires |early| == |first| == |second|
    ensures |parts| == |early|
    ensures forall r :: 0 <= r < |early| ==> parts[r] == if early[r] then first[r] else second[r]
  {
    seq(|early|, r requires 0 <= r < |early| => if early[r] then first[r] else second[r])
  }

  /** A ring allreduce of no elements is no call at all. */
  lemma {:induction false} EmptyRingIdle(part: Part, ranks: nat, r: nat, t: nat)
    requires r < ranks && t < 2 * (ranks - 1) && part.count == 0
    ensures IssuedOp(RingKind, part, ranks, r, t) == IDLE
  {
    ChunksBalanced(0, ranks, Back(r, t, ranks), Back(r, t, ranks));
    ChunksBalanced(0, ranks, Back(r, t + 1, ranks), Back(r, t + 1, ranks));
  }

  lemma {:induction false} EmptyColumn(rounds: seq<Round>, parts: seq<Part>, r: nat)
    requires RunsPart(rounds, RingKind, parts, r) && parts[r].count == 0
    ensures BusyCalls(rounds, r, |rounds|) == []
  {
    forall t | 0 <= t < |rounds| ensures rounds[t][r] == IDLE {
      EmptyRingIdle(parts[r], |parts|, r, t);
    }
    IdleColumn(rounds, r, |rounds|);
  }

  lemma {:induction false} CarryingColumn(x: seq<Round>, y: seq<Round>, a: seq<Part>, b: seq<Part>, r: nat)
    requires RunsPart(x, RingKind, a, r) && RunsPart(y, RingKind, b, r) && |a| == |b| && a[r] == b[r]
    ensures BusyCalls(x, r, |x|) == BusyCalls(y, r, |y|)
  {
    SameColumn(x, y, r, |x|);
  }

  /** Of its two calls each rank issues just the one that has elements. */
  lemma {:induction false} OneCallLeft(n: nat, early: bool, x: seq<Round>, y: seq<Round>, z: seq<Round>,
                                       first: seq<Part>, second: seq<Part>, parts: seq<Part>, r: nat)
    requires |first| == |second| == |parts| && RunsPart(x, RingKind, first, r) && RunsPart(y, RingKind, second, r)
    requires RunsPart(z, RingKind, parts, r) && OneEmpty(n, early, first[r], second[r])
    requires parts[r] == if early then first[r] else second[r]
    ensures HasRank(x + y, r) && BusyCalls(x + y, r, |x + y|) == BusyCalls(z, r, |z|)
  {
    BusyConcat(x, y, r, |y|);
    if early {
      EmptyColumn(y, second, r);
      CarryingColumn(x, z, first, parts, r);
      assert BusyCalls(x, r, |x|) + [] == BusyCalls(x, r, |x|);
    } else {
      EmptyColumn(x, first, r);
      CarryingColumn(y, z, second, parts, r);
      assert [] + BusyCalls(y, r, |y|) == BusyCalls(y, r, |y|);
    }
  }

  function TwoCalls(first: seq<Part>, second: seq<Part>): seq<Issue> {
    [Issue(RingKind, first), Issue(RingKind, second)]
  }

  lemma {:induction false} TwoCallProgram(first: seq<Part>, second: seq<Part>, ranks: nat)
    requires |first| == |second| == ranks > 0
    ensures IssuesOk(TwoCalls(first, second), ranks)
    ensures IssuedProgram(TwoCalls(first, second), ranks)
            == IssuedRounds(Issue(RingKind, first)) + IssuedRounds(Issue(RingKind, second))
  {
    var issues := TwoCalls(first, second);
    assert issues[1..] == [Issue(RingKind, second)] && issues[1..][1..] == [];
    assert IssuedProgram(issues[1..], ranks) == IssuedRounds(Issue(RingKind, second)) + [];
  }

  /** The two calls together are one ring allreduce on the buffers that carry elements. */
  lemma {:induction false} TwoCallsAreOne<T>(n: nat, op: ReduceOp, early: seq<bool>, first: seq<Part>,
                                             second: seq<Part>, f: (ReduceOp, T, T) -> T, init: seq<seq<T>>)
    requires SplitCalls(n, op, early, first, second) && |init| == |early|
    ensures IssuesOk(TwoCalls(first, second), |init|)
    ensures SamePrograms(IssuedConfig(TwoCalls(first, second), f, init),
                         LoneConfig(Issue(RingKind, Carrying(early, first, second)), f, init))
    ensures SamePrograms(LoneConfig(Issue(RingKind, Carrying(early, first, second)), f, init),
                         IssuedConfig(TwoCalls(first, second), f, init))
  {
    var parts := Carrying(early, first, second);
    TwoCallProgram(first, second, |init|);
    var x, y := IssuedRounds(Issue(RingKind, first)), IssuedRounds(Issue(RingKind, second));
    var z := IssuedRounds(Issue(RingKind, parts));
    IssueRunsParts(Issue(RingKind, first));
    IssueRunsParts(Issue(RingKind, second));
    IssueRunsParts(Issue(RingKind, parts));
    forall r | 0 <= r < |init| ensures SameCalls(x + y, z, r) && SameCalls(z, x + y, r) {
      assert RunsPart(x, RingKind, first, r) && RunsPart(y, RingKind, second, r) && RunsPart(z, RingKind, parts, r);
      assert OneEmpty(n, early[r], first[r], second[r]);
      OneCallLeft(n, early[r], x, y, z, first, second, parts, r);
    }
  }

  /** The call those buffers make up. */
  function MixedCall(n: nat, op: ReduceOp, early: seq<bool>, first: seq<Part>, second: seq<Part>): ReduceCall
    requires |early| == |first| == |second|
  {
    var parts := Carrying(early, first, second);
    ReduceCall(n, op, DataAt(parts), Scratches(parts))
  }

  lemma {:induction false} MixedProgram<T>(n: nat, op: ReduceOp, early: seq<bool>, first: seq<Part>, second: seq<Part>,
                                           f: (ReduceOp, T, T) -> T, init: seq<seq<T>>)
    requires SplitCalls(n, op, early, first, second) && |init| == |early|
    requires RingCallOk(MixedCall(n, op, early, first, second), Sizes(init))
    ensures LoneConfig(Issue(RingKind, Carrying(early, first, second)), f, init)
            == RingConfig(MixedCall(n, op, early, first, second), f, init)
  {
    var parts, call := Carrying(early, first, second), MixedCall(n, op, early, first, second);
    var x: seq<seq<Op>>, y: seq<seq<Op>> := IssuedRounds(Issue(RingKind, parts)), RingRounds(Chunks(n, |init|), call);
    forall t | 0 <= t < |x| ensures x[t] == y[t] {
      forall r | 0 <= r < |init| ensures x[t][r] == y[t][r] {
        assert OneEmpty(n, early[r], first[r], second[r]) && parts[r].count == n;
      }
    }
  }

  /** Disagreement that goes unnoticed, for any number of ranks and elements: if every rank makes
      two ring allreduces, one of n elements and one of none, and the ranks do not agree which
      is which, all ranks can still return, and the first buffers of some ranks have been reduced
      with the second buffers of others. */
  lemma {:induction false} SilentMixup<T>(n: nat, op: ReduceOp, early: seq<bool>, first: seq<Part>, second: seq<Part>,
                                          f: (ReduceOp, T, T) -> T, init: seq<seq<T>>) returns (run: seq<State<T>>)
    requires SplitCalls(n, op, early, first, second) && |init| == |early|
    requires RingCallOk(MixedCall(n, op, early, first, second), Sizes(init))
    ensures IssuesOk(TwoCalls(first, second), |init|)
    ensures IsRun(IssuedConfig(TwoCalls(first, second), f, init), run)
    ensures AllDone(IssuedConfig(TwoCalls(first, second), f, init), run[|run| - 1])
    ensures RingOutcome(MixedCall(n, op, early, first, second), f, init, Memories(run[|run| - 1]))
  {
    var call := MixedCall(n, op, early, first, second);
    TwoCallsAreOne(n, op, early, first, second, f, init);
    MixedProgram(n, op, early, first, second, f, init);
    RingMatched(call, f, init);
    var cfg := RingConfig(call, f, init);
    var lone := RunCompletes(cfg, [Init(cfg)]);
    run := SameCallsSameResults(cfg, IssuedConfig(TwoCalls(first, second), f, init), lone);
    RingResult(call, f, init, lone);
    assert Memories(run[|run| - 1]) == Memories(lone[|lone| - 1]);
  }

  lemma {:induction false} RingResult<T>(call: ReduceCall, f: (ReduceOp, T, T) -> T, init: seq<seq<T>>,
                                         run: seq<State<T>>)
    requires RingCallOk(call, Sizes(init)) && Shaped(RingConfig(call, f, init)) && IsRun(RingConfig(call, f, init), run)
    requires AllDone(RingConfig(call, f, init), run[|run| - 1])
    ensures RingOutcome(call, f, init, Memories(run[|run| - 1]))
  {
    RingMatched(call, f, init);
    DeadlockFree(RingConfig(call, f, init), run, |run| - 1);
    RingAllreduceCorrect(call, f, init, run, |run| - 1);
  }

  /** And that is the only thing that can happen: every run in which all ranks return ends so. */
  lemma {:induction false} AlwaysMixup<T>(n: nat, op: ReduceOp, early: seq<bool>, first: seq<Part>, second: seq<Part>,
                                          f: (ReduceOp, T, T) -> T, init: seq<seq<T>>, run: seq<State<T>>)
    requires SplitCalls(n, op, early, first, second) && |init| == |early|
    requires RingCallOk(MixedCall(n, op, early, first, second), Sizes(init))
    requires IssuesOk(TwoCalls(first, second), |init|) && IsRun(IssuedConfig(TwoCalls(first, second), f, init), run)
    requires AllDone(IssuedConfig(TwoCalls(first, second), f, init), run[|run| - 1])
    ensures RingOutcome(MixedCall(n, op, early, first, second), f, init, Memories(run[|run| - 1]))
  {
    var call := MixedCall(n, op, early, first, second);
    TwoCallsAreOne(n, op, early, first, second, f, init);
    MixedProgram(n, op, early, first, second, f, init);
    var cfg := RingConfig(call, f, init);
    var lone := SameCallsSameResults(IssuedConfig(TwoCalls(first, second), f, init), cfg, run);
    RingResult(call, f, init, lone);
    assert Memories(run[|run| - 1]) == Memories(lone[|lone| - 1]);
  }

  // ----- an input

  function SmallPart(count: nat, data: nat): Part {
    Part(count, Sum, data, Slice(2, 1))
  }

  lemma {:induction false} SmallCallOk(call: ReduceCall, sizes: seq<nat>)
    requires call == ReduceCall(1, Sum, [1, 0], [Slice(2, 1), Slice(2, 1)]) && sizes == [4, 4]
    ensures RingCallOk(call, sizes)
  {
    ChunksBalanced(1, 2, 0, 0);
    assert Ceil(1, 2) == 1;
  }

  lemma {:induction false} SmallResult(call: ReduceCall, init: seq<seq<int>>, after: seq<seq<int>>)
    requires call == ReduceCall(1, Sum, [1, 0], [Slice(2, 1), Slice(2, 1)])
    requires init == [[10, 20, 0, 0], [300, 400, 0, 0]] && RingOutcome(call, Plus, init, after)
    ensures |after| == 2 && [10, 320] <= after[0] && [320, 400] <= after[1]
  {
    assert Sizes(after)[0] == Sizes(init)[0] == 4 && Sizes(after)[1] == Sizes(init)[1] == 4;
    var chunks := Chunks(1, 2);
    assert chunks[0] == Chunk(0, 1) && Holds(chunks[0], 0);
    assert Carries(call, Plus, init, after[0], 0, FullTerm(0, 2), 0);
    assert Carries(call, Plus, init, after[1], 1, FullTerm(0, 2), 0);
    var xs := Column(init, call.dataAt, 0);
    assert xs == [20, 300];
    assert FullTerm(0, 2) == Node(Leaf(1), RingTerm(0, 0, 2)) && RingTerm(0, 0, 2) == Leaf(0);
    assert Eval(Plus, Sum, FullTerm(0, 2), xs) == Eval(Plus, Sum, Leaf(1), xs) + Eval(Plus, Sum, Leaf(0), xs);
    assert Ceil(1, 2) == 1;
    assert KeptAt(init[0], after[0], 0) && KeptAt(init[1], after[1], 1);
  }

  /** Rank 0 passes counts 0 and 1, rank 1 passes 1 and 0. Both return from both calls, and
      rank 0's second buffer, 20, has been added to rank 1's first, 300. */
  lemma {:induction false} MixupExample() returns (issues: seq<Issue>, run: seq<State<int>>)
    ensures issues == TwoCalls([SmallPart(0, 0), SmallPart(1, 0)], [SmallPart(1, 1), SmallPart(0, 1)])
    ensures IssuesOk(issues, 2) && !SameCounts(issues[0].parts) && !SameCounts(issues[1].parts)
    ensures var init := [[10, 20, 0, 0], [300, 400, 0, 0]];
            && IsRun(IssuedConfig(issues, Plus, init), run)
            && AllDone(IssuedConfig(issues, Plus, init), run[|run| - 1])
            && [10, 320] <= run[|run| - 1][0].mem && [320, 400] <= run[|run| - 1][1].mem
  {
    var first, second := [SmallPart(0, 0), SmallPart(1, 0)], [SmallPart(1, 1), SmallPart(0, 1)];
    var early, init := [false, true], [[10, 20, 0, 0], [300, 400, 0, 0]];
    issues := TwoCalls(first, second);
    var call := MixedCall(1, Sum, early, first, second);
    assert call == ReduceCall(1, Sum, [1, 0], [Slice(2, 1), Slice(2, 1)]);
    SmallCallOk(call, Sizes(init));
    run := SilentMixup(1, Sum, early, first, second, Plus, init);
    SmallResult(call, init, Memories(run[|run| - 1]));
    assert issues[0].parts[1].count != issues[0].parts[0].count && issues[1].parts[1].count != issues[1].parts[0].count;
  }
}
