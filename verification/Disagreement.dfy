/**
 Ranks that enter collectives with different element counts, operators or buffers. A lone
 call never returns normally on all ranks unless they passed the same count. In a sequence
 of calls without barriers this holds call by call as long as no call skips messages, that
 is, as long as no ring allreduce has fewer elements than ranks; `Mixups` shows that it fails
 without that condition.
 */
module Disagreement {
  import opened Base
  import opened Transport
  import opened Lockstep
  import opened Guarantees
  import opened Chunking
  import opened Ring
  import opened Bits
  import opened RecursiveDoubling
  import opened Circulation
  import opened Collectives
  import opened Traffic
  import opened Conservation

  // ----- what the ranks issue

  datatype Kind = RingKind | DoublingKind(steps: nat) | GatherKind | CastKind(root: nat)

  /** What one rank brings to a call; nothing makes the ranks bring the same. Allgather and
      broadcast have no operator and no scratch buffer. */
  datatype Part = Part(count: nat, op: ReduceOp, data: nat, scratch: Slice)

  /** One collective as all ranks issue it. */
  datatype Issue = Issue(kind: Kind, parts: seq<Part>)

  predicate KindOk(kind: Kind, ranks: nat) {
    && ranks > 0
    && match kind
       case RingKind => true
       case DoublingKind(steps) => ranks == Pow2(steps)
       case GatherKind => true
       case CastKind(root) => root < ranks
  }

  /** How many rounds a call takes; it does not depend on the count. */
  function Rounds(kind: Kind, ranks: nat): nat
    requires ranks > 0
  {
    match kind
    case RingKind => 2 * (ranks - 1)
    case DoublingKind(steps) => steps
    case GatherKind => ranks - 1
    case CastKind(_) => ranks - 1
  }

  /** What rank r does in round t, on its own part. */
  function IssuedOp(kind: Kind, part: Part, ranks: nat, r: nat, t: nat): Op
    requires r < ranks && t < Rounds(kind, ranks)
  {
    match kind
    case RingKind => RingOp(Chunks(part.count, ranks), part.op, part.data, part.scratch.off, r, t)
    case DoublingKind(_) => RdOp(part.count, part.op, part.data, part.scratch.off, r, t)
    case GatherKind => GatherOp(Segments(part.count, ranks), part.data, r, t)
    case CastKind(root) => CastOp(root, part.count, part.data, r, t)
  }

  function IssuedRound(kind: Kind, parts: seq<Part>, t: nat): (round: Round)
    requires parts != [] && t < Rounds(kind, |parts|)
    ensures |round| == |parts|
  {
    seq(|parts|, r requires 0 <= r < |parts| => IssuedOp(kind, parts[r], |parts|, r, t))
  }

  function IssuedRounds(issue: Issue): (rounds: seq<Round>)
    requires issue.parts != []
    ensures |rounds| == Rounds(issue.kind, |issue.parts|)
    ensures forall t :: 0 <= t < |rounds| ==> |rounds[t]| == |issue.parts|
  {
    seq(Rounds(issue.kind, |issue.parts|), t requires 0 <= t < Rounds(issue.kind, |issue.parts|) =>
      IssuedRound(issue.kind, issue.parts, t))
  }

  ghost predicate SameCounts(parts: seq<Part>) {
    forall r :: 0 <= r < |parts| ==> parts[r].count == parts[0].count
  }

  /** Rank r's column of a program is its part of the call. */
  ghost predicate RunsPart(rounds: seq<Round>, kind: Kind, parts: seq<Part>, r: nat) {
    && r < |parts| && |rounds| == Rounds(kind, |parts|) && HasRank(rounds, r)
    && forall t :: 0 <= t < |rounds| ==> rounds[t][r] == IssuedOp(kind, parts[r], |parts|, r, t)
  }

  ghost predicate RunsParts(rounds: seq<Round>, kind: Kind, parts: seq<Part>) {
    forall r {:trigger RunsPart(rounds, kind, parts, r)} :: 0 <= r < |parts| ==> RunsPart(rounds, kind, parts, r)
  }

  lemma {:induction false} IssueRunsParts(issue: Issue)
    requires issue.parts != []
    ensures RunsParts(IssuedRounds(issue), issue.kind, issue.parts)
  {
    var rounds: seq<seq<Op>> := IssuedRounds(issue);
    forall r | 0 <= r < |issue.parts| ensures RunsPart(rounds, issue.kind, issue.parts, r) {
      forall t | 0 <= t < |rounds| ensures rounds[t][r] == IssuedOp(issue.kind, issue.parts[r], |issue.parts|, r, t) {
        assert rounds[t] == IssuedRound(issue.kind, issue.parts, t);
      }
    }
  }

  // ----- ring allreduce

  /** The traffic over the link from s to its successor, as a function of the count. */
  function Link(count: nat, ranks: nat, s: nat): int
    requires s < ranks
  {
    2 * count - Count(count, ranks, Succ(s, ranks)) - Count(count, ranks, Succ(Succ(s, ranks), ranks))
  }

  lemma {:induction false} LinkGrows(count: nat, more: nat, ranks: nat, s: nat)
    requires ranks >= 2 && s < ranks && count < more
    ensures Link(count, ranks, s) < Link(more, ranks, s)
    decreases more - count
  {
    OneMoreElement(count, ranks, Succ(s, ranks));
    OneMoreElement(count, ranks, Succ(Succ(s, ranks), ranks));
    if count + 1 < more {
      LinkGrows(count + 1, more, ranks, s);
    }
  }

  lemma {:induction false} RingFlow(rounds: seq<Round>, chunks: seq<Chunk>, part: Part, r: nat, t: nat)
    requires RingColumn(rounds, chunks, part.op, part.data, part.scratch.off, r) && t <= |rounds|
    ensures SentVolume(rounds, r, Succ(r, |chunks|), t) == Backward(chunks, r, t)
    ensures ExpectedVolume(rounds, r, Pred(r, |chunks|), t) == Backward(chunks, Pred(r, |chunks|), t)
  {
    if t > 0 {
      RingFlow(rounds, chunks, part, r, t - 1);
      assert Back(r, t, |chunks|) == Back(Pred(r, |chunks|), t - 1, |chunks|);
    }
  }

  lemma {:induction false} LinkOfChunks(count: nat, ranks: nat, chunks: seq<Chunk>, s: nat)
    requires ranks >= 2 && s < ranks && chunks == Chunks(count, ranks)
    ensures Backward(chunks, s, 2 * (ranks - 1)) == Link(count, ranks, s)
  {
    BackwardIsTwoTurns(chunks, s);
    PrefixOfChunks(count, ranks, chunks, ranks);
  }

  lemma {:induction false} RingPartTraffic(rounds: seq<Round>, parts: seq<Part>, r: nat)
    requires |parts| >= 2 && RunsPart(rounds, RingKind, parts, r)
    ensures SentVolume(rounds, r, Succ(r, |parts|), |rounds|) == Link(parts[r].count, |parts|, r)
    ensures ExpectedVolume(rounds, r, Pred(r, |parts|), |rounds|)
            == Link(parts[r].count, |parts|, Pred(r, |parts|))
  {
    var chunks := Chunks(parts[r].count, |parts|);
    RingFlow(rounds, chunks, parts[r], r, |rounds|);
    LinkOfChunks(parts[r].count, |parts|, chunks, r);
    LinkOfChunks(parts[r].count, |parts|, chunks, Pred(r, |parts|));
  }

  lemma {:induction false} SameLink(a: nat, b: nat, ranks: nat, s: nat)
    requires ranks >= 2 && s < ranks && Link(a, ranks, s) == Link(b, ranks, s)
    ensures a == b
  {
    if a < b {
      LinkGrows(a, b, ranks, s);
    } else if b < a {
      LinkGrows(b, a, ranks, s);
    }
  }

  lemma {:induction false} RingNeighboursAgree(rounds: seq<Round>, parts: seq<Part>, s: nat)
    requires RunsParts(rounds, RingKind, parts) && |parts| >= 2 && Balanced(rounds, |parts|) && s < |parts|
    ensures parts[s].count == parts[Succ(s, |parts|)].count
  {
    var r := Succ(s, |parts|);
    assert LinkBalanced(rounds, s, r);
    BalancedVolumes(rounds, s, r);
    assert RunsPart(rounds, RingKind, parts, s) && RunsPart(rounds, RingKind, parts, r);
    RingPartTraffic(rounds, parts, s);
    RingPartTraffic(rounds, parts, r);
    SameLink(parts[s].count, parts[r].count, |parts|, s);
  }

  // ----- recursive doubling

  /** A rank meets each of its partners in one step only. */
  lemma {:induction false} PartnersDiffer(r: nat, j: nat, k: nat)
    requires j < k
    ensures Partner(r, j) != Partner(r, k)
  {
    BlockHalves(r, r, j);
    BlockHalves(r, r, k);
    ShiftMore(Partner(r, j), r, j + 1, k);
  }

  lemma {:induction false} DoublingFlow(rounds: seq<Round>, parts: seq<Part>, r: nat, k: nat, t: nat)
    requires RunsPart(rounds, DoublingKind(|rounds|), parts, r) && k < |rounds| && t <= |rounds|
    ensures SentVolume(rounds, r, Partner(r, k), t) == if k < t then parts[r].count else 0
    ensures ExpectedVolume(rounds, r, Partner(r, k), t) == if k < t then parts[r].count else 0
  {
    if t > 0 {
      DoublingFlow(rounds, parts, r, k, t - 1);
      if t - 1 < k {
        PartnersDiffer(r, t - 1, k);
      } else if k < t - 1 {
        PartnersDiffer(r, k, t - 1);
      }
    }
  }

  lemma {:induction false} PartnersAgree(rounds: seq<Round>, parts: seq<Part>, r: nat, k: nat)
    requires RunsParts(rounds, DoublingKind(|rounds|), parts) && |parts| == Pow2(|rounds|)
    requires Balanced(rounds, |parts|) && r < |parts| && k < |rounds|
    ensures Partner(r, k) < |parts| && parts[r].count == parts[Partner(r, k)].count
  {
    var q, steps := Partner(r, k), |rounds|;
    PartnerInRange(r, k, steps);
    PartnerInvolution(r, k);
    assert LinkBalanced(rounds, r, q);
    BalancedVolumes(rounds, r, q);
    assert RunsPart(rounds, DoublingKind(steps), parts, r) && RunsPart(rounds, DoublingKind(steps), parts, q);
    DoublingFlow(rounds, parts, r, k, steps);
    DoublingFlow(rounds, parts, q, k, steps);
  }

  /** The exchanges of the first k steps connect every block of 2^k ranks. */
  lemma {:induction false} BlockAgrees(rounds: seq<Round>, parts: seq<Part>, k: nat, r: nat, q: nat)
    requires RunsParts(rounds, DoublingKind(|rounds|), parts) && |parts| == Pow2(|rounds|)
    requires Balanced(rounds, |parts|) && r < |parts| && q < |parts| && k <= |rounds| && Shift(r, k) == Shift(q, k)
    ensures parts[r].count == parts[q].count
    decreases k
  {
    if k > 0 {
      BlockHalves(q, r, k - 1);
      if Shift(q, k - 1) == Shift(r, k - 1) {
        BlockAgrees(rounds, parts, k - 1, r, q);
      } else {
        PartnersAgree(rounds, parts, r, k - 1);
        BlockAgrees(rounds, parts, k - 1, Partner(r, k - 1), q);
      }
    }
  }

  // ----- allgather

  lemma {:induction false} GatherFlow(rounds: seq<Round>, parts: seq<Part>, segs: seq<Chunk>, r: nat, t: nat)
    requires RunsPart(rounds, GatherKind, parts, r) && t <= |rounds| && segs == Segments(parts[r].count, |parts|)
    ensures SentVolume(rounds, r, Succ(r, |parts|), t) == t * parts[r].count
    ensures ExpectedVolume(rounds, r, Pred(r, |parts|), t) == t * parts[r].count
  {
    if t > 0 {
      GatherFlow(rounds, parts, segs, r, t - 1);
      assert segs[Back(r, t - 1, |segs|)].count == segs[Back(r, t, |segs|)].count == parts[r].count;
      assert t * parts[r].count == (t - 1) * parts[r].count + parts[r].count;
    }
  }

  lemma {:induction false} SameProduct(k: nat, a: nat, b: nat)
    requires k > 0 && k * a == k * b
    ensures a == b
  {
    assert k * (a - b) == 0;
    assert a > b ==> k * (a - b) >= k;
    assert b > a ==> k * (b - a) >= k;
  }

  lemma {:induction false} GatherNeighboursAgree(rounds: seq<Round>, parts: seq<Part>, s: nat)
    requires RunsParts(rounds, GatherKind, parts) && |parts| >= 2 && Balanced(rounds, |parts|) && s < |parts|
    ensures parts[s].count == parts[Succ(s, |parts|)].count
  {
    var r := Succ(s, |parts|);
    assert LinkBalanced(rounds, s, r);
    assert RunsPart(rounds, GatherKind, parts, s) && RunsPart(rounds, GatherKind, parts, r);
    GatherFlow(rounds, parts, Segments(parts[s].count, |parts|), s, |rounds|);
    GatherFlow(rounds, parts, Segments(parts[r].count, |parts|), r, |rounds|);
    BalancedVolumes(rounds, s, r);
    SameProduct(|rounds|, parts[s].count, parts[r].count);
  }

  // ----- broadcast

  lemma {:induction false} CastRootFlow(rounds: seq<Round>, root: nat, parts: seq<Part>, k: nat, t: nat)
    requires RunsPart(rounds, CastKind(root), parts, root) && k < |rounds| && t <= |rounds|
    ensures SentVolume(rounds, root, Served(root, k), t) == if k < t then parts[root].count else 0
  {
    if t > 0 {
      CastRootFlow(rounds, root, parts, k, t - 1);
    }
  }

  lemma {:induction false} CastPeerFlow(rounds: seq<Round>, root: nat, parts: seq<Part>, k: nat, r: nat, t: nat)
    requires RunsPart(rounds, CastKind(root), parts, r) && r == Served(root, k) && k < |rounds| && t <= |rounds|
    ensures ExpectedVolume(rounds, r, root, t) == if k < t then parts[r].count else 0
  {
    if t > 0 {
      CastPeerFlow(rounds, root, parts, k, r, t - 1);
    }
  }

  lemma {:induction false} RootAgrees(rounds: seq<Round>, root: nat, parts: seq<Part>, r: nat)
    requires RunsParts(rounds, CastKind(root), parts) && root < |parts| && Balanced(rounds, |parts|) && r < |parts|
    ensures parts[r].count == parts[root].count
  {
    if r != root {
      var k := if r < root then r else r - 1;
      assert LinkBalanced(rounds, root, r);
      assert RunsPart(rounds, CastKind(root), parts, root) && RunsPart(rounds, CastKind(root), parts, r);
      CastRootFlow(rounds, root, parts, k, |rounds|);
      CastPeerFlow(rounds, root, parts, k, r, |rounds|);
      BalancedVolumes(rounds, root, r);
    }
  }

  // ----- one call

  lemma {:induction false} RankAgrees(rounds: seq<Round>, kind: Kind, parts: seq<Part>, r: nat)
    requires KindOk(kind, |parts|) && RunsParts(rounds, kind, parts) && Balanced(rounds, |parts|) && r < |parts|
    ensures parts[r].count == parts[0].count
  {
    match kind
    case RingKind =>
      if r > 0 {
        RankAgrees(rounds, kind, parts, r - 1);
        RingNeighboursAgree(rounds, parts, r - 1);
      }
    case DoublingKind(steps) =>
      assert RunsPart(rounds, kind, parts, 0);
      ShiftBelow(r, steps);
      ShiftBelow(0, steps);
      BlockAgrees(rounds, parts, steps, r, 0);
    case GatherKind =>
      if r > 0 {
        RankAgrees(rounds, kind, parts, r - 1);
        GatherNeighboursAgree(rounds, parts, r - 1);
      }
    case CastKind(root) =>
      RootAgrees(rounds, root, parts, r);
      RootAgrees(rounds, root, parts, 0);
  }

  /** Whatever the collective, balanced traffic means equal counts, for skipped chunks too. */
  lemma {:induction false} BalancedAgrees(issue: Issue)
    requires KindOk(issue.kind, |issue.parts|) && Balanced(IssuedRounds(issue), |issue.parts|)
    ensures SameCounts(issue.parts)
  {
    IssueRunsParts(issue);
    forall r | 0 <= r < |issue.parts| ensures issue.parts[r].count == issue.parts[0].count {
      RankAgrees(IssuedRounds(issue), issue.kind, issue.parts, r);
    }
  }

  // ----- equal counts match, whatever the operators

  /** The same transfers, and the same reduction but for its operator. */
  predicate SameButOp(a: Op, b: Op) {
    && a.recv == b.recv && a.send == b.send
    && match (a.fold, b.fold)
       case (None, None) => true
       case (Some(x), Some(y)) => x.dst == y.dst && x.src == y.src && x.len == y.len
       case _ => false
  }

  lemma {:induction false} OpsDoNotMatter(a: Round, b: Round, sizes: seq<nat>)
    requires RoundOk(a, sizes) && |b| == |a|
    requires forall r {:trigger SameButOp(a[r], b[r])} :: 0 <= r < |a| ==> SameButOp(a[r], b[r])
    ensures RoundOk(b, sizes)
  {
    forall r | 0 <= r < |b| ensures OpOk(b[r], r, |b|, sizes[r]) && SendMet(b, r) && RecvMet(b, r) {
      assert SameButOp(a[r], b[r]) && OpOk(a[r], r, |a|, sizes[r]) && SendMet(a, r) && RecvMet(a, r);
      assert b[r].send.Some? ==> SameButOp(a[b[r].send.value.peer], b[b[r].send.value.peer]);
      assert b[r].recv.Some? ==> SameButOp(a[b[r].recv.value.peer], b[b[r].recv.value.peer]);
    }
  }

  function DataAt(parts: seq<Part>): (at: seq<nat>)
    ensures |at| == |parts| && forall r :: 0 <= r < |parts| ==> at[r] == parts[r].data
  {
    seq(|parts|, r requires 0 <= r < |parts| => parts[r].data)
  }

  function Scratches(parts: seq<Part>): (at: seq<Slice>)
    ensures |at| == |parts| && forall r :: 0 <= r < |parts| ==> at[r] == parts[r].scratch
  {
    seq(|parts|, r requires 0 <= r < |parts| => parts[r].scratch)
  }

  /** The call the ranks would make together, if rank 0's count and operator were everyone's. */
  function CallOf(issue: Issue): Call
    requires issue.parts != []
  {
    var parts := issue.parts;
    var reduce := ReduceCall(parts[0].count, parts[0].op, DataAt(parts), Scratches(parts));
    match issue.kind
    case RingKind => RingAllreduce(reduce)
    case DoublingKind(steps) => DoublingAllreduce(reduce, steps)
    case GatherKind => Allgather(GatherCall(parts[0].count, DataAt(parts)))
    case CastKind(root) => Broadcast(CastCall(root, parts[0].count, DataAt(parts)))
  }

  lemma {:induction false} SameProgram(issue: Issue, t: nat, r: nat)
    requires issue.parts != [] && SameCounts(issue.parts)
    requires t < Rounds(issue.kind, |issue.parts|) && r < |issue.parts|
    ensures |Program(CallOf(issue), |issue.parts|)| == Rounds(issue.kind, |issue.parts|)
    ensures |Program(CallOf(issue), |issue.parts|)[t]| == |issue.parts|
    ensures SameButOp(Program(CallOf(issue), |issue.parts|)[t][r], IssuedRounds(issue)[t][r])
  {
    assert issue.parts[r].count == issue.parts[0].count;
  }

  lemma {:induction false} SameCountsMatch<T>(issue: Issue, f: (ReduceOp, T, T) -> T, ms: seq<seq<T>>)
    requires |issue.parts| == |ms| > 0 && SameCounts(issue.parts) && CallOk(CallOf(issue), Sizes(ms))
    ensures RoundsOk(IssuedRounds(issue), Sizes(ms))
  {
    CallMeets(CallOf(issue), f, ms);
    var mine, theirs := IssuedRounds(issue), Program(CallOf(issue), |ms|);
    forall t | 0 <= t < |mine| ensures RoundOk(mine[t], Sizes(ms)) {
      SameProgram(issue, t, 0);
      forall r | 0 <= r < |ms| ensures SameButOp(theirs[t][r], mine[t][r]) {
        SameProgram(issue, t, r);
      }
      OpsDoNotMatter(theirs[t], mine[t], Sizes(ms));
    }
  }

  // ----- when all ranks can return

  /** However it goes on from here, the run can reach a state in which all ranks have returned. */
  ghost predicate CanReturn<T(!new)>(cfg: Config<T>, run: seq<State<T>>)
    requires Shaped(cfg)
  {
    exists full :: IsRun(cfg, full) && run <= full && AllDone(cfg, full[|full| - 1])
  }

  lemma {:induction false} MatchedCanReturn<T(!new)>(cfg: Config<T>, run: seq<State<T>>)
    requires Matched(cfg) && IsRun(cfg, run)
    ensures CanReturn(cfg, run)
  {
    var full := RunCompletes(cfg, run);
  }

  function LoneConfig<T>(issue: Issue, f: (ReduceOp, T, T) -> T, init: seq<seq<T>>): (cfg: Config<T>)
    requires |issue.parts| == |init| > 0
    ensures Shaped(cfg)
  {
    Config(IssuedRounds(issue), f, init)
  }

  /** A lone call, of any collective, on parts of any kind: if all ranks return normally, from
      clean queues and under any interleaving, they all passed the same count. */
  lemma {:induction false} LoneCallAgrees<T>(issue: Issue, f: (ReduceOp, T, T) -> T, init: seq<seq<T>>,
                                             run: seq<State<T>>, n: nat)
    requires |issue.parts| == |init| && KindOk(issue.kind, |init|)
    requires IsRun(LoneConfig(issue, f, init), run) && n < |run| && AllDone(LoneConfig(issue, f, init), run[n])
    ensures SameCounts(issue.parts)
  {
    DoneIsBalanced(LoneConfig(issue, f, init), run, n);
    BalancedAgrees(issue);
  }

  lemma {:induction false} LoneReturnAgrees<T(!new)>(issue: Issue, f: (ReduceOp, T, T) -> T, init: seq<seq<T>>,
                                                     run: seq<State<T>>)
    requires |issue.parts| == |init| && KindOk(issue.kind, |init|) && CanReturn(LoneConfig(issue, f, init), run)
    ensures SameCounts(issue.parts)
  {
    var cfg := LoneConfig(issue, f, init);
    var full :| IsRun(cfg, full) && run <= full && AllDone(cfg, full[|full| - 1]);
    LoneCallAgrees(issue, f, init, full, |full| - 1);
  }

  /** However a run of a lone call has begun, it can be continued until all ranks have returned
      exactly when they all passed the same count. */
  lemma {:induction false} LoneCallReturnsIff<T(!new)>(issue: Issue, f: (ReduceOp, T, T) -> T, init: seq<seq<T>>,
                                                       run: seq<State<T>>)
    requires |issue.parts| == |init| && KindOk(issue.kind, |init|)
    requires SameCounts(issue.parts) ==> CallOk(CallOf(issue), Sizes(init))
    requires IsRun(LoneConfig(issue, f, init), run)
    ensures CanReturn(LoneConfig(issue, f, init), run) <==> SameCounts(issue.parts)
  {
    var cfg := LoneConfig(issue, f, init);
    if CanReturn(cfg, run) {
      LoneReturnAgrees(issue, f, init, run);
    }
    if SameCounts(issue.parts) {
      SameCountsMatch(issue, f, init);
      MatchedCanReturn(cfg, run);
    }
  }

  // ----- sequences of calls without barriers

  /** The call skips no message: only a ring with fewer elements than ranks does. */
  ghost predicate SkipsNothing(issue: Issue) {
    issue.kind.RingKind? ==> forall r :: 0 <= r < |issue.parts| ==> issue.parts[r].count >= |issue.parts|
  }

  lemma {:induction false} RingOpFull(part: Part, ranks: nat, r: nat, t: nat)
    requires r < ranks <= part.count && t < 2 * (ranks - 1)
    ensures var op := IssuedOp(RingKind, part, ranks, r, t);
            && op.send.Some? && op.send.value.peer == Succ(r, ranks)
            && op.recv.Some? && op.recv.value.peer == Pred(r, ranks)
  {
    ChunksBalanced(part.count, ranks, Back(r, t, ranks), Back(r, t, ranks));
    ChunksBalanced(part.count, ranks, Back(r, t + 1, ranks), Back(r, t + 1, ranks));
  }

  lemma {:induction false} OpsPaired(issue: Issue, t: nat, s: nat, r: nat)
    requires KindOk(issue.kind, |issue.parts|) && SkipsNothing(issue) && t < Rounds(issue.kind, |issue.parts|)
    requires s < |issue.parts| && r < |issue.parts| && s != r
    ensures LinkPaired(IssuedRound(issue.kind, issue.parts, t), s, r)
  {
    var parts, ranks := issue.parts, |issue.parts|;
    match issue.kind
    case RingKind =>
      RingOpFull(parts[s], ranks, s, t);
      RingOpFull(parts[r], ranks, r, t);
    case DoublingKind(steps) =>
      PartnerInvolution(s, t);
      PartnerInvolution(r, t);
    case GatherKind =>
    case CastKind(root) =>
  }

  lemma {:induction false} IssuePaired(issue: Issue)
    requires KindOk(issue.kind, |issue.parts|) && SkipsNothing(issue)
    ensures Paired(IssuedRounds(issue), |issue.parts|)
  {
    var rounds := IssuedRounds(issue);
    forall t, s, r {:trigger LinkPaired(rounds[t], s, r)} |
      0 <= t < |rounds| && 0 <= s < |issue.parts| && 0 <= r < |issue.parts| && s != r
      ensures LinkPaired(rounds[t], s, r)
    {
      OpsPaired(issue, t, s, r);
    }
  }

  /** Every call is issued by the same number of ranks, each rank issuing the same collectives. */
  ghost predicate IssuesOk(issues: seq<Issue>, ranks: nat) {
    ranks > 0 && forall k :: 0 <= k < |issues| ==> |issues[k].parts| == ranks && KindOk(issues[k].kind, ranks)
  }

  function IssuedProgram(issues: seq<Issue>, ranks: nat): (rounds: seq<Round>)
    requires IssuesOk(issues, ranks)
    ensures forall t :: 0 <= t < |rounds| ==> |rounds[t]| == ranks
  {
    if issues == [] then [] else IssuedRounds(issues[0]) + IssuedProgram(issues[1..], ranks)
  }

  function IssuedConfig<T>(issues: seq<Issue>, f: (ReduceOp, T, T) -> T, init: seq<seq<T>>): (cfg: Config<T>)
    requires IssuesOk(issues, |init|)
    ensures Shaped(cfg)
  {
    Config(IssuedProgram(issues, |init|), f, init)
  }

  /** Messages of different calls cannot be confused if no call skips any. */
  lemma {:induction false} BalancedCalls(issues: seq<Issue>, ranks: nat, k: nat)
    requires IssuesOk(issues, ranks) && k < |issues|
    requires forall j :: 0 <= j < |issues| ==> SkipsNothing(issues[j])
    requires Balanced(IssuedProgram(issues, ranks), ranks)
    ensures SameCounts(issues[k].parts)
    decreases |issues|
  {
    IssuePaired(issues[0]);
    BalancedParts(IssuedRounds(issues[0]), IssuedProgram(issues[1..], ranks), ranks);
    if k == 0 {
      BalancedAgrees(issues[0]);
    } else {
      BalancedCalls(issues[1..], ranks, k - 1);
    }
  }

  /** Any sequence of calls without barriers: if all ranks return and no ring had fewer elements
      than ranks on any rank, the counts agree call by call. */
  lemma {:induction false} SequenceAgrees<T>(issues: seq<Issue>, f: (ReduceOp, T, T) -> T, init: seq<seq<T>>,
                                             run: seq<State<T>>, n: nat, k: nat)
    requires IssuesOk(issues, |init|) && k < |issues| && forall j :: 0 <= j < |issues| ==> SkipsNothing(issues[j])
    requires IsRun(IssuedConfig(issues, f, init), run) && n < |run| && AllDone(IssuedConfig(issues, f, init), run[n])
    ensures SameCounts(issues[k].parts)
  {
    DoneIsBalanced(IssuedConfig(issues, f, init), run, n);
    BalancedCalls(issues, |init|, k);
  }

  ghost predicate AllSame(issues: seq<Issue>) {
    forall k :: 0 <= k < |issues| ==> SameCounts(issues[k].parts)
  }

  lemma {:induction false} AllSameMatch<T>(issues: seq<Issue>, f: (ReduceOp, T, T) -> T, ms: seq<seq<T>>)
    requires IssuesOk(issues, |ms|) && AllSame(issues)
    requires forall k :: 0 <= k < |issues| ==> CallOk(CallOf(issues[k]), Sizes(ms))
    ensures RoundsOk(IssuedProgram(issues, |ms|), Sizes(ms))
  {
    if issues != [] {
      SameCountsMatch(issues[0], f, ms);
      AllSameMatch(issues[1..], f, ms);
    }
  }

  lemma {:induction false} SequenceReturnAgrees<T(!new)>(issues: seq<Issue>, f: (ReduceOp, T, T) -> T,
                                                         init: seq<seq<T>>, run: seq<State<T>>)
    requires IssuesOk(issues, |init|) && forall j :: 0 <= j < |issues| ==> SkipsNothing(issues[j])
    requires CanReturn(IssuedConfig(issues, f, init), run)
    ensures AllSame(issues)
  {
    var cfg := IssuedConfig(issues, f, init);
    var full :| IsRun(cfg, full) && run <= full && AllDone(cfg, full[|full| - 1]);
    forall k | 0 <= k < |issues| ensures SameCounts(issues[k].parts) {
      SequenceAgrees(issues, f, init, full, |full| - 1, k);
    }
  }

  /** However a run of such a sequence has begun, it can be continued until all ranks have
      returned exactly when they passed the same count to every call. */
  lemma {:induction false} SequenceReturnsIff<T(!new)>(issues: seq<Issue>, f: (ReduceOp, T, T) -> T, init: seq<seq<T>>,
                                                       run: seq<State<T>>)
    requires IssuesOk(issues, |init|) && forall j :: 0 <= j < |issues| ==> SkipsNothing(issues[j])
    requires AllSame(issues) ==> forall k :: 0 <= k < |issues| ==> CallOk(CallOf(issues[k]), Sizes(init))
    requires IsRun(IssuedConfig(issues, f, init), run)
    ensures CanReturn(IssuedConfig(issues, f, init), run) <==> AllSame(issues)
  {
    var cfg := IssuedConfig(issues, f, init);
    if CanReturn(cfg, run) {
      SequenceReturnAgrees(issues, f, init, run);
    }
    if AllSame(issues) {
      AllSameMatch(issues, f, init);
      MatchedCanReturn(cfg, run);
    }
  }
}
