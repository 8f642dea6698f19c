/** Ring allreduce: reduce-scatter, then allgather, around a ring of ranks. */
module Ring {
  import opened Base
  import opened Transport
  import opened Lockstep
  import opened Chunking
  import opened Terms

  // ----- positions on the ring

  function Succ(r: nat, ranks: nat): (s: nat)
    requires r < ranks
    ensures s < ranks
  {
    if r + 1 == ranks then 0 else r + 1
  }

  function Pred(r: nat, ranks: nat): (s: nat)
    requires r < ranks
    ensures s < ranks && Succ(s, ranks) == r
  {
    if r == 0 then ranks - 1 else r - 1
  }

  /** The position t places before r. */
  function Back(r: nat, t: nat, ranks: nat): (c: nat)
    requires r < ranks && t <= 2 * ranks
    ensures c < ranks
  {
    if t <= r then r - t else if t <= r + ranks then r + ranks - t else r + 2 * ranks - t
  }

  /** How many places r is after c. */
  function Dist(r: nat, c: nat, ranks: nat): (d: nat)
    requires r < ranks && c < ranks
    ensures d < ranks && Back(r, d, ranks) == c
  {
    if c <= r then r - c else r + ranks - c
  }

  /** The remainder operator of C++ truncates toward zero. */
  function TruncRem(x: int, n: nat): int
    requires n > 0
  {
    if x >= 0 then x % n else -((-x) % n)
  }

  function ModP(x: int, ranks: nat): int
    requires ranks > 0
  {
    TruncRem(TruncRem(x, ranks) + ranks, ranks)
  }

  /** The source's `mod_p` is the ring position, for every offset either loop uses. */
  lemma {:induction false} ModPIsBack(r: nat, t: nat, ranks: nat)
    requires r < ranks && t <= 2 * ranks
    ensures ModP(r - t, ranks) == Back(r, t, ranks)
    ensures ModP(r + 1, ranks) == Succ(r, ranks)
  {
    SmallRem(r - t, ranks);
    SmallRem(TruncRem(r - t, ranks) + ranks, ranks);
    SmallRem(r + 1, ranks);
    SmallRem(TruncRem(r + 1, ranks) + ranks, ranks);
  }

  lemma {:induction false} SmallRem(x: int, n: nat)
    requires n > 0 && -2 * (n as int) <= x <= 2 * n
    ensures TruncRem(x, n) == if x + 2 * n <= 0 then 0 else if x + n <= 0 then x + n else if x < n then x
                              else if x < 2 * n then x - n else 0
  {
    SmallMod(if x < 0 then -x else x, n);
  }

  lemma {:induction false} SmallMod(x: nat, n: nat)
    requires n > 0 && x <= 2 * n
    ensures x % n == if x < n then x else if x < 2 * n then x - n else 0
  {
    if x < n {
      DivModUnique(x, n, 0, x);
    } else if x < 2 * n {
      DivModUnique(x, n, 1, x - n);
    } else {
      DivModUnique(x, n, 2, 0);
    }
  }

  // ----- the schedule

  /** One allreduce as issued on every rank: rank r's data starts at dataAt[r] and its
      scratch buffer, with its capacity, is scratch[r]. */
  datatype ReduceCall = ReduceCall(count: nat, op: ReduceOp, dataAt: seq<nat>, scratch: seq<Slice>)

  /** What rank r does in step t of both loops taken together. In the first |chunks| - 1
      steps the incoming chunk lands in scratch and is reduced; in the rest it lands in
      its final place. Empty chunks are neither sent nor received. */
  function RingOp(chunks: seq<Chunk>, op: ReduceOp, data: nat, scratch: nat, r: nat, t: nat): Op
    requires r < |chunks| && t < 2 * (|chunks| - 1)
  {
    var ranks := |chunks|;
    var out, into := chunks[Back(r, t, ranks)], chunks[Back(r, t + 1, ranks)];
    var reducing := t < ranks - 1;
    Op(if into.count == 0 then None
       else Some(Transfer(Pred(r, ranks), Slice(if reducing then scratch else data + into.offset, into.count))),
       if out.count == 0 then None
       else Some(Transfer(Succ(r, ranks), Slice(data + out.offset, out.count))),
       if into.count == 0 || !reducing then None
       else Some(Fold(data + into.offset, scratch, into.count, op)))
  }

  function RingRound(chunks: seq<Chunk>, call: ReduceCall, t: nat): (round: Round)
    requires |call.dataAt| == |call.scratch| == |chunks| && t < 2 * (|chunks| - 1)
    ensures |round| == |chunks|
  {
    seq(|chunks|, r requires 0 <= r < |chunks| =>
      RingOp(chunks, call.op, call.dataAt[r], call.scratch[r].off, r, t))
  }

  function RingRounds(chunks: seq<Chunk>, call: ReduceCall): (rounds: seq<Round>)
    requires |call.dataAt| == |call.scratch| == |chunks| > 0
    ensures |rounds| == 2 * (|chunks| - 1)
  {
    seq(2 * (|chunks| - 1), t requires 0 <= t < 2 * (|chunks| - 1) => RingRound(chunks, call, t))
  }

  /** Rank r's operation in round t of a ring program, without unfolding the program. */
  predicate RunsRingOp(round: Round, chunks: seq<Chunk>, call: ReduceCall, t: nat, r: nat)
    requires |round| == |call.dataAt| == |call.scratch| == |chunks| && r < |chunks| && t < 2 * (|chunks| - 1)
  {
    round[r] == RingOp(chunks, call.op, call.dataAt[r], call.scratch[r].off, r, t)
  }

  ghost predicate IsRingRound(round: Round, chunks: seq<Chunk>, call: ReduceCall, t: nat) {
    && |round| == |call.dataAt| == |call.scratch| == |chunks| && t < 2 * (|chunks| - 1)
    && forall r {:trigger RunsRingOp(round, chunks, call, t, r)} ::
         0 <= r < |chunks| ==> RunsRingOp(round, chunks, call, t, r)
  }

  ghost predicate IsRing(rounds: seq<Round>, chunks: seq<Chunk>, call: ReduceCall) {
    && |rounds| == 2 * (|chunks| - 1)
    && forall t {:trigger IsRingRound(rounds[t], chunks, call, t)} ::
         0 <= t < |rounds| ==> IsRingRound(rounds[t], chunks, call, t)
  }

  lemma {:induction false} RingRoundsAreRing(chunks: seq<Chunk>, call: ReduceCall)
    requires |call.dataAt| == |call.scratch| == |chunks| > 0
    ensures IsRing(RingRounds(chunks, call), chunks, call)
  {
  }

  predicate BuffersFit(call: ReduceCall, need: nat, r: nat, size: nat)
    requires r < |call.dataAt| == |call.scratch|
  {
    && call.dataAt[r] + call.count <= size
    && Within(call.scratch[r], size) && need <= call.scratch[r].len
    && Disjoint(Slice(call.dataAt[r], call.count), call.scratch[r])
  }

  /** What the ring demands of its callers: data inside its region, a scratch region that
      holds the largest chunk, and the two disjoint. */
  ghost predicate RingFits(chunks: seq<Chunk>, call: ReduceCall, sizes: seq<nat>) {
    && |call.dataAt| == |call.scratch| == |chunks| == |sizes| > 0
    && Tiles(chunks, call.count)
    && forall r, c {:trigger BuffersFit(call, chunks[c].count, r, sizes[r])} ::
         0 <= r < |sizes| && 0 <= c < |chunks| ==> BuffersFit(call, chunks[c].count, r, sizes[r])
  }

  lemma {:induction false} RingOpOk(chunks: seq<Chunk>, call: ReduceCall, sizes: seq<nat>, r: nat, t: nat)
    requires RingFits(chunks, call, sizes) && r < |chunks| && t < 2 * (|chunks| - 1)
    ensures OpOk(RingRound(chunks, call, t)[r], r, |chunks|, sizes[r])
  {
    var out, into := Back(r, t, |chunks|), Back(r, t + 1, |chunks|);
    TilesDisjoint(chunks, call.count, out, into);
    assert EndsBy(chunks, out, call.count) && EndsBy(chunks, into, call.count);
    assert BuffersFit(call, chunks[into].count, r, sizes[r]);
  }

  /** In every step the chunk r sends is the chunk its successor expects. */
  lemma {:induction false} RingRoundOk(chunks: seq<Chunk>, call: ReduceCall, sizes: seq<nat>, t: nat)
    requires RingFits(chunks, call, sizes) && t < 2 * (|chunks| - 1)
    ensures RoundOk(RingRound(chunks, call, t), sizes)
  {
    var ranks := |chunks|;
    var round := RingRound(chunks, call, t);
    forall r | 0 <= r < ranks ensures OpOk(round[r], r, ranks, sizes[r]) && SendMet(round, r) && RecvMet(round, r) {
      RingOpOk(chunks, call, sizes, r, t);
      assert Back(Succ(r, ranks), t + 1, ranks) == Back(r, t, ranks);
      assert Back(Pred(r, ranks), t, ranks) == Back(r, t + 1, ranks);
    }
  }

  lemma {:induction false} RingRoundsOk(chunks: seq<Chunk>, call: ReduceCall, sizes: seq<nat>)
    requires RingFits(chunks, call, sizes)
    ensures RoundsOk(RingRounds(chunks, call), sizes)
  {
    forall t | 0 <= t < 2 * (|chunks| - 1) ensures RoundOk(RingRounds(chunks, call)[t], sizes) {
      RingRoundOk(chunks, call, sizes, t);
    }
  }

  // ----- what every rank holds after t steps

  function Forward(c: nat, j: nat, ranks: nat): (r: nat)
    requires c < ranks && j < ranks
    ensures r < ranks
  {
    if c + j < ranks then c + j else c + j - ranks
  }

  /** x(c+j) op (x(c+j-1) op (... (x(c+1) op x(c)))), ranks modulo the ring. */
  function RingTerm(c: nat, j: nat, ranks: nat): (t: Term)
    requires c < ranks && j < ranks
    ensures Over(t, ranks)
  {
    if j == 0 then Leaf(c) else Node(Leaf(Forward(c, j, ranks)), RingTerm(c, j - 1, ranks))
  }

  /** The contributions rank r holds in chunk c after t steps. */
  function Held(r: nat, c: nat, t: nat, ranks: nat): (h: Term)
    requires r < ranks && c < ranks && t <= 2 * (ranks - 1)
    ensures Over(h, ranks)
  {
    var d := Dist(r, c, ranks);
    if t <= ranks - 1 then if d <= t then RingTerm(c, d, ranks) else Leaf(r)
    else if d == ranks - 1 || d < t - (ranks - 1) then RingTerm(c, ranks - 1, ranks)
    else RingTerm(c, d, ranks)
  }

  lemma {:induction false} HeldSame(r: nat, c: nat, t: nat, ranks: nat)
    requires r < ranks && c < ranks && t < 2 * (ranks - 1) && c != Back(r, t + 1, ranks)
    ensures Held(r, c, t + 1, ranks) == Held(r, c, t, ranks)
  {
  }

  lemma {:induction false} HeldReduced(r: nat, t: nat, ranks: nat)
    requires r < ranks && t < ranks - 1
    ensures var c := Back(r, t + 1, ranks);
            Held(r, c, t + 1, ranks) == Node(Held(r, c, t, ranks), Held(Pred(r, ranks), c, t, ranks))
  {
    var c := Back(r, t + 1, ranks);
    assert Dist(r, c, ranks) == t + 1 && Dist(Pred(r, ranks), c, ranks) == t;
    assert Forward(c, t + 1, ranks) == r;
  }

  lemma {:induction false} HeldCopied(r: nat, t: nat, ranks: nat)
    requires r < ranks && ranks - 1 <= t < 2 * (ranks - 1)
    ensures var c := Back(r, t + 1, ranks);
            Held(r, c, t + 1, ranks) == Held(Pred(r, ranks), c, t, ranks)
  {
  }

  predicate HasData<T>(ms: seq<seq<T>>, dataAt: seq<nat>, i: nat) {
    |dataAt| == |ms| && forall r :: 0 <= r < |ms| ==> dataAt[r] + i < |ms[r]|
  }

  /** What the ranks contribute at index i. */
  function Column<T>(ms: seq<seq<T>>, dataAt: seq<nat>, i: nat): (xs: seq<T>)
    requires HasData(ms, dataAt, i)
    ensures |xs| == |ms| && forall r :: 0 <= r < |ms| ==> xs[r] == ms[r][dataAt[r] + i]
  {
    seq(|ms|, r requires 0 <= r < |ms| => ms[r][dataAt[r] + i])
  }

  lemma {:induction false} RingHasData<T>(chunks: seq<Chunk>, call: ReduceCall, ms: seq<seq<T>>, i: nat)
    requires RingFits(chunks, call, Sizes(ms)) && i < call.count
    ensures HasData(ms, call.dataAt, i)
  {
    forall r | 0 <= r < |ms| ensures call.dataAt[r] + i < |ms[r]| {
      assert BuffersFit(call, chunks[0].count, r, Sizes(ms)[r]);
    }
  }

  lemma {:induction false} SameSizesHasData<T>(ms: seq<seq<T>>, ms': seq<seq<T>>, dataAt: seq<nat>, i: nat)
    requires HasData(ms, dataAt, i) && Sizes(ms) == Sizes(ms')
    ensures HasData(ms', dataAt, i)
  {
    assert |Sizes(ms)| == |ms| && |Sizes(ms')| == |ms'|;
    assert forall r :: 0 <= r < |ms| ==> |ms'[r]| == Sizes(ms')[r] == |ms[r]|;
  }

  /** In step t rank r receives chunk `Back(r, t + 1)` from its predecessor, which sends it. */
  lemma {:induction false} RingStepShape(round: Round, chunks: seq<Chunk>, call: ReduceCall, t: nat, r: nat)
    requires IsRingRound(round, chunks, call, t) && r < |chunks|
    ensures var c := Back(r, t + 1, |chunks|);
            var n, at := chunks[c].count, call.dataAt[r] + chunks[c].offset;
            var q := Pred(r, |chunks|);
            && (n == 0 ==> round[r].recv.None? && round[r].fold.None?)
            && (n > 0 ==> round[q].send == Some(Transfer(r, Slice(call.dataAt[q] + chunks[c].offset, n))))
            && (n > 0 && t < |chunks| - 1 ==>
                  && round[r].recv == Some(Transfer(q, Slice(call.scratch[r].off, n)))
                  && round[r].fold == Some(Fold(at, call.scratch[r].off, n, call.op)))
            && (n > 0 && t >= |chunks| - 1 ==>
                  round[r].recv == Some(Transfer(q, Slice(at, n))) && round[r].fold.None?)
  {
    assert RunsRingOp(round, chunks, call, t, r) && RunsRingOp(round, chunks, call, t, Pred(r, |chunks|));
    assert Back(Pred(r, |chunks|), t, |chunks|) == Back(r, t + 1, |chunks|);
  }

  /** A step leaves alone every chunk but the one it receives. */
  lemma {:induction false} RingKeeps<T>(round: Round, chunks: seq<Chunk>, call: ReduceCall, f: (ReduceOp, T, T) -> T,
                                        ms: seq<seq<T>>, ms': seq<seq<T>>,
                     t: nat, r: nat, c: nat, i: nat)
    requires RingFits(chunks, call, Sizes(ms)) && t < 2 * (|chunks| - 1) && r < |ms|
    requires c < |chunks| && Holds(chunks[c], i) && HasData(ms, call.dataAt, i)
    requires IsRingRound(round, chunks, call, t) && IsStep(round, f, ms, ms')
    requires c != Back(r, t + 1, |chunks|)
    ensures |ms'[r]| == |ms[r]| && ms'[r][call.dataAt[r] + i] == ms[r][call.dataAt[r] + i]
  {
    var into := Back(r, t + 1, |chunks|);
    RingStepShape(round, chunks, call, t, r);
    assert BuffersFit(call, chunks[into].count, r, Sizes(ms)[r]);
    assert EndsBy(chunks, c, call.count);
    TilesDisjoint(chunks, call.count, c, into);
    RoundKeeps(round, f, ms, ms', r, call.dataAt[r] + i);
  }

  /** A reduce-scatter step combines the received chunk with the predecessor's. */
  lemma {:induction false} RingReduces<T>(round: Round, chunks: seq<Chunk>, call: ReduceCall, f: (ReduceOp, T, T) -> T,
                                          ms: seq<seq<T>>, ms': seq<seq<T>>,
                       t: nat, r: nat, c: nat, i: nat)
    requires RingFits(chunks, call, Sizes(ms)) && t < |chunks| - 1 && r < |ms|
    requires c == Back(r, t + 1, |chunks|) && Holds(chunks[c], i) && HasData(ms, call.dataAt, i)
    requires IsRingRound(round, chunks, call, t) && IsStep(round, f, ms, ms')
    ensures var q := Pred(r, |ms|);
            && |ms'[r]| == |ms[r]|
            && ms'[r][call.dataAt[r] + i] == f(call.op, ms[r][call.dataAt[r] + i], ms[q][call.dataAt[q] + i])
  {
    var q, n, off := Pred(r, |ms|), chunks[c].count, chunks[c].offset;
    RingStepShape(round, chunks, call, t, r);
    assert BuffersFit(call, chunks[c].count, r, Sizes(ms)[r]) && EndsBy(chunks, c, call.count);
    RoundReduces(round, f, ms, ms', r, q, Slice(call.scratch[r].off, n), Slice(call.dataAt[q] + off, n),
                 call.dataAt[r] + off, call.op, i - off);
  }

  /** An allgather step overwrites the received chunk with the predecessor's. */
  lemma {:induction false} RingCopies<T>(round: Round, chunks: seq<Chunk>, call: ReduceCall, f: (ReduceOp, T, T) -> T,
                                         ms: seq<seq<T>>, ms': seq<seq<T>>,
                      t: nat, r: nat, c: nat, i: nat)
    requires RingFits(chunks, call, Sizes(ms)) && |chunks| - 1 <= t < 2 * (|chunks| - 1) && r < |ms|
    requires c == Back(r, t + 1, |chunks|) && Holds(chunks[c], i) && HasData(ms, call.dataAt, i)
    requires IsRingRound(round, chunks, call, t) && IsStep(round, f, ms, ms')
    ensures var q := Pred(r, |ms|);
            |ms'[r]| == |ms[r]| && ms'[r][call.dataAt[r] + i] == ms[q][call.dataAt[q] + i]
  {
    var q, n, off := Pred(r, |ms|), chunks[c].count, chunks[c].offset;
    RingStepShape(round, chunks, call, t, r);
    RoundCopies(round, f, ms, ms', r, q, Slice(call.dataAt[r] + off, n), Slice(call.dataAt[q] + off, n), i - off);
  }

  /** In `mem`, rank r's copy of element i is the term `h` of the ranks' inputs `ms`. */
  ghost predicate Carries<T>(call: ReduceCall, f: (ReduceOp, T, T) -> T, ms: seq<seq<T>>, mem: seq<T>, r: nat, h: Term,
                             i: nat) {
    && r < |ms| && HasData(ms, call.dataAt, i) && Over(h, |ms|) && call.dataAt[r] + i < |mem|
    && mem[call.dataAt[r] + i] == Eval(f, call.op, h, Column(ms, call.dataAt, i))
  }

  lemma {:induction false} RingCarries<T>(round: Round, chunks: seq<Chunk>, call: ReduceCall, f: (ReduceOp, T, T) -> T,
                                          ms: seq<seq<T>>,
                       now: seq<seq<T>>, now': seq<seq<T>>, t: nat, r: nat, c: nat, i: nat)
    requires RingFits(chunks, call, Sizes(ms)) && Sizes(now) == Sizes(ms)
    requires t < 2 * (|chunks| - 1) && r < |ms| == |now| && c < |chunks| && Holds(chunks[c], i)
    requires IsRingRound(round, chunks, call, t) && IsStep(round, f, now, now')
    requires Carries(call, f, ms, now[r], r, Held(r, c, t, |chunks|), i)
    requires var q := Pred(r, |ms|); Carries(call, f, ms, now[q], q, Held(q, c, t, |chunks|), i)
    ensures Carries(call, f, ms, now'[r], r, Held(r, c, t + 1, |chunks|), i)
  {
    var ranks := |chunks|;
    SameSizesHasData(ms, now, call.dataAt, i);
    if c != Back(r, t + 1, ranks) {
      RingKeeps(round, chunks, call, f, now, now', t, r, c, i);
      HeldSame(r, c, t, ranks);
    } else if t < ranks - 1 {
      RingReduces(round, chunks, call, f, now, now', t, r, c, i);
      HeldReduced(r, t, ranks);
    } else {
      RingCopies(round, chunks, call, f, now, now', t, r, c, i);
      HeldCopied(r, t, ranks);
    }
  }

  lemma {:induction false} RingStart<T>(chunks: seq<Chunk>, call: ReduceCall, f: (ReduceOp, T, T) -> T, ms: seq<seq<T>>,
                                        r: nat, c: nat, i: nat)
    requires RingFits(chunks, call, Sizes(ms)) && r < |ms| && c < |chunks| && Holds(chunks[c], i)
    ensures Carries(call, f, ms, ms[r], r, Held(r, c, 0, |chunks|), i)
  {
    assert EndsBy(chunks, c, call.count);
    RingHasData(chunks, call, ms, i);
  }

  /** The reduce-scatter and allgather invariant: after t synchronous steps, element i of
      chunk c on rank r is exactly the term `Held(r, c, t)` of the ranks' inputs. */
  lemma {:induction false} RingInvariant<T>(rounds: seq<Round>, chunks: seq<Chunk>, call: ReduceCall,
                                            f: (ReduceOp, T, T) -> T,
                                            ms: seq<seq<T>>, tr: seq<seq<seq<T>>>, t: nat, r: nat, c: nat, i: nat)
    requires IsRing(rounds, chunks, call) && IsTrace(rounds, f, ms, tr)
    requires RingFits(chunks, call, Sizes(ms)) && t < |tr| && r < |ms| && c < |chunks| && Holds(chunks[c], i)
    ensures Carries(call, f, ms, tr[t][r], r, Held(r, c, t, |chunks|), i)
    decreases t
  {
    if t == 0 {
      RingStart(chunks, call, f, ms, r, c, i);
    } else {
      var n := t - 1;
      RingInvariant(rounds, chunks, call, f, ms, tr, n, r, c, i);
      RingInvariant(rounds, chunks, call, f, ms, tr, n, Pred(r, |chunks|), c, i);
      assert StepAt(rounds, f, tr, n) && IsRingRound(rounds[n], chunks, call, n);
      RingCarries(rounds[n], chunks, call, f, ms, tr[n], tr[t], n, r, c, i);
    }
  }

  // ----- the result

  /** The nested term x(c-1) op (x(c-2) op (... (x(c+1) op x(c)))) of chunk c. */
  function FullTerm(c: nat, ranks: nat): (t: Term)
    requires c < ranks
    ensures Over(t, ranks)
  {
    RingTerm(c, ranks - 1, ranks)
  }

  lemma {:induction false} HeldAtEnd(r: nat, c: nat, ranks: nat)
    requires r < ranks && c < ranks
    ensures Held(r, c, 2 * (ranks - 1), ranks) == FullTerm(c, ranks)
  {
  }

  lemma {:induction false} RingTermsDiffer(c: nat, j: nat, ranks: nat)
    requires c < ranks && j < ranks
    ensures RingTerm(c, j, ranks) == FullTerm(c, ranks) <==> j == ranks - 1
  {
    var v := Forward(c, ranks - 1, ranks);
    RingTermOccurs(c, j, ranks, v);
    RingTermOccurs(c, ranks - 1, ranks, v);
    DistForward(c, ranks - 1, ranks, v);
  }

  /** After the reduce-scatter phase rank r holds the full reduction of exactly one chunk, the
      one after its own number. */
  lemma {:induction false} ReduceScatterEnds(r: nat, c: nat, ranks: nat)
    requires r < ranks && c < ranks
    ensures Held(r, c, ranks - 1, ranks) == FullTerm(c, ranks) <==> c == Succ(r, ranks)
  {
    RingTermsDiffer(c, Dist(r, c, ranks), ranks);
  }

  /** Address k of rank r belongs neither to its data nor to the scratch elements in use. */
  predicate Untouched(call: ReduceCall, used: nat, r: nat, k: int)
    requires r < |call.dataAt| == |call.scratch|
  {
    !InSlice(k, Slice(call.dataAt[r], call.count)) && !InSlice(k, Slice(call.scratch[r].off, used))
  }

  ghost predicate KeptAt<T>(before: seq<T>, after: seq<T>, k: int) {
    0 <= k < |before| == |after| && after[k] == before[k]
  }

  ghost predicate FrameKept<T>(call: ReduceCall, used: nat, before: seq<seq<T>>, after: seq<seq<T>>) {
    && |call.dataAt| == |call.scratch| == |before| == |after|
    && forall r, k {:trigger KeptAt(before[r], after[r], k)} ::
         0 <= r < |before| && 0 <= k < |before[r]| && Untouched(call, used, r, k) ==> KeptAt(before[r], after[r], k)
  }

  ghost predicate RingOutcomeOn<T>(chunks: seq<Chunk>, used: nat, call: ReduceCall, f: (ReduceOp, T, T) -> T,
                                   before: seq<seq<T>>, after: seq<seq<T>>) {
    && |chunks| == |before| == |after| > 0 && Sizes(after) == Sizes(before)
    && var ranks := |before|;
    && (forall r, c, i {:trigger Carries(call, f, before, after[r], r, FullTerm(c, ranks), i)} ::
          0 <= r < ranks && 0 <= c < ranks && 0 <= i < call.count && Holds(chunks[c], i)
          ==> Carries(call, f, before, after[r], r, FullTerm(c, ranks), i))
    && FrameKept(call, used, before, after)
  }

  /** The scratch elements a ring needs: the largest chunk, or none on a single rank. */
  function RingScratch(count: nat, ranks: nat): nat
    requires ranks > 0
  {
    if ranks == 1 then 0 else Ceil(count, ranks)
  }

  /** With more than one rank that is the least size that holds every chunk, and so the least
      of which `ranks` pieces make up the whole. */
  lemma {:induction false} RingScratchExact(count: nat, ranks: nat)
    requires ranks > 1
    ensures forall c :: 0 <= c < ranks ==> Chunks(count, ranks)[c].count <= RingScratch(count, ranks)
    ensures exists c :: 0 <= c < ranks && Chunks(count, ranks)[c].count == RingScratch(count, ranks)
    ensures RingScratch(count, ranks) * ranks < count + ranks && count <= RingScratch(count, ranks) * ranks
  {
    forall c | 0 <= c < ranks ensures Chunks(count, ranks)[c].count <= RingScratch(count, ranks) {
      ChunksBalanced(count, ranks, 0, c);
    }
    assert Chunks(count, ranks)[0].count == RingScratch(count, ranks);
    var q, m := count / ranks, count % ranks;
    assert count == ranks * q + m;
    assert (q + 1) * ranks == ranks * q + ranks;
  }

  /** What a ring allreduce does: every element of chunk c becomes, on every rank, the same
      term, and nothing outside the data and `RingScratch` scratch elements changes. */
  ghost predicate RingOutcome<T>(call: ReduceCall, f: (ReduceOp, T, T) -> T, before: seq<seq<T>>, after: seq<seq<T>>) {
    |before| > 0
    && RingOutcomeOn(Chunks(call.count, |before|), RingScratch(call.count, |before|), call, f, before, after)
  }

  /** The caller's side of the contract, on the split the ring computes. */
  ghost predicate RingCallOk(call: ReduceCall, sizes: seq<nat>) {
    && |call.dataAt| == |call.scratch| == |sizes| > 0
    && forall r {:trigger BuffersFit(call, RingScratch(call.count, |sizes|), r, sizes[r])} ::
         0 <= r < |sizes| ==> BuffersFit(call, RingScratch(call.count, |sizes|), r, sizes[r])
  }

  lemma {:induction false} RingCallFits(chunks: seq<Chunk>, used: nat, call: ReduceCall, sizes: seq<nat>)
    requires RingCallOk(call, sizes) && |sizes| > 1 && chunks == Chunks(call.count, |sizes|)
    requires used == RingScratch(call.count, |sizes|)
    ensures RingFits(chunks, call, sizes) && forall c :: 0 <= c < |chunks| ==> chunks[c].count <= used
  {
    ChunksTile(call.count, |sizes|);
    forall c | 0 <= c < |chunks| ensures chunks[c].count <= used {
      ChunksBalanced(call.count, |sizes|, 0, c);
    }
    forall r, c | 0 <= r < |sizes| && 0 <= c < |chunks| ensures BuffersFit(call, chunks[c].count, r, sizes[r]) {
      assert BuffersFit(call, used, r, sizes[r]);
    }
  }

  lemma {:induction false} RingWrites(round: Round, chunks: seq<Chunk>, used: nat, call: ReduceCall, sizes: seq<nat>,
                                      t: nat, r: nat, k: nat)
    requires RingFits(chunks, call, sizes) && forall c :: 0 <= c < |chunks| ==> chunks[c].count <= used
    requires IsRingRound(round, chunks, call, t) && r < |chunks| && Untouched(call, used, r, k)
    ensures !Writes(round[r], k)
  {
    RingStepShape(round, chunks, call, t, r);
    var c := chunks[Back(r, t + 1, |chunks|)];
    assert c.count <= used && EndsBy(chunks, Back(r, t + 1, |chunks|), call.count);
  }

  lemma {:induction false} RingFrame<T>(rounds: seq<Round>, chunks: seq<Chunk>, used: nat, call: ReduceCall,
                                        f: (ReduceOp, T, T) -> T,
                     ms: seq<seq<T>>, tr: seq<seq<seq<T>>>, r: nat, k: nat)
    requires RingFits(chunks, call, Sizes(ms)) && forall c :: 0 <= c < |chunks| ==> chunks[c].count <= used
    requires IsRing(rounds, chunks, call) && IsTrace(rounds, f, ms, tr)
    requires r < |ms| && k < |ms[r]| && Untouched(call, used, r, k)
    ensures KeptAt(ms[r], tr[|rounds|][r], k)
  {
    forall t | 0 <= t < |rounds| ensures r < |rounds[t]| && !Writes(rounds[t][r], k) {
      assert IsRingRound(rounds[t], chunks, call, t);
      RingWrites(rounds[t], chunks, used, call, Sizes(ms), t, r, k);
    }
    TraceKeeps(rounds, f, ms, tr, |rounds|, r, k);
  }

  lemma {:induction false} RingTraceOutcome<T>(rounds: seq<Round>, chunks: seq<Chunk>, used: nat, call: ReduceCall,
                                               f: (ReduceOp, T, T) -> T,
                            ms: seq<seq<T>>, tr: seq<seq<seq<T>>>, after: seq<seq<T>>)
    requires RingFits(chunks, call, Sizes(ms)) && forall c :: 0 <= c < |chunks| ==> chunks[c].count <= used
    requires IsRing(rounds, chunks, call) && IsTrace(rounds, f, ms, tr) && after == tr[|rounds|]
    ensures RingOutcomeOn(chunks, used, call, f, ms, after)
  {
    var ranks := |ms|;
    forall r, c, i {:trigger Carries(call, f, ms, after[r], r, FullTerm(c, ranks), i)} |
      0 <= r < ranks && 0 <= c < ranks && 0 <= i < call.count && Holds(chunks[c], i)
      ensures Carries(call, f, ms, after[r], r, FullTerm(c, ranks), i)
    {
      RingInvariant(rounds, chunks, call, f, ms, tr, |rounds|, r, c, i);
      HeldAtEnd(r, c, ranks);
    }
    forall r, k {:trigger KeptAt(ms[r], after[r], k)} |
      0 <= r < ranks && 0 <= k < |ms[r]| && Untouched(call, used, r, k)
      ensures KeptAt(ms[r], after[r], k)
    {
      RingFrame(rounds, chunks, used, call, f, ms, tr, r, k);
    }
  }

  lemma {:induction false} RingSyncOn<T>(rounds: seq<Round>, chunks: seq<Chunk>, used: nat, call: ReduceCall,
                                         f: (ReduceOp, T, T) -> T, ms: seq<seq<T>>)
    requires RingFits(chunks, call, Sizes(ms)) && forall c :: 0 <= c < |chunks| ==> chunks[c].count <= used
    requires IsRing(rounds, chunks, call) && RoundsOk(rounds, Sizes(ms))
    ensures RingOutcomeOn(chunks, used, call, f, ms, Sync(rounds, f, ms))
  {
    var tr := TraceOf(rounds, f, ms);
    RingTraceOutcome(rounds, chunks, used, call, f, ms, tr, tr[|rounds|]);
  }

  /** The synchronous ring allreduce, for every operator whatsoever. */
  lemma {:induction false} RingSync<T>(chunks: seq<Chunk>, call: ReduceCall, f: (ReduceOp, T, T) -> T, ms: seq<seq<T>>)
    requires RingCallOk(call, Sizes(ms)) && chunks == Chunks(call.count, |ms|)
    ensures RoundsOk(RingRounds(chunks, call), Sizes(ms))
    ensures RingOutcome(call, f, ms, Sync(RingRounds(chunks, call), f, ms))
  {
    RingCallRoundsOk(chunks, call, Sizes(ms));
    if |ms| == 1 {
      RingAlone(chunks, call, f, ms);
    } else {
      RingCallFits(chunks, RingScratch(call.count, |ms|), call, Sizes(ms));
      RingRoundsAreRing(chunks, call);
      RingSyncOn(RingRounds(chunks, call), chunks, RingScratch(call.count, |ms|), call, f, ms);
    }
  }

  lemma {:induction false} RingCallRoundsOk(chunks: seq<Chunk>, call: ReduceCall, sizes: seq<nat>)
    requires RingCallOk(call, sizes) && chunks == Chunks(call.count, |sizes|)
    ensures RoundsOk(RingRounds(chunks, call), sizes)
  {
    if |sizes| > 1 {
      RingCallFits(chunks, RingScratch(call.count, |sizes|), call, sizes);
      RingRoundsOk(chunks, call, sizes);
    }
  }

  /** A single rank already holds the answer. */
  lemma {:induction false} RingAlone<T>(chunks: seq<Chunk>, call: ReduceCall, f: (ReduceOp, T, T) -> T, ms: seq<seq<T>>)
    requires RingCallOk(call, Sizes(ms)) && |ms| == 1 && chunks == Chunks(call.count, 1)
    ensures RingOutcomeOn(chunks, 0, call, f, ms, ms)
  {
    assert BuffersFit(call, RingScratch(call.count, |Sizes(ms)|), 0, Sizes(ms)[0]);
    forall i | 0 <= i < call.count ensures Carries(call, f, ms, ms[0], 0, FullTerm(0, 1), i) {
      assert HasData(ms, call.dataAt, i);
    }
  }

  lemma {:induction false} DistForward(c: nat, j: nat, ranks: nat, v: nat)
    requires c < ranks && j < ranks
    ensures v == Forward(c, j, ranks) <==> v < ranks && Dist(v, c, ranks) == j
  {
  }

  lemma {:induction false} RingTermOccurs(c: nat, j: nat, ranks: nat, v: nat)
    requires c < ranks && j < ranks
    ensures Occurs(RingTerm(c, j, ranks), v) == if v < ranks && Dist(v, c, ranks) <= j then 1 else 0
  {
    DistForward(c, j, ranks, v);
    if j > 0 {
      RingTermOccurs(c, j - 1, ranks, v);
    }
  }

  /** The ring counts every rank's contribution exactly once. */
  lemma {:induction false} FullTermCountsOnce(c: nat, ranks: nat)
    requires c < ranks
    ensures CountsOnce(FullTerm(c, ranks), ranks)
  {
    forall v: nat ensures Occurs(FullTerm(c, ranks), v) == if v < ranks then 1 else 0 {
      RingTermOccurs(c, ranks - 1, ranks, v);
    }
  }
}
