/**
 The synchronous reading of a program, in which every rank performs round t at the
 same instant, and the proof that every asynchronous run of a matched program is
 indistinguishable from it, rank by rank.
 */
module Lockstep {
  import opened Base
  import opened Transport
  import opened Discipline

  // ----- matched programs

  /** What a call to the transport demands of rank r: a live peer, slices inside the
      registered memory, and a send slice the concurrent receive does not overwrite. */
  predicate OpOk(op: Op, r: nat, ranks: nat, size: nat) {
    && (op.recv.Some? ==> op.recv.value.peer < ranks && op.recv.value.peer != r && Within(op.recv.value.slice, size))
    && (op.send.Some? ==> op.send.value.peer < ranks && op.send.value.peer != r && Within(op.send.value.slice, size))
    && (op.recv.Some? && op.send.Some? ==> Disjoint(op.recv.value.slice, op.send.value.slice))
    && FoldInRange(op.fold, size)
  }

  /** Rank s's send meets a receive of the same length its peer posts in the same round. */
  predicate SendMet(round: Round, s: nat)
    requires s < |round|
  {
    round[s].send.Some? ==>
      && var x := round[s].send.value;
      && x.peer < |round| && round[x.peer].recv.Some?
      && round[x.peer].recv.value.peer == s && round[x.peer].recv.value.slice.len == x.slice.len
  }

  predicate RecvMet(round: Round, r: nat)
    requires r < |round|
  {
    round[r].recv.Some? ==>
      && var x := round[r].recv.value;
      && x.peer < |round| && round[x.peer].send.Some?
      && round[x.peer].send.value.peer == r && round[x.peer].send.value.slice.len == x.slice.len
  }

  function Sizes<T>(ms: seq<seq<T>>): (ns: seq<nat>)
    ensures |ns| == |ms| && forall r :: 0 <= r < |ms| ==> ns[r] == |ms[r]|
  {
    seq(|ms|, r requires 0 <= r < |ms| => |ms[r]|)
  }

  predicate RoundOk(round: Round, sizes: seq<nat>) {
    && |round| == |sizes|
    && (forall r :: 0 <= r < |round| ==> OpOk(round[r], r, |round|, sizes[r]))
    && (forall r :: 0 <= r < |round| ==> SendMet(round, r))
    && (forall r :: 0 <= r < |round| ==> RecvMet(round, r))
  }

  predicate RoundsOk(rounds: seq<Round>, sizes: seq<nat>) {
    forall t :: 0 <= t < |rounds| ==> RoundOk(rounds[t], sizes)
  }

  predicate Matched<T>(cfg: Config<T>) {
    RoundsOk(cfg.rounds, Sizes(cfg.init))
  }

  // ----- the synchronous semantics

  /** Rank r's memory once its round's message has landed, if it expects one. */
  function Landed<T>(round: Round, ms: seq<seq<T>>, r: nat): (mem: seq<T>)
    requires RoundOk(round, Sizes(ms)) && r < |ms|
    ensures |mem| == |ms[r]|
  {
    assert OpOk(round[r], r, |round|, |ms[r]|) && RecvMet(round, r);
    match round[r].recv
    case None => ms[r]
    case Some(x) =>
      assert OpOk(round[x.peer], x.peer, |round|, |ms[x.peer]|);
      Write(ms[r], x.slice.off, Read(ms[x.peer], round[x.peer].send.value.slice))
  }

  /** All ranks perform one round together: every message lands, then every rank reduces. */
  function SyncRound<T>(round: Round, f: (ReduceOp, T, T) -> T, ms: seq<seq<T>>): (ms': seq<seq<T>>)
    requires RoundOk(round, Sizes(ms))
    ensures |ms'| == |ms| && Sizes(ms') == Sizes(ms)
  {
    seq(|ms|, r requires 0 <= r < |ms| => Reduced(round, f, ms, r))
  }

  function Reduced<T>(round: Round, f: (ReduceOp, T, T) -> T, ms: seq<seq<T>>, r: nat): (mem: seq<T>)
    requires RoundOk(round, Sizes(ms)) && r < |ms|
    ensures |mem| == |ms[r]|
  {
    assert OpOk(round[r], r, |round|, |ms[r]|);
    FoldMem(f, round[r].fold, Landed(round, ms, r))
  }

  function Sync<T>(rounds: seq<Round>, f: (ReduceOp, T, T) -> T, ms: seq<seq<T>>): (ms': seq<seq<T>>)
    requires RoundsOk(rounds, Sizes(ms))
    ensures |ms'| == |ms| && Sizes(ms') == Sizes(ms)
  {
    if rounds == [] then ms
    else SyncRound(rounds[|rounds| - 1], f, Sync(rounds[..|rounds| - 1], f, ms))
  }

  /** Running one program after another is running their concatenation. */
  lemma {:induction false} SyncConcat<T>(a: seq<Round>, b: seq<Round>, f: (ReduceOp, T, T) -> T, ms: seq<seq<T>>)
    requires RoundsOk(a, Sizes(ms)) && RoundsOk(b, Sizes(ms))
    ensures RoundsOk(a + b, Sizes(ms)) && Sync(a + b, f, ms) == Sync(b, f, Sync(a, f, ms))
  {
    if b == [] {
      assert a + b == a;
    } else {
      var n := |b| - 1;
      SyncConcat(a, b[..n], f, ms);
      assert (a + b)[..|a + b| - 1] == a + b[..n];
    }
  }

  function SyncAt<T>(cfg: Config<T>, t: nat): (ms: seq<seq<T>>)
    requires Matched(cfg) && t <= |cfg.rounds|
    ensures |ms| == |cfg.init| && Sizes(ms) == Sizes(cfg.init)
  {
    Sync(cfg.rounds[..t], cfg.f, cfg.init)
  }

  lemma {:induction false} SyncAtStep<T>(cfg: Config<T>, t: nat)
    requires Matched(cfg) && t < |cfg.rounds|
    ensures SyncAt(cfg, t + 1) == SyncRound(cfg.rounds[t], cfg.f, SyncAt(cfg, t))
  {
    assert cfg.rounds[..t + 1][..t] == cfg.rounds[..t];
  }

  // ----- synchronous executions, round by round and element by element

  ghost predicate RankStep<T>(round: Round, f: (ReduceOp, T, T) -> T, ms: seq<seq<T>>, ms': seq<seq<T>>, r: nat)
    requires RoundOk(round, Sizes(ms)) && r < |ms| == |ms'|
  {
    ms'[r] == Reduced(round, f, ms, r)
  }

  /** One synchronous round leads from the memories `ms` to `ms'`. */
  ghost predicate IsStep<T>(round: Round, f: (ReduceOp, T, T) -> T, ms: seq<seq<T>>, ms': seq<seq<T>>) {
    && RoundOk(round, Sizes(ms)) && |ms'| == |ms| && Sizes(ms') == Sizes(ms)
    && forall r {:trigger RankStep(round, f, ms, ms', r)} :: 0 <= r < |ms| ==> RankStep(round, f, ms, ms', r)
  }

  /** `tr[t]` holds the memories after t rounds. */
  ghost predicate IsTrace<T>(rounds: seq<Round>, f: (ReduceOp, T, T) -> T, ms: seq<seq<T>>, tr: seq<seq<seq<T>>>) {
    && |tr| == |rounds| + 1 && tr[0] == ms
    && (forall t :: 0 <= t < |tr| ==> |tr[t]| == |ms| && Sizes(tr[t]) == Sizes(ms))
    && forall t {:trigger StepAt(rounds, f, tr, t)} :: 0 <= t < |rounds| ==> StepAt(rounds, f, tr, t)
  }

  ghost predicate StepAt<T>(rounds: seq<Round>, f: (ReduceOp, T, T) -> T, tr: seq<seq<seq<T>>>, t: nat)
    requires t < |rounds| && |tr| == |rounds| + 1
  {
    IsStep(rounds[t], f, tr[t], tr[t + 1])
  }

  /** The synchronous result is where the execution ends. */
  lemma {:induction false} TraceOf<T>(rounds: seq<Round>, f: (ReduceOp, T, T) -> T,
                                      ms: seq<seq<T>>) returns (tr: seq<seq<seq<T>>>)
    requires RoundsOk(rounds, Sizes(ms))
    ensures IsTrace(rounds, f, ms, tr) && tr[|rounds|] == Sync(rounds, f, ms)
  {
    if rounds == [] {
      tr := [ms];
    } else {
      var n := |rounds| - 1;
      var before := TraceOf(rounds[..n], f, ms);
      tr := before + [Sync(rounds, f, ms)];
      forall t | 0 <= t < |rounds| ensures StepAt(rounds, f, tr, t) {
        if t < n {
          assert StepAt(rounds[..n], f, before, t);
        }
      }
    }
  }

  /** There is only one synchronous execution. */
  lemma {:induction false} TraceAt<T>(rounds: seq<Round>, f: (ReduceOp, T, T) -> T, ms: seq<seq<T>>,
                                      tr: seq<seq<seq<T>>>, t: nat)
    requires RoundsOk(rounds, Sizes(ms)) && IsTrace(rounds, f, ms, tr) && t <= |rounds|
    ensures tr[t] == Sync(rounds[..t], f, ms)
  {
    if t > 0 {
      TraceAt(rounds, f, ms, tr, t - 1);
      assert rounds[..t][..t - 1] == rounds[..t - 1];
      assert StepAt(rounds, f, tr, t - 1);
      StepIsRound(rounds[t - 1], f, tr[t - 1], tr[t]);
    }
  }

  lemma {:induction false} StepIsRound<T>(round: Round, f: (ReduceOp, T, T) -> T, ms: seq<seq<T>>, ms': seq<seq<T>>)
    requires IsStep(round, f, ms, ms')
    ensures ms' == SyncRound(round, f, ms)
  {
    forall r | 0 <= r < |ms| ensures ms'[r] == SyncRound(round, f, ms)[r] {
      assert RankStep(round, f, ms, ms', r);
    }
  }

  /** The addresses an operation may write. */
  predicate Writes(op: Op, k: int) {
    || (op.recv.Some? && InSlice(k, op.recv.value.slice))
    || FoldsInto(op.fold, k)
  }

  lemma {:induction false} LandedKeeps<T>(round: Round, ms: seq<seq<T>>, r: nat, k: nat)
    requires RoundOk(round, Sizes(ms)) && r < |ms| && k < |ms[r]|
    requires round[r].recv.None? || !InSlice(k, round[r].recv.value.slice)
    ensures Landed(round, ms, r)[k] == ms[r][k]
  {
    assert RecvMet(round, r);
    if round[r].recv.Some? {
      var x := round[r].recv.value;
      LandedIs(round, ms, r, x.peer, x.slice, round[x.peer].send.value.slice);
      WriteElement(ms[r], x.slice.off, Read(ms[x.peer], round[x.peer].send.value.slice), k);
    }
  }

  /** An address the round does not write keeps its element. */
  lemma {:induction false} RoundKeeps<T>(round: Round, f: (ReduceOp, T, T) -> T, ms: seq<seq<T>>, ms': seq<seq<T>>,
                                         r: nat, k: nat)
    requires IsStep(round, f, ms, ms') && r < |ms| && k < |ms[r]| && !Writes(round[r], k)
    ensures |ms'[r]| == |ms[r]| && ms'[r][k] == ms[r][k]
  {
    assert RankStep(round, f, ms, ms', r);
    assert OpOk(round[r], r, |round|, |ms[r]|);
    LandedKeeps(round, ms, r, k);
    if round[r].fold.Some? {
      FoldNKeeps(f, round[r].fold.value, Landed(round, ms, r), round[r].fold.value.len, k);
    }
  }

  lemma {:induction false} LandedIs<T>(round: Round, ms: seq<seq<T>>, r: nat, q: nat, into: Slice, from: Slice)
    requires RoundOk(round, Sizes(ms)) && r < |ms| && q < |ms|
    requires round[r].recv == Some(Transfer(q, into)) && round[q].send == Some(Transfer(r, from))
    ensures from.len == into.len && Within(into, |ms[r]|) && Within(from, |ms[q]|)
    ensures Landed(round, ms, r) == Write(ms[r], into.off, Read(ms[q], from))
  {
    assert RecvMet(round, r);
    assert OpOk(round[r], r, |round|, |ms[r]|);
    assert OpOk(round[q], q, |round|, |ms[q]|);
  }

  lemma {:induction false} LandedCopies<T>(round: Round, ms: seq<seq<T>>, r: nat, q: nat, into: Slice, from: Slice,
                                           k: nat)
    requires RoundOk(round, Sizes(ms)) && r < |ms| && q < |ms| && k < into.len
    requires round[r].recv == Some(Transfer(q, into)) && round[q].send == Some(Transfer(r, from))
    ensures from.len == into.len && Within(into, |ms[r]|) && Within(from, |ms[q]|)
    ensures Landed(round, ms, r)[into.off + k] == ms[q][from.off + k]
  {
    LandedIs(round, ms, r, q, into, from);
    WriteElement(ms[r], into.off, Read(ms[q], from), into.off + k);
  }

  /** A round that receives straight into place copies the peer's element. */
  lemma {:induction false} RoundCopies<T>(round: Round, f: (ReduceOp, T, T) -> T, ms: seq<seq<T>>, ms': seq<seq<T>>,
                       r: nat, q: nat, into: Slice, from: Slice, k: nat)
    requires IsStep(round, f, ms, ms') && r < |ms| && q < |ms| && k < into.len
    requires round[r].recv == Some(Transfer(q, into)) && round[q].send == Some(Transfer(r, from))
    requires round[r].fold.None?
    ensures from.len == into.len && Within(into, |ms[r]|) && Within(from, |ms[q]|)
    ensures |ms'[r]| == |ms[r]| && ms'[r][into.off + k] == ms[q][from.off + k]
  {
    assert RankStep(round, f, ms, ms', r);
    LandedCopies(round, ms, r, q, into, from, k);
  }

  /** What a rank about to reduce finds at position k of its destination and of its scratch
      buffer: its own element and its peer's. */
  lemma {:induction false} ReduceOperands<T>(round: Round, ms: seq<seq<T>>, r: nat, q: nat,
                                             into: Slice, from: Slice, dst: nat, k: nat)
    requires RoundOk(round, Sizes(ms)) && r < |ms| && q < |ms| && k < into.len && dst + into.len <= |ms[r]|
    requires round[r].recv == Some(Transfer(q, into)) && round[q].send == Some(Transfer(r, from))
    requires Disjoint(into, Slice(dst, into.len))
    ensures from.len == into.len && Within(into, |ms[r]|) && Within(from, |ms[q]|)
    ensures var mem := Landed(round, ms, r);
            mem[dst + k] == ms[r][dst + k] && mem[into.off + k] == ms[q][from.off + k]
  {
    LandedCopies(round, ms, r, q, into, from, k);
    assert !InSlice(dst + k, into);
    LandedKeeps(round, ms, r, dst + k);
  }

  lemma {:induction false} ReducedElement<T>(round: Round, f: (ReduceOp, T, T) -> T, ms: seq<seq<T>>, r: nat, x: Fold,
                                             k: nat)
    requires RoundOk(round, Sizes(ms)) && r < |ms| && round[r].fold == Some(x) && k < x.len
    requires Disjoint(Slice(x.dst, x.len), Slice(x.src, x.len))
    ensures x.dst + x.len <= |ms[r]| && x.src + x.len <= |ms[r]|
    ensures var landed := Landed(round, ms, r);
            Reduced(round, f, ms, r)[x.dst + k] == f(x.op, landed[x.dst + k], landed[x.src + k])
  {
    assert OpOk(round[r], r, |round|, |ms[r]|);
    FoldNElement(f, x, Landed(round, ms, r), x.len, x.dst + k);
  }

  /** A round that receives into scratch and reduces combines both ranks' elements. */
  lemma {:induction false} RoundReduces<T>(round: Round, f: (ReduceOp, T, T) -> T, ms: seq<seq<T>>, ms': seq<seq<T>>,
                        r: nat, q: nat, into: Slice, from: Slice, dst: nat, op: ReduceOp, k: nat)
    requires IsStep(round, f, ms, ms') && r < |ms| && q < |ms| && k < into.len
    requires round[r].recv == Some(Transfer(q, into)) && round[q].send == Some(Transfer(r, from))
    requires round[r].fold == Some(Fold(dst, into.off, into.len, op)) && Disjoint(into, Slice(dst, into.len))
    ensures from.len == into.len && dst + into.len <= |ms[r]| && Within(from, |ms[q]|)
    ensures |ms'[r]| == |ms[r]| && ms'[r][dst + k] == f(op, ms[r][dst + k], ms[q][from.off + k])
  {
    assert RankStep(round, f, ms, ms', r);
    ReducedElement(round, f, ms, r, Fold(dst, into.off, into.len, op), k);
    LandedCopies(round, ms, r, q, into, from, k);
    assert !InSlice(dst + k, into);
    LandedKeeps(round, ms, r, dst + k);
  }

  /** An address no round writes keeps its element throughout. */
  lemma {:induction false} TraceKeeps<T>(rounds: seq<Round>, f: (ReduceOp, T, T) -> T, ms: seq<seq<T>>,
                                         tr: seq<seq<seq<T>>>, t: nat, r: nat, k: nat)
    requires IsTrace(rounds, f, ms, tr) && t < |tr| && r < |ms| && k < |ms[r]|
    requires forall u :: 0 <= u < |rounds| ==> r < |rounds[u]| && !Writes(rounds[u][r], k)
    ensures |tr[t][r]| == |ms[r]| && tr[t][r][k] == ms[r][k]
  {
    if t > 0 {
      TraceKeeps(rounds, f, ms, tr, t - 1, r, k);
      assert StepAt(rounds, f, tr, t - 1);
      RoundKeeps(rounds[t - 1], f, tr[t - 1], tr[t], r, k);
    }
  }

  // ----- the invariant

  /** Rank r, whatever the others do, is where the synchronous program would have it. */
  ghost predicate Tracks<T>(cfg: Config<T>, rk: Rank<T>, r: nat)
    requires Matched(cfg) && r < |cfg.init|
  {
    && !rk.failed && QueueShape(cfg, rk, r)
    && (rk.round < |cfg.rounds| ==>
          && (rk.rcq != [] ==> rk.rcq[0].ok && rk.rcq[0].len == cfg.rounds[rk.round][r].recv.value.slice.len)
          && (rk.scq != [] ==> rk.scq[0].ok))
    && rk.mem == if rk.round < |cfg.rounds| && (rk.pc.Reduce? || rk.rcq != [])
                 then Landed(cfg.rounds[rk.round], SyncAt(cfg, rk.round), r)
                 else SyncAt(cfg, rk.round)[r]
  }

  /** The message of round t, if rank rk sends one, has reached its receiver. */
  predicate Sent<T>(rk: Rank<T>, t: nat) {
    || rk.round > t
    || (rk.round == t && (rk.pc.WaitRecv? || rk.pc.Reduce? || rk.scq != [] || (rk.sq != [] && rk.sq[0].accepted)))
  }

  predicate Arrived<T>(rk: Rank<T>, t: nat) {
    rk.round > t || (rk.round == t && (rk.pc.Reduce? || rk.rcq != []))
  }

  /** Sender and receiver agree, round by round, on what has been delivered. */
  ghost predicate Agree<T>(cfg: Config<T>, st: State<T>)
    requires Matched(cfg) && |st| == |cfg.init|
  {
    forall s, t {:trigger Sent(st[s], t)} :: 0 <= s < |st| && 0 <= t < |cfg.rounds| && cfg.rounds[t][s].send.Some? ==>
      && cfg.rounds[t][s].send.value.peer < |st|
      && (Sent(st[s], t) <==> Arrived(st[cfg.rounds[t][s].send.value.peer], t))
  }

  ghost predicate Inv<T>(cfg: Config<T>, st: State<T>) {
    && Matched(cfg) && |st| == |cfg.init|
    && (forall r :: 0 <= r < |st| ==> Tracks(cfg, st[r], r))
    && Agree(cfg, st)
  }

  lemma {:induction false} InitInv<T>(cfg: Config<T>)
    requires Matched(cfg)
    ensures Inv(cfg, Init(cfg))
  {
    var st := Init(cfg);
    assert SyncAt(cfg, 0) == cfg.init;
    forall s, t {:trigger Sent(st[s], t)} | 0 <= s < |st| && 0 <= t < |cfg.rounds| && cfg.rounds[t][s].send.Some?
      ensures cfg.rounds[t][s].send.value.peer < |st|
      ensures Sent(st[s], t) <==> Arrived(st[cfg.rounds[t][s].send.value.peer], t)
    {
      assert SendMet(cfg.rounds[t], s);
    }
  }

  ghost predicate SameSent<T>(cfg: Config<T>, r: nat, rk: Rank<T>, rk': Rank<T>)
    requires Shaped(cfg) && r < |cfg.init|
  {
    forall t :: 0 <= t < |cfg.rounds| && cfg.rounds[t][r].send.Some? ==> Sent(rk', t) == Sent(rk, t)
  }

  ghost predicate SameArrived<T>(cfg: Config<T>, r: nat, rk: Rank<T>, rk': Rank<T>)
    requires Shaped(cfg) && r < |cfg.init|
  {
    forall t :: 0 <= t < |cfg.rounds| && cfg.rounds[t][r].recv.Some? ==> Arrived(rk', t) == Arrived(rk, t)
  }

  lemma {:induction false} AdvanceFlags<T>(cfg: Config<T>, rk: Rank<T>, r: nat)
    requires Shaped(cfg) && r < |cfg.init| && QueueShape(cfg, rk, r) && Ready(cfg, rk, r)
    ensures var rk' := Advance(cfg.f, cfg.rounds[rk.round][r], rk);
            !rk'.failed ==> SameSent(cfg, r, rk, rk') && SameArrived(cfg, r, rk, rk')
  {
  }

  lemma {:induction false} AdvanceTracks<T>(cfg: Config<T>, rk: Rank<T>, r: nat)
    requires Matched(cfg) && r < |cfg.init| && Tracks(cfg, rk, r) && Ready(cfg, rk, r)
    ensures Tracks(cfg, Advance(cfg.f, cfg.rounds[rk.round][r], rk), r)
  {
    AdvanceKeepsShape(cfg, rk, r);
    if rk.pc.Reduce? {
      SyncAtStep(cfg, rk.round);
    }
  }

  /** A step of one rank that delivers nothing keeps both sides in agreement. */
  lemma {:induction false} AgreeUpdate<T>(cfg: Config<T>, st: State<T>, r: nat, rk': Rank<T>)
    requires Matched(cfg) && |st| == |cfg.init| && Agree(cfg, st) && r < |st|
    requires SameSent(cfg, r, st[r], rk') && SameArrived(cfg, r, st[r], rk')
    ensures Agree(cfg, st[r := rk'])
  {
    var st' := st[r := rk'];
    forall s, t {:trigger Sent(st'[s], t)} | 0 <= s < |st| && 0 <= t < |cfg.rounds| && cfg.rounds[t][s].send.Some?
      ensures cfg.rounds[t][s].send.value.peer < |st|
      ensures Sent(st'[s], t) <==> Arrived(st'[cfg.rounds[t][s].send.value.peer], t)
    {
      assert Sent(st[s], t) || !Sent(st[s], t);
      assert SendMet(cfg.rounds[t], s);
    }
  }

  /** Moving one message from "in flight" to "delivered" on both sides does too. */
  lemma {:induction false} AgreeDeliver<T>(cfg: Config<T>, st: State<T>, s: nat, r: nat, n: nat, sk: Rank<T>,
                                           rk: Rank<T>)
    requires Matched(cfg) && |st| == |cfg.init| && Agree(cfg, st)
    requires s < |st| && r < |st| && s != r && n < |cfg.rounds|
    requires cfg.rounds[n][s].send.Some? && cfg.rounds[n][s].send.value.peer == r
    requires forall t :: 0 <= t < |cfg.rounds| ==> Sent(sk, t) == (Sent(st[s], t) || t == n)
    requires forall t :: 0 <= t < |cfg.rounds| ==> Arrived(rk, t) == (Arrived(st[r], t) || t == n)
    requires SameArrived(cfg, s, st[s], sk) && SameSent(cfg, r, st[r], rk)
    ensures Agree(cfg, st[s := sk][r := rk])
  {
    var st' := st[s := sk][r := rk];
    assert SendMet(cfg.rounds[n], s);
    forall q, t {:trigger Sent(st'[q], t)} | 0 <= q < |st| && 0 <= t < |cfg.rounds| && cfg.rounds[t][q].send.Some?
      ensures cfg.rounds[t][q].send.value.peer < |st|
      ensures Sent(st'[q], t) <==> Arrived(st'[cfg.rounds[t][q].send.value.peer], t)
    {
      assert Sent(st[q], t) || !Sent(st[q], t);
      assert SendMet(cfg.rounds[t], q);
    }
  }

  lemma {:induction false} LocalKeepsInv<T>(cfg: Config<T>, st: State<T>, r: nat)
    requires Inv(cfg, st) && Enabled(cfg, st, Local(r))
    ensures Inv(cfg, Apply(cfg, st, Local(r)))
  {
    assert Tracks(cfg, st[r], r);
    AdvanceTracks(cfg, st[r], r);
    AdvanceFlags(cfg, st[r], r);
    AgreeUpdate(cfg, st, r, Advance(cfg.f, cfg.rounds[st[r].round][r], st[r]));
  }

  lemma {:induction false} AckTracks<T>(cfg: Config<T>, rk: Rank<T>, s: nat, i: nat)
    requires Matched(cfg) && s < |cfg.init| && Tracks(cfg, rk, s) && NextToAck(rk.sq, i)
    ensures var rk' := Acked(rk, i);
            Tracks(cfg, rk', s) && SameSent(cfg, s, rk, rk') && SameArrived(cfg, s, rk, rk')
  {
  }

  lemma {:induction false} AckKeepsInv<T>(cfg: Config<T>, st: State<T>, s: nat, i: nat)
    requires Inv(cfg, st) && Enabled(cfg, st, Ack(s, i))
    ensures Inv(cfg, Apply(cfg, st, Ack(s, i)))
  {
    assert Tracks(cfg, st[s], s);
    AckTracks(cfg, st[s], s, i);
    AgreeUpdate(cfg, st, s, Acked(st[s], i));
  }

  /** First-in first-out matching: the message and the receive it fills belong to the
      same round, however far apart the two ranks are otherwise. */
  lemma {:induction false} DeliverySameRound<T>(cfg: Config<T>, st: State<T>, s: nat, i: nat, r: nat, j: nat)
    requires Inv(cfg, st) && Enabled(cfg, st, Deliver(s, i, r, j))
    ensures st[s].round == st[r].round < |cfg.rounds| && i == 0 && j == 0
    ensures var round := cfg.rounds[st[s].round];
            && round[s].send.Some? && round[r].recv.Some?
            && round[s].send.value.peer == r && round[r].recv.value.peer == s
            && st[s].sq == [SendWr(r, round[s].send.value.slice, st[s].round, false)]
            && st[r].rq == [RecvWr(s, round[r].recv.value.slice, st[s].round)]
  {
    assert Tracks(cfg, st[s], s) && Tracks(cfg, st[r], r);
    var ts, tr := st[s].round, st[r].round;
    assert !Sent(st[s], ts) && !Arrived(st[r], tr);
    assert RecvMet(cfg.rounds[tr], r);
    assert !Sent(st[s], tr);
  }

  /** The sender's slice still holds what it held when the round began. */
  lemma {:induction false} SendSliceIntact<T>(cfg: Config<T>, st: State<T>, s: nat)
    requires Inv(cfg, st) && s < |st| && st[s].round < |cfg.rounds| && st[s].pc.WaitSend?
    requires cfg.rounds[st[s].round][s].send.Some?
    ensures var slice := cfg.rounds[st[s].round][s].send.value.slice;
            && Within(slice, |st[s].mem|) && Within(slice, |SyncAt(cfg, st[s].round)[s]|)
            && Read(st[s].mem, slice) == Read(SyncAt(cfg, st[s].round)[s], slice)
  {
    assert Tracks(cfg, st[s], s);
    var t := st[s].round;
    var round := cfg.rounds[t];
    var ms := SyncAt(cfg, t);
    assert OpOk(round[s], s, |round|, |ms[s]|) && RecvMet(round, s);
    if round[s].recv.Some? {
      var x := round[s].recv.value;
      assert OpOk(round[x.peer], x.peer, |round|, |ms[x.peer]|);
      var payload := Read(ms[x.peer], round[x.peer].send.value.slice);
      ReadAfterWrite(ms[s], x.slice.off, payload, round[s].send.value.slice);
    }
  }

  lemma {:induction false} SenderTracks<T>(cfg: Config<T>, rk: Rank<T>, s: nat)
    requires Matched(cfg) && s < |cfg.init| && Tracks(cfg, rk, s) && rk.sq != []
    ensures Tracks(cfg, Sender(rk, 0, true), s)
    ensures forall t :: 0 <= t < |cfg.rounds| ==> Sent(Sender(rk, 0, true), t) == (Sent(rk, t) || t == rk.round)
    ensures SameArrived(cfg, s, rk, Sender(rk, 0, true))
  {
  }

  lemma {:induction false} ReceiverTracks<T>(cfg: Config<T>, rk: Rank<T>, r: nat, payload: seq<T>)
    requires Matched(cfg) && r < |cfg.init| && Tracks(cfg, rk, r)
    requires rk.rq != [] && Within(rk.rq[0].slice, |rk.mem|) && |payload| == rk.rq[0].slice.len
    requires Write(rk.mem, rk.rq[0].slice.off, payload) == Landed(cfg.rounds[rk.round], SyncAt(cfg, rk.round), r)
    ensures Tracks(cfg, Receiver(rk, 0, payload), r)
    ensures forall t ::
              0 <= t < |cfg.rounds| ==> Arrived(Receiver(rk, 0, payload), t) == (Arrived(rk, t) || t == rk.round)
    ensures SameSent(cfg, r, rk, Receiver(rk, 0, payload))
  {
  }

  /** What is delivered is the slice the synchronous round would have transferred. */
  lemma {:induction false} PayloadLands<T>(cfg: Config<T>, st: State<T>, s: nat, i: nat, r: nat, j: nat)
    requires Inv(cfg, st) && Enabled(cfg, st, Deliver(s, i, r, j))
    ensures i == j == 0 && st[s].round == st[r].round < |cfg.rounds|
    ensures var payload := Read(st[s].mem, st[s].sq[0].slice);
            && |payload| == st[r].rq[0].slice.len
            && Write(st[r].mem, st[r].rq[0].slice.off, payload)
               == Landed(cfg.rounds[st[r].round], SyncAt(cfg, st[r].round), r)
  {
    assert Tracks(cfg, st[s], s) && Tracks(cfg, st[r], r);
    DeliverySameRound(cfg, st, s, i, r, j);
    SendSliceIntact(cfg, st, s);
    assert SendMet(cfg.rounds[st[s].round], s);
  }

  /** The two ranks a delivery changes, and their agreement about it. */
  lemma {:induction false} DeliveryEffect<T>(cfg: Config<T>, st: State<T>, s: nat, i: nat, r: nat,
                                             j: nat) returns (sk: Rank<T>, rk: Rank<T>)
    requires Inv(cfg, st) && Enabled(cfg, st, Deliver(s, i, r, j))
    ensures Apply(cfg, st, Deliver(s, i, r, j)) == st[s := sk][r := rk]
    ensures Tracks(cfg, sk, s) && Tracks(cfg, rk, r) && Agree(cfg, st[s := sk][r := rk])
  {
    PayloadLands(cfg, st, s, i, r, j);
    DeliverySameRound(cfg, st, s, i, r, j);
    var payload := Read(st[s].mem, st[s].sq[0].slice);
    sk, rk := Sender(st[s], 0, true), Receiver(st[r], 0, payload);
    assert Tracks(cfg, st[s], s) && Tracks(cfg, st[r], r);
    SenderTracks(cfg, st[s], s);
    ReceiverTracks(cfg, st[r], r, payload);
    AgreeDeliver(cfg, st, s, r, st[s].round, sk, rk);
  }

  lemma {:induction false} DeliverKeepsInv<T>(cfg: Config<T>, st: State<T>, s: nat, i: nat, r: nat, j: nat)
    requires Inv(cfg, st) && Enabled(cfg, st, Deliver(s, i, r, j))
    ensures Inv(cfg, Apply(cfg, st, Deliver(s, i, r, j)))
  {
    var sk, rk := DeliveryEffect(cfg, st, s, i, r, j);
    var st' := st[s := sk][r := rk];
    forall q | 0 <= q < |st'| ensures Tracks(cfg, st'[q], q) {
      if q != s && q != r {
        assert Tracks(cfg, st[q], q);
      }
    }
  }

  lemma {:induction false} StepKeepsInv<T>(cfg: Config<T>, st: State<T>, a: Action)
    requires Inv(cfg, st) && Enabled(cfg, st, a)
    ensures Inv(cfg, Apply(cfg, st, a))
  {
    match a
    case Local(r) => LocalKeepsInv(cfg, st, r);
    case Deliver(s, i, r, j) => DeliverKeepsInv(cfg, st, s, i, r, j);
    case Ack(s, i) => AckKeepsInv(cfg, st, s, i);
  }

  lemma {:induction false} RunInv<T>(cfg: Config<T>, run: seq<State<T>>, n: nat)
    requires Matched(cfg) && IsRun(cfg, run) && n < |run|
    ensures Inv(cfg, run[n])
  {
    if n == 0 {
      InitInv(cfg);
    } else {
      RunInv(cfg, run, n - 1);
      var a := ActionAt(cfg, run, n - 1);
      StepKeepsInv(cfg, run[n - 1], a);
    }
  }

  lemma {:induction false} RankTracks<T>(cfg: Config<T>, run: seq<State<T>>, n: nat, r: nat)
    requires Matched(cfg) && IsRun(cfg, run) && n < |run| && r < |cfg.init|
    ensures |run[n]| == |cfg.init| && Tracks(cfg, run[n][r], r)
  {
    RunInv(cfg, run, n);
  }
}
