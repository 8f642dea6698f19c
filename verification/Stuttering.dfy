/**
 Rounds in which a rank does nothing are invisible: only the calls each rank issues, and
 their order, decide what a program can do. The program of a collective may therefore pad
 the ranks' columns with idle rounds.
 */
module Stuttering {
  import opened Base
  import opened Transport
  import opened Discipline

  const IDLE: Op := Op(None, None, None)

  /** What rank r issues in the first n rounds, without the rounds it sits out. */
  function BusyCalls(rounds: seq<Round>, r: nat, n: nat): seq<Op>
    requires HasRank(rounds, r) && n <= |rounds|
  {
    if n == 0 then []
    else BusyCalls(rounds, r, n - 1) + if rounds[n - 1][r] == IDLE then [] else [rounds[n - 1][r]]
  }

  lemma {:induction false} BusyPrefix(rounds: seq<Round>, r: nat, t: nat, n: nat)
    requires HasRank(rounds, r) && t <= n <= |rounds|
    ensures BusyCalls(rounds, r, t) <= BusyCalls(rounds, r, n)
    decreases n
  {
    if t < n {
      BusyPrefix(rounds, r, t, n - 1);
    }
  }

  /** The operation of a busy round is the next of the calls. */
  lemma {:induction false} NextBusy(rounds: seq<Round>, r: nat, t: nat)
    requires HasRank(rounds, r) && t < |rounds| && rounds[t][r] != IDLE
    ensures |BusyCalls(rounds, r, t)| < |BusyCalls(rounds, r, |rounds|)|
    ensures BusyCalls(rounds, r, |rounds|)[|BusyCalls(rounds, r, t)|] == rounds[t][r]
  {
    var before, after := BusyCalls(rounds, r, t), BusyCalls(rounds, r, t + 1);
    assert after == before + [rounds[t][r]];
    BusyPrefix(rounds, r, t + 1, |rounds|);
    assert after[|before|] == rounds[t][r];
  }

  // ----- ranks that differ only in idle rounds and tags

  predicate SameSends(a: seq<SendWr>, b: seq<SendWr>) {
    |a| == |b| && forall k :: 0 <= k < |a| ==> a[k].(tag := 0) == b[k].(tag := 0)
  }

  predicate SameRecvs(a: seq<RecvWr>, b: seq<RecvWr>) {
    |a| == |b| && forall k :: 0 <= k < |a| ==> a[k].(tag := 0) == b[k].(tag := 0)
  }

  predicate SameWcs(a: seq<Wc>, b: seq<Wc>) {
    |a| == |b| && forall k :: 0 <= k < |a| ==> a[k].(tag := 0) == b[k].(tag := 0)
  }

  /** The same but for where in its program the rank is and for the tags, which nothing reads. */
  ghost predicate SameButTags<T>(a: Rank<T>, b: Rank<T>) {
    && a.failed == b.failed && a.mem == b.mem
    && SameSends(a.sq, b.sq) && SameRecvs(a.rq, b.rq) && SameWcs(a.scq, b.scq) && SameWcs(a.rcq, b.rcq)
  }

  /** The rank is in no call: it sits a round out, is about to begin one, or has finished. */
  predicate Between<T>(rounds: seq<Round>, rk: Rank<T>, r: nat)
    requires HasRank(rounds, r)
  {
    rk.round >= |rounds| || rounds[rk.round][r] == IDLE || rk.pc.PostRecv?
  }

  ghost predicate Located<T>(rounds: seq<Round>, rk: Rank<T>, r: nat) {
    HasRank(rounds, r) && rk.round <= |rounds| && (rk.round == |rounds| ==> rk.pc.PostRecv?)
  }

  /** Rank r of two programs is at the same point of the same calls. */
  ghost predicate Alike<T>(x: seq<Round>, y: seq<Round>, r: nat, a: Rank<T>, b: Rank<T>) {
    && Located(x, a, r) && Located(y, b, r) && SameButTags(a, b)
    && |BusyCalls(x, r, a.round)| == |BusyCalls(y, r, b.round)|
    && (Between(x, a, r) <==> Between(y, b, r))
    && (!Between(x, a, r) ==> a.pc == b.pc && x[a.round][r] == y[b.round][r])
  }

  // ----- one rank's steps

  lemma {:induction false} IdleAdvance<T>(f: (ReduceOp, T, T) -> T, rounds: seq<Round>, rk: Rank<T>, r: nat)
    requires Located(rounds, rk, r) && rk.round < |rounds| && rounds[rk.round][r] == IDLE
    ensures var rk' := Advance(f, IDLE, rk);
            && rk' == rk.(pc := rk'.pc, round := rk'.round) && Located(rounds, rk', r) && Between(rounds, rk', r)
            && BusyCalls(rounds, r, rk'.round) == BusyCalls(rounds, r, rk.round)
  {
  }

  lemma {:induction false} IdleAlike<T>(f: (ReduceOp, T, T) -> T, x: seq<Round>, y: seq<Round>, r: nat, a: Rank<T>,
                                        b: Rank<T>)
    requires Alike(x, y, r, a, b) && a.round < |x| && x[a.round][r] == IDLE
    ensures Alike(x, y, r, Advance(f, IDLE, a), b)
  {
    IdleAdvance(f, x, a, r);
  }

  /** The same call, at the same point, in both programs. */
  ghost predicate SameCall<T>(x: seq<Round>, y: seq<Round>, r: nat, a: Rank<T>, b: Rank<T>) {
    && Located(x, a, r) && Located(y, b, r) && SameButTags(a, b) && a.round < |x| && b.round < |y|
    && |BusyCalls(x, r, a.round)| == |BusyCalls(y, r, b.round)|
    && x[a.round][r] == y[b.round][r] != IDLE && a.pc == b.pc
  }

  lemma {:induction false} PostSame<T>(f: (ReduceOp, T, T) -> T, op: Op, a: Rank<T>, b: Rank<T>)
    requires SameButTags(a, b) && a.pc == b.pc && (a.pc.PostRecv? || a.pc.PostSend?)
    ensures SameButTags(Advance(f, op, a), Advance(f, op, b))
  {
  }

  lemma {:induction false} WaitSame<T>(f: (ReduceOp, T, T) -> T, op: Op, a: Rank<T>, b: Rank<T>)
    requires SameButTags(a, b) && a.pc == b.pc && (a.pc.WaitSend? || a.pc.WaitRecv?)
    requires a.pc.WaitSend? && op.send.Some? ==> a.scq != []
    requires a.pc.WaitRecv? && op.recv.Some? ==> a.rcq != []
    ensures b.pc.WaitSend? && op.send.Some? ==> b.scq != []
    ensures b.pc.WaitRecv? && op.recv.Some? ==> b.rcq != []
    ensures SameButTags(Advance(f, op, a), Advance(f, op, b)) && Advance(f, op, a).pc == Advance(f, op, b).pc
  {
    assert a.scq != [] ==> a.scq[0].(tag := 0) == b.scq[0].(tag := 0);
    assert a.rcq != [] ==> a.rcq[0].(tag := 0) == b.rcq[0].(tag := 0);
  }

  lemma {:induction false} AdvanceSame<T>(f: (ReduceOp, T, T) -> T, op: Op, a: Rank<T>, b: Rank<T>)
    requires SameButTags(a, b) && a.pc == b.pc
    requires a.pc.WaitSend? && op.send.Some? ==> a.scq != []
    requires a.pc.WaitRecv? && op.recv.Some? ==> a.rcq != []
    requires a.pc.Reduce? ==> FoldInRange(op.fold, |a.mem|)
    ensures b.pc.WaitSend? && op.send.Some? ==> b.scq != []
    ensures b.pc.WaitRecv? && op.recv.Some? ==> b.rcq != []
    ensures var a', b' := Advance(f, op, a), Advance(f, op, b);
            && SameButTags(a', b') && a'.pc == b'.pc && a'.round - a.round == b'.round - b.round
            && a'.round == (if a.pc.Reduce? then a.round + 1 else a.round) && (a'.pc.PostRecv? <==> a.pc.Reduce?)
  {
    if a.pc.PostRecv? || a.pc.PostSend? {
      PostSame(f, op, a, b);
    } else if a.pc.WaitSend? || a.pc.WaitRecv? {
      WaitSame(f, op, a, b);
    }
  }

  lemma {:induction false} BusyAlike<T>(f: (ReduceOp, T, T) -> T, x: seq<Round>, y: seq<Round>, r: nat,
                                        a: Rank<T>, b: Rank<T>, op: Op)
    requires SameCall(x, y, r, a, b) && op == x[a.round][r]
    requires a.pc.WaitSend? && op.send.Some? ==> a.scq != []
    requires a.pc.WaitRecv? && op.recv.Some? ==> a.rcq != []
    requires a.pc.Reduce? ==> FoldInRange(op.fold, |a.mem|)
    ensures b.pc.WaitSend? && op.send.Some? ==> b.scq != []
    ensures b.pc.WaitRecv? && op.recv.Some? ==> b.rcq != []
    ensures Alike(x, y, r, Advance(f, op, a), Advance(f, op, b))
  {
    AdvanceSame(f, op, a, b);
    var a', b' := Advance(f, op, a), Advance(f, op, b);
    AlikeAfter(x, y, r, a, b, a', b');
  }

  lemma {:induction false} AlikeAfter<T>(x: seq<Round>, y: seq<Round>, r: nat, a: Rank<T>, b: Rank<T>, a': Rank<T>,
                                         b': Rank<T>)
    requires SameCall(x, y, r, a, b) && SameButTags(a', b') && a'.pc == b'.pc
    requires a'.round - a.round == b'.round - b.round
    requires a'.round == (if a.pc.Reduce? then a.round + 1 else a.round) && (a'.pc.PostRecv? <==> a.pc.Reduce?)
    ensures Alike(x, y, r, a', b')
  {
    if a.pc.Reduce? {
      assert |BusyCalls(x, r, a'.round)| == |BusyCalls(x, r, a.round)| + 1;
      assert |BusyCalls(y, r, b'.round)| == |BusyCalls(y, r, b.round)| + 1;
    }
  }

  lemma {:induction false} AckedAlike<T>(x: seq<Round>, y: seq<Round>, r: nat, a: Rank<T>, b: Rank<T>, i: nat)
    requires Alike(x, y, r, a, b) && i < |a.sq|
    ensures Alike(x, y, r, Acked(a, i), Acked(b, i))
  {
  }

  lemma {:induction false} SenderAlike<T>(x: seq<Round>, y: seq<Round>, r: nat, a: Rank<T>, b: Rank<T>, i: nat,
                                          fits: bool)
    requires Alike(x, y, r, a, b) && i < |a.sq|
    ensures Alike(x, y, r, Sender(a, i, fits), Sender(b, i, fits))
  {
  }

  lemma {:induction false} ReceiverAlike<T>(x: seq<Round>, y: seq<Round>, r: nat, a: Rank<T>, b: Rank<T>, j: nat,
                                            payload: seq<T>)
    requires Alike(x, y, r, a, b) && j < |a.rq| && Within(a.rq[j].slice, |a.mem|)
    ensures a.rq[j].slice == b.rq[j].slice
    ensures Alike(x, y, r, Receiver(a, j, payload), Receiver(b, j, payload))
  {
    assert a.rq[j].(tag := 0) == b.rq[j].(tag := 0);
  }

  // ----- catching up

  /** In any state of any run, a rank in an idle round has nothing outstanding, is never held up,
      and passes through it without touching memory, queues or other ranks. */
  lemma {:induction false} IdleInvisible<T>(cfg: Config<T>, run: seq<State<T>>, n: nat, r: nat)
    requires Shaped(cfg) && IsRun(cfg, run) && n < |run| && r < |cfg.init|
    requires !run[n][r].failed && run[n][r].round < |cfg.rounds| && cfg.rounds[run[n][r].round][r] == IDLE
    ensures var rk := run[n][r]; rk.sq == [] && rk.rq == [] && rk.scq == [] && rk.rcq == []
    ensures Enabled(cfg, run[n], Local(r))
    ensures var rk := run[n][r];
            var rk' := Advance(cfg.f, IDLE, rk);
            && Apply(cfg, run[n], Local(r)) == run[n][r := rk'] && rk' == rk.(pc := rk'.pc, round := rk'.round)
            && rk'.round == if rk.pc.Reduce? then rk.round + 1 else rk.round
  {
    RunIsDisciplined(cfg, run, n);
    assert QueueShape(cfg, run[n][r], r);
  }

  /** The rank is at the start of its next call, or has none left. */
  ghost predicate AtCall<T>(rounds: seq<Round>, rk: Rank<T>, r: nat) {
    Located(rounds, rk, r) && rk.pc.PostRecv? && (rk.round < |rounds| ==> rounds[rk.round][r] != IDLE)
  }

  function PcLeft(pc: Pc): nat {
    match pc
    case PostRecv => 5
    case PostSend => 4
    case WaitSend => 3
    case WaitRecv => 2
    case Reduce => 1
  }

  /** A rank that is in no call can pass through its idle rounds, whatever the others do. */
  lemma {:induction false} CatchUp<T>(cfg: Config<T>, run: seq<State<T>>, r: nat)
    returns (run': seq<State<T>>, rk: Rank<T>)
    requires Shaped(cfg) && IsRun(cfg, run) && r < |cfg.init|
    requires var was := run[|run| - 1][r]; !was.failed && Located(cfg.rounds, was, r) && Between(cfg.rounds, was, r)
    ensures IsRun(cfg, run') && run <= run' && run'[|run'| - 1] == run[|run| - 1][r := rk]
    ensures AtCall(cfg.rounds, rk, r)
    ensures var was := run[|run| - 1][r];
            rk == was.(pc := rk.pc, round := rk.round)
            && BusyCalls(cfg.rounds, r, rk.round) == BusyCalls(cfg.rounds, r, was.round)
    decreases |cfg.rounds| - run[|run| - 1][r].round, PcLeft(run[|run| - 1][r].pc)
  {
    var st := run[|run| - 1];
    if st[r].round == |cfg.rounds| || cfg.rounds[st[r].round][r] != IDLE {
      run', rk := run, st[r];
      assert st[r := st[r]] == st;
    } else {
      IdleAdvance(cfg.f, cfg.rounds, st[r], r);
      assert Enabled(cfg, st, Local(r));
      var next := Extend(cfg, run, Local(r));
      assert next[|next| - 1] == st[r := Advance(cfg.f, IDLE, st[r])];
      run', rk := CatchUp(cfg, next, r);
    }
  }

  // ----- simulation

  ghost predicate SameCalls(x: seq<Round>, y: seq<Round>, r: nat) {
    HasRank(x, r) && HasRank(y, r) && BusyCalls(x, r, |x|) == BusyCalls(y, r, |y|)
  }

  /** Two programs in which every rank issues the same calls in the same order. */
  ghost predicate SamePrograms<T>(x: Config<T>, y: Config<T>) {
    && Shaped(x) && Shaped(y) && x.f == y.f && x.init == y.init
    && forall r {:trigger SameCalls(x.rounds, y.rounds, r)} :: 0 <= r < |x.init| ==> SameCalls(x.rounds, y.rounds, r)
  }

  ghost predicate AllAlike<T>(x: seq<Round>, y: seq<Round>, sx: State<T>, sy: State<T>) {
    |sx| == |sy| && forall r {:trigger Alike(x, y, r, sx[r], sy[r])} :: 0 <= r < |sx| ==> Alike(x, y, r, sx[r], sy[r])
  }

  /** After catching up, both ranks are about to make the same call. */
  lemma {:induction false} CaughtUp<T>(x: seq<Round>, y: seq<Round>, r: nat, a: Rank<T>, b: Rank<T>, b': Rank<T>)
    requires Alike(x, y, r, a, b) && SameCalls(x, y, r) && a.round < |x| && x[a.round][r] != IDLE && a.pc.PostRecv?
    requires AtCall(y, b', r) && b' == b.(pc := b'.pc, round := b'.round)
    requires BusyCalls(y, r, b'.round) == BusyCalls(y, r, b.round)
    ensures SameCall(x, y, r, a, b')
  {
    NextBusy(x, r, a.round);
    if b'.round < |y| {
      NextBusy(y, r, b'.round);
    }
  }

  lemma {:induction false} AlikeUpdate<T>(x: seq<Round>, y: seq<Round>, sx: State<T>, sy: State<T>, r: nat,
                                          a: Rank<T>, b: Rank<T>)
    requires AllAlike(x, y, sx, sy) && r < |sx| && Alike(x, y, r, a, b)
    ensures AllAlike(x, y, sx[r := a], sy[r := b])
  {
    var sx', sy' := sx[r := a], sy[r := b];
    forall q {:trigger Alike(x, y, q, sx'[q], sy'[q])} | 0 <= q < |sx| ensures Alike(x, y, q, sx'[q], sy'[q]) {
      assert Alike(x, y, q, sx[q], sy[q]);
    }
  }

  /** A run of y in which rank r is brought to the point where rank r of x makes its call. */
  lemma {:induction false} BroughtTo<T>(x: Config<T>, y: Config<T>, a: Rank<T>, run: seq<State<T>>, r: nat)
    returns (run': seq<State<T>>, rk: Rank<T>)
    requires SamePrograms(x, y) && r < |x.init| && IsRun(y, run) && !a.failed
    requires Alike(x.rounds, y.rounds, r, a, run[|run| - 1][r]) && a.round < |x.rounds| && x.rounds[a.round][r] != IDLE
    ensures IsRun(y, run') && run <= run' && run'[|run'| - 1] == run[|run| - 1][r := rk]
    ensures SameCall(x.rounds, y.rounds, r, a, rk)
  {
    assert SameCalls(x.rounds, y.rounds, r);
    if a.pc.PostRecv? {
      run', rk := CatchUp(y, run, r);
      CaughtUp(x.rounds, y.rounds, r, a, run[|run| - 1][r], rk);
    } else {
      run', rk := run, run[|run| - 1][r];
      assert run[|run| - 1][r := rk] == run[|run| - 1];
    }
  }

  lemma {:induction false} BusySimulated<T>(x: Config<T>, y: Config<T>, sx: State<T>, run: seq<State<T>>, r: nat)
    returns (run': seq<State<T>>)
    requires SamePrograms(x, y) && |sx| == |x.init| && IsRun(y, run) && AllAlike(x.rounds, y.rounds, sx, run[|run| - 1])
    requires Enabled(x, sx, Local(r)) && x.rounds[sx[r].round][r] != IDLE
    ensures IsRun(y, run') && run <= run'
    ensures AllAlike(x.rounds, y.rounds, Apply(x, sx, Local(r)), run'[|run'| - 1])
  {
    var op := x.rounds[sx[r].round][r];
    assert Alike(x.rounds, y.rounds, r, sx[r], run[|run| - 1][r]);
    var ready, rk := BroughtTo(x, y, sx[r], run, r);
    BusyAlike(x.f, x.rounds, y.rounds, r, sx[r], rk, op);
    assert Enabled(y, ready[|ready| - 1], Local(r));
    run' := Extend(y, ready, Local(r));
    assert run'[|run'| - 1] == run[|run| - 1][r := Advance(y.f, op, rk)];
    AlikeUpdate(x.rounds, y.rounds, sx, run[|run| - 1], r, Advance(x.f, op, sx[r]), Advance(y.f, op, rk));
  }

  lemma {:induction false} LocalSimulated<T>(x: Config<T>, y: Config<T>, sx: State<T>, run: seq<State<T>>, r: nat)
    returns (run': seq<State<T>>)
    requires SamePrograms(x, y) && |sx| == |x.init| && IsRun(y, run) && AllAlike(x.rounds, y.rounds, sx, run[|run| - 1])
    requires Enabled(x, sx, Local(r))
    ensures IsRun(y, run') && run <= run'
    ensures AllAlike(x.rounds, y.rounds, Apply(x, sx, Local(r)), run'[|run'| - 1])
  {
    if x.rounds[sx[r].round][r] == IDLE {
      run' := run;
      var sy := run[|run| - 1];
      assert Alike(x.rounds, y.rounds, r, sx[r], sy[r]);
      IdleAlike(x.f, x.rounds, y.rounds, r, sx[r], sy[r]);
      AlikeUpdate(x.rounds, y.rounds, sx, sy, r, Advance(x.f, IDLE, sx[r]), sy[r]);
      assert sy[r := sy[r]] == sy;
    } else {
      run' := BusySimulated(x, y, sx, run, r);
    }
  }

  lemma {:induction false} NetworkAlike<T>(x: Config<T>, y: Config<T>, sx: State<T>, sy: State<T>, a: Action)
    requires SamePrograms(x, y) && |sx| == |x.init| && AllAlike(x.rounds, y.rounds, sx, sy)
    requires !a.Local? && Enabled(x, sx, a)
    ensures Enabled(y, sy, a) && AllAlike(x.rounds, y.rounds, Apply(x, sx, a), Apply(y, sy, a))
  {
    match a
    case Ack(s, i) =>
      assert Alike(x.rounds, y.rounds, s, sx[s], sy[s]);
      assert forall k :: 0 <= k < |sx[s].sq| ==> sx[s].sq[k].(tag := 0) == sy[s].sq[k].(tag := 0);
      AckedAlike(x.rounds, y.rounds, s, sx[s], sy[s], i);
      AlikeUpdate(x.rounds, y.rounds, sx, sy, s, Acked(sx[s], i), Acked(sy[s], i));
    case Deliver(s, i, r, j) =>
      DeliverAlike(x, y, sx, sy, s, i, r, j);
  }

  lemma {:induction false} DeliverAlike<T>(x: Config<T>, y: Config<T>, sx: State<T>, sy: State<T>, s: nat, i: nat,
                                           r: nat, j: nat)
    requires SamePrograms(x, y) && |sx| == |x.init| && AllAlike(x.rounds, y.rounds, sx, sy)
    requires Enabled(x, sx, Deliver(s, i, r, j))
    ensures Enabled(y, sy, Deliver(s, i, r, j))
    ensures AllAlike(x.rounds, y.rounds, Apply(x, sx, Deliver(s, i, r, j)), Apply(y, sy, Deliver(s, i, r, j)))
  {
    assert Alike(x.rounds, y.rounds, s, sx[s], sy[s]) && Alike(x.rounds, y.rounds, r, sx[r], sy[r]);
    SendsAlike(sx[s].sq, sy[s].sq, i, r);
    RecvsAlike(sx[r].rq, sy[r].rq, j, s);
    var payload := Read(sx[s].mem, sx[s].sq[i].slice);
    var fits := |payload| <= sx[r].rq[j].slice.len;
    SenderAlike(x.rounds, y.rounds, s, sx[s], sy[s], i, fits);
    ReceiverAlike(x.rounds, y.rounds, r, sx[r], sy[r], j, payload);
    AlikeUpdate(x.rounds, y.rounds, sx, sy, s, Sender(sx[s], i, fits), Sender(sy[s], i, fits));
    AlikeUpdate(x.rounds, y.rounds, sx[s := Sender(sx[s], i, fits)], sy[s := Sender(sy[s], i, fits)], r,
                Receiver(sx[r], j, payload), Receiver(sy[r], j, payload));
  }

  lemma {:induction false} SendsAlike(a: seq<SendWr>, b: seq<SendWr>, i: nat, peer: nat)
    requires SameSends(a, b) && NextToSend(a, i, peer)
    ensures NextToSend(b, i, peer) && b[i].slice == a[i].slice
  {
    forall k | 0 <= k < |a|
      ensures a[k].peer == b[k].peer && a[k].accepted == b[k].accepted && a[k].slice == b[k].slice
    {
      assert a[k].(tag := 0) == b[k].(tag := 0);
    }
  }

  lemma {:induction false} RecvsAlike(a: seq<RecvWr>, b: seq<RecvWr>, j: nat, peer: nat)
    requires SameRecvs(a, b) && NextToFill(a, j, peer)
    ensures NextToFill(b, j, peer) && b[j].slice == a[j].slice
  {
    forall k | 0 <= k < |a| ensures a[k].peer == b[k].peer && a[k].slice == b[k].slice {
      assert a[k].(tag := 0) == b[k].(tag := 0);
    }
  }

  lemma {:induction false} StartAlike<T>(x: Config<T>, y: Config<T>)
    requires SamePrograms(x, y)
    ensures AllAlike(x.rounds, y.rounds, Init(x), Init(y))
  {
    forall r | 0 <= r < |x.init| ensures Alike(x.rounds, y.rounds, r, Init(x)[r], Init(y)[r]) {
      assert SameCalls(x.rounds, y.rounds, r);
    }
  }

  /** Every run of one program has a counterpart of the other that ends with every rank at the
      same point of the same calls, with the same memory and the same requests outstanding. */
  lemma {:induction false} SameCallsSameRuns<T>(x: Config<T>, y: Config<T>, run: seq<State<T>>)
    returns (run': seq<State<T>>)
    requires SamePrograms(x, y) && IsRun(x, run)
    ensures IsRun(y, run') && AllAlike(x.rounds, y.rounds, run[|run| - 1], run'[|run'| - 1])
    decreases |run|
  {
    if |run| == 1 {
      run' := [Init(y)];
      StartAlike(x, y);
    } else {
      var n := |run| - 2;
      var shorter := run[..n + 1];
      assert IsRun(x, shorter);
      var before := SameCallsSameRuns(x, y, shorter);
      var a := ActionAt(x, run, n);
      if a.Local? {
        run' := LocalSimulated(x, y, run[n], before, a.r);
      } else {
        NetworkAlike(x, y, run[n], before[|before| - 1], a);
        run' := Extend(y, before, a);
      }
    }
  }

  // ----- completed runs

  /** The rank has returned with memory `mem`. */
  ghost predicate EndsWith<T>(cfg: Config<T>, rk: Rank<T>, mem: seq<T>) {
    Done(cfg, rk) && rk.mem == mem
  }

  lemma {:induction false} FinishRank<T>(x: Config<T>, y: Config<T>, a: Rank<T>, run: seq<State<T>>, r: nat)
    returns (run': seq<State<T>>, rk: Rank<T>)
    requires SamePrograms(x, y) && r < |x.init| && IsRun(y, run)
    requires Done(x, a) && Alike(x.rounds, y.rounds, r, a, run[|run| - 1][r])
    ensures IsRun(y, run') && run <= run' && run'[|run'| - 1] == run[|run| - 1][r := rk] && EndsWith(y, rk, a.mem)
  {
    run', rk := CatchUp(y, run, r);
    assert SameCalls(x.rounds, y.rounds, r);
    if rk.round < |y.rounds| {
      NextBusy(y.rounds, r, rk.round);
    }
  }

  /** The first k ranks are still to be brought to the end. */
  ghost predicate Finishing<T>(x: Config<T>, y: Config<T>, sx: State<T>, sy: State<T>, k: nat) {
    && |sx| == |sy| && k <= |sx|
    && (forall r {:trigger EndsWith(y, sy[r], sx[r].mem)} :: k <= r < |sx| ==> EndsWith(y, sy[r], sx[r].mem))
    && (forall r {:trigger Alike(x.rounds, y.rounds, r, sx[r], sy[r])} ::
          0 <= r < k ==> Alike(x.rounds, y.rounds, r, sx[r], sy[r]))
  }

  lemma {:induction false} FinishingStep<T>(x: Config<T>, y: Config<T>, sx: State<T>, sy: State<T>, k: nat, rk: Rank<T>)
    requires Finishing(x, y, sx, sy, k) && k > 0 && EndsWith(y, rk, sx[k - 1].mem)
    ensures Finishing(x, y, sx, sy[k - 1 := rk], k - 1)
  {
    var sy' := sy[k - 1 := rk];
    forall r {:trigger EndsWith(y, sy'[r], sx[r].mem)} | k - 1 <= r < |sx| ensures EndsWith(y, sy'[r], sx[r].mem) {
      assert r >= k ==> EndsWith(y, sy[r], sx[r].mem);
    }
    forall r {:trigger Alike(x.rounds, y.rounds, r, sx[r], sy'[r])} | 0 <= r < k - 1
      ensures Alike(x.rounds, y.rounds, r, sx[r], sy'[r])
    {
      assert Alike(x.rounds, y.rounds, r, sx[r], sy[r]);
    }
  }

  lemma {:induction false} FinishRanks<T>(x: Config<T>, y: Config<T>, sx: State<T>, run: seq<State<T>>, k: nat)
    returns (run': seq<State<T>>)
    requires SamePrograms(x, y) && |sx| == |x.init| && AllDone(x, sx) && IsRun(y, run)
    requires Finishing(x, y, sx, run[|run| - 1], k)
    ensures IsRun(y, run') && Finishing(x, y, sx, run'[|run'| - 1], 0)
    decreases k
  {
    if k == 0 {
      run' := run;
    } else {
      assert Done(x, sx[k - 1]) && Alike(x.rounds, y.rounds, k - 1, sx[k - 1], run[|run| - 1][k - 1]);
      var next, rk := FinishRank(x, y, sx[k - 1], run, k - 1);
      FinishingStep(x, y, sx, run[|run| - 1], k, rk);
      run' := FinishRanks(x, y, sx, next, k - 1);
    }
  }

  ghost predicate SameMemories<T>(a: State<T>, b: State<T>) {
    |a| == |b| && forall r :: 0 <= r < |a| ==> a[r].mem == b[r].mem
  }

  /** Idle rounds are invisible: to every completed run of one program there is a completed run
      of the other with the same memories. */
  lemma {:induction false} SameCallsSameResults<T>(x: Config<T>, y: Config<T>, run: seq<State<T>>)
    returns (run': seq<State<T>>)
    requires SamePrograms(x, y) && IsRun(x, run) && AllDone(x, run[|run| - 1])
    ensures IsRun(y, run') && AllDone(y, run'[|run'| - 1])
    ensures SameMemories(run[|run| - 1], run'[|run'| - 1])
  {
    var before := SameCallsSameRuns(x, y, run);
    run' := FinishRanks(x, y, run[|run| - 1], before, |x.init|);
    var sx, sy := run[|run| - 1], run'[|run'| - 1];
    forall r | 0 <= r < |sy| ensures Done(y, sy[r]) && sx[r].mem == sy[r].mem {
      assert EndsWith(y, sy[r], sx[r].mem);
    }
  }

  // ----- programs with the same calls

  lemma {:induction false} BusyConcat(a: seq<Round>, b: seq<Round>, r: nat, n: nat)
    requires HasRank(a, r) && HasRank(b, r) && HasRank(a + b, r) && n <= |b|
    ensures BusyCalls(a + b, r, |a| + n) == BusyCalls(a, r, |a|) + BusyCalls(b, r, n)
  {
    if n == 0 {
      BusyOfPrefix(a, b, r, |a|);
    } else {
      BusyConcat(a, b, r, n - 1);
      var last := if b[n - 1][r] == IDLE then [] else [b[n - 1][r]];
      assert (a + b)[|a| + n - 1] == b[n - 1];
      Reassociate(BusyCalls(a, r, |a|), BusyCalls(b, r, n - 1), last);
    }
  }

  lemma {:induction false} Reassociate(a: seq<Op>, b: seq<Op>, c: seq<Op>)
    ensures a + b + c == a + (b + c)
  {
  }

  lemma {:induction false} BusyOfPrefix(a: seq<Round>, b: seq<Round>, r: nat, n: nat)
    requires HasRank(a, r) && HasRank(a + b, r) && n <= |a|
    ensures BusyCalls(a + b, r, n) == BusyCalls(a, r, n)
  {
    if n > 0 {
      BusyOfPrefix(a, b, r, n - 1);
    }
  }

  lemma {:induction false} SameColumn(a: seq<Round>, b: seq<Round>, r: nat, n: nat)
    requires HasRank(a, r) && HasRank(b, r) && n <= |a| && n <= |b|
    requires forall t :: 0 <= t < n ==> a[t][r] == b[t][r]
    ensures BusyCalls(a, r, n) == BusyCalls(b, r, n)
  {
    if n > 0 {
      SameColumn(a, b, r, n - 1);
    }
  }

  lemma {:induction false} IdleColumn(a: seq<Round>, r: nat, n: nat)
    requires HasRank(a, r) && n <= |a| && forall t :: 0 <= t < n ==> a[t][r] == IDLE
    ensures BusyCalls(a, r, n) == []
  {
    if n > 0 {
      IdleColumn(a, r, n - 1);
    }
  }

  // ----- lists of calls

  /** Every rank issues its own list of calls and then nothing more. */
  function Unpadded(progs: seq<seq<Op>>, n: nat): (rounds: seq<Round>)
    ensures |rounds| == n && forall t :: 0 <= t < n ==> |rounds[t]| == |progs|
    ensures forall t, r :: 0 <= t < n && 0 <= r < |progs| ==>
              rounds[t][r] == if t < |progs[r]| then progs[r][t] else IDLE
  {
    seq(n, t requires 0 <= t < n =>
      seq(|progs|, r requires 0 <= r < |progs| => if t < |progs[r]| then progs[r][t] else IDLE))
  }

  lemma {:induction false} UnpaddedCalls(progs: seq<seq<Op>>, n: nat, rounds: seq<Round>, r: nat, k: nat)
    requires rounds == Unpadded(progs, n) && r < |progs| && k <= n && IDLE !in progs[r]
    ensures HasRank(rounds, r)
    ensures BusyCalls(rounds, r, k) == if k <= |progs[r]| then progs[r][..k] else progs[r]
  {
    if k > 0 {
      UnpaddedCalls(progs, n, rounds, r, k - 1);
      if k <= |progs[r]| {
        assert progs[r][k - 1] in progs[r] && progs[r][..k] == progs[r][..k - 1] + [progs[r][k - 1]];
      } else {
        assert progs[r][..|progs[r]|] == progs[r];
      }
    }
  }
}
