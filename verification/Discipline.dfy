/**
 What holds of every run of every program, matched with its peers or not: a rank
 has at most one request of each kind outstanding, always the current round's,
 and every run is finite.
 */
module Discipline {
  import opened Base
  import opened Transport

  ghost predicate RecvShape<T>(recv: Option<Transfer>, rk: Rank<T>) {
    if recv.None? || rk.pc.PostRecv? || rk.pc.Reduce? then rk.rq == [] && rk.rcq == []
    else
      || (rk.rq == [RecvWr(recv.value.peer, recv.value.slice, rk.round)] && rk.rcq == [])
      || (rk.rq == [] && |rk.rcq| == 1 && rk.rcq[0].peer == recv.value.peer && rk.rcq[0].tag == rk.round)
  }

  ghost predicate SendShape<T>(send: Option<Transfer>, rk: Rank<T>) {
    if send.None? || !rk.pc.WaitSend? then rk.sq == [] && rk.scq == []
    else
      || (rk.scq == [] && |rk.sq| == 1
          && rk.sq[0] == SendWr(send.value.peer, send.value.slice, rk.round, rk.sq[0].accepted))
      || (rk.sq == [] && |rk.scq| == 1 && rk.scq[0].peer == send.value.peer && rk.scq[0].tag == rk.round)
  }

  ghost predicate QueueShape<T>(cfg: Config<T>, rk: Rank<T>, r: nat)
    requires Shaped(cfg) && r < |cfg.init|
  {
    && rk.round <= |cfg.rounds|
    && (rk.round == |cfg.rounds| ==>
          rk.pc.PostRecv? && rk.sq == [] && rk.rq == [] && rk.scq == [] && rk.rcq == [])
    && (rk.round < |cfg.rounds| ==>
          RecvShape(cfg.rounds[rk.round][r].recv, rk) && SendShape(cfg.rounds[rk.round][r].send, rk))
  }

  /** A rank that threw stops calling the transport; nothing is claimed of its queues. */
  ghost predicate Disciplined<T>(cfg: Config<T>, st: State<T>)
    requires Shaped(cfg)
  {
    && |st| == |cfg.init|
    && forall r :: 0 <= r < |st| && !st[r].failed ==> QueueShape(cfg, st[r], r)
  }

  /** Rank r's next call can be made now. */
  ghost predicate Ready<T>(cfg: Config<T>, rk: Rank<T>, r: nat)
    requires Shaped(cfg) && r < |cfg.init|
  {
    && rk.round < |cfg.rounds|
    && var op := cfg.rounds[rk.round][r];
    && (rk.pc.WaitSend? && op.send.Some? ==> rk.scq != [])
    && (rk.pc.WaitRecv? && op.recv.Some? ==> rk.rcq != [])
    && (rk.pc.Reduce? ==> FoldInRange(op.fold, |rk.mem|))
  }

  lemma {:induction false} AdvanceKeepsShape<T>(cfg: Config<T>, rk: Rank<T>, r: nat)
    requires Shaped(cfg) && r < |cfg.init| && QueueShape(cfg, rk, r) && Ready(cfg, rk, r)
    ensures var rk' := Advance(cfg.f, cfg.rounds[rk.round][r], rk);
            !rk'.failed ==> QueueShape(cfg, rk', r)
  {
  }

  lemma {:induction false} SenderKeepsShape<T>(cfg: Config<T>, rk: Rank<T>, r: nat, i: nat, fits: bool)
    requires Shaped(cfg) && r < |cfg.init| && QueueShape(cfg, rk, r) && i < |rk.sq|
    ensures QueueShape(cfg, Sender(rk, i, fits), r) && QueueShape(cfg, Acked(rk, i), r)
  {
  }

  lemma {:induction false} ReceiverKeepsShape<T>(cfg: Config<T>, rk: Rank<T>, r: nat, j: nat, payload: seq<T>)
    requires Shaped(cfg) && r < |cfg.init| && QueueShape(cfg, rk, r)
    requires j < |rk.rq| && Within(rk.rq[j].slice, |rk.mem|)
    ensures QueueShape(cfg, Receiver(rk, j, payload), r)
  {
  }

  lemma {:induction false} StepKeepsDiscipline<T>(cfg: Config<T>, st: State<T>, a: Action)
    requires Shaped(cfg) && Disciplined(cfg, st) && Enabled(cfg, st, a)
    ensures Disciplined(cfg, Apply(cfg, st, a))
  {
    match a
    case Local(r) => AdvanceKeepsShape(cfg, st[r], r);
    case Deliver(s, i, r, j) =>
      var payload := Read(st[s].mem, st[s].sq[i].slice);
      if !st[s].failed { SenderKeepsShape(cfg, st[s], s, i, |payload| <= st[r].rq[j].slice.len); }
      if !st[r].failed { ReceiverKeepsShape(cfg, st[r], r, j, payload); }
    case Ack(s, i) =>
      if !st[s].failed { SenderKeepsShape(cfg, st[s], s, i, true); }
  }

  /** In every state of every run, each rank has at most one request of each kind
      outstanding, and both completion queues hold only the current round's completion. */
  lemma {:induction false} RunIsDisciplined<T>(cfg: Config<T>, run: seq<State<T>>, n: nat)
    requires Shaped(cfg) && IsRun(cfg, run) && n < |run|
    ensures Disciplined(cfg, run[n])
  {
    if n > 0 {
      RunIsDisciplined(cfg, run, n - 1);
      var a := ActionAt(cfg, run, n - 1);
      StepKeepsDiscipline(cfg, run[n - 1], a);
    }
  }

  // ----- every run is finite

  function PcWork(pc: Pc): nat {
    match pc
    case PostRecv => 12
    case PostSend => 9
    case WaitSend => 6
    case WaitRecv => 3
    case Reduce => 0
  }

  function QueueWork(sq: seq<SendWr>): nat {
    if sq == [] then 0 else (if sq[0].accepted then 1 else 2) + QueueWork(sq[1..])
  }

  /** The work left in rank r: its program, plus one unit for each network event its
      requests still await. */
  function Work<T>(rounds: nat, rk: Rank<T>): int {
    13 * (rounds - rk.round) + PcWork(rk.pc) + QueueWork(rk.sq) + if rk.failed then 0 else 1
  }

  function TotalWork<T>(rounds: nat, st: State<T>): int {
    if st == [] then 0 else Work(rounds, st[0]) + TotalWork(rounds, st[1..])
  }

  lemma {:induction false} QueueWorkConcat(a: seq<SendWr>, b: seq<SendWr>)
    ensures QueueWork(a + b) == QueueWork(a) + QueueWork(b)
  {
    if a == [] {
      assert a + b == b;
    } else {
      QueueWorkConcat(a[1..], b);
      assert (a + b)[1..] == a[1..] + b;
    }
  }

  lemma {:induction false} QueueWorkSplit(sq: seq<SendWr>, i: nat)
    requires i < |sq|
    ensures QueueWork(sq) == QueueWork(sq[..i]) + QueueWork([sq[i]]) + QueueWork(sq[i + 1..])
  {
    assert sq == sq[..i] + ([sq[i]] + sq[i + 1..]);
    QueueWorkConcat(sq[..i], [sq[i]] + sq[i + 1..]);
    QueueWorkConcat([sq[i]], sq[i + 1..]);
  }

  lemma {:induction false} TotalWorkUpdate<T>(rounds: nat, st: State<T>, r: nat, rk: Rank<T>)
    requires r < |st|
    ensures TotalWork(rounds, st[r := rk]) == TotalWork(rounds, st) - Work(rounds, st[r]) + Work(rounds, rk)
  {
    if r == 0 {
      assert st[r := rk][1..] == st[1..];
    } else {
      TotalWorkUpdate(rounds, st[1..], r - 1, rk);
      assert st[r := rk][1..] == st[1..][r - 1 := rk];
    }
  }

  lemma {:induction false} AdvanceWorks<T>(rounds: nat, f: (ReduceOp, T, T) -> T, op: Op, rk: Rank<T>)
    requires rk.pc.WaitSend? && op.send.Some? ==> rk.scq != []
    requires rk.pc.WaitRecv? && op.recv.Some? ==> rk.rcq != []
    requires rk.pc.Reduce? ==> FoldInRange(op.fold, |rk.mem|)
    requires !rk.failed
    ensures Work(rounds, Advance(f, op, rk)) < Work(rounds, rk)
  {
    if rk.pc.PostSend? && op.send.Some? {
      QueueWorkConcat(rk.sq, [SendWr(op.send.value.peer, op.send.value.slice, rk.round, false)]);
    }
  }

  lemma {:induction false} SenderWorks<T>(rounds: nat, rk: Rank<T>, i: nat, fits: bool)
    requires i < |rk.sq| && !rk.sq[i].accepted
    ensures Work(rounds, Sender(rk, i, fits)) < Work(rounds, rk)
  {
    QueueWorkSplit(rk.sq, i);
    var rk' := Sender(rk, i, fits);
    if fits {
      QueueWorkSplit(rk'.sq, i);
      assert rk'.sq[..i] == rk.sq[..i] && rk'.sq[i + 1..] == rk.sq[i + 1..];
    } else {
      QueueWorkConcat(rk.sq[..i], rk.sq[i + 1..]);
    }
  }

  /** Every action, of every program, uses up work. */
  lemma {:induction false} StepWorks<T>(cfg: Config<T>, st: State<T>, a: Action)
    requires Shaped(cfg) && |st| == |cfg.init| && Enabled(cfg, st, a)
    ensures TotalWork(|cfg.rounds|, Apply(cfg, st, a)) < TotalWork(|cfg.rounds|, st)
  {
    var n := |cfg.rounds|;
    match a
    case Local(r) =>
      var op := cfg.rounds[st[r].round][r];
      AdvanceWorks(n, cfg.f, op, st[r]);
      TotalWorkUpdate(n, st, r, Advance(cfg.f, op, st[r]));
    case Deliver(s, i, r, j) =>
      var payload := Read(st[s].mem, st[s].sq[i].slice);
      var sender := Sender(st[s], i, |payload| <= st[r].rq[j].slice.len);
      SenderWorks(n, st[s], i, |payload| <= st[r].rq[j].slice.len);
      TotalWorkUpdate(n, st, s, sender);
      TotalWorkUpdate(n, st[s := sender], r, Receiver(st[r], j, payload));
    case Ack(s, i) =>
      QueueWorkSplit(st[s].sq, i);
      QueueWorkConcat(st[s].sq[..i], st[s].sq[i + 1..]);
      TotalWorkUpdate(n, st, s, Acked(st[s], i));
  }

  lemma {:induction false} WorkIsNatural<T>(rounds: nat, st: State<T>)
    requires forall r :: 0 <= r < |st| ==> st[r].round <= rounds
    ensures TotalWork(rounds, st) >= 0
  {
    if st != [] {
      WorkIsNatural(rounds, st[1..]);
    }
  }

  lemma {:induction false} InitialWork<T>(rounds: nat, st: State<T>)
    requires forall r :: 0 <= r < |st| ==> Work(rounds, st[r]) == 13 * rounds + 13
    ensures TotalWork(rounds, st) == |st| * (13 * rounds + 13)
  {
    if st != [] {
      InitialWork(rounds, st[1..]);
      assert |st| * (13 * rounds + 13) == (|st| - 1) * (13 * rounds + 13) + (13 * rounds + 13);
    }
  }

  lemma {:induction false} RoundsBounded<T>(cfg: Config<T>, run: seq<State<T>>, n: nat)
    requires Shaped(cfg) && IsRun(cfg, run) && n < |run|
    ensures forall r :: 0 <= r < |run[n]| ==> run[n][r].round <= |cfg.rounds|
  {
    if n > 0 {
      RoundsBounded(cfg, run, n - 1);
      var a := ActionAt(cfg, run, n - 1);
    }
  }

  lemma {:induction false} WorkDropsBy<T>(cfg: Config<T>, run: seq<State<T>>, n: nat)
    requires Shaped(cfg) && IsRun(cfg, run) && n < |run|
    ensures TotalWork(|cfg.rounds|, run[n]) + n <= TotalWork(|cfg.rounds|, run[0])
  {
    if n > 0 {
      WorkDropsBy(cfg, run, n - 1);
      var a := ActionAt(cfg, run, n - 1);
      StepWorks(cfg, run[n - 1], a);
    }
  }

  /** No run of any program is longer than 13 actions per rank and round, plus one round. */
  lemma {:induction false} RunsAreFinite<T>(cfg: Config<T>, run: seq<State<T>>)
    requires Shaped(cfg) && IsRun(cfg, run)
    ensures |run| - 1 <= |cfg.init| * (13 * |cfg.rounds| + 13)
  {
    var n := |run| - 1;
    WorkDropsBy(cfg, run, n);
    RoundsBounded(cfg, run, n);
    WorkIsNatural(|cfg.rounds|, run[n]);
    InitialWork(|cfg.rounds|, run[0]);
  }
}
