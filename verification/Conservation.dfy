/**
 Conservation of messages in every run of every program, whether or not its sends and
 receives match: between two ranks that have seen no error, the messages one has put into
 the other's memory are, length by length and in order, those the other has received.
 */
module Conservation {
  import opened Base
  import opened Transport
  import opened Discipline
  import opened Lockstep

  /** The length of the message an operation sends to rank p, and receives from rank p, if any. */
  function SendsTo(op: Op, p: nat): seq<nat> {
    if op.send.Some? && op.send.value.peer == p then [op.send.value.slice.len] else []
  }

  function ReceivesFrom(op: Op, p: nat): seq<nat> {
    if op.recv.Some? && op.recv.value.peer == p then [op.recv.value.slice.len] else []
  }

  /** The lengths of the messages rank r sends to rank p in its first t rounds, in order. */
  function SentTo(rounds: seq<Round>, r: nat, p: nat, t: nat): seq<nat>
    requires HasRank(rounds, r) && t <= |rounds|
  {
    if t == 0 then [] else SentTo(rounds, r, p, t - 1) + SendsTo(rounds[t - 1][r], p)
  }

  /** The lengths rank r expects from rank p in its first t rounds, in order. */
  function ExpectedFrom(rounds: seq<Round>, r: nat, p: nat, t: nat): seq<nat>
    requires HasRank(rounds, r) && t <= |rounds|
  {
    if t == 0 then [] else ExpectedFrom(rounds, r, p, t - 1) + ReceivesFrom(rounds[t - 1][r], p)
  }

  /** The rank threw, or will when it pops the error that is waiting for it. */
  predicate Spoiled<T>(rk: Rank<T>) {
    || rk.failed
    || (rk.scq != [] && !rk.scq[0].ok)
    || (rk.rcq != [] && !rk.rcq[0].ok)
  }

  /** What rank r has put into rank p's memory so far. */
  ghost function Accepted<T>(cfg: Config<T>, rk: Rank<T>, r: nat, p: nat): seq<nat>
    requires Shaped(cfg) && r < |cfg.init| && rk.round <= |cfg.rounds|
  {
    SentTo(cfg.rounds, r, p, rk.round)
    + if rk.round < |cfg.rounds| && Sent(rk, rk.round) then SendsTo(cfg.rounds[rk.round][r], p) else []
  }

  /** What has arrived from rank p in rank r's memory so far. */
  ghost function Received<T>(cfg: Config<T>, rk: Rank<T>, r: nat, p: nat): seq<nat>
    requires Shaped(cfg) && r < |cfg.init| && rk.round <= |cfg.rounds|
  {
    ExpectedFrom(cfg.rounds, r, p, rk.round)
    + if rk.round == |cfg.rounds| then []
      else if rk.pc.Reduce? then ReceivesFrom(cfg.rounds[rk.round][r], p)
      else if rk.rcq != [] && rk.rcq[0].peer == p then [rk.rcq[0].len]
      else []
  }

  ghost predicate Flows<T>(cfg: Config<T>, s: nat, sk: Rank<T>, r: nat, rk: Rank<T>)
    requires Shaped(cfg) && s < |cfg.init| && r < |cfg.init| && sk.round <= |cfg.rounds| && rk.round <= |cfg.rounds|
  {
    !Spoiled(sk) && !Spoiled(rk) ==> Accepted(cfg, sk, s, r) == Received(cfg, rk, r, s)
  }

  ghost predicate RoundsWithin<T>(cfg: Config<T>, st: State<T>) {
    forall r :: 0 <= r < |st| ==> st[r].round <= |cfg.rounds|
  }

  ghost predicate Conserved<T>(cfg: Config<T>, st: State<T>)
    requires Shaped(cfg)
  {
    && Disciplined(cfg, st) && RoundsWithin(cfg, st)
    && forall s, r {:trigger Flows(cfg, s, st[s], r, st[r])} ::
         0 <= s < |st| && 0 <= r < |st| && s != r ==> Flows(cfg, s, st[s], r, st[r])
  }

  // ----- one rank's steps

  lemma {:induction false} AdvanceFlow<T>(cfg: Config<T>, rk: Rank<T>, r: nat, p: nat)
    requires Shaped(cfg) && r < |cfg.init| && !rk.failed && QueueShape(cfg, rk, r) && Ready(cfg, rk, r)
    ensures var rk' := Advance(cfg.f, cfg.rounds[rk.round][r], rk);
            && rk'.round <= |cfg.rounds|
            && (!Spoiled(rk') ==> !Spoiled(rk) && Accepted(cfg, rk', r, p) == Accepted(cfg, rk, r, p)
                                  && Received(cfg, rk', r, p) == Received(cfg, rk, r, p))
  {
  }

  lemma {:induction false} SenderFlow<T>(cfg: Config<T>, rk: Rank<T>, r: nat, i: nat, fits: bool, p: nat)
    requires Shaped(cfg) && r < |cfg.init| && !rk.failed && QueueShape(cfg, rk, r) && i < |rk.sq| && !rk.sq[i].accepted
    ensures var rk' := Sender(rk, i, fits);
            !Spoiled(rk') ==>
              && fits && !Spoiled(rk) && Received(cfg, rk', r, p) == Received(cfg, rk, r, p)
              && Accepted(cfg, rk', r, p)
                 == Accepted(cfg, rk, r, p) + if rk.sq[i].peer == p then [rk.sq[i].slice.len] else []
  {
  }

  lemma {:induction false} ReceiverFlow<T>(cfg: Config<T>, rk: Rank<T>, r: nat, j: nat, payload: seq<T>, p: nat)
    requires Shaped(cfg) && r < |cfg.init| && !rk.failed && QueueShape(cfg, rk, r)
    requires j < |rk.rq| && Within(rk.rq[j].slice, |rk.mem|)
    ensures var rk' := Receiver(rk, j, payload);
            !Spoiled(rk') ==>
              && !Spoiled(rk) && Accepted(cfg, rk', r, p) == Accepted(cfg, rk, r, p)
              && Received(cfg, rk', r, p) == Received(cfg, rk, r, p) + if rk.rq[j].peer == p then [|payload|] else []
  {
  }

  lemma {:induction false} AckFlow<T>(cfg: Config<T>, rk: Rank<T>, r: nat, i: nat, p: nat)
    requires Shaped(cfg) && r < |cfg.init| && !rk.failed && QueueShape(cfg, rk, r) && i < |rk.sq| && rk.sq[i].accepted
    ensures var rk' := Acked(rk, i);
            !Spoiled(rk') ==> !Spoiled(rk) && Accepted(cfg, rk', r, p) == Accepted(cfg, rk, r, p)
                              && Received(cfg, rk', r, p) == Received(cfg, rk, r, p)
  {
  }

  // ----- every action conserves

  lemma {:induction false} LocalConserves<T>(cfg: Config<T>, st: State<T>, q: nat)
    requires Shaped(cfg) && Conserved(cfg, st) && Enabled(cfg, st, Local(q))
    ensures Conserved(cfg, Apply(cfg, st, Local(q)))
  {
    var st' := Apply(cfg, st, Local(q));
    StepKeepsDiscipline(cfg, st, Local(q));
    forall s, r | 0 <= s < |st| && 0 <= r < |st| && s != r
      ensures st'[s].round <= |cfg.rounds| && st'[r].round <= |cfg.rounds|
      ensures Flows(cfg, s, st'[s], r, st'[r])
    {
      assert Flows(cfg, s, st[s], r, st[r]);
      AdvanceFlow(cfg, st[q], q, if q == s then r else s);
    }
    AdvanceFlow(cfg, st[q], q, q);
  }

  lemma {:induction false} AckConserves<T>(cfg: Config<T>, st: State<T>, q: nat, i: nat)
    requires Shaped(cfg) && Conserved(cfg, st) && Enabled(cfg, st, Ack(q, i))
    ensures Conserved(cfg, Apply(cfg, st, Ack(q, i)))
  {
    var st' := Apply(cfg, st, Ack(q, i));
    StepKeepsDiscipline(cfg, st, Ack(q, i));
    forall s, r | 0 <= s < |st| && 0 <= r < |st| && s != r ensures Flows(cfg, s, st'[s], r, st'[r]) {
      assert Flows(cfg, s, st[s], r, st[r]);
      if !st[q].failed {
        AckFlow(cfg, st[q], q, i, if q == s then r else s);
      }
    }
  }

  /** A delivery from a to b, seen by the pair s and r. */
  lemma {:induction false} DeliverFlows<T>(cfg: Config<T>, st: State<T>, a: nat, i: nat, b: nat, j: nat, s: nat, r: nat)
    requires Shaped(cfg) && Conserved(cfg, st) && Enabled(cfg, st, Deliver(a, i, b, j))
    requires s < |st| && r < |st| && s != r
    ensures var st' := Apply(cfg, st, Deliver(a, i, b, j));
            st'[s].round <= |cfg.rounds| && st'[r].round <= |cfg.rounds| && Flows(cfg, s, st'[s], r, st'[r])
  {
    assert Flows(cfg, s, st[s], r, st[r]);
    var payload := Read(st[a].mem, st[a].sq[i].slice);
    if !st[a].failed {
      SenderFlow(cfg, st[a], a, i, |payload| <= st[b].rq[j].slice.len, if a == s then r else s);
    }
    if !st[b].failed {
      ReceiverFlow(cfg, st[b], b, j, payload, if b == s then r else s);
    }
  }

  lemma {:induction false} DeliverConserves<T>(cfg: Config<T>, st: State<T>, a: nat, i: nat, b: nat, j: nat)
    requires Shaped(cfg) && Conserved(cfg, st) && Enabled(cfg, st, Deliver(a, i, b, j))
    ensures Conserved(cfg, Apply(cfg, st, Deliver(a, i, b, j)))
  {
    var st' := Apply(cfg, st, Deliver(a, i, b, j));
    StepKeepsDiscipline(cfg, st, Deliver(a, i, b, j));
    forall s, r | 0 <= s < |st| && 0 <= r < |st| && s != r ensures Flows(cfg, s, st'[s], r, st'[r]) {
      DeliverFlows(cfg, st, a, i, b, j, s, r);
    }
  }

  lemma {:induction false} StartConserves<T>(cfg: Config<T>)
    requires Shaped(cfg)
    ensures Conserved(cfg, Init(cfg))
  {
    var st := Init(cfg);
    forall s, r | 0 <= s < |st| && 0 <= r < |st| && s != r ensures Flows(cfg, s, st[s], r, st[r]) {
      assert !Sent(st[s], 0);
    }
  }

  /** In every state of every run of every program, between two ranks that have seen no error,
      the messages one has sent to the other are those the other has received from it. */
  lemma {:induction false} RunConserves<T>(cfg: Config<T>, run: seq<State<T>>, n: nat)
    requires Shaped(cfg) && IsRun(cfg, run) && n < |run|
    ensures Conserved(cfg, run[n])
  {
    if n == 0 {
      StartConserves(cfg);
    } else {
      RunConserves(cfg, run, n - 1);
      var a := ActionAt(cfg, run, n - 1);
      match a
      case Local(r) => LocalConserves(cfg, run[n - 1], r);
      case Deliver(s, i, r, j) => DeliverConserves(cfg, run[n - 1], s, i, r, j);
      case Ack(s, i) => AckConserves(cfg, run[n - 1], s, i);
    }
  }

  /** If all ranks return, each sent to each other one exactly the messages that one expected. */
  lemma {:induction false} DoneConserves<T>(cfg: Config<T>, run: seq<State<T>>, n: nat, s: nat, r: nat)
    requires Shaped(cfg) && IsRun(cfg, run) && n < |run| && AllDone(cfg, run[n])
    requires s < |cfg.init| && r < |cfg.init| && s != r
    ensures SentTo(cfg.rounds, s, r, |cfg.rounds|) == ExpectedFrom(cfg.rounds, r, s, |cfg.rounds|)
  {
    RunConserves(cfg, run, n);
    assert Done(cfg, run[n][s]) && Done(cfg, run[n][r]);
    assert QueueShape(cfg, run[n][s], s) && QueueShape(cfg, run[n][r], r);
    assert Flows(cfg, s, run[n][s], r, run[n][r]);
    var sent, expected := SentTo(cfg.rounds, s, r, |cfg.rounds|), ExpectedFrom(cfg.rounds, r, s, |cfg.rounds|);
    assert sent + [] == sent && expected + [] == expected;
  }

  // ----- what conservation says of the parts of a program

  ghost predicate LinkBalanced(rounds: seq<Round>, s: nat, r: nat) {
    && HasRank(rounds, s) && HasRank(rounds, r)
    && SentTo(rounds, s, r, |rounds|) == ExpectedFrom(rounds, r, s, |rounds|)
  }

  /** Each of `ranks` ranks sends each other one the messages that one expects. */
  ghost predicate Balanced(rounds: seq<Round>, ranks: nat) {
    forall s, r {:trigger LinkBalanced(rounds, s, r)} ::
      0 <= s < ranks && 0 <= r < ranks && s != r ==> LinkBalanced(rounds, s, r)
  }

  lemma {:induction false} DoneIsBalanced<T>(cfg: Config<T>, run: seq<State<T>>, n: nat)
    requires Shaped(cfg) && IsRun(cfg, run) && n < |run| && AllDone(cfg, run[n])
    ensures Balanced(cfg.rounds, |cfg.init|)
  {
    forall s, r | 0 <= s < |cfg.init| && 0 <= r < |cfg.init| && s != r ensures LinkBalanced(cfg.rounds, s, r) {
      DoneConserves(cfg, run, n, s, r);
    }
  }

  /** In this round s sends to r exactly if r receives from s, whatever the lengths. */
  ghost predicate LinkPaired(round: Round, s: nat, r: nat) {
    s < |round| && r < |round| && |SendsTo(round[s], r)| == |ReceivesFrom(round[r], s)|
  }

  ghost predicate Paired(rounds: seq<Round>, ranks: nat) {
    forall t, s, r {:trigger LinkPaired(rounds[t], s, r)} ::
      0 <= t < |rounds| && 0 <= s < ranks && 0 <= r < ranks && s != r ==> LinkPaired(rounds[t], s, r)
  }

  lemma {:induction false} PairedLengths(rounds: seq<Round>, ranks: nat, s: nat, r: nat, t: nat)
    requires Paired(rounds, ranks) && s < ranks && r < ranks && s != r && t <= |rounds|
    requires HasRank(rounds, s) && HasRank(rounds, r)
    ensures |SentTo(rounds, s, r, t)| == |ExpectedFrom(rounds, r, s, t)|
  {
    if t > 0 {
      PairedLengths(rounds, ranks, s, r, t - 1);
      assert LinkPaired(rounds[t - 1], s, r);
    }
  }

  lemma {:induction false} SentOfConcat(a: seq<Round>, b: seq<Round>, r: nat, p: nat, t: nat)
    requires HasRank(a, r) && HasRank(b, r) && HasRank(a + b, r) && t <= |b|
    ensures SentTo(a + b, r, p, |a| + t) == SentTo(a, r, p, |a|) + SentTo(b, r, p, t)
  {
    if t == 0 {
      SentOfPrefix(a, b, r, p, |a|);
    } else {
      SentOfConcat(a, b, r, p, t - 1);
      assert (a + b)[|a| + t - 1] == b[t - 1];
      Reassociate(SentTo(a, r, p, |a|), SentTo(b, r, p, t - 1), SendsTo(b[t - 1][r], p));
    }
  }

  lemma {:induction false} ExpectedOfConcat(a: seq<Round>, b: seq<Round>, r: nat, p: nat, t: nat)
    requires HasRank(a, r) && HasRank(b, r) && HasRank(a + b, r) && t <= |b|
    ensures ExpectedFrom(a + b, r, p, |a| + t) == ExpectedFrom(a, r, p, |a|) + ExpectedFrom(b, r, p, t)
  {
    if t == 0 {
      ExpectedOfPrefix(a, b, r, p, |a|);
    } else {
      ExpectedOfConcat(a, b, r, p, t - 1);
      assert (a + b)[|a| + t - 1] == b[t - 1];
      Reassociate(ExpectedFrom(a, r, p, |a|), ExpectedFrom(b, r, p, t - 1), ReceivesFrom(b[t - 1][r], p));
    }
  }

  lemma {:induction false} Reassociate(a: seq<nat>, b: seq<nat>, c: seq<nat>)
    ensures a + b + c == a + (b + c)
  {
  }

  lemma {:induction false} SentOfPrefix(a: seq<Round>, b: seq<Round>, r: nat, p: nat, t: nat)
    requires HasRank(a, r) && HasRank(a + b, r) && t <= |a|
    ensures SentTo(a + b, r, p, t) == SentTo(a, r, p, t)
  {
    if t > 0 {
      SentOfPrefix(a, b, r, p, t - 1);
    }
  }

  lemma {:induction false} ExpectedOfPrefix(a: seq<Round>, b: seq<Round>, r: nat, p: nat, t: nat)
    requires HasRank(a, r) && HasRank(a + b, r) && t <= |a|
    ensures ExpectedFrom(a + b, r, p, t) == ExpectedFrom(a, r, p, t)
  {
    if t > 0 {
      ExpectedOfPrefix(a, b, r, p, t - 1);
    }
  }

  lemma {:induction false} WholeFlow(a: seq<Round>, b: seq<Round>, whole: seq<Round>, s: nat, r: nat)
    requires whole == a + b && HasRank(a, s) && HasRank(b, s) && HasRank(a, r) && HasRank(b, r)
    ensures HasRank(whole, s) && HasRank(whole, r)
    ensures SentTo(whole, s, r, |whole|) == SentTo(a, s, r, |a|) + SentTo(b, s, r, |b|)
    ensures ExpectedFrom(whole, r, s, |whole|) == ExpectedFrom(a, r, s, |a|) + ExpectedFrom(b, r, s, |b|)
  {
    SentOfConcat(a, b, s, r, |b|);
    ExpectedOfConcat(a, b, r, s, |b|);
  }

  lemma {:induction false} LinkParts(a: seq<Round>, b: seq<Round>, whole: seq<Round>, ranks: nat, s: nat, r: nat)
    requires whole == a + b && LinkBalanced(whole, s, r) && Paired(a, ranks) && s < ranks && r < ranks && s != r
    requires HasRank(a, s) && HasRank(b, s) && HasRank(a, r) && HasRank(b, r)
    ensures LinkBalanced(a, s, r) && LinkBalanced(b, s, r)
  {
    WholeFlow(a, b, whole, s, r);
    PairedLengths(a, ranks, s, r, |a|);
    SamePieces(SentTo(a, s, r, |a|), SentTo(b, s, r, |b|), ExpectedFrom(a, r, s, |a|), ExpectedFrom(b, r, s, |b|));
  }

  /** If the first part of a balanced program is paired, both parts are balanced: the first
      messages of every link can only have met each other. */
  lemma {:induction false} BalancedParts(a: seq<Round>, b: seq<Round>, ranks: nat)
    requires Balanced(a + b, ranks) && Paired(a, ranks)
    requires forall r: nat :: r < ranks ==> HasRank(a, r) && HasRank(b, r)
    ensures Balanced(a, ranks) && Balanced(b, ranks)
  {
    forall s, r | 0 <= s < ranks && 0 <= r < ranks && s != r ensures LinkBalanced(a, s, r) && LinkBalanced(b, s, r) {
      assert LinkBalanced(a + b, s, r);
      LinkParts(a, b, a + b, ranks, s, r);
    }
  }

  lemma {:induction false} SamePieces(a: seq<nat>, b: seq<nat>, x: seq<nat>, y: seq<nat>)
    requires a + b == x + y && |a| == |x|
    ensures a == x && b == y
  {
    assert a == (a + b)[..|a|] && x == (x + y)[..|x|];
    assert b == (a + b)[|a|..] && y == (x + y)[|x|..];
  }

  // ----- volumes

  /** The sum of the first n lengths. */
  function TotalOf(lens: seq<nat>, n: nat): nat
    requires n <= |lens|
  {
    if n == 0 then 0 else TotalOf(lens, n - 1) + lens[n - 1]
  }

  lemma {:induction false} TotalOfPrefix(lens: seq<nat>, more: seq<nat>, n: nat)
    requires n <= |lens|
    ensures TotalOf(lens + more, n) == TotalOf(lens, n)
  {
    if n > 0 {
      TotalOfPrefix(lens, more, n - 1);
    }
  }

  lemma {:induction false} TotalAppend(lens: seq<nat>, more: seq<nat>, all: seq<nat>)
    requires |more| <= 1 && all == lens + more
    ensures TotalOf(all, |all|) == TotalOf(lens, |lens|) + if more == [] then 0 else more[0]
  {
    TotalOfPrefix(lens, more, |lens|);
  }

  /** The elements rank r sends to rank p in its first t rounds, and expects from it. */
  function SentVolume(rounds: seq<Round>, r: nat, p: nat, t: nat): nat
    requires HasRank(rounds, r) && t <= |rounds|
  {
    if t == 0 then 0
    else
      var op := rounds[t - 1][r];
      SentVolume(rounds, r, p, t - 1)
      + if op.send.Some? && op.send.value.peer == p then op.send.value.slice.len else 0
  }

  function ExpectedVolume(rounds: seq<Round>, r: nat, p: nat, t: nat): nat
    requires HasRank(rounds, r) && t <= |rounds|
  {
    if t == 0 then 0
    else
      var op := rounds[t - 1][r];
      ExpectedVolume(rounds, r, p, t - 1)
      + if op.recv.Some? && op.recv.value.peer == p then op.recv.value.slice.len else 0
  }

  lemma {:induction false} SentVolumeIsTotal(rounds: seq<Round>, r: nat, p: nat, t: nat)
    requires HasRank(rounds, r) && t <= |rounds|
    ensures SentVolume(rounds, r, p, t) == TotalOf(SentTo(rounds, r, p, t), |SentTo(rounds, r, p, t)|)
  {
    if t > 0 {
      SentVolumeIsTotal(rounds, r, p, t - 1);
      var before, more := SentTo(rounds, r, p, t - 1), SendsTo(rounds[t - 1][r], p);
      TotalAppend(before, more, SentTo(rounds, r, p, t));
    }
  }

  lemma {:induction false} ExpectedVolumeIsTotal(rounds: seq<Round>, r: nat, p: nat, t: nat)
    requires HasRank(rounds, r) && t <= |rounds|
    ensures ExpectedVolume(rounds, r, p, t) == TotalOf(ExpectedFrom(rounds, r, p, t), |ExpectedFrom(rounds, r, p, t)|)
  {
    if t > 0 {
      ExpectedVolumeIsTotal(rounds, r, p, t - 1);
      var before, more := ExpectedFrom(rounds, r, p, t - 1), ReceivesFrom(rounds[t - 1][r], p);
      TotalAppend(before, more, ExpectedFrom(rounds, r, p, t));
    }
  }

  lemma {:induction false} BalancedVolumes(rounds: seq<Round>, s: nat, r: nat)
    requires LinkBalanced(rounds, s, r)
    ensures SentVolume(rounds, s, r, |rounds|) == ExpectedVolume(rounds, r, s, |rounds|)
  {
    SentVolumeIsTotal(rounds, s, r, |rounds|);
    ExpectedVolumeIsTotal(rounds, r, s, |rounds|);
  }
}
