/**
 What the library promises of its data path, for every matched program, every
 interleaving and any amount of drift between ranks.
 */
module Guarantees {
  import opened Base
  import opened Transport
  import opened Discipline
  import opened Lockstep

  // ----- refinement

  /** Between two rounds a rank has nothing outstanding, has not thrown, and its memory
      is what the synchronous program gives it, wherever the other ranks are. */
  lemma {:induction false} BoundaryIsLockstep<T>(cfg: Config<T>, run: seq<State<T>>, n: nat, r: nat)
    requires Matched(cfg) && IsRun(cfg, run) && n < |run| && r < |cfg.init|
    requires run[n][r].pc.PostRecv?
    ensures run[n][r].round <= |cfg.rounds|
    ensures var rk := run[n][r];
            && !rk.failed && rk.sq == [] && rk.rq == [] && rk.scq == [] && rk.rcq == []
            && rk.mem == SyncAt(cfg, rk.round)[r]
  {
    RankTracks(cfg, run, n, r);
  }

  /** When every rank has returned, the memories are the synchronous result. */
  lemma {:induction false} CompletedRun<T>(cfg: Config<T>, run: seq<State<T>>, n: nat)
    requires Matched(cfg) && IsRun(cfg, run) && n < |run| && AllDone(cfg, run[n])
    ensures forall r :: 0 <= r < |cfg.init| ==> run[n][r].mem == Sync(cfg.rounds, cfg.f, cfg.init)[r]
  {
    assert cfg.rounds[..|cfg.rounds|] == cfg.rounds;
    forall r | 0 <= r < |cfg.init| ensures run[n][r].mem == Sync(cfg.rounds, cfg.f, cfg.init)[r] {
      RankTracks(cfg, run, n, r);
      assert Done(cfg, run[n][r]);
    }
  }

  /** No size check, and no completion status check, ever throws. */
  lemma {:induction false} NeverThrows<T>(cfg: Config<T>, run: seq<State<T>>, n: nat, r: nat)
    requires Matched(cfg) && IsRun(cfg, run) && n < |run| && r < |cfg.init|
    ensures !run[n][r].failed
  {
    RankTracks(cfg, run, n, r);
  }

  /** A wait looks at neither the queue pair nor the request id, and all queue pairs share
      two completion queues; still, whatever it finds is the current round's own completion,
      alone in the queue, successful and of the expected length. */
  lemma {:induction false} WaitsPopTheirOwn<T>(cfg: Config<T>, run: seq<State<T>>, n: nat, r: nat)
    requires Matched(cfg) && IsRun(cfg, run) && n < |run| && r < |cfg.init|
    requires run[n][r].round < |cfg.rounds|
    ensures var rk := run[n][r];
            var op := cfg.rounds[rk.round][r];
            && (rk.scq != [] ==> op.send.Some? && rk.pc.WaitSend? && |rk.scq| == 1 && rk.scq[0].ok
                                 && rk.scq[0].peer == op.send.value.peer && rk.scq[0].tag == rk.round)
            && (rk.rcq != [] ==>
                 op.recv.Some? && rk.rcq == [Wc(op.recv.value.peer, op.recv.value.slice.len, true, rk.round)])
  {
    RankTracks(cfg, run, n, r);
  }

  // ----- buffers in flight

  lemma {:induction false} RankExclusive<T>(cfg: Config<T>, rk: Rank<T>, r: nat)
    requires Matched(cfg) && r < |cfg.init| && Tracks(cfg, rk, r)
    ensures rk.sq != [] && rk.rq != [] ==> |rk.sq| == |rk.rq| == 1 && Disjoint(rk.sq[0].slice, rk.rq[0].slice)
    ensures rk.pc.Reduce? ==> rk.sq == [] && rk.rq == []
  {
    if rk.round < |cfg.rounds| {
      assert OpOk(cfg.rounds[rk.round][r], r, |cfg.init|, |cfg.init[r]|);
    }
  }

  /** A posted send never shares an address with the posted receive, and nothing at all is
      posted while the rank reduces. */
  lemma {:induction false} InFlightExclusive<T>(cfg: Config<T>, run: seq<State<T>>, n: nat, r: nat)
    requires Matched(cfg) && IsRun(cfg, run) && n < |run| && r < |cfg.init|
    ensures var rk := run[n][r];
            && (forall i, j :: 0 <= i < |rk.sq| && 0 <= j < |rk.rq| ==> Disjoint(rk.sq[i].slice, rk.rq[j].slice))
            && (rk.pc.Reduce? ==> rk.sq == [] && rk.rq == [])
  {
    RankTracks(cfg, run, n, r);
    RankExclusive(cfg, run[n][r], r);
  }

  /** From the moment a send is posted until it is acknowledged its slice does not change,
      so it does not matter when, in between, the hardware reads the payload. */
  lemma {:induction false} InFlightStable<T>(cfg: Config<T>, run: seq<State<T>>, n: nat, n': nat, r: nat)
    requires Matched(cfg) && IsRun(cfg, run) && n < |run| && n' < |run| && r < |cfg.init|
    requires run[n][r].sq != [] && run[n'][r].sq != [] && run[n][r].sq[0].tag == run[n'][r].sq[0].tag
    ensures var slice := run[n][r].sq[0].slice;
            && run[n'][r].sq[0].slice == slice
            && Within(slice, |run[n][r].mem|) && Within(slice, |run[n'][r].mem|)
            && Read(run[n][r].mem, slice) == Read(run[n'][r].mem, slice)
  {
    RunInv(cfg, run, n);
    RunInv(cfg, run, n');
    assert Tracks(cfg, run[n][r], r) && Tracks(cfg, run[n'][r], r);
    SendSliceIntact(cfg, run[n], r);
    SendSliceIntact(cfg, run[n'], r);
  }

  /** A rank that is about to reduce has the synchronous memory, with its message landed. */
  lemma {:induction false} ReducingMemory<T>(cfg: Config<T>, run: seq<State<T>>, n: nat, r: nat)
    requires Matched(cfg) && IsRun(cfg, run) && n < |run| && r < |cfg.init| && run[n][r].pc.Reduce?
    ensures run[n][r].round < |cfg.rounds|
    ensures run[n][r].mem == Landed(cfg.rounds[run[n][r].round], SyncAt(cfg, run[n][r].round), r)
  {
    RankTracks(cfg, run, n, r);
  }

  /** An address no operation of rank r may write keeps its value throughout every run. */
  lemma {:induction false} Frame<T>(cfg: Config<T>, run: seq<State<T>>, n: nat, r: nat, i: nat)
    requires Matched(cfg) && IsRun(cfg, run) && n < |run| && r < |cfg.init| && i < |cfg.init[r]|
    requires forall t :: 0 <= t < |cfg.rounds| ==> !Writes(cfg.rounds[t][r], i)
    ensures |run[n][r].mem| == |cfg.init[r]| && run[n][r].mem[i] == cfg.init[r][i]
  {
    RankTracks(cfg, run, n, r);
    var rk := run[n][r];
    var tr := TraceOf(cfg.rounds[..rk.round], cfg.f, cfg.init);
    TraceKeeps(cfg.rounds[..rk.round], cfg.f, cfg.init, tr, rk.round, r, i);
    if rk.round < |cfg.rounds| {
      LandedKeeps(cfg.rounds[rk.round], SyncAt(cfg, rk.round), r, i);
    }
  }

  // ----- progress

  lemma {:induction false} Slowest<T>(st: State<T>) returns (r: nat)
    requires st != []
    ensures r < |st| && forall q :: 0 <= q < |st| ==> st[r].round <= st[q].round
  {
    if |st| == 1 {
      r := 0;
    } else {
      var k := Slowest(st[1..]);
      assert forall q :: 1 <= q < |st| ==> st[q] == st[1..][q - 1];
      r := if st[0].round <= st[k + 1].round then 0 else k + 1;
    }
  }

  /** Two ranks in the same round, one with its send posted and one with the matching
      receive posted, can exchange the message. */
  lemma {:induction false} CanDeliver<T>(cfg: Config<T>, st: State<T>, s: nat, r: nat)
    requires Inv(cfg, st) && s < |st| && r < |st| && st[s].round == st[r].round < |cfg.rounds|
    requires cfg.rounds[st[s].round][s].send.Some? && cfg.rounds[st[s].round][s].send.value.peer == r
    requires st[s].sq != [] && !st[s].sq[0].accepted && st[r].rq != []
    ensures Enabled(cfg, st, Deliver(s, 0, r, 0))
  {
    var round := cfg.rounds[st[s].round];
    assert Tracks(cfg, st[s], s) && Tracks(cfg, st[r], r);
    assert SendMet(round, s);
    assert OpOk(round[s], s, |round|, |st[s].mem|) && OpOk(round[r], r, |round|, |st[r].mem|);
  }

  /** The slowest rank waits for a send only if its receiver can still move. */
  lemma {:induction false} SendProgress<T>(cfg: Config<T>, st: State<T>, s: nat)
    requires Inv(cfg, st) && s < |st| && st[s].round < |cfg.rounds|
    requires forall q :: 0 <= q < |st| ==> st[s].round <= st[q].round
    requires st[s].pc.WaitSend? && cfg.rounds[st[s].round][s].send.Some? && st[s].scq == []
    ensures exists a :: Enabled(cfg, st, a)
  {
    assert Tracks(cfg, st[s], s);
    var round := cfg.rounds[st[s].round];
    var r := round[s].send.value.peer;
    if st[s].sq[0].accepted {
      assert Enabled(cfg, st, Ack(s, 0));
    } else {
      assert SendMet(round, s);
      assert !Sent(st[s], st[s].round) && !Arrived(st[r], st[s].round);
      assert Tracks(cfg, st[r], r);
      if st[r].pc.PostRecv? {
        assert Enabled(cfg, st, Local(r));
      } else {
        CanDeliver(cfg, st, s, r);
      }
    }
  }

  lemma {:induction false} RecvProgress<T>(cfg: Config<T>, st: State<T>, r: nat)
    requires Inv(cfg, st) && r < |st| && st[r].round < |cfg.rounds|
    requires forall q :: 0 <= q < |st| ==> st[r].round <= st[q].round
    requires st[r].pc.WaitRecv? && cfg.rounds[st[r].round][r].recv.Some? && st[r].rcq == []
    ensures exists a :: Enabled(cfg, st, a)
  {
    assert Tracks(cfg, st[r], r);
    var round := cfg.rounds[st[r].round];
    var s := round[r].recv.value.peer;
    assert RecvMet(round, r);
    assert !Arrived(st[r], st[r].round) && !Sent(st[s], st[r].round);
    assert Tracks(cfg, st[s], s);
    if st[s].pc.PostRecv? || st[s].pc.PostSend? {
      assert Enabled(cfg, st, Local(s));
    } else {
      CanDeliver(cfg, st, s, r);
    }
  }

  lemma {:induction false} InvProgress<T>(cfg: Config<T>, st: State<T>)
    requires Inv(cfg, st) && !AllDone(cfg, st)
    ensures exists a :: Enabled(cfg, st, a)
  {
    var r := Slowest(st);
    assert forall q :: 0 <= q < |st| ==> Tracks(cfg, st[q], q);
    var rk := st[r];
    assert rk.round < |cfg.rounds|;
    var op := cfg.rounds[rk.round][r];
    assert OpOk(op, r, |cfg.init|, |rk.mem|);
    if rk.pc.WaitSend? && op.send.Some? && rk.scq == [] {
      SendProgress(cfg, st, r);
    } else if rk.pc.WaitRecv? && op.recv.Some? && rk.rcq == [] {
      RecvProgress(cfg, st, r);
    } else {
      assert Enabled(cfg, st, Local(r));
    }
  }

  /** Deadlock freedom: in every state of every run, something can happen exactly when
      some rank has not returned. */
  lemma {:induction false} DeadlockFree<T>(cfg: Config<T>, run: seq<State<T>>, n: nat)
    requires Matched(cfg) && IsRun(cfg, run) && n < |run|
    ensures Quiescent(cfg, run[n]) <==> AllDone(cfg, run[n])
  {
    RunInv(cfg, run, n);
    var st := run[n];
    if !AllDone(cfg, st) {
      InvProgress(cfg, st);
    } else {
      forall a ensures !Enabled(cfg, st, a) {
        assert forall r :: 0 <= r < |st| ==> Done(cfg, st[r]) && Tracks(cfg, st[r], r);
      }
    }
  }

  lemma {:induction false} CanExtend<T>(cfg: Config<T>, run: seq<State<T>>) returns (run': seq<State<T>>)
    requires Matched(cfg) && IsRun(cfg, run) && !AllDone(cfg, run[|run| - 1])
    ensures IsRun(cfg, run') && run < run' && |run'| == |run| + 1
  {
    RunInv(cfg, run, |run| - 1);
    InvProgress(cfg, run[|run| - 1]);
    var a :| Enabled(cfg, run[|run| - 1], a);
    run' := Extend(cfg, run, a);
  }

  /** However a run was scheduled so far, it can be continued to completion; with
      `RunsAreFinite` and `DeadlockFree`, it cannot be continued to anything else. */
  lemma {:induction false} RunCompletes<T>(cfg: Config<T>, run: seq<State<T>>) returns (full: seq<State<T>>)
    requires Matched(cfg) && IsRun(cfg, run)
    ensures IsRun(cfg, full) && run <= full && AllDone(cfg, full[|full| - 1])
    decreases |cfg.init| * (13 * |cfg.rounds| + 13) + 1 - |run|
  {
    if AllDone(cfg, run[|run| - 1]) {
      full := run;
    } else {
      var run' := CanExtend(cfg, run);
      RunsAreFinite(cfg, run');
      full := RunCompletes(cfg, run');
    }
  }

  // ----- drift

  /** A rank past round t implies that the rank it exchanged with in round t has reached it. */
  lemma {:induction false} PeersReached<T>(cfg: Config<T>, run: seq<State<T>>, n: nat, s: nat, t: nat)
    requires Matched(cfg) && IsRun(cfg, run) && n < |run| && s < |cfg.init| && t < |cfg.rounds|
    requires cfg.rounds[t][s].send.Some?
    ensures cfg.rounds[t][s].send.value.peer < |run[n]|
    ensures run[n][s].round > t ==> run[n][cfg.rounds[t][s].send.value.peer].round >= t
    ensures run[n][cfg.rounds[t][s].send.value.peer].round > t ==> run[n][s].round >= t
  {
    RunInv(cfg, run, n);
    assert Sent(run[n][s], t) || !Sent(run[n][s], t);
  }

  predicate AlwaysSendsTo(rounds: seq<Round>, r: nat, s: nat) {
    forall t :: 0 <= t < |rounds| ==> r < |rounds[t]| && rounds[t][r].send.Some? && rounds[t][r].send.value.peer == s
  }

  /** Ranks that exchange a message in every round are never more than one round apart. */
  lemma {:induction false} SendersKeepUp<T>(cfg: Config<T>, run: seq<State<T>>, n: nat, r: nat, s: nat)
    requires Matched(cfg) && IsRun(cfg, run) && n < |run| && r < |cfg.init| && s < |cfg.init|
    requires AlwaysSendsTo(cfg.rounds, r, s)
    ensures |run[n]| == |cfg.init| && -1 <= run[n][s].round - run[n][r].round <= 1
  {
    RankTracks(cfg, run, n, r);
    RankTracks(cfg, run, n, s);
    var a, b := run[n][r].round, run[n][s].round;
    if a > 0 {
      PeersReached(cfg, run, n, r, a - 1);
    }
    if b > 0 {
      PeersReached(cfg, run, n, r, b - 1);
    }
  }
}
