/** Construction and barriers always finish. */
module MeshProgress {
  import opened Wire
  import opened Star
  import opened Exchange
  import opened StarProgress
  import opened Mesh

  /** How many peers each rank's second loop has yet to come to. */
  function Remaining(ranks: nat, next: seq<nat>): (xs: seq<int>)
    ensures |xs| == |next|
  {
    seq(|next|, r requires 0 <= r < |next| => ranks - next[r])
  }

  /** The calls and bytes left in the bootstrap, and the queue pairs left to connect. */
  function MeshWork(cfg: MeshConfig, c: Costs, st: MeshState): int {
    NetWork(c, st.net) + Sum(Remaining(Ranks(cfg), st.next))
  }

  lemma {:induction false} RemainingStep(ranks: nat, next: seq<nat>, r: nat)
    requires r < |next|
    ensures Sum(Remaining(ranks, next[r := next[r] + 1])) == Sum(Remaining(ranks, next)) - 1
  {
    SumUpdate(Remaining(ranks, next), r, ranks - (next[r] + 1));
    assert Remaining(ranks, next[r := next[r] + 1]) == Remaining(ranks, next)[r := ranks - (next[r] + 1)];
  }

  lemma {:induction false} ConnectWork(cfg: MeshConfig, c: Costs, st: MeshState, r: nat)
    requires Shaped(cfg) && |st.qps| == |st.next| == Ranks(cfg) == |st.net.peers| + 1
    requires MeshAllowed(cfg, st, ConnectNext(r))
    ensures MeshWork(cfg, c, MeshDo(cfg, st, ConnectNext(r))) == MeshWork(cfg, c, st) - 1
  {
    RemainingStep(Ranks(cfg), st.next, r);
  }

  /** Every action uses up work. */
  lemma {:induction false} ActionWork(cfg: MeshConfig, c: Costs, st: MeshState, a: Action)
    requires Shaped(cfg) && HasCosts(cfg.star, c) && MeshInv(cfg, st) && MeshAllowed(cfg, st, a)
    ensures MeshWork(cfg, c, MeshDo(cfg, st, a)) < MeshWork(cfg, c, st)
  {
    match a
    case Boot(m) => MoveWork(cfg.star, c, st.net, m);
    case ConnectNext(r) => ConnectWork(cfg, c, st, r);
  }

  lemma {:induction false} MeshWorkNatural(cfg: MeshConfig, c: Costs, st: MeshState)
    requires Shaped(cfg) && HasCosts(cfg.star, c) && MeshInv(cfg, st)
    ensures MeshWork(cfg, c, st) >= 0
  {
    NetWorkNatural(cfg.star, c, st.net);
    forall r | 0 <= r < |st.next| ensures Ranks(cfg) - st.next[r] >= 0 {
      assert RankInv(cfg, st, r);
    }
    SumNatural(Remaining(Ranks(cfg), st.next));
  }

  lemma {:induction false} MeshWorkFallsBy(cfg: MeshConfig, outgoing: seq<map<int, EndpointInfo>>, c: Costs,
                                           run: seq<MeshState>, n: nat)
    requires MeshOk(cfg, outgoing) && HasCosts(cfg.star, c) && IsMeshRun(cfg, run) && n < |run|
    ensures MeshWork(cfg, c, run[n]) + n <= MeshWork(cfg, c, run[0])
  {
    if n > 0 {
      MeshWorkFallsBy(cfg, outgoing, c, run, n - 1);
      MeshRunInv(cfg, outgoing, run, n - 1);
      var a := MeshActionAt(cfg, run, n - 1);
      ActionWork(cfg, c, run[n - 1], a);
    }
  }

  lemma {:induction false} FreshRemaining(ranks: nat, next: seq<nat>)
    requires forall r :: 0 <= r < |next| ==> next[r] == 0
    ensures Sum(Remaining(ranks, next)) == |next| * ranks
  {
    if next != [] {
      var n := |next| - 1;
      FreshRemaining(ranks, next[..n]);
      assert Remaining(ranks, next)[..n] == Remaining(ranks, next[..n]);
      assert |next| * ranks == n * ranks + ranks;
    }
  }

  /** No run has more actions than the exchanges have calls and bytes to write and read, and one
      for each pair of ranks. */
  lemma {:induction false} MeshRunsAreFinite(cfg: MeshConfig, outgoing: seq<map<int, EndpointInfo>>, c: Costs,
                                             run: seq<MeshState>)
    requires MeshOk(cfg, outgoing) && HasCosts(cfg.star, c) && IsMeshRun(cfg, run)
    ensures |run| - 1 <= NetWork(c, Start(cfg.star)) + Ranks(cfg) * Ranks(cfg)
  {
    var n := |run| - 1;
    MeshWorkFallsBy(cfg, outgoing, c, run, n);
    MeshRunInv(cfg, outgoing, run, n);
    MeshWorkNatural(cfg, c, run[n]);
    FreshRemaining(Ranks(cfg), run[0].next);
  }

  lemma {:induction false} MeshRunExtends(cfg: MeshConfig, run: seq<MeshState>) returns (run': seq<MeshState>)
    requires Shaped(cfg) && IsMeshRun(cfg, run) && !MeshStuck(cfg, run[|run| - 1])
    ensures IsMeshRun(cfg, run') && run <= run' && |run'| == |run| + 1
  {
    var st := run[|run| - 1];
    var a :| MeshAllowed(cfg, st, a);
    run' := run + [MeshDo(cfg, st, a)];
    forall i | 0 <= i < |run'| - 1 ensures MeshMoves(cfg, run'[i], run'[i + 1]) {
      if i < |run| - 1 {
        assert MeshMoves(cfg, run[i], run[i + 1]);
      }
    }
  }

  /** Every rank has constructed its mesh and left every barrier. */
  ghost predicate AllReady(cfg: MeshConfig, st: MeshState)
    requires Shaped(cfg) && |st.next| == Ranks(cfg)
  {
    AllReturned(cfg.star, st.net) && forall r :: 0 <= r < Ranks(cfg) ==> Constructed(cfg, st, r)
  }

  /** However a run has begun, it can be continued, and only so, until every rank has constructed
      its mesh and left every barrier. */
  lemma {:induction false} MeshRunCompletes(cfg: MeshConfig, outgoing: seq<map<int, EndpointInfo>>, c: Costs,
                                            run: seq<MeshState>)
    returns (full: seq<MeshState>)
    requires MeshOk(cfg, outgoing) && HasCosts(cfg.star, c) && IsMeshRun(cfg, run)
    ensures IsMeshRun(cfg, full) && run <= full && AllReady(cfg, full[|full| - 1])
    decreases NetWork(c, Start(cfg.star)) + Ranks(cfg) * Ranks(cfg) + 1 - |run|
  {
    MeshDeadlockFree(cfg, outgoing, run, |run| - 1);
    if AllReady(cfg, run[|run| - 1]) {
      full := run;
    } else {
      var run' := MeshRunExtends(cfg, run);
      MeshRunsAreFinite(cfg, outgoing, c, run');
      full := MeshRunCompletes(cfg, outgoing, c, run');
    }
  }
}
