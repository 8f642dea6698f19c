/**
 All ranks constructing their communicators at once, and the barriers that follow: each
 rank's calls to the bootstrap interleave with everyone's, and each connects its queue
 pairs, one peer after the other, when its first exchange has returned.
 */
module Mesh {
  import opened Base
  import opened Wire
  import opened Star
  import opened Exchange
  import opened QueuePairs

  /** The devices, the queue pair numbers they hand out and the sequence numbers drawn:
      rank r's queue pair for rank p gets nums[r][p] and psns[r][p]. */
  datatype MeshConfig = MeshConfig(star: StarConfig, devs: seq<Device>, nums: seq<seq<U32>>, psns: seq<seq<U32>>)

  /** `qps[r]` are rank r's queue pairs; `next[r]` is the peer its second loop has come to. */
  datatype MeshState = MeshState(net: Net, qps: seq<map<int, Qp>>, next: seq<nat>)

  datatype Action = Boot(move: Move) | ConnectNext(r: nat)

  function Ranks(cfg: MeshConfig): nat {
    |cfg.star.out|
  }

  /** Rank r's queue pair for rank p after the first loop of the constructor. */
  function Fresh(cfg: MeshConfig, r: nat, p: nat): Qp
    requires Shaped(cfg) && r < Ranks(cfg) && p < Ranks(cfg)
  {
    QueuePairs.Created(cfg.nums[r][p]).(state := Initialised, port := cfg.devs[r].port)
  }

  function Tells(cfg: MeshConfig, r: nat, p: nat): EndpointInfo
    requires Shaped(cfg) && r < Ranks(cfg) && p < Ranks(cfg)
  {
    LocalInfo(Fresh(cfg, r, p), cfg.devs[r], r, cfg.psns[r][p])
  }

  /** What rank r passes to its first exchange. */
  ghost predicate IsOutgoing(cfg: MeshConfig, r: nat, m: map<int, EndpointInfo>)
    requires Shaped(cfg) && r < Ranks(cfg)
  {
    && (forall p :: p in m <==> IsPeer(p, r, Ranks(cfg)))
    && (forall p :: IsPeer(p, r, Ranks(cfg)) ==> m[p] == Tells(cfg, r, p))
  }

  predicate Shaped(cfg: MeshConfig) {
    && ConfigOk(cfg.star) && cfg.star.rounds >= 1 && Ranks(cfg) <= 0x8000_0000
    && |cfg.devs| == |cfg.nums| == |cfg.psns| == Ranks(cfg)
    && (forall r :: 0 <= r < Ranks(cfg) ==> |cfg.nums[r]| == Ranks(cfg))
    && (forall r :: 0 <= r < Ranks(cfg) ==> |cfg.psns[r]| == Ranks(cfg))
  }

  /** The first exchange carries the records, in any order; later ones are barriers. */
  ghost predicate MeshOk(cfg: MeshConfig, outgoing: seq<map<int, EndpointInfo>>) {
    && Shaped(cfg) && |outgoing| == Ranks(cfg)
    && (forall r {:trigger IsOutgoing(cfg, r, outgoing[r])} :: 0 <= r < Ranks(cfg) ==>
          IsOutgoing(cfg, r, outgoing[r]) && Lists(cfg.star.out[r][0], outgoing[r]))
    && (forall r, k :: 0 <= r < Ranks(cfg) && 1 <= k < cfg.star.rounds ==> cfg.star.out[r][k] == [])
  }

  /** Rank r's map of queue pairs once its second loop has come to peer n: those of smaller
      peers are connected to what the peer told, the others as the first loop left them. */
  ghost predicate QpsAt(cfg: MeshConfig, r: nat, n: nat, qps: map<int, Qp>)
    requires Shaped(cfg) && r < Ranks(cfg)
  {
    && (forall p :: p in qps <==> IsPeer(p, r, Ranks(cfg)))
    && (forall p :: IsPeer(p, r, Ranks(cfg)) ==>
          if p < n then Ok(qps[p]) == Connect(Fresh(cfg, r, p), cfg.devs[r], Tells(cfg, p, r), cfg.psns[r][p])
          else qps[p] == Fresh(cfg, r, p))
  }

  ghost predicate MeshStart(cfg: MeshConfig, st: MeshState)
    requires Shaped(cfg)
  {
    && st.net == Start(cfg.star) && |st.qps| == |st.next| == Ranks(cfg)
    && forall r :: 0 <= r < Ranks(cfg) ==> st.next[r] == 0 && QpsAt(cfg, r, 0, st.qps[r])
  }

  /** The rank whose call of an exchange a move is, if it is one. */
  function Caller(m: Move): Option<nat> {
    match m
    case EnterRoot => Some(0)
    case Enter(i) => Some(i + 1)
    case _ => None
  }

  /** The next queue pair of rank r, connected with the peer's record. */
  function Connected(cfg: MeshConfig, st: MeshState, r: nat): Result<Qp>
    requires Shaped(cfg) && |st.qps| == |st.next| == Ranks(cfg) == |st.net.peers| + 1
    requires r < Ranks(cfg) && st.next[r] < Ranks(cfg) && Results(st.net, r) != []
    requires st.next[r] in Results(st.net, r)[0] && st.next[r] in st.qps[r]
  {
    var p := st.next[r];
    Connect(st.qps[r][p], cfg.devs[r], Results(st.net, r)[0][p], cfg.psns[r][p])
  }

  /** A rank calls its second exchange only when its constructor is done, and connects its
      queue pairs only with the records of its first. A missing record would throw. */
  predicate MeshAllowed(cfg: MeshConfig, st: MeshState, a: Action)
    requires Shaped(cfg) && |st.qps| == |st.next| == Ranks(cfg) == |st.net.peers| + 1
  {
    match a
    case Boot(m) =>
      && Allowed(cfg.star, st.net, m)
      && (Caller(m).Some? ==>
            && Caller(m).value < Ranks(cfg)
            && (Returned(st.net, Caller(m).value) >= 1 ==> st.next[Caller(m).value] == Ranks(cfg)))
    case ConnectNext(r) =>
      && r < Ranks(cfg) && st.next[r] < Ranks(cfg) && Results(st.net, r) != []
      && (st.next[r] != r ==>
            && st.next[r] in Results(st.net, r)[0] && st.next[r] in st.qps[r]
            && Connected(cfg, st, r).Ok?)
  }

  function MeshDo(cfg: MeshConfig, st: MeshState, a: Action): (st': MeshState)
    requires Shaped(cfg) && |st.qps| == |st.next| == Ranks(cfg) == |st.net.peers| + 1 && MeshAllowed(cfg, st, a)
    ensures |st'.qps| == |st'.next| == Ranks(cfg) == |st'.net.peers| + 1
  {
    match a
    case Boot(m) => st.(net := Do(cfg.star, st.net, m))
    case ConnectNext(r) =>
      var p := st.next[r];
      var qps := if p == r then st.qps[r] else st.qps[r][p := Connected(cfg, st, r).value];
      st.(qps := st.qps[r := qps], next := st.next[r := p + 1])
  }

  ghost predicate MeshMoves(cfg: MeshConfig, st: MeshState, st': MeshState)
    requires Shaped(cfg) && |st.qps| == |st.next| == Ranks(cfg) == |st.net.peers| + 1
  {
    exists a :: MeshAllowed(cfg, st, a) && st' == MeshDo(cfg, st, a)
  }

  ghost predicate IsMeshRun(cfg: MeshConfig, run: seq<MeshState>)
    requires Shaped(cfg)
  {
    && |run| > 0 && MeshStart(cfg, run[0])
    && (forall i :: 0 <= i < |run| ==> |run[i].qps| == |run[i].next| == Ranks(cfg) == |run[i].net.peers| + 1)
    && forall i :: 0 <= i < |run| - 1 ==> MeshMoves(cfg, run[i], run[i + 1])
  }

  // ----- the invariant

  ghost predicate RankInv(cfg: MeshConfig, st: MeshState, r: nat)
    requires Shaped(cfg) && r < Ranks(cfg) && |st.qps| == |st.next| == Ranks(cfg) == |st.net.peers| + 1
  {
    && st.next[r] <= Ranks(cfg) && QpsAt(cfg, r, st.next[r], st.qps[r])
    && (Entered(st.net, r) >= 2 ==> st.next[r] == Ranks(cfg))
  }

  ghost predicate MeshInv(cfg: MeshConfig, st: MeshState)
    requires Shaped(cfg)
  {
    && |st.qps| == |st.next| == Ranks(cfg) == |st.net.peers| + 1 && NetInv(cfg.star, st.net)
    && forall r {:trigger RankInv(cfg, st, r)} :: 0 <= r < Ranks(cfg) ==> RankInv(cfg, st, r)
  }

  /** The records of the first exchange: what p told for r, under p. */
  lemma {:induction false} Told(cfg: MeshConfig, outgoing: seq<map<int, EndpointInfo>>, net: Net, r: nat, p: nat)
    requires MeshOk(cfg, outgoing) && NetInv(cfg.star, net) && r < Ranks(cfg) && IsPeer(p, r, Ranks(cfg))
    requires Returned(net, r) >= 1
    ensures |Results(net, r)| >= 1 && p in Results(net, r)[0] && Results(net, r)[0][p] == Tells(cfg, p, r)
  {
    NetReturns(cfg.star, net, r, 0);
    assert Contributions(cfg.star, 0, outgoing) by {
      forall s | 0 <= s < |outgoing| ensures Contributes(cfg.star, 0, outgoing, s) {
        assert IsOutgoing(cfg, s, outgoing[s]);
      }
    }
    assert IsOutgoing(cfg, p, outgoing[p]);
    TransposePrefix(cfg.star, 0, outgoing, Ranks(cfg), r, p);
  }

  lemma {:induction false} FreshConnects(cfg: MeshConfig, r: nat, p: nat)
    requires Shaped(cfg) && r < Ranks(cfg) && p < Ranks(cfg)
    ensures Connect(Fresh(cfg, r, p), cfg.devs[r], Tells(cfg, p, r), cfg.psns[r][p]).Ok?
  {
  }

  /** A move of the bootstrap changes where a rank is only forwards, and by calls it makes. */
  lemma {:induction false} MoveEntered(cfg: StarConfig, net: Net, m: Move, r: nat)
    requires ConfigOk(cfg) && |net.peers| == |cfg.out| - 1 && Allowed(cfg, net, m) && r < |cfg.out| && NetInv(cfg, net)
    ensures IsRank(Do(cfg, net, m), r)
    ensures Entered(Do(cfg, net, m), r) == Entered(net, r) + if Caller(m) == Some(r) then 1 else 0
    ensures Caller(m) == Some(r) ==> Entered(net, r) == Returned(net, r)
  {
  }

  lemma {:induction false} BootInv(cfg: MeshConfig, st: MeshState, m: Move)
    requires Shaped(cfg) && MeshInv(cfg, st) && MeshAllowed(cfg, st, Boot(m))
    ensures MeshInv(cfg, MeshDo(cfg, st, Boot(m)))
  {
    var st' := MeshDo(cfg, st, Boot(m));
    MoveInv(cfg.star, st.net, m);
    forall r | 0 <= r < Ranks(cfg) ensures RankInv(cfg, st', r) {
      assert RankInv(cfg, st, r);
      MoveEntered(cfg.star, st.net, m, r);
    }
  }

  lemma {:induction false} ConnectOne(cfg: MeshConfig, r: nat, p: nat, qps: map<int, Qp>, told: EndpointInfo)
    requires Shaped(cfg) && r < Ranks(cfg) && IsPeer(p, r, Ranks(cfg)) && QpsAt(cfg, r, p, qps)
    requires told == Tells(cfg, p, r)
    ensures Connect(qps[p], cfg.devs[r], told, cfg.psns[r][p]).Ok?
    ensures QpsAt(cfg, r, p + 1, qps[p := Connect(qps[p], cfg.devs[r], told, cfg.psns[r][p]).value])
  {
    FreshConnects(cfg, r, p);
  }

  lemma {:induction false} ConnectInv(cfg: MeshConfig, outgoing: seq<map<int, EndpointInfo>>, st: MeshState, r: nat)
    requires MeshOk(cfg, outgoing) && MeshInv(cfg, st) && MeshAllowed(cfg, st, ConnectNext(r))
    ensures MeshInv(cfg, MeshDo(cfg, st, ConnectNext(r)))
  {
    var st' := MeshDo(cfg, st, ConnectNext(r));
    var p := st.next[r];
    assert RankInv(cfg, st, r);
    if p != r {
      ReturnedHasResults(cfg.star, st.net, r);
      Told(cfg, outgoing, st.net, r, p);
      ConnectOne(cfg, r, p, st.qps[r], Results(st.net, r)[0][p]);
    }
    forall q | 0 <= q < Ranks(cfg) ensures RankInv(cfg, st', q) {
      assert RankInv(cfg, st, q);
    }
  }

  lemma {:induction false} ReturnedHasResults(cfg: StarConfig, net: Net, r: nat)
    requires ConfigOk(cfg) && NetInv(cfg, net) && r < |cfg.out|
    ensures |Results(net, r)| == Returned(net, r)
  {
    if r > 0 {
      assert PairOk(cfg, net.root, net.peers[r - 1], r - 1);
    }
  }

  lemma {:induction false} MeshStartInv(cfg: MeshConfig, st: MeshState)
    requires Shaped(cfg) && MeshStart(cfg, st)
    ensures MeshInv(cfg, st)
  {
    StartInv(cfg.star);
    forall r | 0 <= r < Ranks(cfg) ensures RankInv(cfg, st, r) {
    }
  }

  lemma {:induction false} MeshActionAt(cfg: MeshConfig, run: seq<MeshState>, n: nat) returns (a: Action)
    requires Shaped(cfg) && IsMeshRun(cfg, run) && n + 1 < |run|
    ensures |run[n].qps| == |run[n].next| == Ranks(cfg) == |run[n].net.peers| + 1
    ensures MeshAllowed(cfg, run[n], a) && run[n + 1] == MeshDo(cfg, run[n], a)
  {
    assert MeshMoves(cfg, run[n], run[n + 1]);
    a :| MeshAllowed(cfg, run[n], a) && run[n + 1] == MeshDo(cfg, run[n], a);
  }

  lemma {:induction false} MeshRunInv(cfg: MeshConfig, outgoing: seq<map<int, EndpointInfo>>, run: seq<MeshState>,
                                      n: nat)
    requires MeshOk(cfg, outgoing) && IsMeshRun(cfg, run) && n < |run|
    ensures MeshInv(cfg, run[n])
  {
    if n == 0 {
      MeshStartInv(cfg, run[0]);
    } else {
      MeshRunInv(cfg, outgoing, run, n - 1);
      var a := MeshActionAt(cfg, run, n - 1);
      match a
      case Boot(m) => BootInv(cfg, run[n - 1], m);
      case ConnectNext(r) => ConnectInv(cfg, outgoing, run[n - 1], r);
    }
  }

  // ----- what holds when constructors and barriers return

  /** Rank r's constructor has returned. */
  predicate Constructed(cfg: MeshConfig, st: MeshState, r: nat)
    requires Shaped(cfg) && r < Ranks(cfg) && |st.next| == Ranks(cfg)
  {
    st.next[r] == Ranks(cfg)
  }

  /** Two queue pairs are the two ends of one connection. */
  predicate Joined(a: Qp, b: Qp) {
    && a.state.ReadyToSend? && b.state.ReadyToSend?
    && a.dest == b.num && a.rqPsn == b.sqPsn && a.pathMtu == b.pathMtu
  }

  /** Packets of a queue pair on device `a` are addressed to the port of device `b`. */
  predicate Reaches(a: Device, qp: Qp, b: Device) {
    a.infiniband == b.infiniband ==>
      qp.address == if a.infiniband then Lid(b.lid) else ByGid(b.gid, a.gidIndex)
  }

  /** Rank i's end of its connection with rank j is ready: it has its own number and port, starts
      from the sequence number drawn for it, addresses the peer's number, expects the sequence
      number the peer starts from, and sends as much per packet as both ports allow. */
  ghost predicate EndOf(cfg: MeshConfig, i: nat, j: nat, qp: Qp)
    requires Shaped(cfg) && i < Ranks(cfg) && j < Ranks(cfg)
  {
    && qp.state == ReadyToSend && qp.num == cfg.nums[i][j] && qp.port == cfg.devs[i].port
    && qp.sqPsn == cfg.psns[i][j] && qp.dest == cfg.nums[j][i] && qp.rqPsn == cfg.psns[j][i]
    && qp.pathMtu in {cfg.devs[i].mtu, cfg.devs[j].mtu}
    && qp.pathMtu <= cfg.devs[i].mtu && qp.pathMtu <= cfg.devs[j].mtu
  }

  lemma {:induction false} ConnectedPair(cfg: MeshConfig, i: nat, j: nat, a: Qp, b: Qp)
    requires Shaped(cfg) && i < Ranks(cfg) && j < Ranks(cfg)
    requires Ok(a) == Connect(Fresh(cfg, i, j), cfg.devs[i], Tells(cfg, j, i), cfg.psns[i][j])
    requires Ok(b) == Connect(Fresh(cfg, j, i), cfg.devs[j], Tells(cfg, i, j), cfg.psns[j][i])
    ensures Joined(a, b) && Reaches(cfg.devs[i], a, cfg.devs[j])
    ensures EndOf(cfg, i, j, a) && EndOf(cfg, j, i, b)
  {
  }

  /** Mesh consistency: once the constructors of ranks i and j have returned, whatever else is
      still going on, their queue pairs for each other are the two ends of one connection:
      both ready, each addressing the other's number and port, starting from the sequence number
      drawn for it and expecting the other's, on the largest path MTU neither port exceeds. */
  lemma {:induction false} MeshConsistent(cfg: MeshConfig, outgoing: seq<map<int, EndpointInfo>>, run: seq<MeshState>,
                                          n: nat, i: nat, j: nat)
    requires MeshOk(cfg, outgoing) && IsMeshRun(cfg, run) && n < |run| && i < Ranks(cfg) && j < Ranks(cfg) && i != j
    requires Constructed(cfg, run[n], i) && Constructed(cfg, run[n], j)
    ensures j in run[n].qps[i] && i in run[n].qps[j] && Joined(run[n].qps[i][j], run[n].qps[j][i])
    ensures Reaches(cfg.devs[i], run[n].qps[i][j], cfg.devs[j])
    ensures EndOf(cfg, i, j, run[n].qps[i][j])
  {
    MeshRunInv(cfg, outgoing, run, n);
    assert RankInv(cfg, run[n], i) && RankInv(cfg, run[n], j);
    assert IsPeer(j, i, Ranks(cfg)) && IsPeer(i, j, Ranks(cfg));
    ConnectedPair(cfg, i, j, run[n].qps[i][j], run[n].qps[j][i]);
  }

  /** Once any rank has returned from any exchange after its first, that is from a barrier,
      every constructor has returned and every queue pair of every rank is ready. */
  lemma {:induction false} BarrierMeansReady(cfg: MeshConfig, outgoing: seq<map<int, EndpointInfo>>,
                                             run: seq<MeshState>, n: nat, r: nat, q: nat, p: nat)
    requires MeshOk(cfg, outgoing) && IsMeshRun(cfg, run) && n < |run|
    requires r < Ranks(cfg) && q < Ranks(cfg) && IsPeer(p, q, Ranks(cfg)) && Returned(run[n].net, r) >= 2
    ensures Constructed(cfg, run[n], q) && p in run[n].qps[q] && run[n].qps[q][p].state.ReadyToSend?
  {
    MeshRunInv(cfg, outgoing, run, n);
    RankAroundCollections(cfg.star, run[n].net, r);
    RankAroundCollections(cfg.star, run[n].net, q);
    assert RankInv(cfg, run[n], q);
  }

  ghost predicate MeshStuck(cfg: MeshConfig, st: MeshState)
    requires Shaped(cfg) && |st.qps| == |st.next| == Ranks(cfg) == |st.net.peers| + 1
  {
    forall a :: !MeshAllowed(cfg, st, a)
  }

  lemma {:induction false} CanConnect(cfg: MeshConfig, outgoing: seq<map<int, EndpointInfo>>, st: MeshState, r: nat)
    requires MeshOk(cfg, outgoing) && MeshInv(cfg, st) && r < Ranks(cfg) && Returned(st.net, r) >= 1
    requires st.next[r] != Ranks(cfg)
    ensures MeshAllowed(cfg, st, ConnectNext(r))
  {
    assert RankInv(cfg, st, r);
    ReturnedHasResults(cfg.star, st.net, r);
    var p := st.next[r];
    if p != r {
      Told(cfg, outgoing, st.net, r, p);
      ConnectOne(cfg, r, p, st.qps[r], Results(st.net, r)[0][p]);
    }
  }

  /** Construction and barriers cannot deadlock and no record is ever missing: nothing more can
      happen exactly when every rank has constructed its mesh and left every barrier. */
  lemma {:induction false} MeshDeadlockFree(cfg: MeshConfig, outgoing: seq<map<int, EndpointInfo>>, run: seq<MeshState>,
                                            n: nat)
    requires MeshOk(cfg, outgoing) && IsMeshRun(cfg, run) && n < |run|
    ensures MeshStuck(cfg, run[n]) <==>
              AllReturned(cfg.star, run[n].net) && forall r :: 0 <= r < Ranks(cfg) ==> Constructed(cfg, run[n], r)
  {
    var st := run[n];
    MeshRunInv(cfg, outgoing, run, n);
    if !AllReturned(cfg.star, st.net) {
      var m := NetMoves(cfg.star, st.net);
      if !MeshAllowed(cfg, st, Boot(m)) {
        CanConnect(cfg, outgoing, st, Caller(m).value);
      }
    } else if r :| 0 <= r < Ranks(cfg) && !Constructed(cfg, st, r) {
      assert Returned(st.net, r) == cfg.star.rounds;
      CanConnect(cfg, outgoing, st, r);
    } else {
      ReturnedIsStuck(cfg.star, st.net);
      forall a ensures !MeshAllowed(cfg, st, a) {
        assert a.ConnectNext? && a.r < Ranks(cfg) ==> Constructed(cfg, st, a.r);
      }
    }
  }
}
