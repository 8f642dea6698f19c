/** What the exchanges of the star return, when they may return, and that they do. */
module Exchange {
  import opened Wire
  import opened Frames
  import opened Star

  // ----- progress of one rank

  predicate IsRank(net: Net, r: nat) {
    r <= |net.peers|
  }

  /** How many exchanges rank r has returned from. */
  function Returned(net: Net, r: nat): nat
    requires IsRank(net, r)
  {
    if r == 0 then net.root.round else net.peers[r - 1].round
  }

  /** How many exchanges rank r has called. */
  function Entered(net: Net, r: nat): nat
    requires IsRank(net, r)
  {
    if r == 0 then net.root.round + (if net.root.phase.Resting? then 0 else 1)
    else net.peers[r - 1].round + if net.peers[r - 1].phase.Idle? then 0 else 1
  }

  function Results(net: Net, r: nat): seq<map<int, EndpointInfo>>
    requires IsRank(net, r)
  {
    if r == 0 then net.root.results else net.peers[r - 1].results
  }

  lemma {:induction false} NetReturns(cfg: StarConfig, net: Net, r: nat, k: nat)
    requires ConfigOk(cfg) && NetInv(cfg, net) && r < |cfg.out| && k < Returned(net, r)
    ensures k < cfg.rounds && k < |Results(net, r)| && Results(net, r)[k] == Expected(cfg, k, r)
  {
    if r > 0 {
      assert PairOk(cfg, net.root, net.peers[r - 1], r - 1);
    }
  }

  /** Every exchange that has returned, on any rank, returned what that round's table holds
      for it: bytes of different rounds never mix, however the streams are cut. */
  lemma {:induction false} ExchangeReturns(cfg: StarConfig, h: seq<Net>, n: nat, r: nat, k: nat)
    requires ConfigOk(cfg) && IsHistory(cfg, h) && n < |h| && r < |cfg.out| && k < Returned(h[n], r)
    ensures k < cfg.rounds && k < |Results(h[n], r)| && Results(h[n], r)[k] == Expected(cfg, k, r)
  {
    HistoryInv(cfg, h, n);
    NetReturns(cfg, h[n], r, k);
  }

  // ----- the exchange is a transpose

  /** `es` is one iteration of the map `m`, in any order. */
  ghost predicate Lists(es: seq<Entry>, m: map<int, EndpointInfo>) {
    && (forall j :: 0 <= j < |es| ==> es[j].dst in m && m[es[j].dst] == es[j].info)
    && (forall j, l :: 0 <= j < l < |es| ==> es[j].dst != es[l].dst)
    && forall d :: d in m ==> exists j :: 0 <= j < |es| && es[j].dst == d
  }

  /** Every record carries the rank that produced it, as a signed integer. */
  ghost predicate Signed(m: map<int, EndpointInfo>, s: nat) {
    forall d :: d in m ==> AsSigned(m[d].rank) == s
  }

  lemma {:induction false} AddressedNone(es: seq<Entry>, r: int)
    requires forall j :: 0 <= j < |es| ==> es[j].dst != r
    ensures Addressed(es, r) == map[]
  {
    if es != [] {
      AddressedNone(es[..|es| - 1], r);
    }
  }

  lemma {:induction false} AddressedOne(es: seq<Entry>, r: int, j: nat)
    requires j < |es| && es[j].dst == r && forall l :: 0 <= l < |es| && l != j ==> es[l].dst != r
    ensures Addressed(es, r) == map[AsSigned(es[j].info.rank) := es[j].info]
  {
    var n := |es| - 1;
    if j == n {
      AddressedNone(es[..n], r);
    } else {
      AddressedOne(es[..n], r, j);
    }
  }

  /** One rank contributes at most one record to another, under its own rank. */
  lemma {:induction false} AddressedListing(es: seq<Entry>, m: map<int, EndpointInfo>, s: nat, r: int)
    requires Lists(es, m) && Signed(m, s)
    ensures Addressed(es, r) == if r in m then map[s := m[r]] else map[]
  {
    if r in m {
      var j :| 0 <= j < |es| && es[j].dst == r;
      forall l | 0 <= l < |es| && l != j ensures es[l].dst != r {
        assert if l < j then es[l].dst != es[j].dst else es[j].dst != es[l].dst;
      }
      AddressedOne(es, r, j);
    } else {
      AddressedNone(es, r);
    }
  }

  /** The maps the ranks pass to round k. */
  ghost predicate Contributes(cfg: StarConfig, k: nat, maps: seq<map<int, EndpointInfo>>, s: nat)
    requires ConfigOk(cfg) && k < cfg.rounds && s < |cfg.out| == |maps|
  {
    Lists(cfg.out[s][k], maps[s]) && Signed(maps[s], s)
  }

  ghost predicate Contributions(cfg: StarConfig, k: nat, maps: seq<map<int, EndpointInfo>>)
    requires ConfigOk(cfg) && k < cfg.rounds
  {
    && |maps| == |cfg.out|
    && forall s {:trigger Contributes(cfg, k, maps, s)} :: 0 <= s < |maps| ==> Contributes(cfg, k, maps, s)
  }

  lemma {:induction false} TransposePrefix(cfg: StarConfig, k: nat, maps: seq<map<int, EndpointInfo>>, n: nat, r: nat,
                                           s: int)
    requires ConfigOk(cfg) && k < cfg.rounds && Contributions(cfg, k, maps) && n <= |maps|
    ensures var got := Addressed(Table(cfg, k, n), r);
            && (s in got <==> 0 <= s < n && r in maps[s])
            && (s in got ==> got[s] == maps[s][r])
  {
    if n > 0 {
      TransposePrefix(cfg, k, maps, n - 1, r, s);
      assert Contributes(cfg, k, maps, n - 1);
      AddressedListing(cfg.out[n - 1][k], maps[n - 1], n - 1, r);
      AddressedConcat(Table(cfg, k, n - 1), cfg.out[n - 1][k], r);
    }
  }

  /** When the k-th exchange returns on rank r, its value at s is exactly what rank s passed
      to its own k-th exchange for r, and it has no other keys. */
  lemma {:induction false} ExchangeTransposes(cfg: StarConfig, h: seq<Net>, n: nat, r: nat, k: nat,
                                              maps: seq<map<int, EndpointInfo>>, s: int)
    requires ConfigOk(cfg) && IsHistory(cfg, h) && n < |h| && r < |cfg.out| && k < Returned(h[n], r)
    requires k < cfg.rounds && Contributions(cfg, k, maps)
    ensures k < |Results(h[n], r)|
    ensures s in Results(h[n], r)[k] <==> 0 <= s < |cfg.out| && r in maps[s]
    ensures s in Results(h[n], r)[k] ==> Results(h[n], r)[k][s] == maps[s][r]
  {
    ExchangeReturns(cfg, h, n, r, k);
    TransposePrefix(cfg, k, maps, |cfg.out|, r, s);
  }

  // ----- barrier

  /** The exchanges whose contributions rank 0 has completely collected. */
  function Collections(root: Root): nat {
    root.round + if root.phase.Replying? then 1 else 0
  }

  /** A peer has returned from no more exchanges, and has entered no fewer. */
  lemma {:induction false} PeerAroundCollections(cfg: StarConfig, root: Root, p: Peer, i: nat)
    requires ConfigOk(cfg) && i + 1 < |cfg.out| && PairOk(cfg, root, p, i)
    ensures p.round <= Collections(root) <= p.round + if p.phase.Idle? then 0 else 1
  {
  }

  lemma {:induction false} RankAroundCollections(cfg: StarConfig, net: Net, r: nat)
    requires ConfigOk(cfg) && NetInv(cfg, net) && r < |cfg.out|
    ensures Returned(net, r) <= Collections(net.root) <= Entered(net, r)
  {
    if r > 0 {
      assert PairOk(cfg, net.root, net.peers[r - 1], r - 1);
      PeerAroundCollections(cfg, net.root, net.peers[r - 1], r - 1);
    }
  }

  /** Barrier safety: no rank returns from its k-th exchange before every rank has entered
      its own k-th exchange. */
  lemma {:induction false} BarrierSafe(cfg: StarConfig, h: seq<Net>, n: nat, r: nat, q: nat, k: nat)
    requires ConfigOk(cfg) && IsHistory(cfg, h) && n < |h| && r < |cfg.out| && q < |cfg.out|
    requires k < Returned(h[n], r)
    ensures k < Entered(h[n], q)
  {
    HistoryInv(cfg, h, n);
    RankAroundCollections(cfg, h[n], r);
    RankAroundCollections(cfg, h[n], q);
  }

  // ----- progress

  ghost predicate Stuck(cfg: StarConfig, net: Net) {
    forall m :: !Allowed(cfg, net, m)
  }

  /** Every rank has returned from every exchange. */
  ghost predicate AllReturned(cfg: StarConfig, net: Net) {
    forall r: nat :: IsRank(net, r) ==> Returned(net, r) == cfg.rounds
  }

  lemma {:induction false} UnreadCanMove(cfg: StarConfig, net: Net, i: nat, later: seq<Byte>)
    requires ConfigOk(cfg) && NetInv(cfg, net) && net.root.phase.Collecting? && net.root.phase.c == i && i < |net.peers|
    requires Bytes(net.root.phase.frame) + net.peers[i].up + later == FrameOf(cfg.out[i + 1][net.root.round])
    ensures Want(net.root.phase.frame) > 0 && (net.peers[i].up != [] || later != [])
  {
    var f, up := net.root.phase.frame, net.peers[i].up;
    assert Bytes(f) + up + later == Bytes(f) + (up + later);
    ReadsWholeFrame(f, cfg.out[i + 1][net.root.round], up + later);
  }

  /** While rank 0 reads from a peer, that peer or the socket can move, buffered or not. */
  lemma {:induction false} CollectingMoves(cfg: StarConfig, net: Net) returns (m: Move)
    requires ConfigOk(cfg) && NetInv(cfg, net) && net.root.phase.Collecting?
    ensures Allowed(cfg, net, m)
  {
    var i := net.root.phase.c;
    var p := net.peers[i];
    assert PairOk(cfg, net.root, p, i);
    match p.phase
    case Idle =>
      m := Enter(i);
    case Sending(left) =>
      UnreadCanMove(cfg, net, i, left);
      m := if p.up != [] then PullUp(i, 1) else MeetUp(i, 1);
    case Receiving(got) =>
      if p.round == net.root.round {
        var f := net.root.phase.frame;
        assert Bytes(f) + p.up + [] == Bytes(f) + p.up;
        UnreadCanMove(cfg, net, i, []);
        m := PullUp(i, 1);
      } else {
        ReadsWholeFrame(got, WholeTable(cfg, p.round), p.down);
        m := PullDown(i, 1);
      }
  }

  lemma {:induction false} ReplyingMoves(cfg: StarConfig, net: Net) returns (m: Move)
    requires ConfigOk(cfg) && NetInv(cfg, net) && net.root.phase.Replying?
    ensures Allowed(cfg, net, m)
  {
    var i, left := net.root.phase.c, net.root.phase.left;
    var p := net.peers[i];
    assert PairOk(cfg, net.root, p, i);
    assert Bytes(p.phase.frame) + p.down + left == Bytes(p.phase.frame) + (p.down + left);
    ReadsWholeFrame(p.phase.frame, WholeTable(cfg, p.round), p.down + left);
    m := if p.down != [] then PullDown(i, 1) else MeetDown(i, 1);
  }

  /** With rank 0 at rest, a peer that has not returned yet still finds its reply in flight. */
  lemma {:induction false} RestingMoves(cfg: StarConfig, net: Net, i: nat) returns (m: Move)
    requires ConfigOk(cfg) && NetInv(cfg, net) && net.root.phase.Resting? && net.root.round == cfg.rounds
    requires i < |net.peers| && net.peers[i].round != cfg.rounds
    ensures Allowed(cfg, net, m)
  {
    var p := net.peers[i];
    assert PairOk(cfg, net.root, p, i);
    ReadsWholeFrame(p.phase.frame, WholeTable(cfg, p.round), p.down);
    m := PullDown(i, 1);
  }

  lemma {:induction false} NetMoves(cfg: StarConfig, net: Net) returns (m: Move)
    requires ConfigOk(cfg) && NetInv(cfg, net) && !AllReturned(cfg, net)
    ensures Allowed(cfg, net, m)
  {
    if net.root.phase.Collecting? {
      m := CollectingMoves(cfg, net);
    } else if net.root.phase.Replying? {
      m := ReplyingMoves(cfg, net);
    } else if net.root.round < cfg.rounds {
      m := EnterRoot;
    } else {
      var r: nat :| IsRank(net, r) && Returned(net, r) != cfg.rounds;
      m := RestingMoves(cfg, net, r - 1);
    }
  }

  /** Deadlock freedom, with any socket buffering and with none: a schedule is stuck exactly
      when every rank has returned from every exchange. */
  lemma {:induction false} StarDeadlockFree(cfg: StarConfig, h: seq<Net>, n: nat)
    requires ConfigOk(cfg) && IsHistory(cfg, h) && n < |h|
    ensures Stuck(cfg, h[n]) <==> AllReturned(cfg, h[n])
  {
    HistoryInv(cfg, h, n);
    if AllReturned(cfg, h[n]) {
      ReturnedIsStuck(cfg, h[n]);
    } else {
      var m := NetMoves(cfg, h[n]);
    }
  }

  lemma {:induction false} ReturnedIsStuck(cfg: StarConfig, net: Net)
    requires ConfigOk(cfg) && NetInv(cfg, net) && AllReturned(cfg, net)
    ensures Stuck(cfg, net)
  {
    assert Returned(net, 0) == cfg.rounds;
    forall i | 0 <= i < |net.peers| ensures net.peers[i].phase.Idle? && net.peers[i].round == cfg.rounds {
      assert Returned(net, i + 1) == cfg.rounds;
      assert PairOk(cfg, net.root, net.peers[i], i);
    }
  }
}
