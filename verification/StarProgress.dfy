/** Every schedule of the star is finite, so every one ends with all exchanges returned. */
module StarProgress {
  import opened Wire
  import opened Frames
  import opened Star
  import opened Exchange

  /** How many bytes each peer contributes to each round, and how many each reply has. */
  datatype Costs = Costs(frames: seq<seq<nat>>, replies: seq<nat>)

  function FrameCost(c: Costs, i: nat, k: nat): nat {
    if i < |c.frames| && k < |c.frames[i]| then c.frames[i][k] else 0
  }

  function ReplyCost(c: Costs, k: nat): nat {
    if k < |c.replies| then c.replies[k] else 0
  }

  /** What a peer has to write and read from round k on, and one call for each round. */
  function PeerRest(c: Costs, i: nat, k: nat): nat
    decreases |c.replies| - k
  {
    if k >= |c.replies| then 0 else 1 + FrameCost(c, i, k) + ReplyCost(c, k) + PeerRest(c, i, k + 1)
  }

  /** What rank 0 has to read from peers i, i + 1, ... in round k, and to write to them. */
  function ReadFrom(c: Costs, k: nat, i: nat): nat
    decreases |c.frames| - i
  {
    if i >= |c.frames| then 0 else FrameCost(c, i, k) + ReadFrom(c, k, i + 1)
  }

  function WriteFrom(c: Costs, k: nat, i: nat): nat
    decreases |c.frames| - i
  {
    if i >= |c.frames| then 0 else ReplyCost(c, k) + WriteFrom(c, k, i + 1)
  }

  function RootRest(c: Costs, k: nat): nat
    decreases |c.replies| - k
  {
    if k >= |c.replies| then 0 else 1 + ReadFrom(c, k, 0) + WriteFrom(c, k, 0) + RootRest(c, k + 1)
  }

  /** What is left of a peer's current call. */
  function Load(phase: Phase, reply: nat): int {
    match phase
    case Idle => 0
    case Sending(left) => |left| + reply
    case Receiving(f) => reply - |Bytes(f)|
  }

  function PeerWork(c: Costs, p: Peer, i: nat): int {
    Load(p.phase, ReplyCost(c, p.round)) + PeerRest(c, i, if p.phase.Idle? then p.round else p.round + 1)
  }

  function RootWork(c: Costs, root: Root): int {
    match root.phase
    case Resting => RootRest(c, root.round)
    case Collecting(i, f, _) =>
      ReadFrom(c, root.round, i) - |Bytes(f)| + WriteFrom(c, root.round, 0) + RootRest(c, root.round + 1)
    case Replying(i, left, _) => |left| + WriteFrom(c, root.round, i + 1) + RootRest(c, root.round + 1)
  }

  /** The costs of a configuration. */
  ghost predicate FrameCosts(cfg: StarConfig, c: Costs, i: nat, k: nat)
    requires ConfigOk(cfg) && i + 1 < |cfg.out| && k < cfg.rounds
  {
    FrameCost(c, i, k) == |FrameOf(cfg.out[i + 1][k])|
  }

  ghost predicate ReplyCosts(cfg: StarConfig, c: Costs, k: nat)
    requires ConfigOk(cfg) && k < cfg.rounds
  {
    ReplyCost(c, k) == |FrameOf(WholeTable(cfg, k))|
  }

  ghost predicate HasCosts(cfg: StarConfig, c: Costs) {
    && ConfigOk(cfg) && |c.frames| == |cfg.out| - 1 && |c.replies| == cfg.rounds
    && (forall i, k {:trigger FrameCosts(cfg, c, i, k)} ::
          0 <= i < |cfg.out| - 1 && 0 <= k < cfg.rounds ==> FrameCosts(cfg, c, i, k))
    && (forall k {:trigger ReplyCosts(cfg, c, k)} :: 0 <= k < cfg.rounds ==> ReplyCosts(cfg, c, k))
  }

  lemma {:induction false} CostsOf(cfg: StarConfig) returns (c: Costs)
    requires ConfigOk(cfg)
    ensures HasCosts(cfg, c)
  {
    var frames := seq(|cfg.out| - 1, i requires 0 <= i < |cfg.out| - 1 => Lengths(cfg.out[i + 1]));
    var tables := seq(cfg.rounds, k requires 0 <= k < cfg.rounds => WholeTable(cfg, k));
    c := Costs(frames, Lengths(tables));
  }

  function Lengths(tables: seq<seq<Entry>>): (ns: seq<nat>)
    ensures |ns| == |tables| && forall k :: 0 <= k < |tables| ==> ns[k] == |FrameOf(tables[k])|
  {
    seq(|tables|, k requires 0 <= k < |tables| => |FrameOf(tables[k])|)
  }

  // ----- work is never negative

  lemma {:induction false} PeerWorkNatural(cfg: StarConfig, c: Costs, root: Root, p: Peer, i: nat)
    requires HasCosts(cfg, c) && i + 1 < |cfg.out| && RootOk(cfg, root) && PairOk(cfg, root, p, i)
    ensures PeerWork(c, p, i) >= 0
  {
    if p.phase.Receiving? {
      var view := ViewOf(root, i);
      assert ReplyCosts(cfg, c, p.round);
      assert Bytes(EMPTY) == [];
      assert view.Reply? ==>
           |Bytes(p.phase.frame) + p.down + view.left| == |Bytes(p.phase.frame)| + |p.down| + |view.left|;
    }
  }

  lemma {:induction false} RootWorkNatural(cfg: StarConfig, c: Costs, root: Root, peers: seq<Peer>)
    requires HasCosts(cfg, c) && RootOk(cfg, root) && |peers| == |cfg.out| - 1
    requires root.phase.Collecting? ==> PairOk(cfg, root, peers[root.phase.c], root.phase.c)
    ensures RootWork(c, root) >= 0
  {
    if root.phase.Collecting? {
      var p := peers[root.phase.c];
      assert FrameCosts(cfg, c, root.phase.c, root.round);
      var f, left := root.phase.frame, if p.phase.Sending? then p.phase.left else [];
      assert |Bytes(f) + p.up + left| == |Bytes(f)| + |p.up| + |left|;
    }
  }

  // ----- each rank's step uses up its own work, byte by byte

  lemma {:induction false} PeerWroteWork(c: Costs, p: Peer, i: nat, n: nat)
    requires p.phase.Sending? && 0 < n <= |p.phase.left|
    ensures PeerWork(c, PeerWrote(p, n).(up := p.up + p.phase.left[..n]), i) == PeerWork(c, p, i) - n
  {
    assert Bytes(EMPTY) == [];
  }

  lemma {:induction false} PeerReadLoad(p: Peer, r: nat, n: nat, table: seq<Entry>, later: seq<Byte>)
    requires p.phase.Receiving? && 0 < n <= Want(p.phase.frame) && n <= |p.down| && FrameOk(p.phase.frame)
    requires Small(table) && Bytes(p.phase.frame) + p.down + later == FrameOf(table)
    ensures var p', reply := PeerRead(p, r, p.down[..n]).(down := p.down[n..]), |FrameOf(table)|;
            && Load(p'.phase, reply) == Load(p.phase, reply) - n
            && p'.round == (if p'.phase.Idle? then p.round + 1 else p.round) && !p'.phase.Sending?
  {
    PeerReadCases(p, r, n, table, later);
    var p' := PeerRead(p, r, p.down[..n]).(down := p.down[n..]);
    assert |Bytes(p.phase.frame) + p.down + later| == |Bytes(p.phase.frame)| + |p.down| + |later|;
    assert p'.phase.Receiving? ==>
         |Bytes(p'.phase.frame) + p'.down + later| == |Bytes(p'.phase.frame)| + |p'.down| + |later|;
  }

  /** The reply a peer reads from is the whole table, `later` being still unwritten. */
  lemma {:induction false} ReplyInFlight(cfg: StarConfig, root: Root, p: Peer, i: nat) returns (later: seq<Byte>)
    requires ConfigOk(cfg) && i + 1 < |cfg.out| && RootOk(cfg, root) && PairOk(cfg, root, p, i)
    requires p.phase.Receiving? && p.down != []
    ensures p.round < cfg.rounds && FrameOk(p.phase.frame)
    ensures Bytes(p.phase.frame) + p.down + later == FrameOf(WholeTable(cfg, p.round))
  {
    var view := ViewOf(root, i);
    later := if view.Reply? then view.left else [];
    assert Bytes(p.phase.frame) + p.down + [] == Bytes(p.phase.frame) + p.down;
  }

  lemma {:induction false} FrameInFlight(cfg: StarConfig, root: Root, p: Peer, i: nat) returns (later: seq<Byte>)
    requires ConfigOk(cfg) && i + 1 < |cfg.out| && RootOk(cfg, root) && PairOk(cfg, root, p, i)
    requires root.phase.Collecting? && root.phase.c == i && p.up != []
    ensures root.round < cfg.rounds && FrameOk(root.phase.frame)
    ensures Bytes(root.phase.frame) + p.up + later == FrameOf(cfg.out[i + 1][root.round])
  {
    later := if p.phase.Sending? then p.phase.left else [];
    assert Bytes(root.phase.frame) + p.up + [] == Bytes(root.phase.frame) + p.up;
  }

  lemma {:induction false} PeerReadStep(c: Costs, p: Peer, i: nat, n: nat, table: seq<Entry>, later: seq<Byte>)
    requires p.phase.Receiving? && 0 < n <= Want(p.phase.frame) && n <= |p.down| && FrameOk(p.phase.frame)
    requires Small(table) && Bytes(p.phase.frame) + p.down + later == FrameOf(table)
    requires |FrameOf(table)| == ReplyCost(c, p.round)
    ensures PeerWork(c, PeerRead(p, i + 1, p.down[..n]).(down := p.down[n..]), i) == PeerWork(c, p, i) - n
  {
    PeerReadLoad(p, i + 1, n, table, later);
    LoadStep(c, p, PeerRead(p, i + 1, p.down[..n]).(down := p.down[n..]), i, n);
  }

  lemma {:induction false} LoadStep(c: Costs, p: Peer, p': Peer, i: nat, n: nat)
    requires p.phase.Receiving? && !p'.phase.Sending? && p'.round == if p'.phase.Idle? then p.round + 1 else p.round
    requires Load(p'.phase, ReplyCost(c, p.round)) == Load(p.phase, ReplyCost(c, p.round)) - n
    ensures PeerWork(c, p', i) == PeerWork(c, p, i) - n
  {
  }

  lemma {:induction false} PeerReadWork(cfg: StarConfig, c: Costs, root: Root, p: Peer, i: nat, n: nat)
    requires HasCosts(cfg, c) && i + 1 < |cfg.out| && RootOk(cfg, root) && PairOk(cfg, root, p, i)
    requires p.phase.Receiving? && 0 < n <= Want(p.phase.frame) && n <= |p.down|
    ensures PeerWork(c, PeerRead(p, i + 1, p.down[..n]).(down := p.down[n..]), i) == PeerWork(c, p, i) - n
  {
    var later := ReplyInFlight(cfg, root, p, i);
    assert ReplyCosts(cfg, c, p.round);
    PeerReadStep(c, p, i, n, WholeTable(cfg, p.round), later);
  }

  lemma {:induction false} RootReadStep(c: Costs, root: Root, peers: nat, flight: seq<Byte>, n: nat, es: seq<Entry>,
                                        later: seq<Byte>)
    requires peers == |c.frames| && root.phase.Collecting? && root.phase.c < peers && FrameOk(root.phase.frame)
    requires 0 < n <= Want(root.phase.frame) && n <= |flight| && Small(es)
    requires Bytes(root.phase.frame) + flight + later == FrameOf(es)
    requires |FrameOf(es)| == FrameCost(c, root.phase.c, root.round)
    requires root.phase.c + 1 == peers ==> |FrameOf(root.phase.table + es)| == ReplyCost(c, root.round)
    ensures RootWork(c, RootRead(root, peers, flight[..n])) == RootWork(c, root) - n
  {
    ReadSome(root.phase.frame, es, flight, n, later);
    FeedKeepsBytes(root.phase.frame, flight[..n]);
    var f' := Feed(root.phase.frame, flight[..n]);
    assert |Bytes(f') + flight[n..] + later| == |Bytes(f')| + |flight[n..]| + |later|;
    CollectedWork(c, root, peers, f', n);
  }

  lemma {:induction false} RootReadWork(cfg: StarConfig, c: Costs, root: Root, p: Peer, i: nat, n: nat)
    requires HasCosts(cfg, c) && i + 1 < |cfg.out| && RootOk(cfg, root) && PairOk(cfg, root, p, i)
    requires root.phase.Collecting? && root.phase.c == i && 0 < n <= Want(root.phase.frame) && n <= |p.up|
    ensures RootWork(c, RootRead(root, |cfg.out| - 1, p.up[..n])) == RootWork(c, root) - n
  {
    var k := root.round;
    var later := FrameInFlight(cfg, root, p, i);
    assert FrameCosts(cfg, c, i, k) && ReplyCosts(cfg, c, k);
    assert Table(cfg, k, i + 2) == root.phase.table + cfg.out[i + 1][k];
    RootReadStep(c, root, |cfg.out| - 1, p.up, n, cfg.out[i + 1][k], later);
  }

  lemma {:induction false} CollectedWork(c: Costs, root: Root, peers: nat, frame: Frame, n: nat)
    requires peers == |c.frames| && root.phase.Collecting? && root.phase.c < peers
    requires |Bytes(frame)| == |Bytes(root.phase.frame)| + n
    requires Complete(frame) ==> |Bytes(frame)| == FrameCost(c, root.phase.c, root.round)
    requires Complete(frame) && root.phase.c + 1 == peers ==>
               |FrameOf(root.phase.table + frame.entries)| == ReplyCost(c, root.round)
    ensures RootWork(c, Collected(root, peers, frame)) == RootWork(c, root) - n
  {
    var i, k := root.phase.c, root.round;
    assert Bytes(EMPTY) == [];
    assert ReadFrom(c, k, i) == FrameCost(c, i, k) + ReadFrom(c, k, i + 1);
    assert WriteFrom(c, k, 0) == ReplyCost(c, k) + WriteFrom(c, k, 1);
  }

  lemma {:induction false} RootWroteWork(c: Costs, root: Root, peers: nat, n: nat)
    requires peers == |c.frames| && root.phase.Replying? && root.phase.c < peers && 0 < n <= |root.phase.left|
    requires |FrameOf(root.phase.table)| == ReplyCost(c, root.round)
    ensures RootWork(c, RootWrote(root, peers, n)) == RootWork(c, root) - n
  {
    var i, k := root.phase.c, root.round;
    assert i + 1 < peers ==> WriteFrom(c, k, i + 1) == ReplyCost(c, k) + WriteFrom(c, k, i + 2);
  }

  lemma {:induction false} EnterWork(c: Costs, p: Peer, i: nat, bytes: seq<Byte>)
    requires p.phase.Idle? && p.round < |c.replies| && |bytes| == FrameCost(c, i, p.round)
    ensures PeerWork(c, p.(phase := Sending(bytes)), i) == PeerWork(c, p, i) - 1
  {
  }

  lemma {:induction false} EnterRootWork(c: Costs, root: Root, own: seq<Entry>)
    requires root.phase.Resting? && root.round < |c.replies|
    ensures RootWork(c, RootEntered(root, own, |c.frames|)) == RootWork(c, root) - 1
  {
    assert Bytes(EMPTY) == [];
  }

  // ----- the whole star

  function Sum(xs: seq<int>): int {
    if xs == [] then 0 else Sum(xs[..|xs| - 1]) + xs[|xs| - 1]
  }

  lemma {:induction false} SumUpdate(xs: seq<int>, i: nat, x: int)
    requires i < |xs|
    ensures Sum(xs[i := x]) == Sum(xs) - xs[i] + x
  {
    var n := |xs| - 1;
    if i == n {
      assert xs[i := x][..n] == xs[..n];
    } else {
      SumUpdate(xs[..n], i, x);
      assert xs[i := x][..n] == xs[..n][i := x];
    }
  }

  lemma {:induction false} SumNatural(xs: seq<int>)
    requires forall i :: 0 <= i < |xs| ==> xs[i] >= 0
    ensures Sum(xs) >= 0
  {
    if xs != [] {
      SumNatural(xs[..|xs| - 1]);
    }
  }

  function Works(c: Costs, peers: seq<Peer>): (ws: seq<int>)
    ensures |ws| == |peers|
  {
    seq(|peers|, i requires 0 <= i < |peers| => PeerWork(c, peers[i], i))
  }

  function NetWork(c: Costs, net: Net): int {
    RootWork(c, net.root) + Sum(Works(c, net.peers))
  }

  lemma {:induction false} PeerStepWork(c: Costs, peers: seq<Peer>, i: nat, p: Peer)
    requires i < |peers|
    ensures Sum(Works(c, peers[i := p])) == Sum(Works(c, peers)) - PeerWork(c, peers[i], i) + PeerWork(c, p, i)
  {
    SumUpdate(Works(c, peers), i, PeerWork(c, p, i));
    assert Works(c, peers[i := p]) == Works(c, peers)[i := PeerWork(c, p, i)];
  }

  lemma {:induction false} SendUpWork(c: Costs, net: Net, i: nat, n: nat)
    requires WritesUp(net, i, n)
    ensures NetWork(c, SendUp(net, i, n)) == NetWork(c, net) - n
  {
    var p := net.peers[i];
    PeerWroteWork(c, p, i, n);
    PeerStepWork(c, net.peers, i, PeerWrote(p, n).(up := p.up + p.phase.left[..n]));
  }

  lemma {:induction false} TakeUpWork(cfg: StarConfig, c: Costs, net: Net, i: nat, n: nat)
    requires HasCosts(cfg, c) && NetInv(cfg, net) && ReadsUp(net, i, n) && n <= |net.peers[i].up|
    ensures NetWork(c, TakeUp(net, i, n)) == NetWork(c, net) - n
  {
    var p := net.peers[i];
    assert PairOk(cfg, net.root, p, i);
    RootReadWork(cfg, c, net.root, p, i, n);
    PeerStepWork(c, net.peers, i, p.(up := p.up[n..]));
  }

  lemma {:induction false} SendDownWork(cfg: StarConfig, c: Costs, net: Net, i: nat, n: nat)
    requires HasCosts(cfg, c) && NetInv(cfg, net) && WritesDown(net, i, n)
    ensures NetWork(c, SendDown(net, i, n)) == NetWork(c, net) - n
  {
    var p := net.peers[i];
    assert ReplyCosts(cfg, c, net.root.round);
    RootWroteWork(c, net.root, |net.peers|, n);
    PeerStepWork(c, net.peers, i, p.(down := p.down + net.root.phase.left[..n]));
  }

  lemma {:induction false} TakeDownWork(cfg: StarConfig, c: Costs, net: Net, i: nat, n: nat)
    requires HasCosts(cfg, c) && NetInv(cfg, net) && ReadsDown(net, i, n) && n <= |net.peers[i].down|
    ensures NetWork(c, TakeDown(net, i, n)) == NetWork(c, net) - n
  {
    var p := net.peers[i];
    assert PairOk(cfg, net.root, p, i);
    PeerReadWork(cfg, c, net.root, p, i, n);
    PeerStepWork(c, net.peers, i, PeerRead(p, i + 1, p.down[..n]).(down := p.down[n..]));
  }

  lemma {:induction false} EnterMoveWork(cfg: StarConfig, c: Costs, net: Net, i: nat)
    requires HasCosts(cfg, c) && NetInv(cfg, net) && Allowed(cfg, net, Enter(i))
    ensures NetWork(c, Do(cfg, net, Enter(i))) == NetWork(c, net) - 1
  {
    var p := net.peers[i];
    var bytes := FrameOf(cfg.out[i + 1][p.round]);
    assert FrameCosts(cfg, c, i, p.round);
    EnterWork(c, p, i, bytes);
    PeerStepWork(c, net.peers, i, p.(phase := Sending(bytes)));
  }

  /** Every move uses up work: a byte written, a byte read, or a call made. */
  lemma {:induction false} MoveWork(cfg: StarConfig, c: Costs, net: Net, m: Move)
    requires HasCosts(cfg, c) && NetInv(cfg, net) && Allowed(cfg, net, m)
    ensures NetWork(c, Do(cfg, net, m)) < NetWork(c, net)
  {
    match m
    case EnterRoot => EnterRootWork(c, net.root, cfg.out[0][net.root.round]);
    case Enter(i) => EnterMoveWork(cfg, c, net, i);
    case PushUp(i, n) => SendUpWork(c, net, i, n);
    case PullUp(i, n) => TakeUpWork(cfg, c, net, i, n);
    case MeetUp(i, n) =>
      SendUpInv(cfg, net, i, n);
      SendUpWork(c, net, i, n);
      TakeUpWork(cfg, c, SendUp(net, i, n), i, n);
    case PushDown(i, n) => SendDownWork(cfg, c, net, i, n);
    case PullDown(i, n) => TakeDownWork(cfg, c, net, i, n);
    case MeetDown(i, n) =>
      SendDownInv(cfg, net, i, n);
      SendDownWork(cfg, c, net, i, n);
      TakeDownWork(cfg, c, SendDown(net, i, n), i, n);
  }

  lemma {:induction false} NetWorkNatural(cfg: StarConfig, c: Costs, net: Net)
    requires HasCosts(cfg, c) && NetInv(cfg, net)
    ensures NetWork(c, net) >= 0
  {
    forall i | 0 <= i < |net.peers| ensures PeerWork(c, net.peers[i], i) >= 0 {
      assert PairOk(cfg, net.root, net.peers[i], i);
      PeerWorkNatural(cfg, c, net.root, net.peers[i], i);
    }
    SumNatural(Works(c, net.peers));
    RootWorkNatural(cfg, c, net.root, net.peers);
  }

  lemma {:induction false} WorkFallsBy(cfg: StarConfig, c: Costs, h: seq<Net>, n: nat)
    requires HasCosts(cfg, c) && IsHistory(cfg, h) && n < |h|
    ensures NetWork(c, h[n]) + n <= NetWork(c, Start(cfg))
  {
    if n > 0 {
      WorkFallsBy(cfg, c, h, n - 1);
      HistoryInv(cfg, h, n - 1);
      var m := MoveAt(cfg, h, n - 1);
      MoveWork(cfg, c, h[n - 1], m);
    }
  }

  /** No schedule has more moves than its exchanges have calls and bytes to write and read. */
  lemma {:induction false} HistoriesAreFinite(cfg: StarConfig, c: Costs, h: seq<Net>)
    requires HasCosts(cfg, c) && IsHistory(cfg, h)
    ensures |h| - 1 <= NetWork(c, Start(cfg))
  {
    WorkFallsBy(cfg, c, h, |h| - 1);
    HistoryInv(cfg, h, |h| - 1);
    NetWorkNatural(cfg, c, h[|h| - 1]);
  }

  lemma {:induction false} HistoryExtends(cfg: StarConfig, h: seq<Net>) returns (h': seq<Net>)
    requires ConfigOk(cfg) && IsHistory(cfg, h) && !Stuck(cfg, h[|h| - 1])
    ensures IsHistory(cfg, h') && h <= h' && |h'| == |h| + 1
  {
    var net := h[|h| - 1];
    var m :| Allowed(cfg, net, m);
    h' := h + [Do(cfg, net, m)];
    forall i | 0 <= i < |h'| - 1 ensures Moves(cfg, h'[i], h'[i + 1]) {
      if i < |h| - 1 {
        assert Moves(cfg, h[i], h[i + 1]);
      }
    }
  }

  lemma {:induction false} CompletesWithin(cfg: StarConfig, h: seq<Net>, bound: nat) returns (full: seq<Net>)
    requires ConfigOk(cfg) && IsHistory(cfg, h) && |h| <= bound
    requires forall g :: IsHistory(cfg, g) ==> |g| <= bound
    ensures IsHistory(cfg, full) && h <= full && AllReturned(cfg, full[|full| - 1])
    decreases bound - |h|
  {
    StarDeadlockFree(cfg, h, |h| - 1);
    if AllReturned(cfg, h[|h| - 1]) {
      full := h;
    } else {
      var h' := HistoryExtends(cfg, h);
      assert |h'| <= bound;
      full := CompletesWithin(cfg, h', bound);
    }
  }

  /** However a schedule has begun, it can be continued, and only so, until every rank has
      returned from every exchange. */
  lemma {:induction false} HistoryCompletes(cfg: StarConfig, h: seq<Net>) returns (full: seq<Net>)
    requires ConfigOk(cfg) && IsHistory(cfg, h)
    ensures IsHistory(cfg, full) && h <= full && AllReturned(cfg, full[|full| - 1])
  {
    var c := CostsOf(cfg);
    var bound := NetWork(c, Start(cfg)) + 1;
    forall g | IsHistory(cfg, g) ensures |g| <= bound {
      HistoriesAreFinite(cfg, c, g);
    }
    full := CompletesWithin(cfg, h, bound);
  }
}
