/**
 The bootstrap star: rank 0 and its peers exchange endpoint records, round after round,
 over byte streams that may cut every message anywhere and buffer any amount, even none.
 */
module Star {
  import opened Wire
  import opened Frames

  /** `out[r][k]` is what rank r passes to its k-th exchange, in the order its map happens to
      be iterated; each socket buffers at most `capacity` bytes. */
  datatype StarConfig = StarConfig(out: seq<seq<seq<Entry>>>, rounds: nat, capacity: nat)

  /** In the body of its current exchange a rank first writes, then reads. */
  datatype Phase = Idle | Sending(left: seq<Byte>) | Receiving(frame: Frame)

  /** A rank other than 0: how many exchanges it has returned from, where it is in the next
      one, the bytes in flight to and from rank 0, and what its exchanges returned. */
  datatype Peer = Peer(round: nat, phase: Phase, up: seq<Byte>, down: seq<Byte>, results: seq<map<int, EndpointInfo>>)

  /** Rank 0 reads every peer in order, then writes to every peer in order. */
  datatype RootPhase =
    | Resting
    | Collecting(c: nat, frame: Frame, table: seq<Entry>)
    | Replying(c: nat, left: seq<Byte>, table: seq<Entry>)

  datatype Root = Root(round: nat, phase: RootPhase, results: seq<map<int, EndpointInfo>>)

  /** `peers[i]` is rank i + 1. */
  datatype Net = Net(root: Root, peers: seq<Peer>)

  datatype Move =
    | EnterRoot
    | Enter(i: nat)
    | PushUp(i: nat, n: nat)     // rank i + 1 writes n bytes into the socket buffer
    | PullUp(i: nat, n: nat)     // rank 0 reads n bytes from the socket buffer
    | MeetUp(i: nat, n: nat)     // n bytes pass straight from writer to reader
    | PushDown(i: nat, n: nat)
    | PullDown(i: nat, n: nat)
    | MeetDown(i: nat, n: nat)

  predicate ConfigOk(cfg: StarConfig) {
    && |cfg.out| > 0
    && (forall r :: 0 <= r < |cfg.out| ==> |cfg.out[r]| == cfg.rounds)
    && (forall r, k :: 0 <= r < |cfg.out| && 0 <= k < cfg.rounds ==> Small(cfg.out[r][k]))
    && (forall k :: 0 <= k < cfg.rounds ==> Small(Table(cfg, k, |cfg.out|)))
  }

  /** What the first n ranks contribute to round k, in rank order. */
  function Table(cfg: StarConfig, k: nat, n: nat): seq<Entry>
    requires n <= |cfg.out| && (forall r :: 0 <= r < |cfg.out| ==> |cfg.out[r]| == cfg.rounds) && k < cfg.rounds
  {
    if n == 0 then [] else Table(cfg, k, n - 1) + cfg.out[n - 1][k]
  }

  function Start(cfg: StarConfig): Net
    requires ConfigOk(cfg)
  {
    Net(Root(0, Resting, []), seq(|cfg.out| - 1, i => Peer(0, Idle, [], [], [])))
  }

  // ----- one rank's steps

  function Finished(root: Root, table: seq<Entry>): Root {
    Root(root.round + 1, Resting, root.results + [Addressed(table, 0)])
  }

  /** Rank 0 goes on to the next peer to read, or to writing, or returns. */
  function RootEntered(root: Root, own: seq<Entry>, peers: nat): Root {
    if peers == 0 then Finished(root, own) else root.(phase := Collecting(0, EMPTY, own))
  }

  function Collected(root: Root, peers: nat, frame: Frame): Root
    requires root.phase.Collecting?
  {
    var c, table := root.phase.c, root.phase.table + frame.entries;
    if !Complete(frame) then root.(phase := root.phase.(frame := frame))
    else if c + 1 < peers then root.(phase := Collecting(c + 1, EMPTY, table))
    else root.(phase := Replying(0, FrameOf(table), table))
  }

  function RootRead(root: Root, peers: nat, bytes: seq<Byte>): Root
    requires root.phase.Collecting? && |bytes| <= Want(root.phase.frame)
  {
    Collected(root, peers, Feed(root.phase.frame, bytes))
  }

  function RootWrote(root: Root, peers: nat, n: nat): Root
    requires root.phase.Replying? && n <= |root.phase.left|
  {
    var c, left, table := root.phase.c, root.phase.left[n..], root.phase.table;
    if left != [] then root.(phase := root.phase.(left := left))
    else if c + 1 < peers then root.(phase := Replying(c + 1, FrameOf(table), table))
    else Finished(root, table)
  }

  function PeerWrote(p: Peer, n: nat): Peer
    requires p.phase.Sending? && n <= |p.phase.left|
  {
    var left := p.phase.left[n..];
    p.(phase := if left == [] then Receiving(EMPTY) else Sending(left))
  }

  function PeerRead(p: Peer, r: nat, bytes: seq<Byte>): Peer
    requires p.phase.Receiving? && |bytes| <= Want(p.phase.frame)
  {
    var frame := Feed(p.phase.frame, bytes);
    if Complete(frame)
    then p.(round := p.round + 1, phase := Idle, results := p.results + [Addressed(frame.entries, r)])
    else p.(phase := Receiving(frame))
  }

  // ----- moves

  predicate WritesUp(net: Net, i: nat, n: nat) {
    i < |net.peers| && net.peers[i].phase.Sending? && 0 < n <= |net.peers[i].phase.left|
  }

  predicate ReadsUp(net: Net, i: nat, n: nat) {
    i < |net.peers| && net.root.phase.Collecting? && net.root.phase.c == i && 0 < n <= Want(net.root.phase.frame)
  }

  predicate WritesDown(net: Net, i: nat, n: nat) {
    i < |net.peers| && net.root.phase.Replying? && net.root.phase.c == i && 0 < n <= |net.root.phase.left|
  }

  predicate ReadsDown(net: Net, i: nat, n: nat) {
    i < |net.peers| && net.peers[i].phase.Receiving? && 0 < n <= Want(net.peers[i].phase.frame)
  }

  function SendUp(net: Net, i: nat, n: nat): (net': Net)
    requires WritesUp(net, i, n)
    ensures |net'.peers| == |net.peers|
  {
    var p := net.peers[i];
    net.(peers := net.peers[i := PeerWrote(p, n).(up := p.up + p.phase.left[..n])])
  }

  function TakeUp(net: Net, i: nat, n: nat): (net': Net)
    requires ReadsUp(net, i, n) && n <= |net.peers[i].up|
    ensures |net'.peers| == |net.peers|
  {
    var p := net.peers[i];
    Net(RootRead(net.root, |net.peers|, p.up[..n]), net.peers[i := p.(up := p.up[n..])])
  }

  function SendDown(net: Net, i: nat, n: nat): (net': Net)
    requires WritesDown(net, i, n)
    ensures |net'.peers| == |net.peers|
  {
    var p := net.peers[i];
    Net(RootWrote(net.root, |net.peers|, n), net.peers[i := p.(down := p.down + net.root.phase.left[..n])])
  }

  function TakeDown(net: Net, i: nat, n: nat): (net': Net)
    requires ReadsDown(net, i, n) && n <= |net.peers[i].down|
    ensures |net'.peers| == |net.peers|
  {
    var p := net.peers[i];
    net.(peers := net.peers[i := PeerRead(p, i + 1, p.down[..n]).(down := p.down[n..])])
  }

  predicate Allowed(cfg: StarConfig, net: Net, m: Move) {
    match m
    case EnterRoot => net.root.phase.Resting? && net.root.round < cfg.rounds
    case Enter(i) => i < |net.peers| && net.peers[i].phase.Idle? && net.peers[i].round < cfg.rounds
    case PushUp(i, n) => WritesUp(net, i, n) && |net.peers[i].up| + n <= cfg.capacity
    case PullUp(i, n) => ReadsUp(net, i, n) && n <= |net.peers[i].up|
    case MeetUp(i, n) => WritesUp(net, i, n) && ReadsUp(net, i, n) && net.peers[i].up == []
    case PushDown(i, n) => WritesDown(net, i, n) && |net.peers[i].down| + n <= cfg.capacity
    case PullDown(i, n) => ReadsDown(net, i, n) && n <= |net.peers[i].down|
    case MeetDown(i, n) => WritesDown(net, i, n) && ReadsDown(net, i, n) && net.peers[i].down == []
  }

  function Do(cfg: StarConfig, net: Net, m: Move): (net': Net)
    requires ConfigOk(cfg) && |net.peers| == |cfg.out| - 1 && Allowed(cfg, net, m)
    ensures |net'.peers| == |net.peers|
  {
    match m
    case EnterRoot => net.(root := RootEntered(net.root, cfg.out[0][net.root.round], |net.peers|))
    case Enter(i) =>
      var p := net.peers[i];
      net.(peers := net.peers[i := p.(phase := Sending(FrameOf(cfg.out[i + 1][p.round])))])
    case PushUp(i, n) => SendUp(net, i, n)
    case PullUp(i, n) => TakeUp(net, i, n)
    case MeetUp(i, n) => TakeUp(SendUp(net, i, n), i, n)
    case PushDown(i, n) => SendDown(net, i, n)
    case PullDown(i, n) => TakeDown(net, i, n)
    case MeetDown(i, n) => TakeDown(SendDown(net, i, n), i, n)
  }

  ghost predicate Moves(cfg: StarConfig, net: Net, net': Net)
    requires ConfigOk(cfg) && |net.peers| == |cfg.out| - 1
  {
    exists m :: Allowed(cfg, net, m) && net' == Do(cfg, net, m)
  }

  /** A finite prefix of one schedule of the star. */
  ghost predicate IsHistory(cfg: StarConfig, h: seq<Net>)
    requires ConfigOk(cfg)
  {
    && |h| > 0 && h[0] == Start(cfg)
    && (forall i :: 0 <= i < |h| ==> |h[i].peers| == |cfg.out| - 1)
    && forall i :: 0 <= i < |h| - 1 ==> Moves(cfg, h[i], h[i + 1])
  }

  // ----- the invariant

  /** How far rank 0 is with peer i: still to be read in round s, with `frame` read so far;
      read but not answered; or being answered, with `left` still to be written. */
  datatype View = Await(s: nat, frame: Frame) | Got(s: nat) | Reply(s: nat, left: seq<Byte>)

  function ViewOf(root: Root, i: nat): View {
    match root.phase
    case Resting => Await(root.round, EMPTY)
    case Collecting(c, frame, _) =>
      if i < c then Got(root.round) else Await(root.round, if i == c then frame else EMPTY)
    case Replying(c, left, _) =>
      if i < c then Await(root.round + 1, EMPTY) else if i == c then Reply(root.round, left) else Got(root.round)
  }

  function WholeTable(cfg: StarConfig, k: nat): seq<Entry>
    requires ConfigOk(cfg) && k < cfg.rounds
  {
    Table(cfg, k, |cfg.out|)
  }

  /** What one exchange must return to rank r. */
  function Expected(cfg: StarConfig, k: nat, r: nat): map<int, EndpointInfo>
    requires ConfigOk(cfg) && k < cfg.rounds
  {
    Addressed(WholeTable(cfg, k), r)
  }

  ghost predicate ResultsOk(cfg: StarConfig, results: seq<map<int, EndpointInfo>>, round: nat, r: nat)
    requires ConfigOk(cfg)
  {
    round <= cfg.rounds && |results| == round && forall k :: 0 <= k < round ==> results[k] == Expected(cfg, k, r)
  }

  ghost predicate RootOk(cfg: StarConfig, root: Root)
    requires ConfigOk(cfg)
  {
    && ResultsOk(cfg, root.results, root.round, 0)
    && match root.phase
       case Resting => true
       case Collecting(c, frame, table) =>
         && root.round < cfg.rounds && c < |cfg.out| - 1 && FrameOk(frame) && !Complete(frame)
         && table == Table(cfg, root.round, c + 1)
       case Replying(c, left, table) =>
         && root.round < cfg.rounds && c < |cfg.out| - 1 && left != [] && table == WholeTable(cfg, root.round)
  }

  ghost predicate PeerOk(cfg: StarConfig, p: Peer, i: nat)
    requires ConfigOk(cfg)
  {
    && ResultsOk(cfg, p.results, p.round, i + 1)
    && (!p.phase.Idle? ==> p.round < cfg.rounds)
    && (p.phase.Sending? ==> p.phase.left != [])
    && (p.phase.Receiving? ==> FrameOk(p.phase.frame) && !Complete(p.phase.frame))
  }

  /** The bytes of a frame are split, in order, between what its reader has, what is in
      flight and what its writer has left; no stream ever holds bytes of two rounds. */
  ghost predicate LinkOk(cfg: StarConfig, view: View, p: Peer, i: nat)
    requires ConfigOk(cfg) && i + 1 < |cfg.out|
  {
    match view
    case Await(s, frame) =>
      (match p.phase
       case Idle => p.round == s && frame == EMPTY && p.up == [] && p.down == []
       case Sending(left) =>
         p.round == s < cfg.rounds && p.down == [] && Bytes(frame) + p.up + left == FrameOf(cfg.out[i + 1][s])
       case Receiving(got) =>
         || (p.round == s < cfg.rounds && got == EMPTY && p.down == []
             && Bytes(frame) + p.up == FrameOf(cfg.out[i + 1][s]))
         || (p.round + 1 == s <= cfg.rounds && frame == EMPTY && p.up == []
             && Bytes(got) + p.down == FrameOf(WholeTable(cfg, p.round))))
    case Got(s) =>
      p.round == s && p.phase == Receiving(EMPTY) && p.up == [] && p.down == []
    case Reply(s, left) =>
      && p.round == s < cfg.rounds && p.phase.Receiving? && p.up == []
      && Bytes(p.phase.frame) + p.down + left == FrameOf(WholeTable(cfg, s))
  }

  ghost predicate PairOk(cfg: StarConfig, root: Root, p: Peer, i: nat)
    requires ConfigOk(cfg) && i + 1 < |cfg.out|
  {
    PeerOk(cfg, p, i) && LinkOk(cfg, ViewOf(root, i), p, i)
  }

  ghost predicate NetInv(cfg: StarConfig, net: Net)
    requires ConfigOk(cfg)
  {
    && |net.peers| == |cfg.out| - 1 && RootOk(cfg, net.root)
    && forall i {:trigger PairOk(cfg, net.root, net.peers[i], i)} ::
         0 <= i < |net.peers| ==> PairOk(cfg, net.root, net.peers[i], i)
  }

  lemma {:induction false} StartInv(cfg: StarConfig)
    requires ConfigOk(cfg)
    ensures NetInv(cfg, Start(cfg))
  {
  }

  // ----- preservation, one pair at a time

  lemma {:induction false} PeerWroteOk(cfg: StarConfig, root: Root, p: Peer, i: nat, n: nat)
    requires ConfigOk(cfg) && i + 1 < |cfg.out| && PairOk(cfg, root, p, i)
    requires p.phase.Sending? && 0 < n <= |p.phase.left|
    ensures PairOk(cfg, root, PeerWrote(p, n).(up := p.up + p.phase.left[..n]), i)
  {
    var left := p.phase.left;
    var read := Bytes(ViewOf(root, i).frame);
    assert read + p.up + left == read + (p.up + left[..n]) + left[n..];
  }

  lemma {:induction false} ResultsAppend(cfg: StarConfig, results: seq<map<int, EndpointInfo>>, round: nat, r: nat)
    requires ConfigOk(cfg) && round < cfg.rounds && ResultsOk(cfg, results, round, r)
    ensures ResultsOk(cfg, results + [Expected(cfg, round, r)], round + 1, r)
  {
  }

  /** Reading bytes of a reply: the peer returns with the whole table, or goes on reading. */
  lemma {:induction false} PeerReadCases(p: Peer, r: nat, n: nat, table: seq<Entry>, later: seq<Byte>)
    requires p.phase.Receiving? && 0 < n <= Want(p.phase.frame) && n <= |p.down| && FrameOk(p.phase.frame)
    requires Small(table) && Bytes(p.phase.frame) + p.down + later == FrameOf(table)
    ensures var p' := PeerRead(p, r, p.down[..n]).(down := p.down[n..]);
            if p.down[n..] == [] && later == []
            then p' == Peer(p.round + 1, Idle, p.up, [], p.results + [Addressed(table, r)])
            else p'.phase.Receiving? && p' == p.(phase := p'.phase, down := p.down[n..]) && FrameOk(p'.phase.frame)
                 && !Complete(p'.phase.frame) && Bytes(p'.phase.frame) + p'.down + later == FrameOf(table)
  {
    ReadSome(p.phase.frame, table, p.down, n, later);
  }

  lemma {:induction false} PeerFeedOk(cfg: StarConfig, p: Peer, i: nat, n: nat, later: seq<Byte>)
    requires ConfigOk(cfg) && i + 1 < |cfg.out| && PeerOk(cfg, p, i)
    requires p.phase.Receiving? && 0 < n <= Want(p.phase.frame) && n <= |p.down|
    requires Bytes(p.phase.frame) + p.down + later == FrameOf(WholeTable(cfg, p.round))
    ensures var p' := PeerRead(p, i + 1, p.down[..n]).(down := p.down[n..]);
            && PeerOk(cfg, p', i) && p'.up == p.up
            && if p'.down == [] && later == [] then p'.phase.Idle? && p'.round == p.round + 1
               else p'.phase.Receiving? && p'.round == p.round
                    && Bytes(p'.phase.frame) + p'.down + later == FrameOf(WholeTable(cfg, p.round))
  {
    ResultsAppend(cfg, p.results, p.round, i + 1);
    PeerReadCases(p, i + 1, n, WholeTable(cfg, p.round), later);
  }

  lemma {:induction false} PeerReadOk(cfg: StarConfig, root: Root, p: Peer, i: nat, n: nat)
    requires ConfigOk(cfg) && i + 1 < |cfg.out| && PairOk(cfg, root, p, i)
    requires RootOk(cfg, root)
    requires p.phase.Receiving? && 0 < n <= Want(p.phase.frame) && n <= |p.down|
    ensures PairOk(cfg, root, PeerRead(p, i + 1, p.down[..n]).(down := p.down[n..]), i)
  {
    var view := ViewOf(root, i);
    var later := if view.Reply? then view.left else [];
    assert Bytes(p.phase.frame) + p.down + [] == Bytes(p.phase.frame) + p.down;
    PeerFeedOk(cfg, p, i, n, later);
    var p' := PeerRead(p, i + 1, p.down[..n]).(down := p.down[n..]);
    assert p'.phase.Receiving? ==> Bytes(p'.phase.frame) + p'.down + [] == Bytes(p'.phase.frame) + p'.down;
  }

  /** Once everything is collected, rank 0 can begin any answer. */
  lemma {:induction false} GotToReply(cfg: StarConfig, p: Peer, i: nat, s: nat)
    requires ConfigOk(cfg) && i + 1 < |cfg.out| && s < cfg.rounds && LinkOk(cfg, Got(s), p, i)
    ensures LinkOk(cfg, Reply(s, FrameOf(WholeTable(cfg, s))), p, i)
  {
    assert Bytes(EMPTY) + [] + FrameOf(WholeTable(cfg, s)) == FrameOf(WholeTable(cfg, s));
  }

  /** Rank 0 reads bytes of peer i: the frame grows, or is complete and exactly what the
      peer wrote, with nothing left in flight. */
  lemma {:induction false} RootFeedOk(cfg: StarConfig, root: Root, p: Peer, i: nat, n: nat)
    requires ConfigOk(cfg) && i + 1 < |cfg.out| && RootOk(cfg, root) && PairOk(cfg, root, p, i)
    requires root.phase.Collecting? && root.phase.c == i && 0 < n <= Want(root.phase.frame) && n <= |p.up|
    ensures var frame, p' := Feed(root.phase.frame, p.up[..n]), p.(up := p.up[n..]);
            && FrameOk(frame) && PeerOk(cfg, p', i)
            && if Complete(frame)
               then LinkOk(cfg, Got(root.round), p', i) && frame.entries == cfg.out[i + 1][root.round]
               else LinkOk(cfg, Await(root.round, frame), p', i)
  {
    var f, k := root.phase.frame, root.round;
    var later := if p.phase.Sending? then p.phase.left else [];
    assert Bytes(f) + p.up + [] == Bytes(f) + p.up;
    ReadSome(f, cfg.out[i + 1][k], p.up, n, later);
    var f' := Feed(f, p.up[..n]);
    assert Bytes(f') + p.up[n..] + [] == Bytes(f') + p.up[n..];
  }

  lemma {:induction false} RootReadOk(cfg: StarConfig, root: Root, p: Peer, i: nat, n: nat)
    requires ConfigOk(cfg) && i + 1 < |cfg.out| && RootOk(cfg, root) && PairOk(cfg, root, p, i)
    requires root.phase.Collecting? && root.phase.c == i && 0 < n <= Want(root.phase.frame) && n <= |p.up|
    ensures var root' := RootRead(root, |cfg.out| - 1, p.up[..n]);
            RootOk(cfg, root') && PairOk(cfg, root', p.(up := p.up[n..]), i)
  {
    RootFeedOk(cfg, root, p, i, n);
    RootCollected(cfg, root, i, Feed(root.phase.frame, p.up[..n]), p.(up := p.up[n..]));
  }

  lemma {:induction false} RootCollected(cfg: StarConfig, root: Root, i: nat, frame: Frame, p: Peer)
    requires ConfigOk(cfg) && i + 1 < |cfg.out| && RootOk(cfg, root)
    requires root.phase.Collecting? && root.phase.c == i && FrameOk(frame) && PeerOk(cfg, p, i)
    requires if Complete(frame) then LinkOk(cfg, Got(root.round), p, i) && frame.entries == cfg.out[i + 1][root.round]
             else LinkOk(cfg, Await(root.round, frame), p, i)
    ensures RootOk(cfg, Collected(root, |cfg.out| - 1, frame))
    ensures PairOk(cfg, Collected(root, |cfg.out| - 1, frame), p, i)
  {
    if Complete(frame) {
      assert Table(cfg, root.round, i + 2) == root.phase.table + frame.entries;
      GotToReply(cfg, p, i, root.round);
    }
  }

  /** The other peers do not notice, except that the first is answered when the last is read. */
  lemma {:induction false} RootReadOthers(cfg: StarConfig, root: Root, i: nat, bytes: seq<Byte>, q: Peer, j: nat)
    requires ConfigOk(cfg) && i + 1 < |cfg.out| && j + 1 < |cfg.out| && j != i
    requires root.phase.Collecting? && root.phase.c == i && |bytes| <= Want(root.phase.frame)
    requires PairOk(cfg, root, q, j) && RootOk(cfg, RootRead(root, |cfg.out| - 1, bytes))
    ensures PairOk(cfg, RootRead(root, |cfg.out| - 1, bytes), q, j)
  {
    var root' := RootRead(root, |cfg.out| - 1, bytes);
    if root'.phase.Replying? && j == 0 {
      GotToReply(cfg, q, j, root.round);
    }
  }

  lemma {:induction false} RootWroteOk(cfg: StarConfig, root: Root, p: Peer, i: nat, n: nat)
    requires ConfigOk(cfg) && i + 1 < |cfg.out| && RootOk(cfg, root) && PairOk(cfg, root, p, i)
    requires root.phase.Replying? && root.phase.c == i && 0 < n <= |root.phase.left|
    ensures var root' := RootWrote(root, |cfg.out| - 1, n);
            RootOk(cfg, root') && PairOk(cfg, root', p.(down := p.down + root.phase.left[..n]), i)
  {
    var read, left := Bytes(p.phase.frame), root.phase.left;
    assert read + p.down + left == read + (p.down + left[..n]) + left[n..];
    if left[n..] == [] {
      assert read + (p.down + left[..n]) + [] == read + (p.down + left[..n]);
    }
    ResultsAppend(cfg, root.results, root.round, 0);
  }

  lemma {:induction false} RootWroteOthers(cfg: StarConfig, root: Root, i: nat, n: nat, q: Peer, j: nat)
    requires ConfigOk(cfg) && i + 1 < |cfg.out| && j + 1 < |cfg.out| && j != i && RootOk(cfg, root)
    requires root.phase.Replying? && root.phase.c == i && 0 < n <= |root.phase.left| && PairOk(cfg, root, q, j)
    ensures PairOk(cfg, RootWrote(root, |cfg.out| - 1, n), q, j)
  {
    if j == i + 1 {
      GotToReply(cfg, q, j, root.round);
    }
  }

  lemma {:induction false} SendUpInv(cfg: StarConfig, net: Net, i: nat, n: nat)
    requires ConfigOk(cfg) && NetInv(cfg, net) && WritesUp(net, i, n)
    ensures NetInv(cfg, SendUp(net, i, n))
  {
    var net' := SendUp(net, i, n);
    forall j | 0 <= j < |net'.peers| ensures PairOk(cfg, net'.root, net'.peers[j], j) {
      assert PairOk(cfg, net.root, net.peers[j], j);
      if j == i { PeerWroteOk(cfg, net.root, net.peers[i], i, n); }
    }
  }

  lemma {:induction false} TakeUpInv(cfg: StarConfig, net: Net, i: nat, n: nat)
    requires ConfigOk(cfg) && NetInv(cfg, net) && ReadsUp(net, i, n) && n <= |net.peers[i].up|
    ensures NetInv(cfg, TakeUp(net, i, n))
  {
    var net' := TakeUp(net, i, n);
    assert PairOk(cfg, net.root, net.peers[i], i);
    RootReadOk(cfg, net.root, net.peers[i], i, n);
    forall j | 0 <= j < |net'.peers| ensures PairOk(cfg, net'.root, net'.peers[j], j) {
      assert PairOk(cfg, net.root, net.peers[j], j);
      if j != i { RootReadOthers(cfg, net.root, i, net.peers[i].up[..n], net.peers[j], j); }
    }
  }

  lemma {:induction false} SendDownInv(cfg: StarConfig, net: Net, i: nat, n: nat)
    requires ConfigOk(cfg) && NetInv(cfg, net) && WritesDown(net, i, n)
    ensures NetInv(cfg, SendDown(net, i, n))
  {
    var net' := SendDown(net, i, n);
    assert PairOk(cfg, net.root, net.peers[i], i);
    RootWroteOk(cfg, net.root, net.peers[i], i, n);
    forall j | 0 <= j < |net'.peers| ensures PairOk(cfg, net'.root, net'.peers[j], j) {
      assert PairOk(cfg, net.root, net.peers[j], j);
      if j != i { RootWroteOthers(cfg, net.root, i, n, net.peers[j], j); }
    }
  }

  lemma {:induction false} TakeDownInv(cfg: StarConfig, net: Net, i: nat, n: nat)
    requires ConfigOk(cfg) && NetInv(cfg, net) && ReadsDown(net, i, n) && n <= |net.peers[i].down|
    ensures NetInv(cfg, TakeDown(net, i, n))
  {
    var net' := TakeDown(net, i, n);
    forall j | 0 <= j < |net'.peers| ensures PairOk(cfg, net'.root, net'.peers[j], j) {
      assert PairOk(cfg, net.root, net.peers[j], j);
      if j == i { PeerReadOk(cfg, net.root, net.peers[i], i, n); }
    }
  }

  lemma {:induction false} EnterRootInv(cfg: StarConfig, net: Net)
    requires ConfigOk(cfg) && NetInv(cfg, net) && Allowed(cfg, net, EnterRoot)
    ensures NetInv(cfg, Do(cfg, net, EnterRoot))
  {
    var net' := Do(cfg, net, EnterRoot);
    var k := net.root.round;
    assert Table(cfg, k, 1) == Table(cfg, k, 0) + cfg.out[0][k] == cfg.out[0][k];
    ResultsAppend(cfg, net.root.results, k, 0);
    forall j | 0 <= j < |net'.peers| ensures PairOk(cfg, net'.root, net'.peers[j], j) {
      assert PairOk(cfg, net.root, net.peers[j], j);
    }
  }

  lemma {:induction false} EnterInv(cfg: StarConfig, net: Net, i: nat)
    requires ConfigOk(cfg) && NetInv(cfg, net) && Allowed(cfg, net, Enter(i))
    ensures NetInv(cfg, Do(cfg, net, Enter(i)))
  {
    var net' := Do(cfg, net, Enter(i));
    forall j | 0 <= j < |net'.peers| ensures PairOk(cfg, net'.root, net'.peers[j], j) {
      assert PairOk(cfg, net.root, net.peers[j], j);
      if j == i {
        EnteredOk(cfg, net.root, net.peers[i], i);
      }
    }
  }

  lemma {:induction false} EnteredOk(cfg: StarConfig, root: Root, p: Peer, i: nat)
    requires ConfigOk(cfg) && i + 1 < |cfg.out| && PairOk(cfg, root, p, i) && p.phase.Idle? && p.round < cfg.rounds
    ensures PairOk(cfg, root, p.(phase := Sending(FrameOf(cfg.out[i + 1][p.round]))), i)
  {
    var bytes := FrameOf(cfg.out[i + 1][p.round]);
    assert Bytes(EMPTY) + [] + bytes == bytes;
  }

  lemma {:induction false} MoveInv(cfg: StarConfig, net: Net, m: Move)
    requires ConfigOk(cfg) && NetInv(cfg, net) && Allowed(cfg, net, m)
    ensures NetInv(cfg, Do(cfg, net, m))
  {
    match m
    case EnterRoot => EnterRootInv(cfg, net);
    case Enter(i) => EnterInv(cfg, net, i);
    case PushUp(i, n) => SendUpInv(cfg, net, i, n);
    case PullUp(i, n) => TakeUpInv(cfg, net, i, n);
    case MeetUp(i, n) =>
      SendUpInv(cfg, net, i, n);
      TakeUpInv(cfg, SendUp(net, i, n), i, n);
    case PushDown(i, n) => SendDownInv(cfg, net, i, n);
    case PullDown(i, n) => TakeDownInv(cfg, net, i, n);
    case MeetDown(i, n) =>
      SendDownInv(cfg, net, i, n);
      TakeDownInv(cfg, SendDown(net, i, n), i, n);
  }

  lemma {:induction false} MoveAt(cfg: StarConfig, h: seq<Net>, n: nat) returns (m: Move)
    requires ConfigOk(cfg) && IsHistory(cfg, h) && n + 1 < |h|
    ensures |h[n].peers| == |cfg.out| - 1 && Allowed(cfg, h[n], m) && h[n + 1] == Do(cfg, h[n], m)
  {
    assert Moves(cfg, h[n], h[n + 1]);
    m :| Allowed(cfg, h[n], m) && h[n + 1] == Do(cfg, h[n], m);
  }

  lemma {:induction false} HistoryInv(cfg: StarConfig, h: seq<Net>, n: nat)
    requires ConfigOk(cfg) && IsHistory(cfg, h) && n < |h|
    ensures NetInv(cfg, h[n])
  {
    if n == 0 {
      StartInv(cfg);
    } else {
      HistoryInv(cfg, h, n - 1);
      var m := MoveAt(cfg, h, n - 1);
      MoveInv(cfg, h[n - 1], m);
    }
  }
}
