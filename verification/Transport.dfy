/**
 The asynchronous data path: P ranks, each running a straight-line program of
 transport calls over its own memory, joined by reliable connected queue pairs.

 A program is a sequence of rounds. In a round a rank posts a receive, posts a
 send, waits for the send completion, waits for the receive completion, and
 reduces; each part may be absent, and then the rank does not touch the
 transport for it. Nothing synchronises the rounds of different ranks.
 */
module Transport {
  import opened Base

  /** A posted operation: the peer whose queue pair it uses and the local slice. */
  datatype Transfer = Transfer(peer: nat, slice: Slice)

  /** `mem[dst + i] := op(mem[dst + i], mem[src + i])` for `i < len`. */
  datatype Fold = Fold(dst: nat, src: nat, len: nat, op: ReduceOp)

  datatype Op = Op(recv: Option<Transfer>, send: Option<Transfer>, fold: Option<Fold>)

  /** What each rank does in one round, indexed by rank. */
  type Round = seq<Op>

  predicate HasRank(rounds: seq<Round>, r: nat) {
    forall t :: 0 <= t < |rounds| ==> r < |rounds[t]|
  }

  /** `tag` is the round that posted the request. No transition ever inspects it:
      the source gives every request the same wr_id. */
  datatype SendWr = SendWr(peer: nat, slice: Slice, tag: nat, accepted: bool)
  datatype RecvWr = RecvWr(peer: nat, slice: Slice, tag: nat)
  datatype Wc = Wc(peer: nat, len: nat, ok: bool, tag: nat)

  datatype Pc = PostRecv | PostSend | WaitSend | WaitRecv | Reduce

  datatype Rank<T> = Rank(
    round: nat, pc: Pc, failed: bool, mem: seq<T>,
    sq: seq<SendWr>, rq: seq<RecvWr>,  // outstanding requests of all queue pairs, oldest first
    scq: seq<Wc>, rcq: seq<Wc>)        // the two completion queues all queue pairs share

  type State<T> = seq<Rank<T>>

  /** `f` interprets the reduction operators; `init[r]` is rank r's memory on entry. */
  datatype Config<!T> = Config(rounds: seq<Round>, f: (ReduceOp, T, T) -> T, init: seq<seq<T>>)

  datatype Action =
    | Local(r: nat)                            // rank r executes its next call
    | Deliver(s: nat, i: nat, r: nat, j: nat)  // s's request i arrives in r's request j
    | Ack(s: nat, i: nat)                      // s's request i is acknowledged

  predicate FoldInRange(fold: Option<Fold>, size: nat) {
    fold.Some? ==> fold.value.dst + fold.value.len <= size && fold.value.src + fold.value.len <= size
  }

  predicate FoldsInto(fold: Option<Fold>, i: int) {
    fold.Some? && fold.value.dst <= i < fold.value.dst + fold.value.len
  }

  /** The first n iterations of the reduction loop. */
  function FoldN<T>(f: (ReduceOp, T, T) -> T, x: Fold, mem: seq<T>, n: nat): (out: seq<T>)
    requires n <= x.len && FoldInRange(Some(x), |mem|)
    ensures |out| == |mem|
  {
    if n == 0 then mem
    else
      var so := FoldN(f, x, mem, n - 1);
      so[x.dst + (n - 1) := f(x.op, so[x.dst + (n - 1)], so[x.src + (n - 1)])]
  }

  function FoldMem<T>(f: (ReduceOp, T, T) -> T, fold: Option<Fold>, mem: seq<T>): (out: seq<T>)
    requires FoldInRange(fold, |mem|)
    ensures |out| == |mem|
  {
    match fold
    case None => mem
    case Some(x) => FoldN(f, x, mem, x.len)
  }

  lemma {:induction false} FoldNElement<T>(f: (ReduceOp, T, T) -> T, x: Fold, mem: seq<T>, n: nat, i: nat)
    requires n <= x.len && FoldInRange(Some(x), |mem|) && i < |mem|
    requires Disjoint(Slice(x.dst, x.len), Slice(x.src, x.len))
    ensures FoldN(f, x, mem, n)[i] ==
              if x.dst <= i < x.dst + n then f(x.op, mem[i], mem[x.src + (i - x.dst)]) else mem[i]
  {
    if n > 0 {
      FoldNElement(f, x, mem, n - 1, i);
      FoldNElement(f, x, mem, n - 1, x.src + (n - 1));
      FoldNElement(f, x, mem, n - 1, x.dst + (n - 1));
    }
  }

  lemma {:induction false} FoldNKeeps<T>(f: (ReduceOp, T, T) -> T, x: Fold, mem: seq<T>, n: nat, i: nat)
    requires n <= x.len && FoldInRange(Some(x), |mem|) && i < |mem| && !FoldsInto(Some(x), i)
    ensures FoldN(f, x, mem, n)[i] == mem[i]
  {
    if n > 0 {
      FoldNKeeps(f, x, mem, n - 1, i);
    }
  }

  predicate Shaped<T>(cfg: Config<T>) {
    forall t :: 0 <= t < |cfg.rounds| ==> |cfg.rounds[t]| == |cfg.init|
  }

  function Init<T>(cfg: Config<T>): (st: State<T>)
    ensures |st| == |cfg.init|
  {
    seq(|cfg.init|, r requires 0 <= r < |cfg.init| =>
      Rank(0, PostRecv, false, cfg.init[r], [], [], [], []))
  }

  /** Request i is the next one the queue pair to `peer` has to transmit. */
  predicate NextToSend(sq: seq<SendWr>, i: nat, peer: nat) {
    && i < |sq| && sq[i].peer == peer && !sq[i].accepted
    && forall k :: 0 <= k < i && sq[k].peer == peer ==> sq[k].accepted
  }

  /** Request j is the oldest receive posted on the queue pair to `peer`. */
  predicate NextToFill(rq: seq<RecvWr>, j: nat, peer: nat) {
    && j < |rq| && rq[j].peer == peer
    && forall k :: 0 <= k < j ==> rq[k].peer != peer
  }

  /** Request i is the oldest unacknowledged one of its queue pair, and was accepted. */
  predicate NextToAck(sq: seq<SendWr>, i: nat) {
    && i < |sq| && sq[i].accepted
    && forall k :: 0 <= k < i ==> sq[k].peer != sq[i].peer
  }

  predicate LocalEnabled<T>(cfg: Config<T>, st: State<T>, r: nat)
    requires Shaped(cfg) && |st| == |cfg.init|
  {
    && r < |st| && !st[r].failed && st[r].round < |cfg.rounds|
    && var op := cfg.rounds[st[r].round][r];
       match st[r].pc
       case WaitSend => op.send.Some? ==> st[r].scq != []
       case WaitRecv => op.recv.Some? ==> st[r].rcq != []
       case Reduce => FoldInRange(op.fold, |st[r].mem|)
       case _ => true
  }

  predicate Enabled<T>(cfg: Config<T>, st: State<T>, a: Action)
    requires Shaped(cfg) && |st| == |cfg.init|
  {
    match a
    case Local(r) => LocalEnabled(cfg, st, r)
    case Deliver(s, i, r, j) =>
      && s < |st| && r < |st| && s != r
      && NextToSend(st[s].sq, i, r) && NextToFill(st[r].rq, j, s)
      && Within(st[s].sq[i].slice, |st[s].mem|) && Within(st[r].rq[j].slice, |st[r].mem|)
    case Ack(s, i) => s < |st| && NextToAck(st[s].sq, i)
  }

  /** One transport call, or the evaluation of one guard that skips it. A wait takes
      whatever completion is at the head of the shared queue. */
  function Advance<T>(f: (ReduceOp, T, T) -> T, op: Op, rk: Rank<T>): Rank<T>
    requires rk.pc.WaitSend? && op.send.Some? ==> rk.scq != []
    requires rk.pc.WaitRecv? && op.recv.Some? ==> rk.rcq != []
    requires rk.pc.Reduce? ==> FoldInRange(op.fold, |rk.mem|)
  {
    match rk.pc
    case PostRecv =>
      if op.recv.None? then rk.(pc := PostSend)
      else rk.(pc := PostSend, rq := rk.rq + [RecvWr(op.recv.value.peer, op.recv.value.slice, rk.round)])
    case PostSend =>
      if op.send.None? then rk.(pc := WaitSend)
      else rk.(pc := WaitSend, sq := rk.sq + [SendWr(op.send.value.peer, op.send.value.slice, rk.round, false)])
    case WaitSend =>
      if op.send.None? then rk.(pc := WaitRecv)
      else if rk.scq[0].ok then rk.(pc := WaitRecv, scq := rk.scq[1..])
      else rk.(failed := true, scq := rk.scq[1..])
    case WaitRecv =>
      if op.recv.None? then rk.(pc := Reduce)
      else if rk.rcq[0].ok && rk.rcq[0].len == op.recv.value.slice.len then rk.(pc := Reduce, rcq := rk.rcq[1..])
      else rk.(failed := true, rcq := rk.rcq[1..])
    case Reduce =>
      rk.(pc := PostRecv, round := rk.round + 1, mem := FoldMem(f, op.fold, rk.mem))
  }

  /** The payload is read from the sender's memory at delivery. A message longer than
      the posted receive is refused: nothing is written and both sides see an error. */
  function Sender<T>(rk: Rank<T>, i: nat, fits: bool): Rank<T>
    requires i < |rk.sq|
  {
    var wr := rk.sq[i];
    if fits then rk.(sq := rk.sq[i := wr.(accepted := true)])
    else rk.(sq := rk.sq[..i] + rk.sq[i + 1..], scq := rk.scq + [Wc(wr.peer, wr.slice.len, false, wr.tag)])
  }

  function Receiver<T>(rk: Rank<T>, j: nat, payload: seq<T>): Rank<T>
    requires j < |rk.rq| && Within(rk.rq[j].slice, |rk.mem|)
  {
    var wr := rk.rq[j];
    var rest := rk.(rq := rk.rq[..j] + rk.rq[j + 1..]);
    if |payload| <= wr.slice.len
    then rest.(mem := Write(rk.mem, wr.slice.off, payload), rcq := rk.rcq + [Wc(wr.peer, |payload|, true, wr.tag)])
    else rest.(rcq := rk.rcq + [Wc(wr.peer, |payload|, false, wr.tag)])
  }

  function Acked<T>(rk: Rank<T>, i: nat): Rank<T>
    requires i < |rk.sq|
  {
    var wr := rk.sq[i];
    rk.(sq := rk.sq[..i] + rk.sq[i + 1..], scq := rk.scq + [Wc(wr.peer, wr.slice.len, true, wr.tag)])
  }

  function Apply<T>(cfg: Config<T>, st: State<T>, a: Action): (st': State<T>)
    requires Shaped(cfg) && |st| == |cfg.init| && Enabled(cfg, st, a)
    ensures |st'| == |st|
  {
    match a
    case Local(r) => st[r := Advance(cfg.f, cfg.rounds[st[r].round][r], st[r])]
    case Deliver(s, i, r, j) =>
      var payload := Read(st[s].mem, st[s].sq[i].slice);
      st[s := Sender(st[s], i, |payload| <= st[r].rq[j].slice.len)][r := Receiver(st[r], j, payload)]
    case Ack(s, i) => st[s := Acked(st[s], i)]
  }

  ghost predicate Next<T>(cfg: Config<T>, st: State<T>, st': State<T>)
    requires Shaped(cfg) && |st| == |cfg.init|
  {
    exists a :: Enabled(cfg, st, a) && st' == Apply(cfg, st, a)
  }

  /** A finite prefix of one interleaving, from clean queues. */
  ghost predicate IsRun<T>(cfg: Config<T>, run: seq<State<T>>)
    requires Shaped(cfg)
  {
    && |run| > 0 && run[0] == Init(cfg)
    && (forall i :: 0 <= i < |run| ==> |run[i]| == |cfg.init|)
    && forall i :: 0 <= i < |run| - 1 ==> Next(cfg, run[i], run[i + 1])
  }

  /** The action that takes a run from one state to the next. */
  lemma {:induction false} ActionAt<T>(cfg: Config<T>, run: seq<State<T>>, i: nat) returns (a: Action)
    requires Shaped(cfg) && IsRun(cfg, run) && i + 1 < |run|
    ensures |run[i]| == |cfg.init| && Enabled(cfg, run[i], a) && run[i + 1] == Apply(cfg, run[i], a)
  {
    assert Next(cfg, run[i], run[i + 1]);
    a :| Enabled(cfg, run[i], a) && run[i + 1] == Apply(cfg, run[i], a);
  }

  lemma {:induction false} Extend<T>(cfg: Config<T>, run: seq<State<T>>, a: Action) returns (run': seq<State<T>>)
    requires Shaped(cfg) && IsRun(cfg, run) && Enabled(cfg, run[|run| - 1], a)
    ensures IsRun(cfg, run') && run < run' && run' == run + [Apply(cfg, run[|run| - 1], a)]
  {
    run' := run + [Apply(cfg, run[|run| - 1], a)];
    forall i | 0 <= i < |run'| - 1 ensures Next(cfg, run'[i], run'[i + 1]) {
      if i < |run| - 1 {
        assert Next(cfg, run[i], run[i + 1]);
      }
    }
  }

  predicate Done<T>(cfg: Config<T>, rk: Rank<T>) {
    !rk.failed && rk.round == |cfg.rounds|
  }

  predicate AllDone<T>(cfg: Config<T>, st: State<T>) {
    forall r :: 0 <= r < |st| ==> Done(cfg, st[r])
  }

  /** Nothing can happen any more. */
  ghost predicate Quiescent<T>(cfg: Config<T>, st: State<T>)
    requires Shaped(cfg) && |st| == |cfg.init|
  {
    forall a :: !Enabled(cfg, st, a)
  }
}
