/** One rank's side of the data path as an object whose calls change it in place. */
module Endpoints {
  import opened Base
  import opened Transport
  import opened Reduction

  class Endpoint<T(0)> {
    const mem: array<T>
    var round: nat
    var pc: Pc
    var failed: bool
    var sq: seq<SendWr>
    var rq: seq<RecvWr>
    var scq: seq<Wc>
    var rcq: seq<Wc>

    ghost function Abs(): (rk: Rank<T>)
      reads this, mem
    {
      Rank(round, pc, failed, mem[..], sq, rq, scq, rcq)
    }

    constructor (mem: array<T>)
      ensures this.mem == mem && Abs() == Rank(0, PostRecv, false, mem[..], [], [], [], [])
    {
      this.mem := mem;
      round, pc, failed := 0, PostRecv, false;
      sq, rq, scq, rcq := [], [], [], [];
    }

    method PostSendRequest(peer: nat, slice: Slice)
      modifies this`sq
      ensures sq == old(sq) + [SendWr(peer, slice, round, false)]
    {
      sq := sq + [SendWr(peer, slice, round, false)];
    }

    method PostRecvRequest(peer: nat, slice: Slice)
      modifies this`rq
      ensures rq == old(rq) + [RecvWr(peer, slice, round)]
    {
      rq := rq + [RecvWr(peer, slice, round)];
    }

    /** Take the oldest send completion, whichever queue pair it is from. The guard is the
        end of the busy wait. */
    method WaitForSend() returns (res: Result<Wc>)
      requires scq != []
      modifies this`scq
      ensures scq == old(scq)[1..]
      ensures res == if old(scq)[0].ok then Ok(old(scq)[0]) else Err
    {
      var wc := scq[0];
      scq := scq[1..];
      res := if wc.ok then Ok(wc) else Err;
    }

    method WaitForRecv() returns (res: Result<Wc>)
      requires rcq != []
      modifies this`rcq
      ensures rcq == old(rcq)[1..]
      ensures res == if old(rcq)[0].ok then Ok(old(rcq)[0]) else Err
    {
      var wc := rcq[0];
      rcq := rcq[1..];
      res := if wc.ok then Ok(wc) else Err;
    }

    /** The next call of the current round: exactly the step the state machine takes. */
    method Step(op: Op, arith: Arith<T>)
      requires pc.WaitSend? && op.send.Some? ==> scq != []
      requires pc.WaitRecv? && op.recv.Some? ==> rcq != []
      requires pc.Reduce? ==> FoldInRange(op.fold, mem.Length)
      modifies this, mem
      ensures Abs() == Advance(Combiner(arith), op, old(Abs()))
    {
      match pc
      case PostRecv =>
        if op.recv.Some? {
          PostRecvRequest(op.recv.value.peer, op.recv.value.slice);
        }
        pc := PostSend;
      case PostSend =>
        if op.send.Some? {
          PostSendRequest(op.send.value.peer, op.send.value.slice);
        }
        pc := WaitSend;
      case WaitSend =>
        if op.send.Some? {
          var res := WaitForSend();
          if res.Err? {
            failed := true;
            return;
          }
        }
        pc := WaitRecv;
      case WaitRecv =>
        if op.recv.Some? {
          var res := WaitForRecv();
          if res.Err? || res.value.len != op.recv.value.slice.len {
            failed := true;
            return;
          }
        }
        pc := Reduce;
      case Reduce =>
        if op.fold.Some? {
          ReduceInplace(arith, mem, op.fold.value.dst, op.fold.value.src, op.fold.value.len, op.fold.value.op);
        }
        pc, round := PostRecv, round + 1;
    }
  }
}
