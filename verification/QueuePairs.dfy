/** Queue pairs, and the loops with which a communicator creates and connects them. */
module QueuePairs {
  import opened Base
  import opened Wire

  datatype QpState = Reset | Initialised | ReadyToReceive | ReadyToSend

  /** The device and port a rank uses; `mtu` is the active MTU of the port. */
  datatype Device = Device(port: Byte, mtu: Byte, infiniband: bool, lid: U16, gidIndex: Byte, gid: Gid)

  /** Where packets go: a LID on InfiniBand, a GID on RoCE. */
  datatype Address = NoAddress | Lid(lid: U16) | ByGid(gid: Gid, sourceIndex: Byte)

  datatype Qp = Qp(num: U32, state: QpState, port: Byte, dest: U32, address: Address, pathMtu: Byte, rqPsn: U32,
                   sqPsn: U32)

  const NO_GID: Gid := [0, 0, 0, 0, 0, 0, 0, 0, 0, 0, 0, 0, 0, 0, 0, 0]

  function Created(num: U32): Qp {
    Qp(num, Reset, 0, 0, NoAddress, 0, 0, 0)
  }

  /** RESET to INIT; the hardware refuses any other order. */
  function ToInit(qp: Qp, dev: Device): Result<Qp> {
    if qp.state.Reset? then Ok(qp.(state := Initialised, port := dev.port)) else Err
  }

  /** INIT to RTR, with what the peer told. */
  function ToRtr(qp: Qp, dev: Device, remote: EndpointInfo): Result<Qp> {
    if qp.state.Initialised?
    then Ok(qp.(state := ReadyToReceive, dest := remote.qpNum, rqPsn := remote.psn,
                pathMtu := if dev.mtu <= remote.mtu then dev.mtu else remote.mtu,
                address := if dev.infiniband then Lid(remote.lid) else ByGid(remote.gid, dev.gidIndex)))
    else Err
  }

  /** RTR to RTS, with the sequence number the peer was told. */
  function ToRts(qp: Qp, psn: U32): Result<Qp> {
    if qp.state.ReadyToReceive? then Ok(qp.(state := ReadyToSend, sqPsn := psn)) else Err
  }

  function LocalInfo(qp: Qp, dev: Device, rank: U32, psn: U32): EndpointInfo {
    EndpointInfo(rank, qp.num, psn, if dev.infiniband then dev.lid else 0, dev.port, dev.mtu,
                 if dev.infiniband then 0 else dev.gidIndex, if dev.infiniband then NO_GID else dev.gid, 0, 0, 0)
  }

  function Connect(qp: Qp, dev: Device, remote: EndpointInfo, psn: U32): Result<Qp> {
    match ToRtr(qp, dev, remote)
    case Err => Err
    case Ok(q) => ToRts(q, psn)
  }

  // ----- the communicator's two loops

  predicate IsPeer(p: int, rank: nat, ranks: nat) {
    0 <= p < ranks && p != rank
  }

  /** No peer up to and including p has failed to send its record. */
  ghost predicate AllToldUpTo(incoming: map<int, EndpointInfo>, rank: nat, p: int) {
    forall q :: 0 <= q <= p && q != rank ==> q in incoming
  }

  /** The record announces the queue pair numbered `num` on the port of `dev`, which will start
      from `psn`: by LID on InfiniBand, by GID on RoCE. */
  ghost predicate Announces(info: EndpointInfo, rank: int, dev: Device, num: U32, psn: U32) {
    && info.rank == rank && info.qpNum == num && info.psn == psn && info.port == dev.port && info.mtu == dev.mtu
    && (dev.infiniband ==> info.lid == dev.lid && info.gidIndex == 0 && info.gid == NO_GID)
    && (!dev.infiniband ==> info.lid == 0 && info.gidIndex == dev.gidIndex && info.gid == dev.gid)
    && info.rkey == info.addr == info.bufLen == 0
  }

  /** The queue pair is ready and set up for the peer that announced `remote`: packets go to its
      number and port, numbered from `psn` on, and are expected numbered as it said; the path
      MTU is the largest that neither port exceeds. */
  ghost predicate SetUpFor(qp: Qp, dev: Device, remote: EndpointInfo, psn: U32) {
    && qp.state == ReadyToSend && qp.dest == remote.qpNum && qp.rqPsn == remote.psn && qp.sqPsn == psn
    && (dev.infiniband ==> qp.address == Lid(remote.lid))
    && (!dev.infiniband ==> qp.address == ByGid(remote.gid, dev.gidIndex))
    && qp.pathMtu in {dev.mtu, remote.mtu} && qp.pathMtu <= dev.mtu && qp.pathMtu <= remote.mtu
  }

  class Communicator {
    const rank: nat
    const ranks: nat
    const dev: Device
    var qps: map<int, Qp>
    var localPsn: map<int, U32>

    constructor (rank: nat, ranks: nat, dev: Device)
      ensures this.rank == rank && this.ranks == ranks && this.dev == dev && qps == map[] && localPsn == map[]
    {
      this.rank, this.ranks, this.dev, qps, localPsn := rank, ranks, dev, map[], map[];
    }

    /** One queue pair per peer, each walked to INIT, and what to tell that peer. `nums` are
        the numbers the device hands out, `psns` the random sequence numbers. */
    method CreateAll(nums: seq<U32>, psns: seq<U32>) returns (outgoing: map<int, EndpointInfo>)
      requires rank < ranks <= 0x8000_0000 && |nums| == |psns| == ranks && qps == map[] && localPsn == map[]
      modifies this
      ensures forall p :: (p in qps <==> IsPeer(p, rank, ranks)) && (p in outgoing <==> IsPeer(p, rank, ranks))
      ensures forall p :: p in localPsn <==> IsPeer(p, rank, ranks)
      ensures forall p :: IsPeer(p, rank, ranks) ==>
                && qps[p] == Created(nums[p]).(state := Initialised, port := dev.port) && localPsn[p] == psns[p]
                && outgoing[p] == LocalInfo(qps[p], dev, rank, psns[p])
      ensures forall p :: IsPeer(p, rank, ranks) ==>
                && qps[p].num == nums[p] && qps[p].port == dev.port && qps[p].state == Initialised
                && Announces(outgoing[p], rank, dev, nums[p], psns[p])
    {
      outgoing := map[];
      for peer := 0 to ranks
        invariant forall p :: (p in qps <==> IsPeer(p, rank, peer)) && (p in outgoing <==> IsPeer(p, rank, peer))
        invariant forall p :: p in localPsn <==> IsPeer(p, rank, peer)
        invariant forall p :: IsPeer(p, rank, peer) ==>
                    && qps[p] == Created(nums[p]).(state := Initialised, port := dev.port) && localPsn[p] == psns[p]
                    && outgoing[p] == LocalInfo(qps[p], dev, rank, psns[p])
      {
        if peer == rank {
          continue;
        }
        var qp := ToInit(Created(nums[peer]), dev).value;
        qps := qps[peer := qp];
        localPsn := localPsn[peer := psns[peer]];
        outgoing := outgoing[peer := LocalInfo(qp, dev, rank, psns[peer])];
      }
    }

    /** Every queue pair goes to RTR and RTS. The call fails exactly if some peer's record is
        missing, and then leaves the queue pairs from that peer on as they were. */
    method ConnectAll(incoming: map<int, EndpointInfo>) returns (ok: bool)
      requires forall p :: IsPeer(p, rank, ranks) ==> p in qps && qps[p].state.Initialised? && p in localPsn
      modifies this`qps
      ensures ok <==> forall p :: IsPeer(p, rank, ranks) ==> p in incoming
      ensures qps.Keys == old(qps).Keys
      ensures forall p :: IsPeer(p, rank, ranks) && AllToldUpTo(incoming, rank, p) ==>
                && Ok(qps[p]) == Connect(old(qps)[p], dev, incoming[p], localPsn[p])
                && qps[p].num == old(qps)[p].num && qps[p].port == old(qps)[p].port
                && SetUpFor(qps[p], dev, incoming[p], localPsn[p])
      ensures forall p :: IsPeer(p, rank, ranks) && !AllToldUpTo(incoming, rank, p) ==> qps[p] == old(qps)[p]
    {
      for peer := 0 to ranks
        invariant qps.Keys == old(qps).Keys
        invariant forall p :: IsPeer(p, rank, peer) ==>
                    && p in incoming && p in qps
                    && Ok(qps[p]) == Connect(old(qps)[p], dev, incoming[p], localPsn[p]) && qps[p].state.ReadyToSend?
        invariant forall p :: peer <= p && p in qps ==> qps[p] == old(qps)[p]
      {
        if peer == rank {
          continue;
        }
        if peer !in incoming {
          assert IsPeer(peer, rank, ranks);
          return false;
        }
        assert IsPeer(peer, rank, ranks);
        var ready := ToRtr(qps[peer], dev, incoming[peer]).value;
        qps := qps[peer := ToRts(ready, localPsn[peer]).value];
      }
      ok := true;
    }
  }
}
