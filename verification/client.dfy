/** The client session of rdma_client.c. The file-level statics become fields:
    the remote descriptor `db_info`, the message buffers `send_msg` and
    `recv_msg`, the inline flag of `send_flags` and the registration state of
    `recv_mr` and `send_mr`. Two more fields record what the fabric sees: the
    set of receive slots currently posted and the log of data-path calls, and
    a resource log records every acquisition and release made by `run`.
    Each fabric call is replaced by an outcome given as a parameter. */
module RdmaClient {
  import opened Wire
  import opened Protocol
  import opened Ladder

  /** Labels of the teardown ladder, top to bottom. Jumping to a label runs
      every release from that label down. */
  datatype Label = OutDisconnect | OutDeregSend | OutDeregRecv | OutDestroyEp | OutFreeAddrInfo | Out

  function Rank(l: Label): nat {
    match l
    case OutDisconnect => 0
    case OutDeregSend => 1
    case OutDeregRecv => 2
    case OutDestroyEp => 3
    case OutFreeAddrInfo => 4
    case Out => 5
  }

  /** What the labels from `exit` down release, in acquisition order. This is
      everything held when the ladder is entered at `exit`, except after a
      failed info exchange: control then enters at `OutDeregSend` with the
      connection still open, and the ladder does not release it. */
  function HeldAt(exit: Label, inline: bool): (held: seq<Resource>)
    ensures held <= LadderOrder(inline)
  {
    match exit
    case OutDisconnect => LadderOrder(inline)
    case OutDeregSend => [AddrInfo, Endpoint, RecvRegion] + (if inline then [] else [SendRegion])
    case OutDeregRecv => [AddrInfo, Endpoint, RecvRegion]
    case OutDestroyEp => [AddrInfo, Endpoint]
    case OutFreeAddrInfo => [AddrInfo]
    case Out => []
  }

  /** The teardowns of the lists the ladder can hold. */
  lemma TeardownOfLadderPrefixes()
    ensures Teardown([AddrInfo]) == [Release(AddrInfo)]
    ensures Teardown([AddrInfo, Endpoint]) == [Release(Endpoint), Release(AddrInfo)]
    ensures Teardown([AddrInfo, Endpoint, RecvRegion]) ==
            [Release(RecvRegion), Release(Endpoint), Release(AddrInfo)]
    ensures Teardown([AddrInfo, Endpoint, RecvRegion, SendRegion]) ==
            [Release(SendRegion), Release(RecvRegion), Release(Endpoint), Release(AddrInfo)]
    ensures Teardown([AddrInfo, Endpoint, RecvRegion, Connection]) ==
            [Release(Connection), Release(RecvRegion), Release(Endpoint), Release(AddrInfo)]
    ensures Teardown([AddrInfo, Endpoint, RecvRegion, SendRegion, Connection]) ==
            [Release(Connection), Release(SendRegion), Release(RecvRegion), Release(Endpoint), Release(AddrInfo)]
  {
    var a := [AddrInfo];
    var ae := [AddrInfo, Endpoint];
    var aer := [AddrInfo, Endpoint, RecvRegion];
    var aers := [AddrInfo, Endpoint, RecvRegion, SendRegion];
    TeardownSnoc([], AddrInfo);
    assert [] + [AddrInfo] == a;
    TeardownSnoc(a, Endpoint);
    assert a + [Endpoint] == ae;
    TeardownSnoc(ae, RecvRegion);
    assert ae + [RecvRegion] == aer;
    TeardownSnoc(aer, SendRegion);
    assert aer + [SendRegion] == aers;
    TeardownSnoc(aer, Connection);
    assert aer + [Connection] == [AddrInfo, Endpoint, RecvRegion, Connection];
    TeardownSnoc(aers, Connection);
    assert aers + [Connection] == [AddrInfo, Endpoint, RecvRegion, SendRegion, Connection];
  }

  /** The releases the ladder makes when entered at `exit`: each label's
      release, top to bottom, for the labels at or below `exit`. The ladder
      only releases; `UnwoundIsTeardown` says which resources, in which
      order. */
  function Unwound(exit: Label, inline: bool): (rel: seq<ResourceEvent>)
    ensures forall i :: 0 <= i < |rel| ==> rel[i].Release?
  {
    var rank := Rank(exit);
    ReleaseIf(rank <= 0, Connection) + ReleaseIf(rank <= 1 && !inline, SendRegion) +
    ReleaseIf(rank <= 2, RecvRegion) + ReleaseIf(rank <= 3, Endpoint) + ReleaseIf(rank <= 4, AddrInfo)
  }

  /** The release a label makes, when control reaches it. */
  function ReleaseIf(reached: bool, r: Resource): seq<ResourceEvent> {
    if reached then [Release(r)] else []
  }

  /** Appending the labels' releases one at a time appends `Unwound`. */
  lemma AppendUnwound(log: seq<ResourceEvent>, exit: Label, inline: bool)
    ensures var rank := Rank(exit);
            log + ReleaseIf(rank <= 0, Connection) + ReleaseIf(rank <= 1 && !inline, SendRegion) +
            ReleaseIf(rank <= 2, RecvRegion) + ReleaseIf(rank <= 3, Endpoint) + ReleaseIf(rank <= 4, AddrInfo)
            == log + Unwound(exit, inline)
  {
  }

  /** Falling through the labels from any entry point releases exactly what is
      held at that point, most recently acquired first. */
  lemma UnwoundIsTeardown(exit: Label, inline: bool)
    ensures Unwound(exit, inline) == Teardown(HeldAt(exit, inline))
  {
    TeardownOfLadderPrefixes();
    var c, sr, rr, ep, ai := Release(Connection), Release(SendRegion), Release(RecvRegion), Release(Endpoint), Release(AddrInfo);
    match exit
    case Out =>
    case OutFreeAddrInfo =>
      assert Unwound(exit, inline) == [ai];
    case OutDestroyEp =>
      assert Unwound(exit, inline) == [ep, ai];
    case OutDeregRecv =>
      assert Unwound(exit, inline) == [rr, ep, ai];
    case OutDeregSend =>
      if inline {
        assert HeldAt(exit, inline) == [AddrInfo, Endpoint, RecvRegion];
        assert Unwound(exit, inline) == [rr, ep, ai];
      } else {
        assert HeldAt(exit, inline) == [AddrInfo, Endpoint, RecvRegion, SendRegion];
        assert Unwound(exit, inline) == [sr, rr, ep, ai];
      }
    case OutDisconnect =>
      if inline {
        assert HeldAt(exit, inline) == [AddrInfo, Endpoint, RecvRegion, Connection];
        assert Unwound(exit, inline) == [c, rr, ep, ai];
      } else {
        assert HeldAt(exit, inline) == [AddrInfo, Endpoint, RecvRegion, SendRegion, Connection];
        assert Unwound(exit, inline) == [c, sr, rr, ep, ai];
      }
  }

  /** What the startup of `run` does to the data path: the receive side
      afterwards, the data-path calls it makes, and the send buffer's first
      slot afterwards. */
  datatype DataPath = DataPath(after: Receiver, ops: seq<FabricOp>, request: Message)

  /** The data-path effect of `run` up to the return of `main_loop`, from the
      receive side `s` and the send buffer's first slot `send0`. Nothing is
      touched before the regions are registered; post_recv_all posts slot 0,
      which stays armed only when the post is accepted; once connected,
      get_db_info tags the send buffer and makes one call. */
  function StartupDataPath(s: Receiver, send0: Message, inline: bool, o: Startup, x: RpcOutcomes): (d: DataPath)
    requires |s.slots| == NumMessages
    requires x.recv.RecvDone? ==> x.recv.wrId < NumMessages
    ensures |d.after.slots| == NumMessages
    ensures d.ops == [] <==> !RegionsRegistered(inline, o)
  {
    if !RegionsRegistered(inline, o) then DataPath(s, [], send0)
    else if o.postRecvAll != 0 then DataPath(s, [PostRecv(0)], send0)
    else
      var posted := s.(armed := {0});
      if o.connect != 0 then DataPath(posted, [PostRecv(0)], send0)
      else
        var request := send0.(mtype := ExchangeDatabaseInfo);
        var r := Call(posted, request, inline, x);
        DataPath(r.after, [PostRecv(0)] + r.ops, request)
  }

  /** What the startup promises about the data path. */
  lemma StartupDataPathProperties(s: Receiver, send0: Message, inline: bool, o: Startup, x: RpcOutcomes)
    requires |s.slots| == NumMessages
    requires x.recv.RecvDone? ==> x.recv.wrId < NumMessages
    ensures var d := StartupDataPath(s, send0, inline, o, x);
            // Once the regions are registered, slot 0 is posted first; it stays
            // armed through a failed startup only when its post was accepted.
            && (RegionsRegistered(inline, o) ==> d.ops[0] == PostRecv(0))
            && (!StartupSucceeds(inline, o) ==>
                  d.after.armed == (if RegionsRegistered(inline, o) && o.postRecvAll == 0 then {0} else s.armed))
            // A startup that fails leaves the descriptor and both buffers as they were.
            && (!StartupSucceeds(inline, o) ==>
                  d.after.dbInfo == s.dbInfo && d.after.slots == s.slots && d.request == send0)
            // The descriptor changes only through a delivered info-exchange response.
            && (d.after.dbInfo != s.dbInfo ==>
                  StartupSucceeds(inline, o) && SendSucceeds(x) && Delivered(x.recv) &&
                  x.recv.payload.mtype == ExchangeDatabaseInfo && d.after.dbInfo == x.recv.payload.dbInfo)
            // Once connected, slot 0 is posted and then the tagged request is sent.
            && (StartupSucceeds(inline, o) ==>
                  d.request == send0.(mtype := ExchangeDatabaseInfo) &&
                  |d.ops| >= 2 && d.ops[0] == PostRecv(0) && d.ops[1] == PostSend(d.request, inline))
            // A successful exchange leaves exactly slot 0 posted.
            && (StartupSucceeds(inline, o) && RpcSucceeds(x) ==> d.after.armed == {0})
  {
  }

  class Client {
    var dbInfo: DatabaseInfo
    var sendMsg: array<Message>
    var recvMsg: array<Message>
    /** `send_flags & IBV_SEND_INLINE`, set once from the command line. */
    const inlineSend: bool
    var recvRegistered: bool
    var sendRegistered: bool
    /** Receive slots posted to the fabric and not yet completed. */
    var armed: set<nat>
    /** Data-path fabric calls, in issue order. */
    var trace: seq<FabricOp>
    /** Resource acquisitions and releases, in order. */
    var resourceLog: seq<ResourceEvent>

    ghost predicate Valid()
      reads this
    {
      sendMsg.Length == NumMessages && recvMsg.Length == NumMessages && sendMsg != recvMsg &&
      forall w :: w in armed ==> w < NumMessages
    }

    /** The part of the session a receive touches. */
    ghost function View(): Receiver
      reads this, recvMsg
    {
      Receiver(dbInfo, recvMsg[..], armed)
    }

    /** The process's initial state: zero-filled statics, nothing posted,
        nothing acquired. */
    constructor (inline: bool)
      ensures Valid() && fresh(sendMsg) && fresh(recvMsg)
      ensures inlineSend == inline
      ensures dbInfo == ZeroInfo
      ensures sendMsg[..] == [BlankMessage] && recvMsg[..] == [BlankMessage]
      ensures armed == {} && trace == [] && resourceLog == []
      ensures !recvRegistered && !sendRegistered
    {
      inlineSend := inline;
      dbInfo := ZeroInfo;
      sendMsg := new Message[NumMessages](_ => BlankMessage);
      recvMsg := new Message[NumMessages](_ => BlankMessage);
      armed := {};
      trace := [];
      resourceLog := [];
      recvRegistered := false;
      sendRegistered := false;
    }

    /** transmit_message: post `msg` (the post returns `post`) and, if the post
        was accepted, wait for its completion `comp`. Returns 0 only when both
        succeeded. */
    method TransmitMessage(msg: Message, post: int, comp: SendCompletion) returns (ret: int)
      modifies this`trace
      ensures var t := Transmit(msg, inlineSend, post, comp);
              ret == t.ret && trace == old(trace) + t.ops
    {
      trace := trace + [PostSend(msg, inlineSend)];
      if post != 0 {
        return -1;
      }
      trace := trace + [PollSend];
      match comp {
        case SendPollError =>
          return -1;
        case SendDone(status) =>
          if status != WcSuccess {
            return -1;
          }
      }
      return 0;
    }

    /** handle_response: wait for one receive completion `comp`; on success,
        the peer's message is in the slot it names; act on its type and
        re-post that slot (the re-post returns `repost`). */
    method HandleResponse(comp: RecvCompletion, repost: int) returns (ret: int)
      requires Valid()
      requires comp.RecvDone? ==> comp.wrId in armed
      modifies this`dbInfo, this`armed, this`trace, recvMsg
      ensures Valid()
      ensures var r := Respond(old(View()), comp, repost);
              View() == r.after && ret == r.ret && trace == old(trace) + r.ops
    {
      trace := trace + [PollRecv];
      if comp.RecvPollError? || comp.status != WcSuccess {
        if comp.RecvDone? {
          armed := armed - {comp.wrId};
        }
        return -1;
      }
      var w := comp.wrId;
      armed := armed - {w};
      recvMsg[w] := comp.payload;
      var msg := recvMsg[w];
      match msg.mtype {
        case QueryResp =>
        case SetResp =>
        case ExchangeDatabaseInfo =>
          dbInfo := msg.dbInfo;
        case _ =>
          return -1;
      }
      trace := trace + [PostRecv(w)];
      if repost != 0 {
        return -1;
      }
      armed := armed + {w};
      return 0;
    }

    /** rpc: send `msg`; only when that succeeded, handle one response. */
    method Rpc(msg: Message, x: RpcOutcomes) returns (ret: int)
      requires Valid()
      requires x.recv.RecvDone? ==> x.recv.wrId in armed
      modifies this`dbInfo, this`armed, this`trace, recvMsg
      ensures Valid()
      ensures var r := Call(old(View()), msg, inlineSend, x);
              View() == r.after && ret == r.ret && trace == old(trace) + r.ops
    {
      ret := TransmitMessage(msg, x.post, x.sendComp);
      if ret != 0 {
        return -1;
      }
      ret := HandleResponse(x.recv, x.repost);
    }

    /** rdma_write: post a one-sided write of `msg.value` to the cell of
        `msg.key` under the current descriptor, whatever it holds, and wait
        for the local completion. */
    method RdmaWrite(msg: Message, post: int, comp: SendCompletion) returns (ret: int)
      modifies this`trace
      ensures var t := PostAndWait(PostWrite(WriteRequestFor(dbInfo, msg)), post, comp);
              ret == t.ret && trace == old(trace) + t.ops
    {
      var wr := WriteRequest(WrRdmaWrite, WriteTarget(dbInfo, msg.key), dbInfo.rkey, SizeOfInt, msg.value, true);
      trace := trace + [PostWrite(wr)];
      if post != 0 {
        return -1;
      }
      trace := trace + [PollSend];
      match comp {
        case SendPollError =>
          return -1;
        case SendDone(status) =>
          if status != WcSuccess {
            return -1;
          }
      }
      return 0;
    }

    /** get_db_info: tag the send buffer as an info-exchange request and make
        one call with it. */
    method GetDbInfo(x: RpcOutcomes) returns (ret: int)
      requires Valid()
      requires x.recv.RecvDone? ==> x.recv.wrId in armed
      modifies this`dbInfo, this`armed, this`trace, recvMsg, sendMsg
      ensures Valid()
      ensures sendMsg[..] == old(sendMsg[..])[0 := old(sendMsg[0]).(mtype := ExchangeDatabaseInfo)]
      ensures var r := Call(old(View()), sendMsg[0], inlineSend, x);
              View() == r.after && ret == r.ret && trace == old(trace) + r.ops
    {
      sendMsg[0] := sendMsg[0].(mtype := ExchangeDatabaseInfo);
      ret := TransmitMessage(sendMsg[0], x.post, x.sendComp);
      if ret != 0 {
        return -1;
      }
      ret := HandleResponse(x.recv, x.repost);
      if ret != 0 {
        return -1;
      }
      return 0;
    }

    /** run: acquire the resources, post the receives, connect, fetch the
        remote descriptor, let `main_loop` return, then unwind the teardown
        ladder from the label the startup reached. */
    method Run(o: Startup, x: RpcOutcomes) returns (ret: int)
      requires Valid()
      requires armed == {} && !recvRegistered && !sendRegistered
      requires x.recv.RecvDone? ==> x.recv.wrId < NumMessages
      modifies this, recvMsg, sendMsg
      ensures Valid()
      ensures resourceLog == old(resourceLog) + Acquisitions(Acquired(inlineSend, o)) +
                             Teardown(Released(inlineSend, o, RpcSucceeds(x)))
      ensures ret == RunCode(inlineSend, o, RpcSucceeds(x))
      ensures var d := StartupDataPath(old(View()), old(sendMsg[0]), inlineSend, o, x);
              dbInfo == d.after.dbInfo && recvMsg[..] == d.after.slots &&
              trace == old(trace) + d.ops && sendMsg[..] == [d.request]
      ensures !recvRegistered && !sendRegistered && armed == {}
    {
      var exit;
      ghost var d := StartupDataPath(View(), sendMsg[0], inlineSend, o, x);
      ret, exit := StartUp(o, x);
      ghost var slots, sent := recvMsg[..], sendMsg[..];
      Unwind(exit);
      assert recvMsg[..] == slots && sendMsg[..] == sent;
      UnwoundIsTeardown(exit, inlineSend);
    }

    /** The acquiring half of run, up to the return of `main_loop`. `exit` is
        the label the first failing step jumps to; when no step fails, control
        falls through to `OutDisconnect`. */
    method StartUp(o: Startup, x: RpcOutcomes) returns (ret: int, exit: Label)
      requires Valid()
      requires armed == {} && !recvRegistered && !sendRegistered
      requires x.recv.RecvDone? ==> x.recv.wrId < NumMessages
      modifies this, recvMsg, sendMsg
      ensures Valid()
      ensures resourceLog == old(resourceLog) + Acquisitions(Acquired(inlineSend, o))
      ensures HeldAt(exit, inlineSend) == Released(inlineSend, o, RpcSucceeds(x))
      ensures RegionsRegistered(inlineSend, o) ==> exit == OutDisconnect || exit == OutDeregSend
      ensures ret == 0 <==> exit == OutDisconnect
      ensures ret == RunCode(inlineSend, o, RpcSucceeds(x))
      ensures var d := StartupDataPath(old(View()), old(sendMsg[0]), inlineSend, o, x);
              dbInfo == d.after.dbInfo && recvMsg[..] == d.after.slots && armed == d.after.armed &&
              trace == old(trace) + d.ops && sendMsg[..] == [d.request]
      ensures recvRegistered == (Rank(exit) <= Rank(OutDeregRecv))
      ensures sendRegistered == (Rank(exit) <= Rank(OutDeregSend) && !inlineSend)
      ensures Rank(exit) > Rank(OutDestroyEp) ==> armed == {}
    {
      ret, exit := RegisterRegions(o);
      if exit == OutDisconnect {
        ret, exit := ConnectAndFetch(o, x);
        AcquisitionsSnoc(HeldAt(OutDeregSend, inlineSend), Connection);
      }
    }

    /** run, lines up to the registration of the send region. `exit` is the
        label the first failing step jumps to, or `OutDisconnect` when no
        step failed and run goes on to post the receives. */
    method RegisterRegions(o: Startup) returns (ret: int, exit: Label)
      requires !recvRegistered && !sendRegistered
      modifies this`resourceLog, this`recvRegistered, this`sendRegistered
      ensures RegionsRegistered(inlineSend, o) <==> exit == OutDisconnect
      ensures exit == OutDisconnect ==>
                ret == 0 && resourceLog == old(resourceLog) + Acquisitions(HeldAt(OutDeregSend, inlineSend))
      ensures exit != OutDisconnect ==>
                ret != 0 && Rank(exit) >= Rank(OutDeregRecv) &&
                resourceLog == old(resourceLog) + Acquisitions(Acquired(inlineSend, o)) &&
                HeldAt(exit, inlineSend) == Acquired(inlineSend, o)
      ensures o.getAddrInfo != 0 ==> ret == o.getAddrInfo
      ensures o.getAddrInfo == 0 && o.createEp != 0 ==> ret == o.createEp
      ensures o.getAddrInfo == 0 && o.createEp == 0 && !RegionsRegistered(inlineSend, o) ==> ret == -1
      ensures recvRegistered == (Rank(exit) <= Rank(OutDeregRecv))
      ensures sendRegistered == (Rank(exit) <= Rank(OutDeregSend) && !inlineSend)
    {
      exit := OutDisconnect;
      ghost var held: seq<Resource> := [];
      ret := o.getAddrInfo;
      if ret != 0 {
        exit := Out;
        return;
      }
      AcquisitionsSnoc(held, AddrInfo);
      resourceLog, held := resourceLog + [Acquire(AddrInfo)], held + [AddrInfo];
      ret := o.createEp;
      if ret != 0 {
        exit := OutFreeAddrInfo;
        return;
      }
      AcquisitionsSnoc(held, Endpoint);
      resourceLog, held := resourceLog + [Acquire(Endpoint)], held + [Endpoint];
      if !o.regRecv {
        ret := -1;
        exit := OutDestroyEp;
        return;
      }
      AcquisitionsSnoc(held, RecvRegion);
      resourceLog, held := resourceLog + [Acquire(RecvRegion)], held + [RecvRegion];
      recvRegistered := true;
      if !inlineSend {
        if !o.regSend {
          ret := -1;
          exit := OutDeregRecv;
          return;
        }
        AcquisitionsSnoc(held, SendRegion);
        resourceLog, held := resourceLog + [Acquire(SendRegion)], held + [SendRegion];
        sendRegistered := true;
      }
      assert held == HeldAt(OutDeregSend, inlineSend);
    }

    /** run, from posting the receives to the return of `main_loop`: every
        failure here jumps to `OutDeregSend`. */
    method ConnectAndFetch(o: Startup, x: RpcOutcomes) returns (ret: int, exit: Label)
      requires Valid()
      requires RegionsRegistered(inlineSend, o)
      requires x.recv.RecvDone? ==> x.recv.wrId < NumMessages
      modifies this`resourceLog, this`dbInfo, this`armed, this`trace, recvMsg, sendMsg
      ensures Valid()
      ensures exit == OutDisconnect || exit == OutDeregSend
      ensures ret == 0 <==> exit == OutDisconnect
      ensures ret == RunCode(inlineSend, o, RpcSucceeds(x))
      ensures resourceLog == old(resourceLog) +
                             (if o.postRecvAll == 0 && o.connect == 0 then [Acquire(Connection)] else [])
      ensures var d := StartupDataPath(old(View()), old(sendMsg[0]), inlineSend, o, x);
              dbInfo == d.after.dbInfo && recvMsg[..] == d.after.slots && armed == d.after.armed &&
              trace == old(trace) + d.ops && sendMsg[..] == [d.request]
    {
      exit := OutDisconnect;
      trace := trace + [PostRecv(0)];
      ret := o.postRecvAll;
      if ret != 0 {
        exit := OutDeregSend;
        return;
      }
      armed := {0};
      assert View() == old(View()).(armed := {0});
      ret := o.connect;
      if ret != 0 {
        exit := OutDeregSend;
        return;
      }
      resourceLog := resourceLog + [Acquire(Connection)];
      ghost var posted, before := View(), trace;
      ret := GetDbInfo(x);
      ghost var r := Call(posted, sendMsg[0], inlineSend, x);
      assert before + r.ops == old(trace) + ([PostRecv(0)] + r.ops);
      if ret != 0 {
        exit := OutDeregSend;
      }
      // main_loop runs here and returns normally.
    }

    /** The teardown ladder entered at `exit`: every release from that label
        down, most recently acquired first. Destroying the endpoint drops the
        receives still posted on it. */
    method Unwind(exit: Label)
      modifies this`resourceLog, this`recvRegistered, this`sendRegistered, this`armed
      ensures resourceLog == old(resourceLog) + Unwound(exit, inlineSend)
      ensures recvRegistered == (old(recvRegistered) && Rank(exit) > Rank(OutDeregRecv))
      ensures sendRegistered == (old(sendRegistered) && !(Rank(exit) <= Rank(OutDeregSend) && !inlineSend))
      ensures armed == if Rank(exit) <= Rank(OutDestroyEp) then {} else old(armed)
    {
      var rank := Rank(exit);
      AppendUnwound(resourceLog, exit, inlineSend);
      resourceLog := resourceLog + ReleaseIf(rank <= 0, Connection);
      resourceLog := resourceLog + ReleaseIf(rank <= 1 && !inlineSend, SendRegion);
      if rank <= 1 && !inlineSend {
        sendRegistered := false;
      }
      resourceLog := resourceLog + ReleaseIf(rank <= 2, RecvRegion);
      if rank <= 2 {
        recvRegistered := false;
      }
      resourceLog := resourceLog + ReleaseIf(rank <= 3, Endpoint);
      if rank <= 3 {
        armed := {};
      }
      resourceLog := resourceLog + ReleaseIf(rank <= 4, AddrInfo);
    }
  }

  /** rdma_write has no readiness check: in a fresh session, before any info
      exchange, the write still goes out, under the zero-filled descriptor:
      to address 4 * key with remote key 0. */
  method WriteBeforeExchange(inline: bool, msg: Message, comp: SendCompletion) returns (c: Client, ret: int)
    ensures c.dbInfo == ZeroInfo
    ensures c.trace != [] &&
            c.trace[0] == PostWrite(WriteRequest(WrRdmaWrite, (4 * msg.key) % Two64, 0, 4, msg.value, true))
    ensures ret == 0 <==> comp == SendDone(WcSuccess)
  {
    c := new Client(inline);
    ret := c.RdmaWrite(msg, 0, comp);
  }
}
