/** The startup and teardown ladder of `run`: what it acquires, in which order,
    and what it releases on each way out. A resource log records Acquire and
    Release events; `Teardown` is the reference definition of "release what is
    held, most recent first", and `Replay` checks a log against a stack
    discipline. */
module Ladder {

  /** The resources `run` acquires: the resolved address list, the endpoint
      (with its queue pair), the two registered message regions and the
      established connection. */
  datatype Resource = AddrInfo | Endpoint | RecvRegion | SendRegion | Connection

  datatype ResourceEvent = Acquire(r: Resource) | Release(r: Resource)

  /** The fabric's answers to the startup calls: 0 means success for the calls
      that return a status, `true` means a region was registered. */
  datatype Startup = Startup(
    getAddrInfo: int,     // rdma_getaddrinfo
    createEp: int,        // rdma_create_ep
    regRecv: bool,        // rdma_reg_msgs for recv_msg
    regSend: bool,        // rdma_reg_msgs for send_msg (asked only without inline sends)
    postRecvAll: int,     // post_recv_all
    connect: int)         // rdma_connect

  /** What `run` acquires, in order, when every step succeeds. With inline
      sends the send region is never registered. */
  function LadderOrder(inline: bool): seq<Resource> {
    [AddrInfo, Endpoint, RecvRegion] + (if inline then [] else [SendRegion]) + [Connection]
  }

  /** Every startup step up to the registration of the send region succeeds. */
  predicate RegionsRegistered(inline: bool, o: Startup) {
    o.getAddrInfo == 0 && o.createEp == 0 && o.regRecv && (inline || o.regSend)
  }

  /** Every startup step up to the connection succeeds. */
  predicate StartupSucceeds(inline: bool, o: Startup) {
    o.getAddrInfo == 0 && o.createEp == 0 && o.regRecv && (inline || o.regSend) &&
    o.postRecvAll == 0 && o.connect == 0
  }

  /** The code `run` returns: the code of the first step that fails, that is
      rdma_getaddrinfo's, rdma_create_ep's, -1 for a region that cannot be
      registered, post_recv_all's, rdma_connect's or -1 for a failed info
      exchange; 0 when none fails. */
  function RunCode(inline: bool, o: Startup, exchangeOk: bool): (ret: int)
    ensures ret == 0 <==> StartupSucceeds(inline, o) && exchangeOk
  {
    if o.getAddrInfo != 0 then o.getAddrInfo
    else if o.createEp != 0 then o.createEp
    else if !RegionsRegistered(inline, o) then -1
    else if o.postRecvAll != 0 then o.postRecvAll
    else if o.connect != 0 then o.connect
    else if !exchangeOk then -1
    else 0
  }

  /** What `run` holds when it stops acquiring: every resource of the ladder
      before the first step that fails. Posting the receives acquires
      nothing of its own. */
  function Acquired(inline: bool, o: Startup): (held: seq<Resource>)
    ensures held <= LadderOrder(inline)
    ensures held == LadderOrder(inline) <==> StartupSucceeds(inline, o)
    ensures inline ==> SendRegion !in held
  {
    if o.getAddrInfo != 0 then []
    else if o.createEp != 0 then [AddrInfo]
    else if !o.regRecv then [AddrInfo, Endpoint]
    else if !inline && !o.regSend then [AddrInfo, Endpoint, RecvRegion]
    else
      var regions := [AddrInfo, Endpoint, RecvRegion] + (if inline then [] else [SendRegion]);
      if o.postRecvAll != 0 || o.connect != 0 then regions else regions + [Connection]
  }

  /** What `run` releases: everything it acquired, except that the connection
      is closed only when the info exchange succeeded and the main loop
      returned; a failed exchange jumps past rdma_disconnect. */
  function Released(inline: bool, o: Startup, exchangeOk: bool): (rel: seq<Resource>)
    ensures rel <= Acquired(inline, o)
    ensures forall r :: r != Connection ==> (r in rel <==> r in Acquired(inline, o))
    ensures Connection in rel <==> StartupSucceeds(inline, o) && exchangeOk
  {
    var held := Acquired(inline, o);
    if StartupSucceeds(inline, o) && !exchangeOk then held[..|held| - 1] else held
  }

  /** The log of acquiring `held` in order. */
  function Acquisitions(held: seq<Resource>): (log: seq<ResourceEvent>)
    ensures |log| == |held|
  {
    if held == [] then [] else [Acquire(held[0])] + Acquisitions(held[1..])
  }

  /** The acquisitions log acquires exactly the held resources, in order. */
  lemma {:induction false} AcquisitionsInOrder(held: seq<Resource>)
    ensures forall i :: 0 <= i < |held| ==> Acquisitions(held)[i] == Acquire(held[i])
  {
    if held != [] {
      AcquisitionsInOrder(held[1..]);
      forall i | 0 <= i < |held|
        ensures Acquisitions(held)[i] == Acquire(held[i])
      {
        if i > 0 {
          assert Acquisitions(held)[i] == Acquisitions(held[1..])[i - 1];
        }
      }
    }
  }

  /** Releasing `held`, the most recently acquired first. */
  function Teardown(held: seq<Resource>): (log: seq<ResourceEvent>)
  {
    if held == [] then [] else [Release(held[|held| - 1])] + Teardown(held[..|held| - 1])
  }

  lemma {:induction false} AcquisitionsSnoc(held: seq<Resource>, r: Resource)
    ensures Acquisitions(held + [r]) == Acquisitions(held) + [Acquire(r)]
    decreases |held|
  {
    if held == [] {
      assert held + [r] == [r];
    } else {
      assert (held + [r])[1..] == held[1..] + [r];
      AcquisitionsSnoc(held[1..], r);
    }
  }

  lemma TeardownSnoc(held: seq<Resource>, r: Resource)
    ensures Teardown(held + [r]) == [Release(r)] + Teardown(held)
  {
    assert (held + [r])[..|held|] == held;
  }

  /** The teardown releases exactly the held resources, in reverse order. */
  lemma {:induction false} TeardownReverses(held: seq<Resource>)
    ensures |Teardown(held)| == |held|
    ensures forall i :: 0 <= i < |held| ==> Teardown(held)[i] == Release(held[|held| - 1 - i])
  {
    if held != [] {
      var rest := held[..|held| - 1];
      TeardownReverses(rest);
      assert Teardown(held) == [Release(held[|held| - 1])] + Teardown(rest);
      forall i | 0 <= i < |held|
        ensures Teardown(held)[i] == Release(held[|held| - 1 - i])
      {
        if i > 0 {
          assert Teardown(held)[i] == Teardown(rest)[i - 1];
          assert rest[|rest| - 1 - (i - 1)] == held[|held| - 1 - i];
        }
      }
    }
  }

  /** Replays a resource log against a stack of held resources: an Acquire
      pushes, a Release must pop the resource on top. None when a release is
      out of order. */
  function Replay(stack: seq<Resource>, log: seq<ResourceEvent>): Option<seq<Resource>>
    decreases |log|
  {
    if log == [] then Some(stack)
    else match log[0]
      case Acquire(r) => Replay(stack + [r], log[1..])
      case Release(r) =>
        if stack != [] && stack[|stack| - 1] == r then Replay(stack[..|stack| - 1], log[1..])
        else None
  }

  datatype Option<T> = None | Some(value: T)

  /** One Acquire pushes its resource. */
  lemma ReplayPush(stack: seq<Resource>, r: Resource, tail: seq<ResourceEvent>)
    ensures Replay(stack, [Acquire(r)] + tail) == Replay(stack + [r], tail)
  {
    var log := [Acquire(r)] + tail;
    assert log[0] == Acquire(r) && log[1..] == tail;
  }

  /** One Release of the resource on top pops it. */
  lemma ReplayPop(stack: seq<Resource>, r: Resource, tail: seq<ResourceEvent>)
    ensures Replay(stack + [r], [Release(r)] + tail) == Replay(stack, tail)
  {
    var log := [Release(r)] + tail;
    var st := stack + [r];
    assert log[0] == Release(r) && log[1..] == tail;
    assert st != [] && st[|st| - 1] == r && st[..|st| - 1] == stack;
  }

  lemma {:induction false} ReplayAcquisitions(stack: seq<Resource>, held: seq<Resource>, rest: seq<ResourceEvent>)
    ensures Replay(stack, Acquisitions(held) + rest) == Replay(stack + held, rest)
    decreases |held|
  {
    if held == [] {
      assert Acquisitions(held) + rest == rest;
      assert stack + held == stack;
    } else {
      var h, t := held[0], held[1..];
      var tail := Acquisitions(t) + rest;
      assert Acquisitions(held) == [Acquire(h)] + Acquisitions(t);
      assert Acquisitions(held) + rest == [Acquire(h)] + tail;
      ReplayPush(stack, h, tail);
      ReplayAcquisitions(stack + [h], t, rest);
      assert stack + [h] + t == stack + held;
    }
  }

  lemma {:induction false} ReplayTeardown(stack: seq<Resource>, held: seq<Resource>, rest: seq<ResourceEvent>)
    ensures Replay(stack + held, Teardown(held) + rest) == Replay(stack, rest)
    decreases |held|
  {
    if held == [] {
      assert Teardown(held) + rest == rest;
      assert stack + held == stack;
    } else {
      var front, last := held[..|held| - 1], held[|held| - 1];
      var tail := Teardown(front) + rest;
      assert Teardown(held) + rest == [Release(last)] + tail;
      assert stack + held == (stack + front) + [last];
      ReplayPop(stack + front, last, tail);
      ReplayTeardown(stack, front, rest);
    }
  }

  /** Acquiring a list of resources and then tearing it down obeys the stack
      discipline: every release pops what was acquired most recently, and
      nothing is left held. */
  lemma TeardownIsBalanced(held: seq<Resource>)
    ensures Replay([], Acquisitions(held) + Teardown(held)) == Some([])
  {
    ReplayAcquisitions([], held, Teardown(held));
    assert [] + held == held;
    ReplayTeardown([], held, []);
    assert Teardown(held) + [] == Teardown(held);
  }

  /** On every way out of `run` except one the log it writes is balanced. The
      exception: the startup succeeded and the info exchange failed; then the
      connection is still held when the regions are released, and the log
      breaks the stack discipline. */
  lemma RunLogBalancedUnlessExchangeFails(inline: bool, o: Startup, exchangeOk: bool)
    ensures var log := Acquisitions(Acquired(inline, o)) + Teardown(Released(inline, o, exchangeOk));
            Replay([], log) == if StartupSucceeds(inline, o) && !exchangeOk then None else Some([])
  {
    var held := Acquired(inline, o);
    var rel := Released(inline, o, exchangeOk);
    if StartupSucceeds(inline, o) && !exchangeOk {
      assert held == rel + [Connection];
      ReplayAcquisitions([], held, Teardown(rel));
      assert [] + held == held;
      var last := rel[|rel| - 1];
      assert Teardown(rel)[0] == Release(last);
      assert last != Connection;
    } else {
      TeardownIsBalanced(held);
    }
  }

  /** Registering the send region fails after the receive region was
      registered: the receive region, the endpoint and the address list are
      released, in that order, and nothing else. */
  lemma SendRegistrationFailureReleases(postRecvAll: int, connect: int, exchangeOk: bool)
    ensures var o := Startup(0, 0, true, false, postRecvAll, connect);
            Teardown(Released(false, o, exchangeOk)) ==
            [Release(RecvRegion), Release(Endpoint), Release(AddrInfo)]
  {
    var o := Startup(0, 0, true, false, postRecvAll, connect);
    assert Released(false, o, exchangeOk) == [AddrInfo, Endpoint, RecvRegion];
    TeardownSnoc([AddrInfo, Endpoint], RecvRegion);
    TeardownSnoc([AddrInfo], Endpoint);
    TeardownSnoc([], AddrInfo);
    assert [AddrInfo, Endpoint] + [RecvRegion] == [AddrInfo, Endpoint, RecvRegion];
    assert [AddrInfo] + [Endpoint] == [AddrInfo, Endpoint];
    assert [] + [AddrInfo] == [AddrInfo];
  }
}
