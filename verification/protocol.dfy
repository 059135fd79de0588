/** The client's protocol engine as functions of the session state and of the
    outcomes the fabric reports: the send path, the response dispatcher, the
    request/response call and the one-sided write request. The class in
    client.dfy is proved to behave as these functions say. */
module Protocol {
  import opened Wire

  // ---------------------------------------------------------------------------
  // Send path: post one work request, then wait for its completion.
  // ---------------------------------------------------------------------------

  /** What a post-and-wait did: its return code and the fabric calls it made. */
  datatype Sent = Sent(ret: int, ops: seq<FabricOp>)

  /** Posts `op` (post result `post`, 0 meaning accepted) and, only when the
      post was accepted, waits for the send completion `comp`. Shared by
      transmit_message and rdma_write. */
  function PostAndWait(op: FabricOp, post: int, comp: SendCompletion): (r: Sent)
    requires op.PostSend? || op.PostWrite?
    ensures r.ret == 0 || r.ret == -1
    ensures r.ret == 0 <==> post == 0 && comp == SendDone(WcSuccess)
    ensures |r.ops| >= 1 && r.ops[0] == op
    ensures PollSend in r.ops <==> post == 0
    ensures r.ops <= [op, PollSend]
  {
    if post != 0 then Sent(-1, [op])
    else
      var ret := match comp
        case SendPollError => -1
        case SendDone(status) => if status == WcSuccess then 0 else -1;
      Sent(ret, [op, PollSend])
  }

  /** transmit_message: rdma_post_send of one message with the session's
      send flags, then the wait for its completion. */
  function Transmit(msg: Message, inline: bool, post: int, comp: SendCompletion): (r: Sent)
    ensures r.ret == 0 || r.ret == -1
    ensures r.ret == 0 <==> post == 0 && comp == SendDone(WcSuccess)
    ensures |r.ops| >= 1 && r.ops[0] == PostSend(msg, inline)
    ensures post != 0 ==> r.ops == [PostSend(msg, inline)]
  {
    PostAndWait(PostSend(msg, inline), post, comp)
  }

  // ---------------------------------------------------------------------------
  // Response dispatcher.
  // ---------------------------------------------------------------------------

  /** The part of the session a receive touches: the remote descriptor, the
      receive slots' contents and the set of slots currently posted. */
  datatype Receiver = Receiver(dbInfo: DatabaseInfo, slots: seq<Message>, armed: set<nat>)

  datatype Response = Response(after: Receiver, ret: int, ops: seq<FabricOp>)

  /** The fabric only completes receives that were posted. */
  predicate CanComplete(s: Receiver, c: RecvCompletion) {
    c.RecvDone? ==> c.wrId in s.armed && c.wrId < |s.slots|
  }

  /** Re-post slot `w` (post result `repost`) after its message was consumed. */
  function Rearm(s: Receiver, w: nat, repost: int): (r: Response)
    ensures r.ret == 0 <==> repost == 0
    ensures r.ops == [PollRecv, PostRecv(w)]
    ensures r.after.dbInfo == s.dbInfo && r.after.slots == s.slots
    ensures w in r.after.armed <==> w in s.armed || repost == 0
    ensures r.after.armed - {w} == s.armed - {w}
  {
    if repost == 0 then Response(s.(armed := s.armed + {w}), 0, [PollRecv, PostRecv(w)])
    else Response(s, -1, [PollRecv, PostRecv(w)])
  }

  /** handle_response: consume one receive completion `c`, act on the message
      type of the slot it names, and re-post that slot. */
  function Respond(s: Receiver, c: RecvCompletion, repost: int): (r: Response)
    requires CanComplete(s, c)
    ensures r.ret == 0 || r.ret == -1
    ensures r.ret == 0 <==> Delivered(c) && IsKnownResponse(c.payload.mtype) && repost == 0
    // A failed wait or a failed completion: nothing read, nothing changed, nothing re-posted.
    ensures !Delivered(c) ==> r.ret == -1 && r.after.dbInfo == s.dbInfo &&
                              r.after.slots == s.slots && r.ops == [PollRecv]
    // The message lands in the slot the completion names, and only there.
    ensures Delivered(c) ==> r.after.slots == s.slots[c.wrId := c.payload]
    // The descriptor becomes the slot's descriptor exactly on an info exchange.
    ensures Delivered(c) && c.payload.mtype == ExchangeDatabaseInfo ==>
              r.after.dbInfo == r.after.slots[c.wrId].dbInfo
    ensures !(Delivered(c) && c.payload.mtype == ExchangeDatabaseInfo) ==> r.after.dbInfo == s.dbInfo
    // The slot re-posted is the consumed one; an unknown type re-posts nothing.
    ensures r.ops == if Delivered(c) && IsKnownResponse(c.payload.mtype)
                     then [PollRecv, PostRecv(c.wrId)] else [PollRecv]
    // A completion consumes its slot; only a successful re-post arms it again.
    ensures c.RecvPollError? ==> r.after.armed == s.armed
    ensures c.RecvDone? ==> r.after.armed == if r.ret == 0 then s.armed else s.armed - {c.wrId}
  {
    match c
    case RecvPollError => Response(s, -1, [PollRecv])
    case RecvDone(w, status, m) =>
      var consumed := s.(armed := s.armed - {w});
      if status != WcSuccess then Response(consumed, -1, [PollRecv])
      else
        var landed := consumed.(slots := s.slots[w := m]);
        match landed.slots[w].mtype
        case QueryResp => Rearm(landed, w, repost)
        case SetResp => Rearm(landed, w, repost)
        case ExchangeDatabaseInfo => Rearm(landed.(dbInfo := landed.slots[w].dbInfo), w, repost)
        case _ => Response(landed, -1, [PollRecv])
  }

  // ---------------------------------------------------------------------------
  // Request/response call (rpc, get_db_info).
  // ---------------------------------------------------------------------------

  /** The fabric's answers during one call. */
  datatype RpcOutcomes = RpcOutcomes(post: int, sendComp: SendCompletion, recv: RecvCompletion, repost: int)

  predicate SendSucceeds(x: RpcOutcomes) {
    x.post == 0 && x.sendComp == SendDone(WcSuccess)
  }

  /** Everything a call needs to return 0. */
  predicate RpcSucceeds(x: RpcOutcomes) {
    SendSucceeds(x) && Delivered(x.recv) && IsKnownResponse(x.recv.payload.mtype) && x.repost == 0
  }

  /** rpc: transmit the request; only if that succeeded, handle one response. */
  function Call(s: Receiver, msg: Message, inline: bool, x: RpcOutcomes): (r: Response)
    requires CanComplete(s, x.recv)
    ensures r.ret == 0 || r.ret == -1
    ensures r.ret == 0 <==> RpcSucceeds(x)
    ensures |r.ops| >= 1 && r.ops[0] == PostSend(msg, inline)
    // A failed send leaves the descriptor and the receive slots untouched
    // and never waits for a receive.
    ensures !SendSucceeds(x) ==> r.after == s && PollRecv !in r.ops
    ensures SendSucceeds(x) ==>
              var h := Respond(s, x.recv, x.repost);
              r.after == h.after && r.ret == h.ret && r.ops == [PostSend(msg, inline), PollSend] + h.ops
  {
    var t := Transmit(msg, inline, x.post, x.sendComp);
    if t.ret != 0 then Response(s, -1, t.ops)
    else
      var h := Respond(s, x.recv, x.repost);
      Response(h.after, h.ret, t.ops + h.ops)
  }

  // ---------------------------------------------------------------------------
  // One-sided write (rdma_write).
  // ---------------------------------------------------------------------------

  /** The remote address rdma_write targets for `key`: the key is converted to
      `size_t`, scaled by sizeof(int) and added to the descriptor's address,
      all in 64-bit unsigned arithmetic. No bounds check, no readiness check. */
  function WriteTarget(info: DatabaseInfo, key: I32): (t: U64)
    ensures t == (info.address + 4 * key) % Two64
  {
    TargetIsBasePlusStride(info.address, key);
    AddU64(info.address, MulU64(IntToSizeT(key), SizeOfInt))
  }

  /** The work request rdma_write posts for `msg` under descriptor `info`. */
  function WriteRequestFor(info: DatabaseInfo, msg: Message): (wr: WriteRequest)
    ensures wr.opcode == WrRdmaWrite && wr.signaled
    ensures wr.remoteAddr == (info.address + 4 * msg.key) % Two64
    ensures wr.rkey == info.rkey
    ensures wr.length == 4
    ensures wr.payload == msg.value
  {
    WriteRequest(WrRdmaWrite, WriteTarget(info, msg.key), info.rkey, SizeOfInt, msg.value, true)
  }

  /** (x % 2^64 + y) % 2^64 == (x + y) % 2^64. */
  lemma ModAbsorb(x: int, y: int)
    ensures (x % Two64 + y) % Two64 == (x + y) % Two64
  {
    var q := x / Two64;
    assert x == Two64 * q + x % Two64;
    ModMultiple(x % Two64 + y, q);
  }

  /** Adding a multiple of 2^64 does not change a residue. */
  lemma {:induction false} ModMultiple(z: int, q: int)
    ensures (z + Two64 * q) % Two64 == z % Two64
    decreases if q < 0 then -q else q
  {
    if q > 0 {
      ModMultiple(z, q - 1);
      assert z + Two64 * q == (z + Two64 * (q - 1)) + Two64;
    } else if q < 0 {
      ModMultiple(z, q + 1);
      assert z + Two64 * q == (z + Two64 * (q + 1)) - Two64;
    }
  }

  /** The address computed through the `size_t` conversion, the
      multiplication and the addition is base + 4 * key modulo 2^64, for
      every key, negative keys included. */
  lemma TargetIsBasePlusStride(address: U64, key: I32)
    ensures AddU64(address, MulU64(IntToSizeT(key), SizeOfInt)) == (address + 4 * key) % Two64
  {
    var k := IntToSizeT(key);
    var scaled := MulU64(k, SizeOfInt);
    assert scaled == (4 * k) % Two64;
    if key < 0 {
      assert 4 * k == 4 * key + 4 * Two64;
      ModMultiple(4 * key, 4);
      ModAbsorb(4 * key, address);
    } else {
      assert 4 * k < Two64;
    }
    calc {
      AddU64(address, scaled);
      (address + scaled) % Two64;
      { ModAbsorb(4 * k, address); }
      (4 * k + address) % Two64;
      { if key < 0 { ModMultiple(4 * key + address, 4); } }
      (address + 4 * key) % Two64;
    }
  }

  /** Keys k and k + 1 target addresses exactly 4 bytes apart (mod 2^64). */
  lemma AdjacentKeysFourApart(info: DatabaseInfo, k: I32)
    requires k < 0x7fff_ffff
    ensures WriteTarget(info, k + 1) == (WriteTarget(info, k) + 4) % Two64
  {
    ModAbsorb(info.address + 4 * k, 4);
  }

  /** Residues of x and y differ, modulo 2^64, as x and y do. */
  lemma ModDifference(x: int, y: int)
    ensures (x % Two64 - y % Two64) % Two64 == (x - y) % Two64
  {
    assert x % Two64 - y % Two64 == (x - y) + Two64 * (y / Two64 - x / Two64);
    ModMultiple(x - y, y / Two64 - x / Two64);
  }

  /** Distinct keys write disjoint 4-byte cells: going round the 64-bit address
      space from either target, the other is at least 4 bytes away. */
  lemma DistinctKeysDisjointCells(info: DatabaseInfo, k1: I32, k2: I32)
    requires k1 != k2
    ensures 4 <= (WriteTarget(info, k2) - WriteTarget(info, k1)) % Two64 <= Two64 - 4
  {
    var a := info.address;
    var d := 4 * (k2 - k1);
    ModDifference(a + 4 * k2, a + 4 * k1);
    assert (a + 4 * k2) - (a + 4 * k1) == d;
    if d > 0 {
      assert d % Two64 == d;
    } else {
      ModMultiple(d, 1);
      assert (d + Two64) % Two64 == d + Two64;
    }
  }
}
