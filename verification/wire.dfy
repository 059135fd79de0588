/** The values the client exchanges with the fabric: the fixed-layout message,
    the remote database descriptor, completion records and the work requests
    the client posts. The layouts of `struct message` and `struct database_info`
    are declared in common.h, which is not part of this model; the model assumes
    a 32-bit signed key and value, a 64-bit unsigned address and a 32-bit
    unsigned remote key. */
module Wire {

  const Two32: int := 0x1_0000_0000
  const Two64: int := 0x1_0000_0000_0000_0000

  type I32 = x: int | -0x8000_0000 <= x < 0x8000_0000
  type U32 = x: int | 0 <= x < Two32
  type U64 = x: int | 0 <= x < Two64

  /** NUM_MESSAGES: the number of send and receive slots. */
  const NumMessages: nat := 1

  /** sizeof(int) on the client's platform. */
  const SizeOfInt: U64 := 4

  /** The message tags. The numeric values live in common.h; `Unrecognized`
      stands for any other value the `type` field may carry. */
  datatype MsgType =
    | Query
    | QueryResp
    | Set
    | SetResp
    | Disconnect
    | ExchangeDatabaseInfo
    | Unrecognized(code: int)

  /** The responses handle_response accepts. */
  predicate IsKnownResponse(t: MsgType) {
    t == QueryResp || t == SetResp || t == ExchangeDatabaseInfo
  }

  /** The remote database descriptor: where the server's store lives and the
      key that authorises one-sided access to it. */
  datatype DatabaseInfo = DatabaseInfo(address: U64, rkey: U32)

  datatype Message = Message(mtype: MsgType, key: I32, value: I32, dbInfo: DatabaseInfo)

  /** Zero-filled static storage. */
  const ZeroInfo: DatabaseInfo := DatabaseInfo(0, 0)
  const BlankMessage: Message := Message(Unrecognized(0), 0, 0, ZeroInfo)

  /** `wc.status`: IBV_WC_SUCCESS or some error status. */
  datatype WcStatus = WcSuccess | WcError(code: int)

  /** What the busy wait on the send completion queue ends with:
      a negative return of rdma_get_send_comp, or a completion. */
  datatype SendCompletion = SendPollError | SendDone(status: WcStatus)

  /** What the busy wait on the receive completion queue ends with. A
      completion carries the `wr_id` of the receive it completes, which is the
      slot index, and, on success, the message the peer wrote into that slot. */
  datatype RecvCompletion =
    | RecvPollError
    | RecvDone(wrId: nat, status: WcStatus, payload: Message)

  /** A receive completion that delivered a message. */
  predicate Delivered(c: RecvCompletion) {
    c.RecvDone? && c.status == WcSuccess
  }

  datatype Opcode = WrRdmaWrite  // IBV_WR_RDMA_WRITE

  /** The parts of the one-sided work request that carry meaning: opcode,
      remote address, remote key, transfer length and the 4-byte payload. */
  datatype WriteRequest = WriteRequest(
    opcode: Opcode,
    remoteAddr: U64,
    rkey: U32,
    length: U32,
    payload: I32,
    signaled: bool)

  /** The data-path calls the client makes into the fabric, in issue order. */
  datatype FabricOp =
    | PostSend(msg: Message, inline: bool)   // rdma_post_send of one message
    | PollSend                               // wait for a send completion
    | PollRecv                               // wait for a receive completion
    | PostRecv(slot: nat)                    // rdma_post_recv of recv_msg[slot], wr_id = slot
    | PostWrite(wr: WriteRequest)            // ibv_post_send of a one-sided write

  /** C's conversion of an `int` to `size_t` (64 bits): the value modulo 2^64. */
  function IntToSizeT(k: I32): (r: U64)
    ensures r == k % Two64
  {
    if k < 0 then k + Two64 else k
  }

  /** Unsigned 64-bit multiplication and addition, which wrap around. */
  function MulU64(a: U64, b: U64): U64 {
    (a * b) % Two64
  }

  function AddU64(a: U64, b: U64): U64 {
    (a + b) % Two64
  }
}
