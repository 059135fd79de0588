# rdma_client: a Dafny model of the client's protocol engine

`rdma_client.c` is the client of a small remote key-value store reached over an
RDMA fabric through `librdmacm` and `ibverbs`. Most of the file calls into those
libraries. Inside it is a small, single-threaded protocol engine:

- the **send path** (`transmit_message`): post a message, wait for its send completion;
- the **response dispatcher** (`handle_response`, `rpc`, `get_db_info`): consume one
  receive completion, act on the message type, and re-arm the receive slot;
- the **one-sided write** (`rdma_write`): write a 4-byte value straight into the
  server's exported memory at `db_info.address + key * sizeof(int)`;
- the **startup/teardown ladder** (`run`): acquire the address list, the endpoint,
  the receive region, the send region (unless sends are inline) and the
  connection, and on the way out release what was acquired by falling through
  a chain of `goto` labels.

The model keeps the C file's global state as the fields of one class,
`RdmaClient.Client`:

- `db_info` becomes `dbInfo`;
- `send_msg` and `recv_msg` become arrays `sendMsg` and `recvMsg`;
- `send_flags & IBV_SEND_INLINE` becomes `inlineSend`;
- whether `recv_mr` and `send_mr` are registered becomes `recvRegistered` and `sendRegistered`.

Three more fields record what the fabric sees:

- `armed`: the receive slots currently posted;
- `trace`: the data-path calls, in issue order (post send, poll send, poll receive,
  post receive, post write);
- `resourceLog`: every acquisition and release that `run` makes.

Each fabric call becomes an outcome that the caller passes in: a post result (0
means accepted), a completion (a poll error, or a completion with a status, the
slot index `wr_id` and the delivered message), and the startup results. Each
busy-wait loop `while ((ret = rdma_get_*_comp(...)) == 0);` becomes the single
completion that ends it.

The methods are proved against pure specification functions:

- `Protocol.Transmit` and `Protocol.PostAndWait` for the send path;
- `Protocol.Respond` for the dispatcher;
- `Protocol.Call` for `rpc` and `get_db_info`;
- `Protocol.WriteRequestFor` for the write;
- `Ladder.Acquired`, `Ladder.Released`, `Ladder.Teardown` and `Ladder.RunCode` for
  the resources and return code of `run`, and `RdmaClient.StartupDataPath` for
  what its startup does to the data path.

The properties are stated on those functions and in the lemmas beside them. The
ladder is also checked against an independent stack discipline, `Ladder.Replay`.

Files:

- `wire.dfy`: message, descriptor, completion and work-request values, and C's integer conversions;
- `protocol.dfy`: the specification functions and the address-arithmetic lemmas;
- `ladder.dfy`: acquisition order, reverse teardown and the stack replay;
- `client.dfy`: the class.

Assumptions the model makes about code it cannot see:

- The layouts of `struct message` and `struct database_info` are in `common.h`,
  which is not part of this model. The key and value are taken as 32-bit signed,
  the address as 64-bit unsigned and the remote key as 32-bit unsigned.
- `size_t` is taken as 64 bits wide (an LP64 platform), and `sizeof(int)` as 4.
  The conversion of the key to `size_t` and the address arithmetic wrap
  modulo 2^64.
- `post_recv_all` is in `common.h` too. With `NUM_MESSAGES` equal to 1 it is
  modelled as one post of slot 0 with `wr_id` 0. This matches the way
  `handle_response` re-posts a slot under its own index. The post is logged
  whether or not it is accepted, as a failed re-post in `handle_response` is,
  and slot 0 is armed only when it is accepted.
- The fabric completes only receives that were posted. A completion of either
  status consumes its posted receive. `rdma_destroy_ep` drops every receive
  still posted.

Three behaviours of the code that a reader might not expect, each stated as a
lemma or contract:

- **No readiness check before a one-sided write.** `rdma_write` has no such
  check (rdma_client.c:125-163). Before any info exchange it posts under the
  zero-filled static descriptor, to address (4 * key) mod 2^64 with remote key 0, as
  `RdmaClient.WriteBeforeExchange` shows for a fresh session.
- **A failed info exchange is never explicitly disconnected.** When `get_db_info`
  fails after `rdma_connect` succeeded, `run` jumps to `out_dereg_send` and
  skips `rdma_disconnect` (rdma_client.c:340-347). The regions are then
  deregistered while still connected; `rdma_destroy_ep` later destroys the
  endpoint the connection runs on.
  `Ladder.RunLogBalancedUnlessExchangeFails` shows that this is the only exit
  whose resource log breaks the stack discipline.
- **Responses are not matched to requests.** `handle_response` accepts any of
  the three known response types, whatever was sent (rdma_client.c:88-104): a
  `SET_RESP` to a `QUERY` returns 0. `Protocol.Call` returns 0 exactly when
  `Protocol.RpcSucceeds` holds, and that predicate does not mention the request.

## Model

| member | source | states |
|---|---|---|
| `Wire.IntToSizeT` | rdma_client.c:143 | converting the `int` key to `size_t` keeps its value modulo 2^64 |
| `Protocol.PostAndWait` | rdma_client.c:59-74 | returns 0 exactly when the post was accepted and the send completion reported success, otherwise -1; the completion is awaited only after an accepted post |
| `Protocol.Transmit` | rdma_client.c:54-75 | transmit_message posts the given message with the session's inline flag; a post error gives -1 with no completion awaited; 0 only for an accepted post with a successful completion |
| `Protocol.Respond` | rdma_client.c:77-113 | a poll error or failed completion returns -1 and changes neither the descriptor nor the slots, re-posting nothing; on a delivered message the slot named by `wr_id` holds it; the descriptor becomes that slot's descriptor exactly on an info exchange and is unchanged otherwise; known types re-post that same slot and return 0 exactly when the re-post succeeds; an unknown type returns -1 and leaves the slot disarmed; a successful call leaves the set of armed slots as it was |
| `Protocol.Rearm` | rdma_client.c:106-112 | re-posting the consumed slot returns 0 exactly when `rdma_post_recv` succeeds; the slot is armed again only then; descriptor, slot contents and the other armed slots are untouched |
| `Protocol.Call` | rdma_client.c:115-121 | returns 0 exactly when the send succeeded, a known response was delivered and its slot re-armed; a failed send returns -1 with descriptor and slots untouched and never waits for a receive; after a successful send the effect is that of `Respond` |
| `Protocol.WriteRequestFor` | rdma_client.c:133-143 | the one-sided write is an RDMA_WRITE, signalled, to `(db_info.address + 4 * key) mod 2^64`, with `db_info.rkey`, length 4 and the message's value as payload |
| `Protocol.WriteTarget` | rdma_client.c:143 | the remote address for a key is `(db_info.address + 4 * key) mod 2^64` |
| `Protocol.TargetIsBasePlusStride` | rdma_client.c:143 | the address expression as written (the key converted to `size_t`, scaled by `sizeof(int)` and added to the base, all wrapping modulo 2^64) equals base + 4 * key modulo 2^64, negative keys included |
| `Protocol.AdjacentKeysFourApart` | rdma_client.c:143 | keys k and k + 1 target addresses exactly 4 apart modulo 2^64 |
| `Protocol.DistinctKeysDisjointCells` | rdma_client.c:143 | distinct keys target 4-byte cells that do not overlap anywhere in the 64-bit address space |
| `Ladder.Acquired` | rdma_client.c:297-338 | what run holds when acquisition stops is a prefix of AddrInfo, Endpoint, RecvRegion, SendRegion (only without inline sends), Connection; it is the whole list exactly when every step succeeds; with inline sends the send region is never acquired |
| `Ladder.Released` | rdma_client.c:340-358 | run releases a prefix of what it acquired: every acquired resource other than the connection, and the connection only when the startup and the info exchange both succeeded |
| `Ladder.RunCode` | rdma_client.c:297-343 | run returns 0 exactly when every startup step and the info exchange succeed; otherwise the code of the first failing step: that of `rdma_getaddrinfo` or `rdma_create_ep`, -1 for a region that cannot be registered, that of `post_recv_all` or `rdma_connect`, or -1 for a failed exchange |
| `Ladder.AcquisitionsInOrder` | rdma_client.c:297-338 | the acquisitions log acquires exactly the held resources, position by position, in acquisition order |
| `Ladder.TeardownReverses` | rdma_client.c:346-356 | the teardown releases exactly the held resources, the most recently acquired first |
| `Ladder.TeardownIsBalanced` | rdma_client.c:346-356 | acquiring and then tearing down obeys the stack discipline and leaves nothing held |
| `Ladder.RunLogBalancedUnlessExchangeFails` | rdma_client.c:340-347 | the log run writes is stack-balanced on every exit except a failed info exchange after connecting, where the connection is left open while the regions are released |
| `Ladder.SendRegistrationFailureReleases` | rdma_client.c:321-327 | when the send region cannot be registered, the receive region, the endpoint and the address list are released, in that order |
| `RdmaClient.HeldAt` | rdma_client.c:297-338 | what the labels from a given label down release is a prefix of the acquisition order; it is everything held on entry there, except after a failed info exchange, when control enters at `out_dereg_send` with the connection still open |
| `RdmaClient.Unwound` | rdma_client.c:346-356 | falling through the labels only releases; which resources, in which order, is `UnwoundIsTeardown` |
| `RdmaClient.UnwoundIsTeardown` | rdma_client.c:346-356 | falling through the labels from any entry point releases exactly `HeldAt` of that label, most recent first; after a failed info exchange the still-open connection is not among them |
| `RdmaClient.StartupDataPath` | rdma_client.c:330-344 | defines the data-path effect of the startup: nothing before the regions are registered, then the post of slot 0 (armed only if accepted), then the tagged `get_db_info` call once connected; it records a fabric call exactly when the regions are registered, and its further properties are `StartupDataPathProperties` |
| `RdmaClient.StartupDataPathProperties` | rdma_client.c:330-344 | on the data path, a startup that fails leaves the descriptor and both buffers untouched, and slot 0 armed only if its post was accepted; once the regions are registered, slot 0 is posted first; the descriptor changes only through a delivered info-exchange response, to its descriptor; once connected, slot 0 is posted and then the tagged request is sent; a successful exchange leaves exactly slot 0 posted |
| `RdmaClient.WriteBeforeExchange` | rdma_client.c:125-163 | in a fresh session, before any info exchange, `rdma_write` still posts: the first call in the trace is an RDMA_WRITE to `(4 * key) mod 2^64` with remote key 0, length 4 and the message value, and it returns 0 exactly when the completion succeeds |
| `RdmaClient.Client.constructor` | rdma_client.c:41-52 | the process starts with a zero descriptor, blank buffers, no slot posted, nothing registered or acquired |
| `RdmaClient.Client.TransmitMessage` | rdma_client.c:54-75 | the return code and the calls appended to the trace are those of `Transmit` |
| `RdmaClient.Client.HandleResponse` | rdma_client.c:77-113 | the new descriptor, slot contents and armed set, the return code and the calls appended are those of `Respond` on the old state |
| `RdmaClient.Client.Rpc` | rdma_client.c:115-121 | the new state, return code and appended calls are those of `Call` on the old state |
| `RdmaClient.Client.RdmaWrite` | rdma_client.c:125-163 | posts `WriteRequestFor` the current descriptor, whatever it holds, and returns as `PostAndWait` says; nothing but the trace changes |
| `RdmaClient.Client.GetDbInfo` | rdma_client.c:275-287 | the send buffer's type becomes the info-exchange tag and nothing else in it changes; that buffer is sent, with the effect of `Call` |
| `RdmaClient.Client.Run` | rdma_client.c:288-359 | the resource log is the acquisitions of `Acquired` followed by `Teardown` of `Released`; the return code is `RunCode`; the descriptor, receive buffer, send buffer and data-path calls are those of `StartupDataPath`; afterwards no region is registered and no slot is posted |
| `RdmaClient.Client.StartUp` | rdma_client.c:295-345 | logs the acquisitions of `Acquired` and reaches the label whose releases are `Released`, which is `out_disconnect` or `out_dereg_send` once the regions are registered; the return code is `RunCode`; descriptor, buffers, posted slots and data-path calls are those of `StartupDataPath` |
| `RdmaClient.Client.RegisterRegions` | rdma_client.c:295-328 | address list, endpoint and regions are acquired in order until the first failure, which jumps to its label; the return code is that of `rdma_getaddrinfo` or `rdma_create_ep`, or -1 for a failed region registration |
| `RdmaClient.Client.ConnectAndFetch` | rdma_client.c:330-344 | a failure to post the receives, to connect or to fetch the descriptor jumps to `out_dereg_send`; the return code is `RunCode`; the connection is logged as acquired once `rdma_connect` succeeds; descriptor, buffers, posted slots and data-path calls are those of `StartupDataPath` |
| `RdmaClient.Client.Unwind` | rdma_client.c:346-358 | the ladder entered at a label releases each resource from that label down; deregistering clears the region flags and destroying the endpoint drops every posted receive |

## Left out

- The bodies of the `rdma_*` and `ibv_*` calls are foreign library code. Each call is an outcome passed in by the caller.
- The busy-wait loops become a single completion each. No timeout exists in the source.
- `interactive_menu`, `main_loop` and `main` are left out: they are `scanf`, `getopt` and `printf` glue. `main_loop` is taken to return normally, and the state changes made by the calls it drives are not part of `Run`.
- The `server` and `port` defaults and the unused static `wr_id = 4000` are left out.
- Logging (`LOG`, `printf`, `perror`, quiet mode) is left out.
- The `lkey`, `sg_list` and `num_sge` of the work request in `rdma_write` are left out.
- The dereference of `send_mr->lkey` when inline sends leave `send_mr` unset is undefined behaviour, so it is not modelled.
- The exact C enum values of the message types are left out, because `common.h` is not part of this model. The zero-filled buffers are given no known type. The send buffer's type is always set before it is sent, while its key, value and descriptor go out as they are (zero on the info exchange); the receive buffer is read only after a completion has overwritten it.
