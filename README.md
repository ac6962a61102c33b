# rdma_perf messenger core, modelled in Dafny

This project models the sequential logic at the heart of the rdma_perf RDMA
messaging library and proves properties of it. It covers five parts:

- **The ring buffer** (`Buffer`, include/rdma_messenger/Buffer.h).
  - Its cursors and wrap flag.
  - Its two-segment `write_buf`/`read_buf` copy loops.
- **The per-connection chunk pool and posting paths** (`RDMAConnection`, src/core/RDMAConnection.cc).
  - The two registered regions cut into 32 MiB chunks.
  - The LIFO free list behind `get_chunk`/`reap_chunk`.
  - `post_send`, `post_send_iov` and `finish`.
  - Receive posting.
  - The byte staging buffer.
  - The size header of the huge-page allocator.
- **The connection registry and the stack's event handling** (`RDMAConMgr` and `RDMAStack`, src/core/RDMAStack.cc).
  - The three maps and the id counter.
  - Completion-queue assignment to worker threads.
  - The per-completion handlers and their dispatch.
  - The connection-manager event loop and the semaphore `connect` waits on.
  - The callback setters.
- **The build constants and `ALIGN_TO_PAGE_2MB`** (include/rdma_messenger/rdma_config.h), evaluated on 64-bit words.
- **The configuration object** (src/common/ConfigParameter.cc).
  - The subscriber list.
  - The singleton.
  - The `-c`/`--conf` scan.
  - The decisions that turn configuration strings into enumerations, flags and fixed-size C strings.

Verbs and rdma_cm calls become logs or parameters:
- `ibv_post_send` appends the chain it is given to `sendPosts`.
- Receive posts append to `recvPosts`.
- Queue pair numbers, completion queues, region addresses and memory keys are values handed to the constructors.
- The semaphore is a pair of post and wait counters.
- The application's callbacks are recorded as `Upcall` values.

A failed `assert()` of the source ends the operation with an explicit outcome:
- `Abort(NoFreeChunk)` or `Abort(Oversized)` in the send paths.
- `BadOpcode` in the completion dispatch.

A dereference of a work-request id that is not a chunk address is the disposition `WildPointer`.

## Behaviour as written

The model follows the code. Where it differs from the system's design, the model follows the code:

- **The free list of send chunks is never filled.**
  - The constructor cuts the send region into chunks but does not put them on `free_chunks` (src/core/RDMAConnection.cc:31).
  - A new connection's first `post_send`, `post_send_iov` element or `finish` therefore fails its chunk assertion (`FreshConnectionCannotSend`).
  - The design describes the send as failing silently when no chunk is free; the code asserts, and the model aborts.
- **`finish` never tears a connection down.**
  - `finish` labels its send with `FIN_WRID` (0xCAFEBEEF), but the handlers compare the id with 0 (src/core/RDMAStack.cc:138, 161).
  - That completion therefore never tears the connection down. On a registered connection `handle_send` treats the sentinel as a chunk pointer (`SentinelCompletionsNeverTearDown`).
  - The design describes `finish` as a graceful shutdown the peer observes. It also means `finish` consumes a chunk that never returns to the list (`FinishConsumesChunk`).
- **`set_connect_callback` loses its argument.**
  - It assigns the member to itself (src/core/RDMAStack.cc:296-299), so the connect callback stays null and is never called (`ClientHandshake`).
- **Two parse decisions are inverted.**
  - The second `strcmp` of `qp_create_method` and of `connection_method` uses the comparison result directly.
  - So "rdma_cm" (create method) and "tcp_cm" (connection method) map to the UNKNOWN value, and every other unrecognised string maps to the remaining value.
- **The `-c`/`--conf` scan keeps the flag itself.**
  - It sets the configuration file to the flag's own text minus its first character ("c" or "-conf"), not to the next argument (`ConfFileIsFlagTail`).
- **IP addresses may lose their terminator.**
  - They are copied with `strncpy` into 128-character fields, so an address of 128 characters or more fills the field and leaves it unterminated (`StrNCpyAddr`).
- **`ALIGN_TO_PAGE_2MB` wraps at the top of the word.**
  - It wraps modulo 2^64, so the largest word aligns to 0 (`AlignWrapsAtTop`). Without that overflow it rounds up to the next multiple of 2 MiB.

## Model

| member | source | states |
|---|---|---|
| RdmaConfig.AlignToPage2MB | include/rdma_messenger/rdma_config.h:23-24 | no contract of its own: the macro on a 64-bit word, the biased sum wrapped modulo 2^64 and ANDed with the mask; AlignIsRoundDown, AlignIsMultiple, AlignRoundsUp, AlignFixesMultiples, AlignIdempotent and AlignWrapsAtTop state what it computes |
| RdmaConfig.AlignIsRoundDown | include/rdma_messenger/rdma_config.h:23-24 | the bitwise AND with the sign-extended mask clears the low 21 bits of the wrapped biased sum, i.e. rounds it down to a multiple of 2 MiB |
| RdmaConfig.AlignIsMultiple | include/rdma_messenger/rdma_config.h:22-24 | the result is always a multiple of HUGE_PAGE_SIZE_2MB and a 64-bit word |
| RdmaConfig.AlignRoundsUp | include/rdma_messenger/rdma_config.h:23-24 | without 64-bit overflow the result is at least x and less than x + 2 MiB |
| RdmaConfig.AlignFixesMultiples | include/rdma_messenger/rdma_config.h:23-24 | a multiple of 2 MiB is left unchanged |
| RdmaConfig.AlignIdempotent | include/rdma_messenger/rdma_config.h:23-24 | aligning an aligned value changes nothing |
| RdmaConfig.AlignWrapsAtTop | include/rdma_messenger/rdma_config.h:23-24 | for 2^64 - 1 the biased sum wraps and the result is 0 |
| RdmaConfig.ConstantsConsistent | include/rdma_messenger/rdma_config.h:26-38 | SRQ_WQE is 64 times the receive depth (4096); each region length, 64 × 32 MiB = 2^31, fits a uint32_t; FIN_WRID and BEACON_WRID are distinct and non-zero |
| RingBuffer.MemCopy | include/rdma_messenger/Buffer.h:41 | memcpy writes the source bytes at the offset and leaves every other cell of the array unchanged |
| RingBuffer.Buffer.Stored | include/rdma_messenger/Buffer.h:81-84 | the count computed from the cursors is the number of stored bytes, at most max_len; equal cursors mean empty without a pending round and full with one |
| RingBuffer.Buffer.CursorsFromStored | include/rdma_messenger/Buffer.h:81-84 | the write cursor is the read cursor plus the stored count modulo the capacity, and a round is pending exactly when that sum reaches the end of the array |
| RingBuffer.Buffer.constructor | include/rdma_messenger/Buffer.h:25-27 | a new buffer has capacity buf_len, both cursors at 0, no pending round, nothing stored |
| RingBuffer.Buffer.PutSegment | include/rdma_messenger/Buffer.h:39-50 | one write segment appends its bytes to the stored contents, keeps the invariant, and wraps the write cursor to 0 and starts a round exactly when it reaches max_len outside a round |
| RingBuffer.Buffer.WriteBuf | include/rdma_messenger/Buffer.h:34-55 | accepts min(size, max_len - stored) bytes, which are the message's prefix appended after the stored bytes; keeps the invariant; a call that accepts nothing leaves the cursors and the flag unchanged; at most two copy segments |
| RingBuffer.Buffer.TakeSegment | include/rdma_messenger/Buffer.h:63-74 | one read segment delivers the oldest k stored bytes to the destination and drops them, and wraps the read cursor to 0 and ends the round exactly when it reaches max_len in a round |
| RingBuffer.Buffer.ReadBuf | include/rdma_messenger/Buffer.h:57-79 | delivers min(size, stored) bytes, which are the oldest stored bytes in order, removes exactly those, leaves the rest of the destination unchanged; a call that delivers nothing leaves the cursors and the flag unchanged; at most two copy segments |
| RingBuffer.WriteThenRead | include/rdma_messenger/Buffer.h:25-79 | FIFO round trip: n bytes written into a fresh 4 MiB buffer are read back unchanged and in order |
| RdmaConnection.MemcpySpec | src/core/RDMAConnection.cc:181 | the byte map after memcpy holds the payload at the chunk address and is unchanged elsewhere |
| RdmaConnection.ChunkCount | src/core/RDMAConnection.cc:303-311 | the number of chunks construct_chunks cuts is the least count whose chunks reach the end of the region |
| RdmaConnection.ChunksContiguous | src/core/RDMAConnection.cc:303-311 | chunk k+1 starts where chunk k ends |
| RdmaConnection.ChunksTileRegion | src/core/RDMAConnection.cc:303-311 | every address of a region lies in exactly one of its chunks, the one its offset divided by SGE_MSG_SIZE names |
| RdmaConnection.ChunksCoverRegion | src/core/RDMAConnection.cc:303-311 | for a length that is a whole number of chunks, the chunks end exactly at the region's end |
| RdmaConnection.ConstructChunks | src/core/RDMAConnection.cc:303-311 | the loop stores chunk k, starting at buf + k × SGE_MSG_SIZE with size SGE_MSG_SIZE, at index k for every k it reaches, and leaves the rest of the table alone |
| RdmaConnection.Push | src/core/RDMAConnection.cc:322-327 | reap_chunk's list operation puts the chunk at the back and keeps the others in place |
| RdmaConnection.Pop | src/core/RDMAConnection.cc:313-320 | get_chunk's list operation yields the back element and the list without it |
| RdmaConnection.PopAfterPush | src/core/RDMAConnection.cc:313-327 | LIFO: reaping a chunk and then getting one returns that chunk and restores the list |
| RdmaConnection.Taken | src/core/RDMAConnection.cc:313-320 | n successive gets hand out the list's last n chunks, last first |
| RdmaConnection.CopyAllHolds | src/core/RDMAConnection.cc:206-216 | when the payloads land in non-overlapping ranges, after all the copies every chunk holds its own payload |
| RdmaConnection.IovOutcomeAfter | src/core/RDMAConnection.cc:206-213 | after i elements have each fitted and taken a chunk, the outcome depends only on the remaining elements and chunks |
| RdmaConnection.IovOutcomeClosedForm | src/core/RDMAConnection.cc:206-213 | post_send_iov posts exactly when no element is oversized and the list has a chunk for each element; otherwise it aborts on whichever assertion is reached first |
| RdmaConnection.IovChain | src/core/RDMAConnection.cc:216-230 | the linked chain carries element i, with its length, in the i-th chunk taken |
| RdmaConnection.Connection.constructor | src/core/RDMAConnection.cc:21-37 | each region is its depth × SGE_MSG_SIZE and registered whole; the chunk tables hold the regions' chunks in order; the free list is empty; the connection ends ACTIVE |
| RdmaConnection.Connection.IsRecvBuffer | src/core/RDMAConnection.cc:79-84 | no contract of its own: the address lies between the receive region's first and last byte; ChunksInOwnRegion states that this is exactly membership in some receive chunk |
| RdmaConnection.Connection.IsSendBuffer | src/core/RDMAConnection.cc:86-91 | no contract of its own: the address lies between the send region's first and last byte; ChunksInOwnRegion states that this is exactly membership in some send chunk |
| RdmaConnection.Connection.ChunksInOwnRegion | src/core/RDMAConnection.cc:79-91 | is_recv_buffer/is_send_buffer hold for an address exactly when some chunk of that region contains it |
| RdmaConnection.Connection.GetChunk | src/core/RDMAConnection.cc:313-320 | on an empty list the output is untouched; otherwise it yields the last chunk and removes it; the list size stays reaps minus successful gets |
| RdmaConnection.Connection.ReapChunk | src/core/RDMAConnection.cc:322-327 | the chunk is appended at the back of the free list and counted as a reap |
| RdmaConnection.Connection.PostSend | src/core/RDMAConnection.cc:173-198 | aborts when the list is empty or the payload exceeds SGE_MSG_SIZE; otherwise the taken chunk holds the payload, its size is the payload's, and one send is posted whose scatter entry covers exactly the payload |
| RdmaConnection.Connection.TakeAndFill | src/core/RDMAConnection.cc:210-215 | takes the last free chunk, if any, and copies the element into it |
| RdmaConnection.Connection.PostSendIov | src/core/RDMAConnection.cc:200-238 | the outcome is IovOutcome's; on success one chunk per element is taken in order, each element copied into its chunk, and one chain posted with element i in the i-th chunk; on abort nothing is posted and the list has only lost chunks from its back |
| RdmaConnection.StagedStep | src/core/RDMAConnection.cc:206-230 | staging one more element takes the list's last chunk, copies the element into it and links it, sized to the element, at the end of the chain |
| RdmaConnection.StagedAll | src/core/RDMAConnection.cc:206-232 | once every element is staged, posting the chain leaves the state IovPosted describes |
| RdmaConnection.Connection.Finish | src/core/RDMAConnection.cc:240-265 | aborts on an empty list; otherwise takes the last chunk and posts one zero-length send labelled FIN_WRID, not the chunk |
| RdmaConnection.Connection.PostRecvBuffers | src/core/RDMAConnection.cc:119-145 | posts each of the RECV_WQE_PER_QP receive chunks once, in table order, for a full SGE_MSG_SIZE message labelled with the chunk |
| RdmaConnection.Connection.PostRecvBuffer | src/core/RDMAConnection.cc:147-171 | reposts exactly the given chunk for a full SGE_MSG_SIZE message |
| RdmaConnection.Connection.WriteBuffer | src/core/RDMAConnection.cc:93-99 | stages the accepted prefix in con_buf and reports the full size if any byte was accepted, else 0 |
| RdmaConnection.Connection.ReadBuffer | src/core/RDMAConnection.cc:101-106 | drains the oldest staged bytes into the destination and reports the full size if any byte came out, else 0 |
| RdmaConnection.Connection.SetReadCallback | src/core/RDMAConnection.cc:108-110 | the read callback becomes the given one |
| RdmaConnection.FreshConnectionCannotSend | src/core/RDMAConnection.cc:31 | on a new connection post_send fails its chunk assertion, whatever the payload |
| RdmaConnection.SendAfterReap | src/core/RDMAConnection.cc:173-198 | after one send chunk is reaped, a send posts exactly that chunk, sized to the payload, and the chunk holds the payload |
| RdmaConnection.FinishConsumesChunk | src/core/RDMAConnection.cc:240-265 | finish consumes the only free chunk, so the next send aborts |
| RdmaConnection.HugeRealSize | src/core/RDMAConnection.cc:332 | no contract of its own: ALIGN_TO_PAGE_2MB of the request plus one 2 MiB header page, with size_t wrap-around; HugePagesRoundTrip states that it is a multiple of 2 MiB covering the header page and the request |
| RdmaConnection.MallocHugePages | src/core/RDMAConnection.cc:330-343 | no contract of its own: mmap first, then the malloc fallback marked by a zero size word, else nullptr, the user pointer one 2 MiB page past the header; HugePagesRoundTrip states the header round trip |
| RdmaConnection.FreeHugePages | src/core/RDMAConnection.cc:345-357 | no contract of its own: nullptr is ignored, an unaligned size word fails the assertion, a non-zero size is unmapped and a zero size freed; HugePagesRoundTrip states that it releases exactly what MallocHugePages obtained |
| RdmaConnection.HugePagesRoundTrip | src/core/RDMAConnection.cc:330-357 | free_huge_pages on what malloc_huge_pages returned unmaps exactly the mapping made (a multiple of 2 MiB covering the header page and the request), frees a malloc fallback, and ignores nullptr |
| RdmaStack.SendVerdict | src/core/RDMAStack.cc:158-174 | no contract of its own: handle_send's decision; TeardownExactly, SentinelCompletionsNeverTearDown and OwnChunksServed state when it tears down, dereferences a sentinel, reclaims or ignores |
| RdmaStack.RecvVerdict | src/core/RDMAStack.cc:135-156 | no contract of its own: handle_recv's decision, dereferencing a non-zero sentinel before the lookup; TeardownExactly, SentinelCompletionsNeverTearDown and OwnChunksServed state when it tears down, dereferences, delivers or ignores |
| RdmaStack.Verdict | src/core/RDMAStack.cc:200-218 | no contract of its own: a failed completion goes to handle_err, SEND and RECV to their handlers, any other opcode fails the assertion; TeardownExactly states its teardown condition and Dispatch, PollOne and Drain are proved against it |
| RdmaStack.TeardownExactly | src/core/RDMAStack.cc:135-218 | a completion tears its connection down exactly when one is registered under its queue pair and the completion failed or carries the zero id |
| RdmaStack.SentinelCompletionsNeverTearDown | src/core/RDMAStack.cc:138-172 | FIN_WRID and BEACON_WRID are non-zero, and a completion labelled with any non-zero sentinel never tears down: a send one on a registered connection, and any receive one, is dereferenced as a chunk |
| RdmaStack.OwnChunksServed | src/core/RDMAStack.cc:145-172 | a successful completion of one of the connection's own send chunks is reclaimed, one of its receive chunks is delivered, and with disjoint regions a chunk of the other region is ignored |
| RdmaStack.ConMgr.constructor | include/rdma_messenger/RDMAStack.h:72-77 | the registry starts with con_number 0, empty maps and no workers |
| RdmaStack.ConMgr.GetConnection | src/core/RDMAStack.cc:36-43 | returns a connection exactly when one is registered under qp, and that connection's queue pair number is qp |
| RdmaStack.ConMgr.Add | src/core/RDMAStack.cc:68-77 | files the connection under con_number in con_map and cq_map and under its qp number unless taken, advances con_number by one, and keeps the registry invariant |
| RdmaStack.ConMgr.NewConnection | src/core/RDMAStack.cc:45-66 | ids below IO_WORKER_NUMS get a new CQ and worker, later ids reuse cq_map[id % IO_WORKER_NUMS]; the new ACTIVE connection is registered with the next id and all its receive chunks are posted |
| RdmaStack.ConMgr.Del | src/core/RDMAStack.cc:79-84 | removes the id from con_map and the qp from qp_con_map, the id from cq_map only at or above IO_WORKER_NUMS, changes nothing else; the qp then looks up to none |
| RdmaStack.OpenConnections | src/core/RDMAStack.cc:45-77 | connections opened in sequence get ids 0, 1, 2, …, and connection id uses the CQ created for connection id % IO_WORKER_NUMS |
| RdmaStack.CmHandled | src/core/RDMAStack.cc:228-283 | the loop handles at most the events it is given |
| RdmaStack.CmHandledStops | src/core/RDMAStack.cc:228-283 | the loop handles events up to and including the first that makes it return: none before it returns, and when it stops early the last handled one does |
| RdmaStack.CmPostsExactly | src/core/RDMAStack.cc:231-279 | route resolution, establishment, disconnection, the five errors and device removal post once; address resolution posts only when route resolution failed; requests and unknown events post nothing |
| RdmaStack.ServerHandlesAll | src/core/RDMAStack.cc:249-253 | a server never leaves the event loop |
| RdmaStack.ClientStopsAtEstablished | src/core/RDMAStack.cc:249-253 | a client returns right after the first ESTABLISHED event |
| RdmaStack.Stack.constructor | include/rdma_messenger/RDMAStack.h:82 | a new stack has an empty registry, a zero semaphore and no callbacks |
| RdmaStack.Stack.SetAcceptCallback | src/core/RDMAStack.cc:291-294 | the accept callback becomes the given one |
| RdmaStack.Stack.SetConnectCallback | src/core/RDMAStack.cc:296-299 | the connect callback keeps its old value; the argument is lost |
| RdmaStack.Stack.TearDown | src/core/RDMAStack.cc:140-141 | the connection is deleted from the registry and then closed |
| RdmaStack.Stack.HandleErr | src/core/RDMAStack.cc:176-183 | a failed completion deletes and closes its registered connection, otherwise changes nothing |
| RdmaStack.Stack.HandleSend | src/core/RDMAStack.cc:158-174 | the zero id tears the connection down; a chunk in the connection's send region is reaped; everything else changes nothing |
| RdmaStack.Stack.HandleRecv | src/core/RDMAStack.cc:135-156 | the zero id tears the connection down; a chunk in the connection's receive region, sized to the byte count, goes to the read callback if set and is reposted; everything else changes nothing |
| RdmaStack.Stack.Dispatch | src/core/RDMAStack.cc:199-218 | the disposition is Verdict's for the connection registered under the completion's queue pair; a teardown deletes that connection from the registry and closes it, and otherwise the registry and the closed list are unchanged; a reclaim appends the chunk to that connection's free list and counts a reap; a delivery reposts the chunk, sized to the byte count, and upcalls the read callback if set; every other disposition leaves the free list, reaps, reposts and upcalls unchanged |
| RdmaStack.PollStops | src/core/RDMAStack.cc:200-218 | in the reference run Poll, only the last disposition may end the process, and a run that stops before the last completion stopped on a fatal one |
| RdmaStack.PollRegistry | src/core/RDMAStack.cc:79-84 | after the reference run, the queue-pair map is the starting map minus exactly the queue pairs of the torn-down completions, and every connection closed was registered at the start |
| RdmaStack.Stack.PollOne | src/core/RDMAStack.cc:200-218 | one turn of the loop: the disposition is Verdict's for the connection registered under the queue pair at that moment; a teardown removes that connection's id from con_map, from cq_map when the id is at least IO_WORKER_NUMS, and its queue pair from qp_con_map, and appends it to the closed list; any other disposition leaves the registry and the closed list as they were |
| RdmaStack.Stack.Drain | src/core/RDMAStack.cc:200-218 | the dispositions, the final queue-pair map and the connections closed (in order) are exactly those of the reference run Poll from the starting queue-pair map; con_map loses exactly the ids of the closed connections, cq_map exactly those of them at least IO_WORKER_NUMS; con_number and the worker CQs are unchanged; only the last completion handled may end the process, and stopping early means it did |
| RdmaStack.Stack.Accept | src/core/RDMAStack.cc:99-109 | a new connection for the request's queue pair is filed under the next id in con_map and cq_map and under its qp number unless taken, con_number advances by one, and the connection is passed to the accept callback if one is set |
| RdmaStack.Stack.CmEvent | src/core/RDMAStack.cc:230-280 | one event posts the semaphore CmPosts times; a request opens and files a new connection as Accept does and upcalls the accept callback; any other event leaves the registry and the upcalls unchanged |
| RdmaStack.Stack.CmEventHandler | src/core/RDMAStack.cc:223-284 | handles CmHandled events; posts as those events say; acknowledges every handled event except a client's ESTABLISHED; registers one connection per request under the next ids, keeping every earlier registration, each new one also filed under its queue pair; with an accept callback set the upcalls gain one accept per new id in id order, and without one they are unchanged |
| RdmaStack.Stack.Connect | src/core/RDMAStack.cc:111-127 | blocks at the first wait with no post and then changes nothing; past the first wait it holds a new connection for the given queue pair, filed under the next id as Accept files one; after two waits it is ESTABLISHED, and only then could the connect callback fire |
| RdmaStack.ClientHandshake | src/core/RDMAStack.cc:111-127 | a client handshake stops after three events, connect gets through both waits with connection 0, and the callback registered before connecting is never called |
| ConfigParameter.Subscriber.constructor | src/common/ConfigParameter.cc:59-61 | a subscriber keeps its configuration type |
| ConfigParameter.IndexOf | src/common/ConfigParameter.cc:68 | std::find: the first position holding the subscriber, or the end |
| ConfigParameter.RemoveFirstSpec | src/common/ConfigParameter.cc:67-72 | removing the first match takes out exactly one copy and keeps the rest in order; an absent subscriber leaves the list unchanged |
| ConfigParameter.DetachUndoesRegister | src/common/ConfigParameter.cc:63-72 | detaching a subscriber just appended, not previously present, restores the list |
| ConfigParameter.BroadcastFirstDissent | src/common/ConfigParameter.cc:74-82 | the broadcast answers DONE exactly when every subscriber does, and otherwise the answer of the first one that did not |
| ConfigParameter.UpdateConfig | src/common/ConfigParameter.cc:89-137 | no contract of its own: the five update_config bodies, which compare the type with their own and answer DONE either way; BroadcastAlwaysDone states the consequence for a broadcast |
| ConfigParameter.BroadcastAlwaysDone | src/common/ConfigParameter.cc:89-137 | with the library's subscribers, which all answer DONE, every broadcast answers DONE |
| ConfigParameter.ConfigPublish.constructor | include/common/ConfigParameter.h:155 | a publisher starts with no subscribers |
| ConfigParameter.ConfigPublish.AddRegister | src/common/ConfigParameter.cc:63-65 | appends the subscriber |
| ConfigParameter.ConfigPublish.DetachPublish | src/common/ConfigParameter.cc:67-72 | the list becomes RemoveFirst of the old list |
| ConfigParameter.ConfigPublish.BroadcastConfig | src/common/ConfigParameter.cc:74-82 | the result is Broadcast's: the first non-DONE answer in list order, else DONE |
| ConfigParameter.FirstConfFlag | src/common/ConfigParameter.cc:31-36 | the position of the first "-c" or "--conf", or the end |
| ConfigParameter.ConfFileIsFlagTail | src/common/ConfigParameter.cc:31-36 | the file chosen is "config.yaml", "c" or "-conf", and the default exactly when no flag occurs |
| ConfigParameter.TransportMode | src/common/ConfigParameter.cc:184-185 | IBV_QPT_RC exactly when strcmp finds the value equal to "RC", that is its text up to the first NUL is "RC" |
| ConfigParameter.CreateMethod | src/common/ConfigParameter.cc:186-187 | VERBS_QP exactly when strcmp matches "verbs", UNKNOWN exactly when it matches "rdma_cm", RDMACM_QP for every other value |
| ConfigParameter.ConnectionMethod | src/common/ConfigParameter.cc:221-222 | CM_RDMA_ESTABLISH exactly when strcmp matches "rdma_cm", CM_UNKNOWN_ESTABLISH exactly when it matches "tcp_cm", CM_TCP_ESTABLISH for every other value |
| ConfigParameter.ParseFlag | src/common/ConfigParameter.cc:195 | srq (and likewise use_inline at line 206 and use_hugepage at line 216) is true exactly when strcmp matches "true": the value starts with "true" and ends or has a NUL there |
| ConfigParameter.CStringIs | src/common/ConfigParameter.cc:184-222 | comparing c_str() with a literal by strcmp is the same as comparing the text before the first NUL |
| ConfigParameter.ParseFlagStopsAtNul | src/common/ConfigParameter.cc:195 | "true" followed by a NUL and anything sets the flag; "true" followed by other text does not |
| ConfigParameter.CString | src/common/ConfigParameter.cc:223 | c_str's characters: the prefix before the first NUL |
| ConfigParameter.StrNCpy | src/common/ConfigParameter.cc:223 | strncpy always fills exactly the field's size (the same copy serves the server and client addresses at lines 228 and 234) |
| ConfigParameter.StrNCpyAddr | src/common/ConfigParameter.cc:223 | an address shorter than 128 characters reads back unchanged; one of 128 or more fills the field with no terminator |
| ConfigParameter.CStringAll | src/common/ConfigParameter.cc:223 | a string without NUL is its own C string |
| ConfigParameter.CStringStops | src/common/ConfigParameter.cc:223 | the C string ends at the first NUL |
| ConfigParameter.Config.constructor | src/common/ConfigParameter.cc:20-38 | keeps the arguments, takes the configuration file from the scan, and registers the five subscribers in the order qp, rq, sq, wqe, sge |
| ConfigParameter.Config.AddRegisters | src/common/ConfigParameter.cc:174-180 | appends qp, rq, sq, wqe and sge, in that order |
| ConfigParameter.ScanConfFlag | src/common/ConfigParameter.cc:31-36 | the file is the first flag's text minus its first character, or "config.yaml" when no flag occurs |
| ConfigParameter.ConfigSingleton.constructor | include/common/ConfigParameter.h:250 | the singleton pointer starts null |
| ConfigParameter.ConfigSingleton.CreateConfigObj | src/common/ConfigParameter.cc:51-57 | the first call builds a fresh object exactly as the constructor does from its arguments: the arguments kept, the file named by the first configuration flag or the default, and the five subscribers registered in the order qp, rq, sq, wqe, sge, each with its own type; later calls return the same object and ignore their arguments |
| ConfigParameter.CreateTwice | src/common/ConfigParameter.cc:51-57 | a second call with other arguments returns the first object, which keeps the first arguments |
| ConfigParameter.BroadcastOnFreshConfig | src/common/ConfigParameter.cc:74-82 | a fresh configuration's broadcast answers DONE, and detaching one subscriber leaves four |

## Left out

- **Verbs and rdma_cm calls**, and their failures.
  - `ibv_reg_mr`, `ibv_create_cq`/`_qp`/`_srq`, `ibv_post_*`, `rdma_resolve_addr`, `rdma_accept`, `rdma_connect`, `rdma_get_cm_event` and the like are not modelled as calls.
  - Their results are parameters or log entries. A failed post is not modelled; the source only prints it.
- **Threads, blocking and the mutexes.**
  - The CQ worker threads, Acceptor/Connector and the client and server drivers are not modelled, because their point is concurrency.
  - `chk_mtx` and `sem` are modelled sequentially.
  - Interleavings of the handshake thread with the workers are not captured.
- **The outer loop of `cq_event_handler`.**
  - This covers `ibv_get_cq_event`, the acknowledgement, the re-arm and the `assert(poll_cq == cq_triggered)`.
  - The assignment `cq_channel = nullptr` at src/core/RDMAStack.cc:190 is left out too: it is notification I/O, not logic.
  - Only the per-completion dispatch is modelled.
- **Everything outside the core.**
  - `init`, `listen`, `shutdown` and `connection_establish`: each only forwards to rdma_cm or to `new_connection`.
  - RNICAffinity: environment I/O.
  - `ConfigParse` and the YAML node reads: the Parse decisions take plain strings instead.
  - The default `ConfigParameter` constructor.
  - The numeric configuration fields.
- **Memory management.**
  - `memalign`, `mmap`/`munmap`/`malloc`/`free`, `delete this` in `close`, and the destructors (including the `delete`/`delete[]` mismatch in Buffer.h) are not modelled.
  - `close` is an entry in `closed`. Using a connection after it is closed is not detected.
- **Chunk identity.**
  - Chunks are values, not pointers, so aliasing through `chk_size` is not captured.
  - The size `handle_recv` writes before deciding to drop a completion is invisible.
  - So is the fact that a reaped chunk in the table and on the list is one object.
- RingBuffer.Buffer.constructor: requires a non-zero capacity. A zero-capacity buffer is not modelled.
- RdmaConnection.Connection.constructor: `read_callback` is left uninitialised by the source (include/rdma_messenger/RDMAConnection.h:78); the model starts it as no callback.
- RdmaConnection.ConstructChunks: requires that the 32-bit offset cannot wrap on its last step. The connection's regions (2^31 bytes) meet this, so the wrap-around is not modelled.
- RdmaConnection.Connection.PostSendIov: the source takes two parallel vectors, the buffer pointers and their sizes; the model merges them into one sequence of payloads, each sized by its own length. It therefore cannot express a size vector shorter than the pointer vector, which the source reads past its end (`raw_msg_size[base]` at src/core/RDMAConnection.cc:208, 213 and 214), nor a size that differs from its buffer's length.
- RdmaConnection.Connection.PostSendIov: an empty vector posts an empty chain. The source passes a zero-length array to `ibv_post_send`, whose effect depends on the driver.
- RdmaStack.Stack.Connect: models a single sequential run in which connect finds the events already posted. A wait that blocks is reported as `WaitingForRoute` or `WaitingForEstablished`, not suspended. The failure posts cannot be told apart from success posts, as in the source.
- RdmaStack.Stack.Drain: states the whole run's effect on the registry and the closed list; what each completion does to its connection's free list, reaps, reposts and upcalls is stated per completion by Dispatch and not gathered over the run.
- RdmaStack.Stack.CmEventHandler: does not state that the connections it registers are freshly allocated or what each holds; CmEvent and Accept state both for a single event.
- ConfigParameter.ConfFileIsFlagTail: the command-line scan compares arguments with `==`; command-line arguments are C strings and cannot hold a NUL, so this is strcmp there.
- ConfigParameter.ConfigSingleton.GetConfigObj: a plain accessor with no contract of its own.
- Callback.h is not part of this model: callbacks are opaque identifiers recorded as upcalls.
