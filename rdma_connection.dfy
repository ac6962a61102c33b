/**
 * One RDMA connection of src/core/RDMAConnection.cc: its two registered
 * regions sliced into equal chunks, the LIFO pool of free send chunks, the
 * send and receive posting paths, the byte staging buffer, and the size
 * header of the huge-page allocator.
 *
 * Addresses are naturals.  The verbs calls are replaced by append-only logs:
 * `sendPosts` holds one entry per ibv_post_send call (the linked chain of
 * work requests it was given, in link order) and `recvPosts` one entry per
 * receive post.  A failed assert() of the source ends the operation with an
 * `Abort` outcome naming the assertion.
 */
module RdmaConnection {
  import opened Wrappers
  import opened RdmaConfig
  import RingBuffer

  type Byte = RingBuffer.Byte

  /** The part of an ibv_mr the connection uses. */
  datatype MemoryRegion = MemoryRegion(addr: nat, length: nat, lkey: nat)

  /** include/rdma_messenger/Chunk.h: a slice of a registered region. */
  datatype Chunk = Chunk(mr: MemoryRegion, chkBuf: nat, chkSize: nat)

  /** A work-request id: either a chunk pointer or a bare sentinel number. */
  datatype WrId = Sentinel(value: nat) | ChunkRef(ck: Chunk)

  datatype Sge = Sge(addr: nat, length: nat, lkey: nat)

  /** A signalled IBV_WR_SEND with one scatter-gather entry. */
  datatype SendWr = SendWr(wrId: WrId, sge: Sge)

  /** With SUPPORT_SRQ receives go to the shared receive queue, else to the QP. */
  datatype RecvQueue = SharedQueue | OwnQueue

  datatype RecvPost = RecvPost(queue: RecvQueue, wrId: WrId, sge: Sge)

  /** connection_state of include/rdma_messenger/RDMAConnection.h. */
  datatype ConnectionState = INACTIVE | ACTIVE | CLOSE

  /** The assert() of the send paths that stops the program. */
  datatype Fault = NoFreeChunk | Oversized

  datatype SendOutcome = Posted | Abort(fault: Fault)

  /** A callback object handed in by the application. */
  type CallbackId = nat

  // ---------------------------------------------------------------------
  // Memory

  /** The bytes the CPU has written, by address. */
  type Memory = map<nat, Byte>

  /** memcpy(at, src, |src|) on the memory map, one byte at a time. */
  function Memcpy(mem: Memory, at: nat, src: seq<Byte>): Memory
    decreases |src|
  {
    if src == [] then mem else Memcpy(mem[at := src[0]], at + 1, src[1..])
  }

  /**
   * What memcpy(at, src, |src|) leaves in `r` when applied to `mem`: the
   * |src| addresses from `at` on hold the bytes of `src` in order, every
   * other address keeps its byte, and no other address becomes defined.
   */
  ghost predicate CopiedInto(r: Memory, mem: Memory, at: nat, src: seq<Byte>)
  {
    (forall a :: a in r <==> a in mem || at <= a < at + |src|) &&
    (forall a :: at <= a < at + |src| ==> a in r && r[a] == src[a - at]) &&
    (forall a :: a in mem && !(at <= a < at + |src|) ==> a in r && r[a] == mem[a])
  }

  /** The byte-at-a-time Memcpy does what memcpy is documented to do. */
  lemma {:induction false} MemcpySpec(mem: Memory, at: nat, src: seq<Byte>)
    ensures CopiedInto(Memcpy(mem, at, src), mem, at, src)
    decreases |src|
  {
    if src != [] {
      var first := mem[at := src[0]];
      var rest := src[1..];
      var r := Memcpy(first, at + 1, rest);
      assert Memcpy(mem, at, src) == r;
      MemcpySpec(first, at + 1, rest);
      forall a | at <= a < at + |src|
        ensures a in r && r[a] == src[a - at]
      {
        if a == at {
          assert at in first;
        } else {
          assert rest[a - (at + 1)] == src[a - at];
        }
      }
    }
  }

  /** The memory holds `bytes` starting at `at`. */
  ghost predicate Holds(mem: Memory, at: nat, bytes: seq<Byte>)
  {
    forall a :: at <= a < at + |bytes| ==> a in mem && mem[a] == bytes[a - at]
  }

  // ---------------------------------------------------------------------
  // Chunk geometry

  /** The k-th chunk construct_chunks cuts from a region starting at `buf`. */
  function ChunkAt(mr: MemoryRegion, buf: nat, k: nat): Chunk
  {
    Chunk(mr, buf + k * SGE_MSG_SIZE, SGE_MSG_SIZE)
  }

  /** Address `a` lies inside the SGE_MSG_SIZE bytes of chunk `ck`. */
  predicate InChunk(ck: Chunk, a: nat)
  {
    ck.chkBuf <= a < ck.chkBuf + SGE_MSG_SIZE
  }

  /**
   * How many chunks the loop of construct_chunks creates for a region of
   * `bufLen` bytes: the least count whose chunks reach the end of the region.
   */
  function ChunkCount(bufLen: nat): (n: nat)
    ensures n * SGE_MSG_SIZE >= bufLen
    ensures n == 0 || (n - 1) * SGE_MSG_SIZE < bufLen
  {
    (bufLen + SGE_MSG_SIZE - 1) / SGE_MSG_SIZE
  }

  /** Consecutive chunks are adjacent: chunk k+1 starts where chunk k ends. */
  lemma ChunksContiguous(mr: MemoryRegion, buf: nat, k: nat)
    ensures ChunkAt(mr, buf, k + 1).chkBuf == ChunkAt(mr, buf, k).chkBuf + ChunkAt(mr, buf, k).chkSize
  {
  }

  /**
   * The chunks of a region whose length is a whole number of chunks tile
   * it: every address of the region lies in exactly one of them, namely the
   * one its offset divided by SGE_MSG_SIZE names, and no chunk reaches
   * outside the region.
   */
  lemma {:induction false} ChunksTileRegion(mr: MemoryRegion, buf: nat, bufLen: nat, a: nat)
    requires bufLen % SGE_MSG_SIZE == 0
    requires buf <= a < buf + bufLen
    ensures (a - buf) / SGE_MSG_SIZE < ChunkCount(bufLen)
    ensures InChunk(ChunkAt(mr, buf, (a - buf) / SGE_MSG_SIZE), a)
    ensures forall k: nat :: k < ChunkCount(bufLen) && InChunk(ChunkAt(mr, buf, k), a) ==> k == (a - buf) / SGE_MSG_SIZE
  {
    var q := (a - buf) / SGE_MSG_SIZE;
    var r := (a - buf) % SGE_MSG_SIZE;
    assert a - buf == q * SGE_MSG_SIZE + r;
    var n := ChunkCount(bufLen);
    assert bufLen == (bufLen / SGE_MSG_SIZE) * SGE_MSG_SIZE;
    assert n == bufLen / SGE_MSG_SIZE;
  }

  /** The last chunk ends exactly at the region's end when the length is a multiple. */
  lemma ChunksCoverRegion(mr: MemoryRegion, buf: nat, bufLen: nat)
    requires bufLen % SGE_MSG_SIZE == 0
    ensures ChunkCount(bufLen) * SGE_MSG_SIZE == bufLen
  {
  }

  /**
   * construct_chunks: walks the region in steps of SGE_MSG_SIZE with a
   * 32-bit offset, storing chunk k at chunks[k].  The region must leave
   * room for the final step without the offset wrapping.
   */
  method ConstructChunks(chunks: array<Chunk>, buf: nat, bufLen: nat, mr: MemoryRegion)
    requires bufLen + SGE_MSG_SIZE <= UINT32_LIMIT
    requires ChunkCount(bufLen) <= chunks.Length
    modifies chunks
    ensures forall k :: 0 <= k < chunks.Length ==>
              chunks[k] == if k < ChunkCount(bufLen) then ChunkAt(mr, buf, k) else old(chunks[k])
  {
    var ckId: nat := 0;
    var offset: nat := 0;
    while offset < bufLen
      invariant offset == ckId * SGE_MSG_SIZE && offset < UINT32_LIMIT
      invariant ckId == 0 || (ckId - 1) * SGE_MSG_SIZE < bufLen
      invariant ckId <= ChunkCount(bufLen)
      invariant forall k :: 0 <= k < chunks.Length ==>
                  chunks[k] == if k < ckId then ChunkAt(mr, buf, k) else old(chunks[k])
      decreases bufLen - offset
    {
      chunks[ckId] := Chunk(mr, buf + offset, SGE_MSG_SIZE);
      ckId := ckId + 1;
      offset := offset + SGE_MSG_SIZE;
    }
  }

  // ---------------------------------------------------------------------
  // Free-chunk list

  /** reap_chunk on the list: push the chunk at the back. */
  function Push(free: seq<Chunk>, ck: Chunk): (r: seq<Chunk>)
    ensures |r| == |free| + 1 && r[|free|] == ck
    ensures forall i :: 0 <= i < |free| ==> r[i] == free[i]
  {
    free + [ck]
  }

  /** get_chunk on a non-empty list: the last chunk and the list without it. */
  function Pop(free: seq<Chunk>): (r: (Chunk, seq<Chunk>))
    requires free != []
    ensures r.0 == free[|free| - 1] && free == r.1 + [r.0]
  {
    (free[|free| - 1], free[..|free| - 1])
  }

  /** LIFO: getting right after reaping returns the reaped chunk and restores the list. */
  lemma PopAfterPush(free: seq<Chunk>, ck: Chunk)
    ensures Pop(Push(free, ck)) == (ck, free)
  {
    assert Push(free, ck)[..|free|] == free;
  }

  /**
   * The chunks `n` consecutive get_chunk calls hand out, in the order they
   * are handed out: the last chunk of the list first.
   */
  function Taken(free: seq<Chunk>, n: nat): (r: seq<Chunk>)
    requires n <= |free|
    ensures |r| == n
    ensures forall i :: 0 <= i < n ==> r[i] == free[|free| - 1 - i]
  {
    if n == 0 then [] else Taken(free, n - 1) + [free[|free| - n]]
  }

  /** The send work request of post_send: `ck` with its first chkSize bytes as the payload. */
  function SendOf(ck: Chunk): SendWr
  {
    SendWr(ChunkRef(ck), Sge(ck.chkBuf, ck.chkSize, ck.mr.lkey))
  }

  /** The receive work request that reposts `ck` for a full SGE_MSG_SIZE message. */
  function RecvOf(ck: Chunk): RecvPost
  {
    RecvPost(if SUPPORT_SRQ then SharedQueue else OwnQueue, ChunkRef(ck), Sge(ck.chkBuf, SGE_MSG_SIZE, ck.mr.lkey))
  }

  /** The memory after copying msgs[i] into cks[i] for each i in turn. */
  function CopyAll(mem: Memory, cks: seq<Chunk>, msgs: seq<seq<Byte>>): Memory
    requires |cks| == |msgs|
  {
    if cks == [] then mem
    else Memcpy(CopyAll(mem, cks[..|cks| - 1], msgs[..|msgs| - 1]), cks[|cks| - 1].chkBuf, msgs[|msgs| - 1])
  }

  /** The byte ranges two chunks receive do not overlap. */
  predicate Apart(c: Chunk, m: nat, d: Chunk, n: nat)
  {
    c.chkBuf + m <= d.chkBuf || d.chkBuf + n <= c.chkBuf
  }

  /**
   * When the payloads land in pairwise non-overlapping ranges, after the
   * copies every chunk holds its own payload.
   */
  lemma {:induction false} CopyAllHolds(mem: Memory, cks: seq<Chunk>, msgs: seq<seq<Byte>>)
    requires |cks| == |msgs|
    requires forall i, j :: 0 <= i < j < |cks| ==> Apart(cks[i], |msgs[i]|, cks[j], |msgs[j]|)
    ensures forall i :: 0 <= i < |cks| ==> Holds(CopyAll(mem, cks, msgs), cks[i].chkBuf, msgs[i])
  {
    if cks != [] {
      var n := |cks| - 1;
      var before := CopyAll(mem, cks[..n], msgs[..n]);
      var after := CopyAll(mem, cks, msgs);
      assert after == Memcpy(before, cks[n].chkBuf, msgs[n]);
      MemcpySpec(before, cks[n].chkBuf, msgs[n]);
      CopyAllHolds(mem, cks[..n], msgs[..n]);
      forall i | 0 <= i < |cks|
        ensures Holds(after, cks[i].chkBuf, msgs[i])
      {
        if i < n {
          assert cks[..n][i] == cks[i] && msgs[..n][i] == msgs[i];
          assert Holds(before, cks[i].chkBuf, msgs[i]);
          assert Apart(cks[i], |msgs[i]|, cks[n], |msgs[n]|);
        }
      }
    }
  }

  /**
   * What post_send_iov ends with when it reaches element `i` of `msgs`
   * with `free` chunks left in the list: each element is first checked
   * against SGE_MSG_SIZE, then a chunk is taken for it.
   */
  function IovOutcome(msgs: seq<seq<Byte>>, i: nat, free: nat): SendOutcome
    requires i <= |msgs|
    decreases |msgs| - i
  {
    if i == |msgs| then Posted
    else if |msgs[i]| > SGE_MSG_SIZE then Abort(Oversized)
    else if free == 0 then Abort(NoFreeChunk)
    else IovOutcome(msgs, i + 1, free - 1)
  }

  /** The index of the first element at or after `i` too large for a chunk, or |msgs|. */
  function FirstOversized(msgs: seq<seq<Byte>>, i: nat): (f: nat)
    requires i <= |msgs|
    ensures i <= f <= |msgs|
    ensures forall l :: i <= l < f ==> |msgs[l]| <= SGE_MSG_SIZE
    ensures f < |msgs| ==> |msgs[f]| > SGE_MSG_SIZE
    decreases |msgs| - i
  {
    if i == |msgs| || |msgs[i]| > SGE_MSG_SIZE then i else FirstOversized(msgs, i + 1)
  }

  /**
   * Once the first `i` elements have each fitted and been given a chunk,
   * the outcome is decided by the rest of the elements and the chunks left.
   */
  lemma {:induction false} IovOutcomeAfter(msgs: seq<seq<Byte>>, i: nat, free: nat)
    requires i <= |msgs| && i <= free
    requires forall j :: 0 <= j < i ==> |msgs[j]| <= SGE_MSG_SIZE
    ensures IovOutcome(msgs, 0, free) == IovOutcome(msgs, i, free - i)
  {
    if i > 0 {
      IovOutcomeAfter(msgs, i - 1, free);
    }
  }

  /**
   * The outcome of post_send_iov in closed form: it posts exactly when no
   * element is oversized and the list holds a chunk for each; an oversized
   * element aborts it only if the list still held a chunk for every element
   * before it; otherwise the list runs dry first.
   */
  lemma {:induction false} IovOutcomeClosedForm(msgs: seq<seq<Byte>>, i: nat, free: nat)
    requires i <= |msgs|
    ensures IovOutcome(msgs, i, free) ==
              if FirstOversized(msgs, i) - i > free then Abort(NoFreeChunk)
              else if FirstOversized(msgs, i) == |msgs| then Posted
              else Abort(Oversized)
    decreases |msgs| - i
  {
    if i < |msgs| && |msgs[i]| <= SGE_MSG_SIZE && free > 0 {
      IovOutcomeClosedForm(msgs, i + 1, free - 1);
    }
  }

  // ---------------------------------------------------------------------
  // The connection

  class Connection {
    const conId: nat
    /** The queue pair's number and the completion queue it reports to. */
    const qpNum: nat
    const cq: nat
    const recvBuf: nat
    const sendBuf: nat
    const recvBufLen: nat
    const sendBufLen: nat
    const recvMr: MemoryRegion
    const sendMr: MemoryRegion
    /** The receive and send chunk tables, one entry per work queue element. */
    const recvChunk: array<Chunk>
    const sendChunk: array<Chunk>
    /** con_buf: the staging byte buffer behind write_buffer/read_buffer. */
    const conBuf: RingBuffer.Buffer
    var state: ConnectionState
    var readCallback: Option<CallbackId>
    /** free_chunks: the pool get_chunk pops from the back of and reap_chunk pushes onto. */
    var freeChunks: seq<Chunk>
    var memory: Memory
    var sendPosts: seq<seq<SendWr>>
    var recvPosts: seq<RecvPost>
    /** Successful reap_chunk and get_chunk calls so far. */
    ghost var reaps: nat
    ghost var gets: nat

    /**
     * Each region is its work-queue depth times SGE_MSG_SIZE bytes and is
     * registered whole, and the chunk tables hold the region's chunks in
     * order.  Only constants and the two tables are involved, so nothing
     * after the constructor can disturb it.
     */
    ghost predicate Layout()
      reads recvChunk, sendChunk
    {
      recvBufLen == RECV_WQE_PER_QP * SGE_MSG_SIZE &&
      sendBufLen == SEND_WQE_PER_QP * SGE_MSG_SIZE &&
      recvMr.addr == recvBuf && recvMr.length == recvBufLen &&
      sendMr.addr == sendBuf && sendMr.length == sendBufLen &&
      recvChunk.Length == RECV_WQE_PER_QP && sendChunk.Length == SEND_WQE_PER_QP &&
      (forall k :: 0 <= k < RECV_WQE_PER_QP ==> recvChunk[k] == ChunkAt(recvMr, recvBuf, k)) &&
      (forall k :: 0 <= k < SEND_WQE_PER_QP ==> sendChunk[k] == ChunkAt(sendMr, sendBuf, k))
    }

    /** The free list holds one chunk per reap not yet matched by a get. */
    ghost predicate PoolValid()
      reads this`freeChunks, this`gets, this`reaps
    {
      |freeChunks| + gets == reaps
    }

    /** The staging buffer is a well-formed default-size ring buffer. */
    ghost predicate BufferValid()
      reads conBuf, conBuf.buf
    {
      conBuf.Valid() && conBuf.maxLen == RingBuffer.DEFAULT_BUF_LEN
    }

    /** The whole connection invariant. */
    ghost predicate Valid()
      reads this`freeChunks, this`gets, this`reaps, recvChunk, sendChunk, conBuf, conBuf.buf
    {
      Layout() && PoolValid() && BufferValid()
    }

    /**
     * The constructor: sizes and registers both regions, cuts them into
     * chunks, leaves the free list empty, and ends ACTIVE.  The region
     * addresses and memory keys come from memalign and ibv_reg_mr.
     */
    constructor (id: nat, qp: nat, cqId: nat, recvAddr: nat, sendAddr: nat, recvLkey: nat, sendLkey: nat)
      ensures Valid()
      ensures conId == id && qpNum == qp && cq == cqId && recvBuf == recvAddr && sendBuf == sendAddr
      ensures recvMr.lkey == recvLkey && sendMr.lkey == sendLkey
      ensures state == ACTIVE && readCallback == None
      ensures freeChunks == [] && gets == 0 && reaps == 0
      ensures memory == map[] && sendPosts == [] && recvPosts == []
      ensures conBuf.contents == []
    {
      conId := id;
      qpNum := qp;
      cq := cqId;
      recvBufLen := RECV_WQE_PER_QP * SGE_MSG_SIZE;
      sendBufLen := SEND_WQE_PER_QP * SGE_MSG_SIZE;
      recvBuf := recvAddr;
      sendBuf := sendAddr;
      recvMr := MemoryRegion(recvAddr, RECV_WQE_PER_QP * SGE_MSG_SIZE, recvLkey);
      sendMr := MemoryRegion(sendAddr, SEND_WQE_PER_QP * SGE_MSG_SIZE, sendLkey);
      recvChunk := new Chunk[RECV_WQE_PER_QP];
      sendChunk := new Chunk[SEND_WQE_PER_QP];
      conBuf := new RingBuffer.Buffer(RingBuffer.DEFAULT_BUF_LEN);
      state := INACTIVE;
      readCallback := None;
      freeChunks := [];
      memory := map[];
      sendPosts, recvPosts := [], [];
      reaps, gets := 0, 0;
      new;
      assert ChunkCount(recvBufLen) == RECV_WQE_PER_QP && ChunkCount(sendBufLen) == SEND_WQE_PER_QP;
      ConstructChunks(recvChunk, recvBuf, recvBufLen, recvMr);
      ConstructChunks(sendChunk, sendBuf, sendBufLen, sendMr);
      state := ACTIVE;
    }

    /** is_recv_buffer: the address lies in the receive region. */
    predicate IsRecvBuffer(b: nat)
    {
      b >= recvBuf && b <= recvBuf + recvBufLen - 1
    }

    /** is_send_buffer: the address lies in the send region. */
    predicate IsSendBuffer(b: nat)
    {
      b >= sendBuf && b <= sendBuf + sendBufLen - 1
    }

    /**
     * Every byte of every table chunk passes the membership test of its own
     * region, and an address passes a test exactly when some chunk of that
     * region contains it.
     */
    lemma {:induction false} ChunksInOwnRegion(a: nat)
      requires Layout()
      ensures forall k :: 0 <= k < RECV_WQE_PER_QP && InChunk(recvChunk[k], a) ==> IsRecvBuffer(a)
      ensures forall k :: 0 <= k < SEND_WQE_PER_QP && InChunk(sendChunk[k], a) ==> IsSendBuffer(a)
      ensures IsRecvBuffer(a) <==> exists k :: 0 <= k < RECV_WQE_PER_QP && InChunk(recvChunk[k], a)
      ensures IsSendBuffer(a) <==> exists k :: 0 <= k < SEND_WQE_PER_QP && InChunk(sendChunk[k], a)
    {
      if IsRecvBuffer(a) {
        ChunksTileRegion(recvMr, recvBuf, recvBufLen, a);
        var k := (a - recvBuf) / SGE_MSG_SIZE;
        assert InChunk(recvChunk[k], a);
      }
      if IsSendBuffer(a) {
        ChunksTileRegion(sendMr, sendBuf, sendBufLen, a);
        var k := (a - sendBuf) / SGE_MSG_SIZE;
        assert InChunk(sendChunk[k], a);
      }
    }

    /** get_chunk: pops the last free chunk into `ck`, or leaves `ck` as it was. */
    method GetChunk(ck: Option<Chunk>) returns (out: Option<Chunk>)
      requires PoolValid()
      modifies this`freeChunks, this`gets
      ensures PoolValid()
      ensures old(freeChunks) == [] ==> out == ck && freeChunks == [] && gets == old(gets)
      ensures old(freeChunks) != [] ==>
                out == Some(Pop(old(freeChunks)).0) && freeChunks == Pop(old(freeChunks)).1 &&
                gets == old(gets) + 1
    {
      if |freeChunks| == 0 {
        return ck;
      }
      out := Some(freeChunks[|freeChunks| - 1]);
      freeChunks := freeChunks[..|freeChunks| - 1];
      gets := gets + 1;
    }

    /** reap_chunk: returns a chunk to the back of the free list. */
    method ReapChunk(ck: Chunk)
      modifies this`freeChunks, this`reaps
      ensures freeChunks == Push(old(freeChunks), ck) && reaps == old(reaps) + 1
    {
      freeChunks := freeChunks + [ck];
      reaps := reaps + 1;
    }

    /**
     * post_send: takes a chunk (asserting there was one), asserts the
     * payload fits, copies it to the chunk, records its size, and posts one
     * send whose scatter entry covers exactly the payload.
     */
    method PostSend(payload: seq<Byte>) returns (outcome: SendOutcome)
      requires PoolValid() && |payload| < UINT32_LIMIT
      modifies this`freeChunks, this`gets, this`memory, this`sendPosts
      ensures PoolValid()
      ensures old(freeChunks) == [] ==>
                outcome == Abort(NoFreeChunk) && freeChunks == [] &&
                memory == old(memory) && sendPosts == old(sendPosts)
      ensures old(freeChunks) != [] ==>
                var ck := Pop(old(freeChunks)).0;
                freeChunks == Pop(old(freeChunks)).1 &&
                if |payload| > SGE_MSG_SIZE then
                  outcome == Abort(Oversized) && memory == old(memory) && sendPosts == old(sendPosts)
                else
                  outcome == Posted &&
                  memory == Memcpy(old(memory), ck.chkBuf, payload) &&
                  sendPosts == old(sendPosts) + [[SendOf(ck.(chkSize := |payload|))]]
      ensures outcome == Posted ==>
                |sendPosts| > 0 && |sendPosts[|sendPosts| - 1]| == 1 &&
                var wr := sendPosts[|sendPosts| - 1][0];
                wr.sge.length == |payload| && wr.wrId.ChunkRef? &&
                wr.wrId.ck.chkSize == |payload| && wr.sge.addr == wr.wrId.ck.chkBuf &&
                Holds(memory, wr.sge.addr, payload)
    {
      var got := GetChunk(None);
      if got.None? {
        return Abort(NoFreeChunk);
      }
      if |payload| > SGE_MSG_SIZE {
        return Abort(Oversized);
      }
      var ck := got.value;
      MemcpySpec(memory, ck.chkBuf, payload);
      memory := Memcpy(memory, ck.chkBuf, payload);
      ck := ck.(chkSize := |payload|);
      sendPosts := sendPosts + [[SendOf(ck)]];
      outcome := Posted;
    }

    /**
     * One element of post_send_iov once its size is checked: takes a chunk
     * and, when there was one, copies the element into it.
     */
    method TakeAndFill(msg: seq<Byte>) returns (got: Option<Chunk>)
      requires PoolValid()
      modifies this`freeChunks, this`gets, this`memory
      ensures PoolValid()
      ensures old(freeChunks) == [] ==> got == None && freeChunks == [] && memory == old(memory)
      ensures old(freeChunks) != [] ==>
                got == Some(old(freeChunks)[|old(freeChunks)| - 1]) &&
                freeChunks == old(freeChunks)[..|old(freeChunks)| - 1] &&
                memory == Memcpy(old(memory), got.value.chkBuf, msg)
    {
      got := GetChunk(None);
      if got.Some? {
        memory := Memcpy(memory, got.value.chkBuf, msg);
      }
    }

    /**
     * post_send_iov: for each element in turn asserts it fits a chunk,
     * takes a chunk (asserting there was one), copies the element in and
     * links a send for it after the previous one; the whole chain goes out
     * in one post.  The outcome is IovOutcome's, and on success the i-th
     * work request of the chain carries the i-th element in the i-th chunk
     * the list handed out.
     */
    method PostSendIov(msgs: seq<seq<Byte>>) returns (outcome: SendOutcome)
      requires PoolValid()
      requires forall i :: 0 <= i < |msgs| ==> |msgs[i]| < UINT32_LIMIT
      modifies this`freeChunks, this`gets, this`memory, this`sendPosts
      ensures PoolValid()
      ensures outcome == IovOutcome(msgs, 0, |old(freeChunks)|)
      ensures outcome != Posted ==>
                sendPosts == old(sendPosts) &&
                |freeChunks| <= |old(freeChunks)| && freeChunks == old(freeChunks)[..|freeChunks|]
      ensures outcome == Posted ==>
                IovPosted(old(freeChunks), old(memory), old(sendPosts), msgs, freeChunks, memory, sendPosts)
    {
      ghost var free0 := freeChunks;
      ghost var mem0 := memory;
      var chain: seq<SendWr> := [];
      var base := 0;
      while base < |msgs|
        invariant |freeChunks| + gets == reaps
        invariant base <= FirstOversized(msgs, 0)
        invariant sendPosts == old(sendPosts)
        invariant Staged(free0, mem0, msgs, base, freeChunks, memory, chain)
      {
        if |msgs[base]| > SGE_MSG_SIZE {
          IovOutcomeAfter(msgs, base, |free0|);
          StagedPrefix(free0, mem0, msgs, base, freeChunks, memory, chain);
          return Abort(Oversized);
        }
        ghost var free, mem := freeChunks, memory;
        var got := TakeAndFill(msgs[base]);
        if got.None? {
          IovOutcomeAfter(msgs, base, |free0|);
          StagedPrefix(free0, mem0, msgs, base, freeChunks, memory, chain);
          return Abort(NoFreeChunk);
        }
        StagedStep(free0, mem0, msgs, base, free, mem, chain);
        chain := chain + [SendOf(got.value.(chkSize := |msgs[base]|))];
        base := base + 1;
      }
      sendPosts := sendPosts + [chain];
      StagedAll(free0, mem0, old(sendPosts), msgs, freeChunks, memory, chain);
      IovOutcomeAfter(msgs, base, |free0|);
      outcome := Posted;
    }

    /**
     * finish: takes a chunk (asserting there was one) and posts a
     * zero-length send whose work-request id is the FIN_WRID sentinel
     * rather than the chunk, so the chunk never returns to the list.
     */
    method Finish() returns (outcome: SendOutcome)
      requires PoolValid()
      modifies this`freeChunks, this`gets, this`sendPosts
      ensures PoolValid()
      ensures old(freeChunks) == [] ==>
                outcome == Abort(NoFreeChunk) && freeChunks == [] && sendPosts == old(sendPosts)
      ensures old(freeChunks) != [] ==>
                var ck := Pop(old(freeChunks)).0;
                outcome == Posted && freeChunks == Pop(old(freeChunks)).1 &&
                sendPosts == old(sendPosts) + [[SendWr(Sentinel(FIN_WRID), Sge(ck.chkBuf, 0, ck.mr.lkey))]]
    {
      var got := GetChunk(None);
      if got.None? {
        return Abort(NoFreeChunk);
      }
      var ck := got.value;
      sendPosts := sendPosts + [[SendWr(Sentinel(FIN_WRID), Sge(ck.chkBuf, 0, ck.mr.lkey))]];
      outcome := Posted;
    }

    /**
     * post_recv_buffers: posts a receive for every chunk of the receive
     * table in table order, each for a full SGE_MSG_SIZE message with the
     * chunk as its work-request id.
     */
    method PostRecvBuffers()
      requires Layout()
      modifies this`recvPosts
      ensures |recvPosts| == |old(recvPosts)| + RECV_WQE_PER_QP
      ensures recvPosts[..|old(recvPosts)|] == old(recvPosts)
      ensures forall k :: 0 <= k < RECV_WQE_PER_QP ==>
                recvPosts[|old(recvPosts)| + k] == RecvOf(ChunkAt(recvMr, recvBuf, k))
    {
      var ckId := 0;
      while ckId < RECV_WQE_PER_QP
        invariant ckId <= RECV_WQE_PER_QP
        invariant |recvPosts| == |old(recvPosts)| + ckId
        invariant recvPosts[..|old(recvPosts)|] == old(recvPosts)
        invariant forall k :: 0 <= k < ckId ==>
                    recvPosts[|old(recvPosts)| + k] == RecvOf(ChunkAt(recvMr, recvBuf, k))
      {
        recvPosts := recvPosts + [RecvOf(recvChunk[ckId])];
        ckId := ckId + 1;
      }
    }

    /** post_recv_buffer: reposts one chunk for a full SGE_MSG_SIZE message. */
    method PostRecvBuffer(ck: Chunk)
      modifies this`recvPosts
      ensures recvPosts == old(recvPosts) + [RecvOf(ck)]
    {
      recvPosts := recvPosts + [RecvOf(ck)];
    }

    /**
     * write_buffer: stages the bytes in con_buf and reports either all of
     * them or none: the full size whenever the buffer accepted at least one
     * byte, even if it accepted fewer than were offered.
     */
    method WriteBuffer(rawMsg: seq<Byte>) returns (r: nat)
      requires BufferValid() && |rawMsg| < UINT32_LIMIT
      modifies conBuf`writeable, conBuf`newRound, conBuf`contents, conBuf.buf
      ensures BufferValid()
      ensures var accepted := Min(|rawMsg|, conBuf.maxLen - old(conBuf.Stored()));
              conBuf.contents == old(conBuf.contents) + rawMsg[..accepted] &&
              r == if accepted > 0 then |rawMsg| else 0
    {
      var n, _ := conBuf.WriteBuf(rawMsg);
      r := if n > 0 then |rawMsg| else 0;
    }

    /**
     * read_buffer: drains up to `rawMsgSize` staged bytes into `rawMsg` and
     * reports the full size whenever at least one byte came out.
     */
    method ReadBuffer(rawMsg: array<Byte>, rawMsgSize: nat) returns (r: nat)
      requires BufferValid() && rawMsgSize <= rawMsg.Length && rawMsgSize < UINT32_LIMIT
      requires rawMsg != conBuf.buf
      modifies conBuf`readable, conBuf`newRound, conBuf`contents, rawMsg
      ensures BufferValid()
      ensures var delivered := Min(rawMsgSize, old(conBuf.Stored()));
              (forall i :: 0 <= i < rawMsg.Length ==>
                 rawMsg[i] == if i < delivered then old(conBuf.contents)[i] else old(rawMsg[i])) &&
              conBuf.contents == old(conBuf.contents)[delivered..] &&
              r == if delivered > 0 then rawMsgSize else 0
    {
      var n, _ := conBuf.ReadBuf(rawMsg, rawMsgSize);
      r := if n > 0 then rawMsgSize else 0;

    }

    /** set_read_callback. */
    method SetReadCallback(cb: CallbackId)
      modifies this`readCallback
      ensures readCallback == Some(cb)
    {
      readCallback := Some(cb);
    }
  }

  /**
   * The state post_send_iov leaves after posting `msgs`: one chunk taken
   * from the back of the list per element, each element copied into its
   * chunk in order, and one new post whose chain carries element i in the
   * i-th chunk taken, sized to that element.
   */
  ghost predicate IovPosted(free0: seq<Chunk>, mem0: Memory, posts0: seq<seq<SendWr>>, msgs: seq<seq<Byte>>,
                            free: seq<Chunk>, mem: Memory, posts: seq<seq<SendWr>>)
  {
    |msgs| <= |free0| &&
    free == free0[..|free0| - |msgs|] &&
    mem == CopyAll(mem0, Taken(free0, |msgs|), msgs) &&
    |posts| == |posts0| + 1 && posts[..|posts0|] == posts0 &&
    posts[|posts0|] == IovChain(free0, msgs, |msgs|)
  }

  /**
   * The chain post_send_iov links for the first `n` elements: element i in
   * the i-th chunk taken from the back of the list, sized to the element.
   */
  function IovChain(free: seq<Chunk>, msgs: seq<seq<Byte>>, n: nat): (chain: seq<SendWr>)
    requires n <= |free| && n <= |msgs|
    ensures |chain| == n
    ensures forall i :: 0 <= i < n ==> chain[i] == SendOf(free[|free| - 1 - i].(chkSize := |msgs[i]|))
  {
    if n == 0 then [] else IovChain(free, msgs, n - 1) + [SendOf(free[|free| - n].(chkSize := |msgs[n - 1]|))]
  }

  /**
   * What post_send_iov has done after staging the first `n` elements: `n`
   * chunks taken from the back of the list, each element copied into its
   * chunk, and the chain linked for them.
   */
  ghost predicate Staged(free0: seq<Chunk>, mem0: Memory, msgs: seq<seq<Byte>>, n: nat,
                         free: seq<Chunk>, mem: Memory, chain: seq<SendWr>)
  {
    n <= |msgs| && n <= |free0| &&
    free == free0[..|free0| - n] &&
    mem == CopyAll(mem0, Taken(free0, n), msgs[..n]) &&
    chain == IovChain(free0, msgs, n)
  }

  /** Staging one more element takes the last chunk of the list. */
  lemma StagedStep(free0: seq<Chunk>, mem0: Memory, msgs: seq<seq<Byte>>, n: nat,
                   free: seq<Chunk>, mem: Memory, chain: seq<SendWr>)
    requires Staged(free0, mem0, msgs, n, free, mem, chain)
    requires n < |msgs| && free != []
    ensures var ck := free[|free| - 1];
            Staged(free0, mem0, msgs, n + 1, free[..|free| - 1], Memcpy(mem, ck.chkBuf, msgs[n]),
                   chain + [SendOf(ck.(chkSize := |msgs[n]|))])
  {
    PrefixOfPrefix(free0, |free0| - n, |free0| - n - 1);
    CopyAllStep(mem0, free0, msgs, n);
  }

  /** Staging only ever shortens the list from the back. */
  lemma StagedPrefix(free0: seq<Chunk>, mem0: Memory, msgs: seq<seq<Byte>>, n: nat,
                     free: seq<Chunk>, mem: Memory, chain: seq<SendWr>)
    requires Staged(free0, mem0, msgs, n, free, mem, chain)
    ensures |free| <= |free0| && free == free0[..|free|]
  {
  }

  /** Once every element is staged, posting the chain is the state IovPosted describes. */
  lemma StagedAll(free0: seq<Chunk>, mem0: Memory, posts0: seq<seq<SendWr>>, msgs: seq<seq<Byte>>,
                  free: seq<Chunk>, mem: Memory, chain: seq<SendWr>)
    requires Staged(free0, mem0, msgs, |msgs|, free, mem, chain)
    ensures IovPosted(free0, mem0, posts0, msgs, free, mem, posts0 + [chain])
  {
    assert msgs[..|msgs|] == msgs;
    assert (posts0 + [chain])[..|posts0|] == posts0;
  }

  /** Cutting a prefix shorter. */
  lemma PrefixOfPrefix(s: seq<Chunk>, m: nat, n: nat)
    requires n <= m <= |s|
    ensures s[..m][..n] == s[..n]
  {
  }

  /** Copying one more element into the next chunk taken from the back. */
  lemma CopyAllStep(mem: Memory, free: seq<Chunk>, msgs: seq<seq<Byte>>, n: nat)
    requires n < |free| && n < |msgs|
    ensures CopyAll(mem, Taken(free, n + 1), msgs[..n + 1]) ==
              Memcpy(CopyAll(mem, Taken(free, n), msgs[..n]), free[|free| - 1 - n].chkBuf, msgs[n])
  {
    assert Taken(free, n + 1)[..n] == Taken(free, n);
    assert msgs[..n + 1][..n] == msgs[..n];
  }

  // ---------------------------------------------------------------------
  // Scenarios on a fresh connection

  /**
   * The constructor never seeds the free list, so the first send on a new
   * connection fails its chunk assertion.
   */
  method FreshConnectionCannotSend(payload: seq<Byte>) returns (outcome: SendOutcome)
    requires |payload| < UINT32_LIMIT
    ensures outcome == Abort(NoFreeChunk)
  {
    var c := new Connection(0, 0, 0, 0, RECV_WQE_PER_QP * SGE_MSG_SIZE, 1, 2);
    outcome := c.PostSend(payload);
  }

  /**
   * Once a send chunk has been reaped, a send uses exactly that chunk: the
   * posted request points at it with the payload's length and the chunk
   * holds the payload.
   */
  method SendAfterReap(sendAddr: nat, payload: seq<Byte>) returns (outcome: SendOutcome, wr: SendWr, mem: Memory)
    requires |payload| <= SGE_MSG_SIZE
    ensures outcome == Posted
    ensures var region := MemoryRegion(sendAddr, SEND_WQE_PER_QP * SGE_MSG_SIZE, 2);
            wr == SendWr(ChunkRef(Chunk(region, sendAddr, |payload|)), Sge(sendAddr, |payload|, 2))
    ensures Holds(mem, sendAddr, payload)
  {
    var c := new Connection(0, 0, 0, 0, sendAddr, 1, 2);
    c.ReapChunk(c.sendChunk[0]);
    outcome := c.PostSend(payload);
    wr := c.sendPosts[0][0];
    mem := c.memory;
  }

  /**
   * finish consumes the chunk it takes: after reaping one chunk and
   * finishing, the next send finds the list empty.
   */
  method FinishConsumesChunk(payload: seq<Byte>) returns (fin: SendOutcome, outcome: SendOutcome)
    requires |payload| < UINT32_LIMIT
    ensures fin == Posted && outcome == Abort(NoFreeChunk)
  {
    var c := new Connection(0, 0, 0, 0, RECV_WQE_PER_QP * SGE_MSG_SIZE, 1, 2);
    c.ReapChunk(c.sendChunk[0]);
    fin := c.Finish();
    outcome := c.PostSend(payload);
  }

  // ---------------------------------------------------------------------
  // Huge-page allocator header

  /** The user pointer malloc_huge_pages returns (None for nullptr) and the header words written. */
  datatype HugeAlloc = HugeAlloc(user: Option<nat>, headers: map<nat, nat>)

  /** What free_huge_pages does with the block it is given. */
  datatype Release = NoRelease | Munmap(addr: nat, length: nat) | Free(addr: nat) | HeaderNotAligned

  /** The size malloc_huge_pages asks for: one 2 MiB header page plus the request, rounded up. */
  function HugeRealSize(size: nat): nat
    requires size < UINT64_LIMIT
  {
    AlignToPage2MB((size + HUGE_PAGE_SIZE_2MB) % UINT64_LIMIT)
  }

  /**
   * malloc_huge_pages: maps the real size (falling back to malloc, whose
   * blocks are marked by a zero size), stores the size in the first word of
   * the block, and returns the address one 2 MiB page further on.  The
   * results of mmap and malloc are parameters.
   */
  function MallocHugePages(size: nat, mmapResult: Option<nat>, mallocResult: Option<nat>,
                           headers: map<nat, nat>): HugeAlloc
    requires size < UINT64_LIMIT
  {
    match mmapResult
    case Some(p) => HugeAlloc(Some(p + HUGE_PAGE_SIZE_2MB), headers[p := HugeRealSize(size)])
    case None =>
      match mallocResult
      case None => HugeAlloc(None, headers)
      case Some(p) => HugeAlloc(Some(p + HUGE_PAGE_SIZE_2MB), headers[p := 0])
  }

  /**
   * free_huge_pages: ignores nullptr, reads the size word one 2 MiB page
   * before the pointer, asserts it is page-aligned, and unmaps a non-zero
   * size or frees a malloc block.  The pointer must come from
   * malloc_huge_pages, so its header word exists.
   */
  function FreeHugePages(ptr: Option<nat>, headers: map<nat, nat>): Release
    requires ptr.Some? ==> ptr.value >= HUGE_PAGE_SIZE_2MB && ptr.value - HUGE_PAGE_SIZE_2MB in headers
  {
    match ptr
    case None => NoRelease
    case Some(p) =>
      var realSize := headers[p - HUGE_PAGE_SIZE_2MB];
      if realSize % HUGE_PAGE_SIZE_2MB != 0 then HeaderNotAligned
      else if realSize != 0 then Munmap(p - HUGE_PAGE_SIZE_2MB, realSize)
      else Free(p - HUGE_PAGE_SIZE_2MB)
  }

  /**
   * The header round trip: freeing what malloc_huge_pages returned unmaps
   * exactly the mapping it made (whole 2 MiB pages covering the header page
   * and the request), frees a malloc fallback block, and does nothing for
   * nullptr.  Holds whenever the size arithmetic does not wrap.
   */
  lemma HugePagesRoundTrip(size: nat, mmapResult: Option<nat>, mallocResult: Option<nat>, headers: map<nat, nat>)
    requires size + 2 * HUGE_PAGE_SIZE_2MB - 1 < UINT64_LIMIT
    ensures var a := MallocHugePages(size, mmapResult, mallocResult, headers);
            a.user.Some? ==> a.user.value >= HUGE_PAGE_SIZE_2MB && a.user.value - HUGE_PAGE_SIZE_2MB in a.headers
    ensures var a := MallocHugePages(size, mmapResult, mallocResult, headers);
            var realSize := HugeRealSize(size);
            mmapResult.Some? ==>
              a.user == Some(mmapResult.value + HUGE_PAGE_SIZE_2MB) &&
              FreeHugePages(a.user, a.headers) == Munmap(mmapResult.value, realSize) &&
              realSize % HUGE_PAGE_SIZE_2MB == 0 &&
              size + HUGE_PAGE_SIZE_2MB <= realSize < size + 2 * HUGE_PAGE_SIZE_2MB
    ensures var a := MallocHugePages(size, mmapResult, mallocResult, headers);
            mmapResult.None? && mallocResult.Some? ==>
              a.user == Some(mallocResult.value + HUGE_PAGE_SIZE_2MB) &&
              FreeHugePages(a.user, a.headers) == Free(mallocResult.value)
    ensures var a := MallocHugePages(size, mmapResult, mallocResult, headers);
            mmapResult.None? && mallocResult.None? ==>
              a.user == None && FreeHugePages(a.user, a.headers) == NoRelease
  {
    var x := size + HUGE_PAGE_SIZE_2MB;
    assert x % UINT64_LIMIT == x;
    AlignIsMultiple(x);
    AlignRoundsUp(x);
  }
}
