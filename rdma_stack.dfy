/*
 * The connection registry (RDMAConMgr) and the stack's event handling
 * (RDMAStack): which connection a completion belongs to, what each kind
 * of completion does to it, how the connection-manager event loop drives
 * the semaphore that connect waits on, and how connections are assigned
 * to the completion queues of the worker threads.
 *
 * Verbs and rdma_cm calls are results handed in as parameters (the queue
 * pair number, the completion queue and the registered regions a new
 * connection gets; whether rdma_resolve_route failed), threads are left
 * out, and the semaphore is a pair of post and wait counters.
 */
module RdmaStack {
  import opened Wrappers
  import opened RdmaConfig
  import opened RdmaConnection

  /** A completion queue handle. */
  type CqId = nat

  /** What the verbs layer hands a new connection: its queue pair number, a new CQ, and its two regions. */
  datatype Resources = Resources(qpNum: nat, freshCq: CqId, recvAddr: nat, sendAddr: nat, recvLkey: nat, sendLkey: nat)

  datatype Opcode = WcSend | WcRecv | WcOther(code: nat)

  /** One polled work completion: status 0 is success. */
  datatype WorkCompletion = WorkCompletion(status: nat, opcode: Opcode, qpNum: nat, wrId: WrId, byteLen: nat)

  /**
   * What handling one completion amounts to.  WildPointer: the handler
   * treats a sentinel work-request id as a chunk address and dereferences
   * it.  BadOpcode: the dispatch's assertion fails.
   */
  datatype Disposition = TornDown | Ignored | Delivered | Reclaimed | WildPointer | BadOpcode

  /** An application callback invoked by the stack. */
  datatype Upcall =
    | ReadUpcall(cb: CallbackId, con: Connection, ck: Chunk)
    | AcceptUpcall(cb: CallbackId, con: Connection)
    | ConnectUpcall(cb: CallbackId, con: Connection)

  // ---------------------------------------------------------------------
  // Completion verdicts

  /** handle_send's decision, given the connection registered under the completion's queue pair. */
  function SendVerdict(wrId: WrId, owner: Option<Connection>): Disposition
  {
    if wrId == Sentinel(0) then (if owner.Some? then TornDown else Ignored)
    else if owner.None? then Ignored
    else if wrId.Sentinel? then WildPointer
    else if owner.value.IsSendBuffer(wrId.ck.chkBuf) then Reclaimed
    else Ignored
  }

  /**
   * handle_recv's decision.  The chunk's size is written before the
   * connection is looked at, so a non-zero sentinel is dereferenced even
   * when no connection is registered.
   */
  function RecvVerdict(wrId: WrId, owner: Option<Connection>): Disposition
  {
    if wrId == Sentinel(0) then (if owner.Some? then TornDown else Ignored)
    else if wrId.Sentinel? then WildPointer
    else if owner.Some? && owner.value.IsRecvBuffer(wrId.ck.chkBuf) then Delivered
    else Ignored
  }

  /** The per-completion dispatch of cq_event_handler. */
  function Verdict(wc: WorkCompletion, owner: Option<Connection>): Disposition
  {
    if wc.status != 0 then (if owner.Some? then TornDown else Ignored)
    else match wc.opcode
      case WcSend => SendVerdict(wc.wrId, owner)
      case WcRecv => RecvVerdict(wc.wrId, owner)
      case WcOther(_) => BadOpcode
  }

  /** Whether handling the completion ends the process (a wild dereference or a failed assertion). */
  predicate Fatal(d: Disposition)
  {
    d == WildPointer || d == BadOpcode
  }

  /**
   * A connection is torn down exactly when it is registered and the
   * completion either failed or carries the zero work-request id.
   */
  lemma TeardownExactly(wc: WorkCompletion, owner: Option<Connection>)
    ensures Verdict(wc, owner) == TornDown <==>
              owner.Some? &&
              (wc.status != 0 || (!wc.opcode.WcOther? && wc.wrId == Sentinel(0)))
  {
  }

  /**
   * The handlers test for the zero work-request id only.  Any other
   * sentinel, such as the FIN_WRID that finish posts or BEACON_WRID, never
   * tears the connection down: handle_send dereferences it as a chunk when
   * the connection is registered, and handle_recv always does.
   */
  lemma SentinelCompletionsNeverTearDown(qp: nat, byteLen: nat, v: nat, owner: Option<Connection>)
    ensures FIN_WRID != 0 && BEACON_WRID != 0
    ensures v != 0 ==>
              Verdict(WorkCompletion(0, WcSend, qp, Sentinel(v), byteLen), owner) ==
                if owner.Some? then WildPointer else Ignored
    ensures v != 0 ==> Verdict(WorkCompletion(0, WcRecv, qp, Sentinel(v), byteLen), owner) == WildPointer
  {
  }

  /**
   * A registered connection's own chunks are always served: a successful
   * send completion for one of its send chunks is reclaimed and a receive
   * completion for one of its receive chunks is delivered.  When the two
   * regions do not overlap, a chunk of the other region is ignored.
   */
  lemma {:induction false} OwnChunksServed(con: Connection, k: nat, byteLen: nat)
    requires con.Layout() && k < SEND_WQE_PER_QP && k < RECV_WQE_PER_QP
    ensures Verdict(WorkCompletion(0, WcSend, con.qpNum, ChunkRef(con.sendChunk[k]), byteLen), Some(con)) == Reclaimed
    ensures Verdict(WorkCompletion(0, WcRecv, con.qpNum, ChunkRef(con.recvChunk[k]), byteLen), Some(con)) == Delivered
    ensures con.recvBuf + con.recvBufLen <= con.sendBuf || con.sendBuf + con.sendBufLen <= con.recvBuf ==>
              Verdict(WorkCompletion(0, WcSend, con.qpNum, ChunkRef(con.recvChunk[k]), byteLen), Some(con)) == Ignored &&
              Verdict(WorkCompletion(0, WcRecv, con.qpNum, ChunkRef(con.sendChunk[k]), byteLen), Some(con)) == Ignored
  {
    con.ChunksInOwnRegion(con.sendChunk[k].chkBuf);
    con.ChunksInOwnRegion(con.recvChunk[k].chkBuf);
  }

  // ---------------------------------------------------------------------
  // The registry

  class ConMgr {
    /** con_number: the id the next connection gets. */
    var conNumber: nat
    var qpConMap: map<nat, Connection>
    var conMap: map<nat, Connection>
    var cqMap: map<nat, CqId>
    /** The completion queue polled by each worker thread, in creation order. */
    var cqThreads: seq<CqId>

    /**
     * The maps hold only ids already handed out, a connection is filed
     * under its own id and queue pair number, and every registered id's CQ
     * is the one worker id % IO_WORKER_NUMS polls.  Worker ids are never
     * removed from cq_map.
     */
    ghost predicate Registry()
      reads this
    {
      |cqThreads| <= IO_WORKER_NUMS &&
      (forall id :: id in conMap ==>
         id < conNumber && conMap[id].conId == id && id in cqMap && conMap[id].cq == cqMap[id]) &&
      (forall id :: id in cqMap ==>
         id < conNumber && id % IO_WORKER_NUMS < |cqThreads| && cqMap[id] == cqThreads[id % IO_WORKER_NUMS]) &&
      (forall id: nat :: id < |cqThreads| && id < conNumber ==> id in cqMap) &&
      (forall qp :: qp in qpConMap ==> qpConMap[qp].qpNum == qp)
    }

    /** One worker per connection id below IO_WORKER_NUMS. */
    ghost predicate Valid()
      reads this
    {
      Registry() && |cqThreads| == Min(conNumber, IO_WORKER_NUMS)
    }

    constructor ()
      ensures Valid()
      ensures conNumber == 0 && qpConMap == map[] && conMap == map[] && cqMap == map[] && cqThreads == []
    {
      conNumber := 0;
      qpConMap, conMap, cqMap := map[], map[], map[];
      cqThreads := [];
    }

    /** get_connection: the connection registered under the queue pair, or none. */
    function GetConnection(qp: nat): (r: Option<Connection>)
      reads this
      ensures r.Some? <==> qp in qpConMap
      ensures Valid() && r.Some? ==> r.value.qpNum == qp
    {
      if qp in qpConMap then Some(qpConMap[qp]) else None
    }

    /** The registry's maps and counter, as a value. */
    function State(): RegistryState
      reads this
    {
      RegistryState(conNumber, conMap, cqMap, qpConMap)
    }

    /** The connections get_connection may hand out for `qp`. */
    function Owner(qp: nat): set<Connection>
      reads this
    {
      if qp in qpConMap then {qpConMap[qp]} else {}
    }

    /**
     * add: files the connection under its queue pair number (unless that
     * number is taken), and under the current con_number in con_map and,
     * with its CQ, in cq_map; then advances con_number.  The caller has
     * already started the worker for a dedicated CQ.
     */
    method Add(con: Connection)
      requires Registry()
      requires con.conId == conNumber && |cqThreads| == Min(conNumber + 1, IO_WORKER_NUMS)
      requires con.cq == cqThreads[conNumber % IO_WORKER_NUMS]
      modifies this
      ensures Valid()
      ensures conNumber == old(conNumber) + 1 && cqThreads == old(cqThreads)
      ensures conMap == old(conMap)[old(conNumber) := con]
      ensures cqMap == old(cqMap)[old(conNumber) := con.cq]
      ensures qpConMap == if con.qpNum in old(qpConMap) then old(qpConMap) else old(qpConMap)[con.qpNum := con]
    {
      if con.qpNum !in qpConMap {
        qpConMap := qpConMap[con.qpNum := con];
      }
      conMap := conMap[conNumber := con];
      cqMap := cqMap[conNumber := con.cq];
      conNumber := conNumber + 1;
    }

    /**
     * new_connection: ids below IO_WORKER_NUMS get a new CQ and a worker
     * polling it; later ids share worker id % IO_WORKER_NUMS's CQ, whose
     * cq_map entry is always present.  The connection is registered and
     * all its receive chunks are posted.
     */
    method NewConnection(res: Resources) returns (con: Connection)
      requires Valid()
      modifies this
      ensures Valid()
      ensures fresh(con) && con.Valid() && con.state == ACTIVE && con.freeChunks == []
      ensures Opened(con) && con.qpNum == res.qpNum
      ensures con.recvBuf == res.recvAddr && con.sendBuf == res.sendAddr
      ensures old(conNumber) < IO_WORKER_NUMS ==> con.cq == res.freshCq && cqThreads == old(cqThreads) + [res.freshCq]
      ensures old(conNumber) >= IO_WORKER_NUMS ==>
                con.cq == old(cqThreads)[old(conNumber) % IO_WORKER_NUMS] && cqThreads == old(cqThreads)
      ensures |con.recvPosts| == RECV_WQE_PER_QP
      ensures forall k :: 0 <= k < RECV_WQE_PER_QP ==> con.recvPosts[k] == RecvOf(ChunkAt(con.recvMr, con.recvBuf, k))
    {
      var conId := conNumber;
      var cq: CqId;
      if conId < IO_WORKER_NUMS {
        cq := res.freshCq;
        cqThreads := cqThreads + [cq];
      } else {
        cq := cqMap[conId % IO_WORKER_NUMS];
      }
      con := new Connection(conId, res.qpNum, cq, res.recvAddr, res.sendAddr, res.recvLkey, res.sendLkey);
      Add(con);
      con.PostRecvBuffers();
    }

    /**
     * The maps after new_connection filed `con`: it has the old con_number
     * as its id, is filed under that id in con_map and, with its CQ, in
     * cq_map, and under its queue pair number unless that number was
     * already taken; con_number has moved on by one.
     */
    twostate predicate Opened(new con: Connection)
      reads this
    {
      con.conId == old(conNumber) && conNumber == old(conNumber) + 1 &&
      conMap == old(conMap)[con.conId := con] &&
      cqMap == old(cqMap)[con.conId := con.cq] &&
      qpConMap == (if con.qpNum in old(qpConMap) then old(qpConMap) else old(qpConMap)[con.qpNum := con])
    }

    /** The maps after del(id, qp): cq_map keeps the entries of worker ids. */
    twostate predicate Deleted(id: nat, qp: nat)
      reads this
    {
      conMap == old(conMap) - {id} && qpConMap == old(qpConMap) - {qp} &&
      cqMap == (if id >= IO_WORKER_NUMS then old(cqMap) - {id} else old(cqMap)) &&
      conNumber == old(conNumber) && cqThreads == old(cqThreads)
    }

    /** del: forgets the id and the queue pair; the CQ entry only for a shared-CQ id. */
    method Del(id: nat, qp: nat)
      requires Valid()
      modifies this
      ensures Valid() && Deleted(id, qp)
      ensures GetConnection(qp) == None
    {
      conMap := conMap - {id};
      qpConMap := qpConMap - {qp};
      if id >= IO_WORKER_NUMS {
        cqMap := cqMap - {id};
      }
    }
  }

  /** A snapshot of the registry: con_number and the three maps. */
  datatype RegistryState = RegistryState(
    conNumber: nat, conMap: map<nat, Connection>, cqMap: map<nat, CqId>, qpConMap: map<nat, Connection>)

  /**
   * The registry has grown from s0 to s: every entry of s0 is kept, and
   * every id handed out since is filed in con_map with a queue pair number
   * that is registered.
   */
  ghost predicate Grown(s0: RegistryState, s: RegistryState)
  {
    s0.conNumber <= s.conNumber &&
    (forall id :: id in s0.conMap ==> id in s.conMap && s.conMap[id] == s0.conMap[id]) &&
    (forall id :: id in s0.cqMap ==> id in s.cqMap && s.cqMap[id] == s0.cqMap[id]) &&
    (forall qp :: qp in s0.qpConMap ==> qp in s.qpConMap && s.qpConMap[qp] == s0.qpConMap[qp]) &&
    (forall id :: s0.conNumber <= id < s.conNumber ==> id in s.conMap && s.conMap[id].qpNum in s.qpConMap)
  }

  /** Filing one more connection, as new_connection does, keeps the registry grown. */
  lemma GrownByFiling(s0: RegistryState, s1: RegistryState, s2: RegistryState, con: Connection)
    requires Grown(s0, s1)
    requires forall id :: id in s0.conMap ==> id < s0.conNumber
    requires forall id :: id in s0.cqMap ==> id < s0.conNumber
    requires s2.conNumber == s1.conNumber + 1
    requires s2.conMap == s1.conMap[s1.conNumber := con] && s2.cqMap == s1.cqMap[s1.conNumber := con.cq]
    requires s2.qpConMap == if con.qpNum in s1.qpConMap then s1.qpConMap else s1.qpConMap[con.qpNum := con]
    ensures Grown(s0, s2)
  {
  }

  /**
   * Opening connections one after another: ids run 0, 1, 2, ..., the
   * first IO_WORKER_NUMS connections each get the CQ created for them, and
   * every later connection shares the CQ of the connection whose id is its
   * own modulo IO_WORKER_NUMS.
   */
  method OpenConnections(res: seq<Resources>) returns (mgr: ConMgr)
    ensures mgr.Valid() && mgr.conNumber == |res|
    ensures forall id :: 0 <= id < |res| ==> id in mgr.conMap && mgr.conMap[id].conId == id
    ensures forall id :: 0 <= id < |res| ==>
              id in mgr.cqMap && mgr.cqMap[id] == res[id % IO_WORKER_NUMS].freshCq
  {
    mgr := new ConMgr();
    var i := 0;
    while i < |res|
      invariant mgr.Valid() && mgr.conNumber == i <= |res|
      invariant forall j :: 0 <= j < |mgr.cqThreads| ==> mgr.cqThreads[j] == res[j].freshCq
      invariant forall id :: 0 <= id < i ==> id in mgr.conMap
    {
      ghost var conMap0 := mgr.conMap;
      var con := mgr.NewConnection(res[i]);
      assert mgr.conMap == conMap0[i := con];
      i := i + 1;
    }
  }

  // ---------------------------------------------------------------------
  // Connection-manager events

  /**
   * The rdma_cm events the handler distinguishes.  AddrResolved carries
   * what rdma_resolve_route returned; ConnectRequest what the new
   * connection will be given.
   */
  datatype CmEvent =
    | AddrResolved(resolveRoute: int)
    | RouteResolved
    | ConnectRequest(res: Resources)
    | Established
    | AddrError | RouteError | ConnectError | Unreachable | Rejected
    | Disconnected
    | DeviceRemoval
    | Unknown(code: nat)

  /** How many times handling the event posts the semaphore. */
  function CmPosts(e: CmEvent): nat
  {
    match e
    case AddrResolved(rst) => if rst != 0 then 1 else 0
    case ConnectRequest(_) => 0
    case Unknown(_) => 0
    case _ => 1
  }

  /** Whether the handler returns after the event instead of acking it and going on. */
  predicate CmExits(e: CmEvent, isServer: bool)
  {
    e.Established? && !isServer
  }

  /** How many events of the sequence the handler processes: up to and including the first exit. */
  function CmHandled(events: seq<CmEvent>, isServer: bool): (n: nat)
    ensures n <= |events|
  {
    if |events| == 0 then 0
    else if CmExits(events[0], isServer) then 1
    else 1 + CmHandled(events[1..], isServer)
  }

  /**
   * The loop stops at the first event that makes it return: no event
   * before it does, and it is handled itself; events after it are not.
   */
  lemma {:induction false} CmHandledStops(events: seq<CmEvent>, isServer: bool)
    ensures var n := CmHandled(events, isServer);
            (forall i :: 0 <= i < n - 1 ==> !CmExits(events[i], isServer)) &&
            (n < |events| ==> n > 0 && CmExits(events[n - 1], isServer)) &&
            (n == |events| && n > 0 && !CmExits(events[n - 1], isServer) ==>
               forall i :: 0 <= i < n ==> !CmExits(events[i], isServer))
  {
    if |events| > 0 && !CmExits(events[0], isServer) {
      CmHandledStops(events[1..], isServer);
      var n := CmHandled(events, isServer);
      assert forall i :: 1 <= i < |events| ==> events[1..][i - 1] == events[i];
    }
  }

  /** Semaphore posts over a sequence of handled events. */
  function PostsOf(events: seq<CmEvent>): nat
  {
    if |events| == 0 then 0 else PostsOf(events[..|events| - 1]) + CmPosts(events[|events| - 1])
  }

  /** Connection requests in a sequence of handled events. */
  function RequestsOf(events: seq<CmEvent>): nat
  {
    if |events| == 0 then 0
    else RequestsOf(events[..|events| - 1]) + (if events[|events| - 1].ConnectRequest? then 1 else 0)
  }

  /**
   * Exactly the route, establishment, disconnection, error and
   * device-removal events post once; address resolution posts only when
   * resolving the route failed; requests and unknown events post nothing.
   */
  lemma CmPostsExactly(e: CmEvent)
    ensures CmPosts(e) <= 1
    ensures CmPosts(e) == 1 <==>
              (e.AddrResolved? && e.resolveRoute != 0) || e.RouteResolved? || e.Established? ||
              e.AddrError? || e.RouteError? || e.ConnectError? || e.Unreachable? || e.Rejected? ||
              e.Disconnected? || e.DeviceRemoval?
  {
  }

  /** A server never leaves the loop while events keep coming. */
  lemma {:induction false} ServerHandlesAll(events: seq<CmEvent>)
    ensures CmHandled(events, true) == |events|
  {
    if |events| > 0 {
      ServerHandlesAll(events[1..]);
    }
  }

  /** A client stops right after the first ESTABLISHED event. */
  lemma {:induction false} ClientStopsAtEstablished(events: seq<CmEvent>, i: nat)
    requires i < |events| && events[i].Established?
    requires forall j :: 0 <= j < i ==> !events[j].Established?
    ensures CmHandled(events, false) == i + 1
  {
    if i > 0 {
      assert events[1..][i - 1] == events[i];
      ClientStopsAtEstablished(events[1..], i - 1);
    }
  }

  /** Posts add up over concatenation. */
  lemma {:induction false} PostsOfAppend(a: seq<CmEvent>, b: seq<CmEvent>)
    ensures PostsOf(a + b) == PostsOf(a) + PostsOf(b)
    decreases |b|
  {
    if |b| == 0 {
      assert a + b == a;
    } else {
      assert (a + b)[..|a + b| - 1] == a + b[..|b| - 1];
      PostsOfAppend(a, b[..|b| - 1]);
    }
  }

  /**
   * What the polling loop leaves after a batch of completions: the
   * dispositions, in order, the queue-pair map, and the connections torn
   * down, in the order they were closed.
   */
  datatype Polled = Polled(ds: seq<Disposition>, qpConMap: map<nat, Connection>, torn: seq<Connection>)

  /** The connection filed under `qp` in the queue-pair map, or none. */
  function Lookup(m: map<nat, Connection>, qp: nat): Option<Connection>
  {
    if qp in m then Some(m[qp]) else None
  }

  /**
   * The per-completion loop of cq_event_handler on values: each completion
   * is judged against the connection its queue pair names at that moment,
   * a teardown removes the queue pair before the next completion, and the
   * loop ends after the first disposition that ends the process.
   */
  function Poll(m: map<nat, Connection>, wcs: seq<WorkCompletion>): (r: Polled)
    ensures |r.ds| <= |wcs|
    decreases |wcs|
  {
    if wcs == [] then Polled([], m, [])
    else
      var owner := Lookup(m, wcs[0].qpNum);
      var d := Verdict(wcs[0], owner);
      if Fatal(d) then Polled([d], m, [])
      else if d == TornDown && owner.Some? then
        var r := Poll(m - {wcs[0].qpNum}, wcs[1..]);
        Polled([d] + r.ds, r.qpConMap, [owner.value] + r.torn)
      else
        var r := Poll(m, wcs[1..]);
        Polled([d] + r.ds, r.qpConMap, r.torn)
  }

  /** The queue pairs of the completions among the handled ones that tore their connection down. */
  function TornQps(wcs: seq<WorkCompletion>, ds: seq<Disposition>): set<nat>
    requires |ds| <= |wcs|
  {
    if ds == [] then {} else (if ds[0] == TornDown then {wcs[0].qpNum} else {}) + TornQps(wcs[1..], ds[1..])
  }

  /**
   * The loop handles completions until the first that ends the process:
   * none before the last handled one is fatal, and it stops early only
   * after a fatal one.
   */
  lemma {:induction false} PollStops(m: map<nat, Connection>, wcs: seq<WorkCompletion>)
    ensures var ds := Poll(m, wcs).ds;
            (forall i :: 0 <= i < |ds| - 1 ==> !Fatal(ds[i])) &&
            (|ds| < |wcs| ==> |ds| > 0 && Fatal(ds[|ds| - 1]))
    decreases |wcs|
  {
    if wcs != [] {
      var owner := Lookup(m, wcs[0].qpNum);
      var d := Verdict(wcs[0], owner);
      if !Fatal(d) {
        var m' := if d == TornDown && owner.Some? then m - {wcs[0].qpNum} else m;
        PollStops(m', wcs[1..]);
        var ds := Poll(m, wcs).ds;
        assert ds == [d] + Poll(m', wcs[1..]).ds;
      }
    }
  }

  /**
   * After the loop the queue-pair map is the starting one without exactly
   * the queue pairs of the completions that tore down, and every
   * connection torn down was one the map held.
   */
  lemma {:induction false} PollRegistry(m: map<nat, Connection>, wcs: seq<WorkCompletion>)
    ensures var r := Poll(m, wcs);
            r.qpConMap == m - TornQps(wcs, r.ds) &&
            (forall c :: c in r.torn ==> c in m.Values)
    decreases |wcs|
  {
    if wcs != [] {
      var owner := Lookup(m, wcs[0].qpNum);
      var d := Verdict(wcs[0], owner);
      var r := Poll(m, wcs);
      if Fatal(d) {
        assert TornQps(wcs, r.ds) == {};
      } else if d == TornDown && owner.Some? {
        var qp := wcs[0].qpNum;
        var m' := m - {qp};
        PollRegistry(m', wcs[1..]);
        var rest := Poll(m', wcs[1..]);
        assert r.ds[1..] == rest.ds;
        assert TornQps(wcs, r.ds) == {qp} + TornQps(wcs[1..], rest.ds);
        assert m' - TornQps(wcs[1..], rest.ds) == m - TornQps(wcs, r.ds);
        assert m'.Values <= m.Values;
      } else {
        PollRegistry(m, wcs[1..]);
        var rest := Poll(m, wcs[1..]);
        assert r.ds[1..] == rest.ds;
        TeardownExactly(wcs[0], owner);
        assert TornQps(wcs, r.ds) == TornQps(wcs[1..], rest.ds);
      }
    }
  }

  /** The ids of the connections in `cons`. */
  function IdsOf(cons: seq<Connection>): set<nat>
  {
    set c | c in cons :: c.conId
  }

  /** The ids in `cons` that have no worker of their own (at or above IO_WORKER_NUMS). */
  function SharedIdsOf(cons: seq<Connection>): set<nat>
  {
    set c | c in cons && c.conId >= IO_WORKER_NUMS :: c.conId
  }

  /**
   * The polling loop after `i` completions: what it still does is Poll of
   * the rest against the current queue-pair map `m`, which holds only
   * connections of the starting one.
   */
  ghost predicate PolledSoFar(m0: map<nat, Connection>, wcs: seq<WorkCompletion>, i: nat,
                              ds: seq<Disposition>, torn: seq<Connection>, m: map<nat, Connection>)
  {
    i <= |wcs| && m.Values <= m0.Values &&
    var r := Poll(m, wcs[i..]);
    Poll(m0, wcs) == Polled(ds + r.ds, r.qpConMap, torn + r.torn)
  }

  /** Handling completion i keeps the account: the step Poll takes is the one the loop took. */
  lemma PolledStep(m0: map<nat, Connection>, wcs: seq<WorkCompletion>, i: nat,
                   ds: seq<Disposition>, torn: seq<Connection>, m: map<nat, Connection>, d: Disposition)
    requires PolledSoFar(m0, wcs, i, ds, torn, m) && i < |wcs|
    requires d == Verdict(wcs[i], Lookup(m, wcs[i].qpNum)) && !Fatal(d)
    ensures var owner := Lookup(m, wcs[i].qpNum);
            if d == TornDown && owner.Some? then
              PolledSoFar(m0, wcs, i + 1, ds + [d], torn + [owner.value], m - {wcs[i].qpNum})
            else PolledSoFar(m0, wcs, i + 1, ds + [d], torn, m)
  {
    assert wcs[i..][0] == wcs[i] && wcs[i..][1..] == wcs[i + 1..];
    assert (m - {wcs[i].qpNum}).Values <= m.Values;
  }

  /** A fatal disposition ends the loop where Poll ends. */
  lemma PolledFatal(m0: map<nat, Connection>, wcs: seq<WorkCompletion>, i: nat,
                    ds: seq<Disposition>, torn: seq<Connection>, m: map<nat, Connection>, d: Disposition)
    requires PolledSoFar(m0, wcs, i, ds, torn, m) && i < |wcs|
    requires d == Verdict(wcs[i], Lookup(m, wcs[i].qpNum)) && Fatal(d)
    ensures Poll(m0, wcs) == Polled(ds + [d], m, torn)
  {
    assert wcs[i..][0] == wcs[i];
  }

  /** With every completion handled, the account is Poll's. */
  lemma PolledAll(m0: map<nat, Connection>, wcs: seq<WorkCompletion>,
                  ds: seq<Disposition>, torn: seq<Connection>, m: map<nat, Connection>)
    requires PolledSoFar(m0, wcs, |wcs|, ds, torn, m)
    ensures Poll(m0, wcs) == Polled(ds, m, torn)
  {
    assert wcs[|wcs|..] == [];
    assert ds + [] == ds && torn + [] == torn;
  }

  /** The id maps have lost exactly the ids of the connections torn down so far. */
  ghost predicate IdsTorn(conMap0: map<nat, Connection>, cqMap0: map<nat, CqId>, torn: seq<Connection>,
                          conMap: map<nat, Connection>, cqMap: map<nat, CqId>)
  {
    conMap == conMap0 - IdsOf(torn) && cqMap == cqMap0 - SharedIdsOf(torn)
  }

  /** Deleting one more torn-down connection, as del does, keeps the account. */
  lemma IdsTornStep(conMap0: map<nat, Connection>, cqMap0: map<nat, CqId>, torn: seq<Connection>,
                    conMap: map<nat, Connection>, cqMap: map<nat, CqId>, c: Connection)
    requires IdsTorn(conMap0, cqMap0, torn, conMap, cqMap)
    ensures IdsTorn(conMap0, cqMap0, torn + [c], conMap - {c.conId},
                    if c.conId >= IO_WORKER_NUMS then cqMap - {c.conId} else cqMap)
  {
    assert IdsOf(torn + [c]) == IdsOf(torn) + {c.conId};
    assert SharedIdsOf(torn + [c]) == SharedIdsOf(torn) + (if c.conId >= IO_WORKER_NUMS then {c.conId} else {});
  }

  /**
   * One turn of the polling loop on the registry and the closed list: the
   * verdict for the connection the queue pair names, and on a teardown
   * that connection deleted as del deletes it and closed; otherwise
   * nothing changes.
   */
  ghost predicate PolledOne(s: RegistryState, closed: seq<Connection>, wc: WorkCompletion, d: Disposition,
                            s': RegistryState, closed': seq<Connection>)
  {
    var owner := Lookup(s.qpConMap, wc.qpNum);
    d == Verdict(wc, owner) &&
    if d == TornDown && owner.Some? then
      var id := owner.value.conId;
      s' == RegistryState(s.conNumber, s.conMap - {id},
                          if id >= IO_WORKER_NUMS then s.cqMap - {id} else s.cqMap, s.qpConMap - {wc.qpNum}) &&
      closed' == closed + [owner.value]
    else s' == s && closed' == closed
  }

  /**
   * The registry s and closed list a polling run leaves, from s0 and
   * closed0, with dispositions ds: exactly Poll's, with each torn-down
   * connection deleted from con_map, and from cq_map when its id has no
   * worker of its own, and appended to the closed list; con_number stays.
   */
  ghost predicate PolledAs(s0: RegistryState, closed0: seq<Connection>, wcs: seq<WorkCompletion>,
                           ds: seq<Disposition>, s: RegistryState, closed: seq<Connection>)
  {
    var r := Poll(s0.qpConMap, wcs);
    ds == r.ds && s.qpConMap == r.qpConMap && closed == closed0 + r.torn &&
    s.conMap == s0.conMap - IdsOf(r.torn) && s.cqMap == s0.cqMap - SharedIdsOf(r.torn) &&
    s.conNumber == s0.conNumber
  }

  /** The polling loop's account after `i` completions, from registry s0 and closed list closed0. */
  ghost predicate PollAccount(s0: RegistryState, closed0: seq<Connection>, wcs: seq<WorkCompletion>, i: nat,
                              ds: seq<Disposition>, torn: seq<Connection>, s: RegistryState, closed: seq<Connection>)
  {
    s.conNumber == s0.conNumber && closed == closed0 + torn &&
    PolledSoFar(s0.qpConMap, wcs, i, ds, torn, s.qpConMap) &&
    IdsTorn(s0.conMap, s0.cqMap, torn, s.conMap, s.cqMap)
  }

  /** The connections closed so far, after the turn for `wc` with disposition d from registry s. */
  function NextTorn(torn: seq<Connection>, s: RegistryState, wc: WorkCompletion, d: Disposition): seq<Connection>
  {
    var owner := Lookup(s.qpConMap, wc.qpNum);
    if d == TornDown && owner.Some? then torn + [owner.value] else torn
  }

  /** A non-fatal turn keeps the account. */
  lemma PollAccountStep(s0: RegistryState, closed0: seq<Connection>, wcs: seq<WorkCompletion>, i: nat,
                        ds: seq<Disposition>, torn: seq<Connection>, s: RegistryState, closed: seq<Connection>,
                        d: Disposition, s': RegistryState, closed': seq<Connection>)
    requires PollAccount(s0, closed0, wcs, i, ds, torn, s, closed) && i < |wcs|
    requires PolledOne(s, closed, wcs[i], d, s', closed') && !Fatal(d)
    ensures PollAccount(s0, closed0, wcs, i + 1, ds + [d], NextTorn(torn, s, wcs[i], d), s', closed')
    ensures s'.qpConMap.Values <= s0.qpConMap.Values
  {
    PolledStep(s0.qpConMap, wcs, i, ds, torn, s.qpConMap, d);
    var owner := Lookup(s.qpConMap, wcs[i].qpNum);
    if d == TornDown && owner.Some? {
      IdsTornStep(s0.conMap, s0.cqMap, torn, s.conMap, s.cqMap, owner.value);
    }
  }

  /**
   * When the account is complete (every completion handled, or a fatal
   * one just handled), the run is Poll's: the dispositions, the queue-pair
   * map, the closed connections and the id maps all follow from it.
   */
  lemma PollAccountDone(s0: RegistryState, closed0: seq<Connection>, wcs: seq<WorkCompletion>, i: nat,
                        ds: seq<Disposition>, torn: seq<Connection>, s: RegistryState, closed: seq<Connection>,
                        d: Disposition, s': RegistryState, closed': seq<Connection>)
    requires PollAccount(s0, closed0, wcs, i, ds, torn, s, closed)
    requires i == |wcs| || (i < |wcs| && PolledOne(s, closed, wcs[i], d, s', closed') && Fatal(d))
    ensures if i == |wcs| then PolledAs(s0, closed0, wcs, ds, s, closed)
            else PolledAs(s0, closed0, wcs, ds + [d], s', closed')
  {
    if i == |wcs| {
      PolledAll(s0.qpConMap, wcs, ds, torn, s.qpConMap);
    } else {
      PolledFatal(s0.qpConMap, wcs, i, ds, torn, s.qpConMap, d);
    }
  }

  /** The accept upcalls announcing the connections with ids lo to hi - 1, in id order. */
  ghost function AcceptsOf(cb: CallbackId, conMap: map<nat, Connection>, lo: nat, hi: nat): (r: seq<Upcall>)
    requires lo <= hi && forall id :: lo <= id < hi ==> id in conMap
    ensures |r| == hi - lo
    decreases hi
  {
    if lo == hi then [] else AcceptsOf(cb, conMap, lo, hi - 1) + [AcceptUpcall(cb, conMap[hi - 1])]
  }

  /** The announcements depend only on the connections filed under the ids in range. */
  lemma {:induction false} AcceptsOfFrame(cb: CallbackId, m: map<nat, Connection>, m': map<nat, Connection>, lo: nat, hi: nat)
    requires lo <= hi && forall id :: lo <= id < hi ==> id in m && id in m' && m'[id] == m[id]
    ensures AcceptsOf(cb, m', lo, hi) == AcceptsOf(cb, m, lo, hi)
    decreases hi
  {
    if lo < hi {
      AcceptsOfFrame(cb, m, m', lo, hi - 1);
    }
  }

  /** Filing the connection under the next id announces it after the earlier ones. */
  lemma AcceptsOfFiling(cb: CallbackId, m: map<nat, Connection>, lo: nat, hi: nat, con: Connection)
    requires lo <= hi && forall id :: lo <= id < hi ==> id in m
    ensures AcceptsOf(cb, m[hi := con], lo, hi + 1) == AcceptsOf(cb, m, lo, hi) + [AcceptUpcall(cb, con)]
  {
    AcceptsOfFrame(cb, m, m[hi := con], lo, hi);
  }

  /**
   * The registry has grown from s0 to s, and the accept callback cb, if
   * any, was handed every connection filed since, in id order.
   */
  ghost predicate Announced(s0: RegistryState, ups0: seq<Upcall>, cb: Option<CallbackId>, s: RegistryState, ups: seq<Upcall>)
  {
    Grown(s0, s) &&
    (cb.None? ==> ups == ups0) &&
    (cb.Some? ==> ups == ups0 + AcceptsOf(cb.value, s.conMap, s0.conNumber, s.conNumber))
  }

  /** Accepting one more connection keeps every accepted connection announced. */
  lemma AnnouncedByAccept(s0: RegistryState, ups0: seq<Upcall>, cb: Option<CallbackId>,
                          s1: RegistryState, ups1: seq<Upcall>, s2: RegistryState, con: Connection)
    requires Announced(s0, ups0, cb, s1, ups1)
    requires forall id :: id in s0.conMap ==> id < s0.conNumber
    requires forall id :: id in s0.cqMap ==> id < s0.conNumber
    requires s2.conNumber == s1.conNumber + 1
    requires s2.conMap == s1.conMap[s1.conNumber := con] && s2.cqMap == s1.cqMap[s1.conNumber := con.cq]
    requires s2.qpConMap == if con.qpNum in s1.qpConMap then s1.qpConMap else s1.qpConMap[con.qpNum := con]
    ensures Announced(s0, ups0, cb, s2, ups1 + if cb.Some? then [AcceptUpcall(cb.value, con)] else [])
  {
    GrownByFiling(s0, s1, s2, con);
    if cb.Some? {
      AcceptsOfFiling(cb.value, s1.conMap, s0.conNumber, s1.conNumber, con);
    }
  }

  /** Handling one more event extends the counts by that event. */
  lemma EventStep(events: seq<CmEvent>, i: nat, isServer: bool)
    requires i < |events|
    ensures PostsOf(events[..i + 1]) == PostsOf(events[..i]) + CmPosts(events[i])
    ensures RequestsOf(events[..i + 1]) == RequestsOf(events[..i]) + (if events[i].ConnectRequest? then 1 else 0)
    ensures CmHandled(events[i..], isServer) ==
              if CmExits(events[i], isServer) then 1 else 1 + CmHandled(events[i + 1..], isServer)
  {
    assert events[..i + 1][..i] == events[..i];
    assert events[i..][1..] == events[i + 1..];
  }

  /**
   * The first n events have been handled without an exit, posting the
   * semaphore `posts` times and accepting `requests` connections.
   */
  ghost predicate HandledSoFar(events: seq<CmEvent>, isServer: bool, n: nat, posts: int, requests: int)
  {
    n <= |events| && CmHandled(events, isServer) == n + CmHandled(events[n..], isServer) &&
    posts == PostsOf(events[..n]) && requests == RequestsOf(events[..n]) &&
    (n > 0 ==> !CmExits(events[n - 1], isServer))
  }

  /** Handling the next event either exits the loop or keeps the account. */
  lemma HandledStep(events: seq<CmEvent>, isServer: bool, n: nat, posts: int, requests: int)
    requires HandledSoFar(events, isServer, n, posts, requests) && n < |events|
    ensures var e := events[n];
            var posts', requests' := posts + CmPosts(e), requests + (if e.ConnectRequest? then 1 else 0);
            (CmExits(e, isServer) ==>
               CmHandled(events, isServer) == n + 1 && posts' == PostsOf(events[..n + 1]) &&
               requests' == RequestsOf(events[..n + 1])) &&
            (!CmExits(e, isServer) ==> HandledSoFar(events, isServer, n + 1, posts', requests'))
  {
    EventStep(events, n, isServer);
  }

  /** The result of connect in a sequential run: it blocks at whichever wait finds no post. */
  datatype ConnectOutcome = WaitingForRoute | WaitingForEstablished(con: Connection) | Connected(con: Connection)

  // ---------------------------------------------------------------------
  // The stack

  class Stack {
    const isServer: bool
    const conMgr: ConMgr
    /** The semaphore, as the number of sem_post and of completed sem_wait calls. */
    var semPosts: nat
    var semWaits: nat
    /** rdma_ack_cm_event calls. */
    var acks: nat
    var acceptCallback: Option<CallbackId>
    var connectCallback: Option<CallbackId>
    /** Connections closed, in order. */
    var closed: seq<Connection>
    var upcalls: seq<Upcall>

    /** The registry is consistent and no wait has outrun the posts. */
    ghost predicate Valid()
      reads this`semPosts, this`semWaits, conMgr
    {
      conMgr.Valid() && semWaits <= semPosts
    }

    constructor (server: bool)
      ensures Valid() && fresh(conMgr)
      ensures isServer == server && conMgr.conNumber == 0 && conMgr.qpConMap == map[]
      ensures semPosts == 0 && semWaits == 0 && acks == 0
      ensures acceptCallback == None && connectCallback == None
      ensures closed == [] && upcalls == []
    {
      isServer := server;
      conMgr := new ConMgr();
      semPosts, semWaits, acks := 0, 0, 0;
      acceptCallback, connectCallback := None, None;
      closed, upcalls := [], [];
    }

    /** set_accept_callback. */
    method SetAcceptCallback(cb: CallbackId)
      modifies this`acceptCallback
      ensures acceptCallback == Some(cb)
    {
      acceptCallback := Some(cb);
    }

    /** set_connect_callback: the member is assigned to itself and the argument is lost. */
    method SetConnectCallback(cb: CallbackId)
      modifies this`connectCallback
      ensures connectCallback == old(connectCallback)
    {
      connectCallback := connectCallback;
    }

    /** Deregisters and closes a connection: del, then close. */
    method TearDown(con: Connection, qp: nat)
      requires Valid()
      modifies this`closed, conMgr
      ensures Valid() && conMgr.Deleted(con.conId, qp)
      ensures closed == old(closed) + [con]
    {
      conMgr.Del(con.conId, qp);
      closed := closed + [con];
    }

    /** handle_err: a failed completion closes the connection it belongs to, if any. */
    method HandleErr(wc: WorkCompletion) returns (d: Disposition)
      requires Valid()
      modifies this`closed, conMgr
      ensures Valid()
      ensures var owner := old(conMgr.GetConnection(wc.qpNum));
              d == (if owner.Some? then TornDown else Ignored) &&
              (owner.Some? ==> conMgr.Deleted(owner.value.conId, wc.qpNum) && closed == old(closed) + [owner.value]) &&
              (owner.None? ==> unchanged(conMgr) && closed == old(closed))
    {
      var owner := conMgr.GetConnection(wc.qpNum);
      if owner.Some? {
        TearDown(owner.value, wc.qpNum);
        return TornDown;
      }
      return Ignored;
    }

    /**
     * handle_send: the zero id tears the connection down; any other id is
     * taken for a chunk and, if it lies in the connection's send region,
     * returned to the free list.
     */
    method HandleSend(wc: WorkCompletion) returns (d: Disposition)
      requires Valid()
      modifies this`closed, conMgr, conMgr.Owner(wc.qpNum)`freeChunks, conMgr.Owner(wc.qpNum)`reaps
      ensures Valid()
      ensures var owner := old(conMgr.GetConnection(wc.qpNum));
              d == SendVerdict(wc.wrId, owner) &&
              (d == TornDown ==> conMgr.Deleted(owner.value.conId, wc.qpNum) && closed == old(closed) + [owner.value]) &&
              (d != TornDown ==> unchanged(conMgr) && closed == old(closed)) &&
              (d == Reclaimed ==>
                 owner.value.freeChunks == old(owner.value.freeChunks) + [wc.wrId.ck] &&
                 owner.value.reaps == old(owner.value.reaps) + 1) &&
              (d != Reclaimed && owner.Some? ==> unchanged(owner.value`freeChunks, owner.value`reaps))
    {
      var owner := conMgr.GetConnection(wc.qpNum);
      if wc.wrId == Sentinel(0) {
        if owner.Some? {
          TearDown(owner.value, wc.qpNum);
          return TornDown;
        }
        return Ignored;
      }
      if owner.None? {
        return Ignored;
      }
      if wc.wrId.Sentinel? {
        return WildPointer;
      }
      var con := owner.value;
      var ck := wc.wrId.ck;
      if !con.IsSendBuffer(ck.chkBuf) {
        return Ignored;
      }
      con.ReapChunk(ck);
      return Reclaimed;
    }

    /**
     * handle_recv: the zero id tears the connection down; any other id is
     * taken for a chunk, its size set to the completion's byte count, and,
     * if it lies in the connection's receive region, handed to the read
     * callback (when one is set) and posted again.
     */
    method HandleRecv(wc: WorkCompletion) returns (d: Disposition)
      requires Valid()
      modifies this`closed, this`upcalls, conMgr, conMgr.Owner(wc.qpNum)`recvPosts
      ensures Valid()
      ensures var owner := old(conMgr.GetConnection(wc.qpNum));
              d == RecvVerdict(wc.wrId, owner) &&
              (d == TornDown ==> conMgr.Deleted(owner.value.conId, wc.qpNum) && closed == old(closed) + [owner.value]) &&
              (d != TornDown ==> unchanged(conMgr) && closed == old(closed)) &&
              (d == Delivered ==>
                 var ck := wc.wrId.ck.(chkSize := wc.byteLen);
                 var con := owner.value;
                 con.recvPosts == old(con.recvPosts) + [RecvOf(ck)] &&
                 upcalls == old(upcalls) + (if con.readCallback.Some? then [ReadUpcall(con.readCallback.value, con, ck)] else [])) &&
              (d != Delivered ==> upcalls == old(upcalls)) &&
              (d != Delivered && owner.Some? ==> unchanged(owner.value`recvPosts))
    {
      var owner := conMgr.GetConnection(wc.qpNum);
      if wc.wrId == Sentinel(0) {
        if owner.Some? {
          TearDown(owner.value, wc.qpNum);
          return TornDown;
        }
        return Ignored;
      }
      if wc.wrId.Sentinel? {
        return WildPointer;
      }
      var ck := wc.wrId.ck.(chkSize := wc.byteLen);
      if owner.None? || !owner.value.IsRecvBuffer(ck.chkBuf) {
        return Ignored;
      }
      var con := owner.value;
      if con.readCallback.Some? {
        upcalls := upcalls + [ReadUpcall(con.readCallback.value, con, ck)];
      }
      con.PostRecvBuffer(ck);
      return Delivered;
    }

    /**
     * One completion of cq_event_handler's polling loop: failures go to
     * handle_err, sends to handle_send, receives to handle_recv, and any
     * other opcode fails the assertion.
     */
    method Dispatch(wc: WorkCompletion) returns (d: Disposition)
      requires Valid()
      modifies this`closed, this`upcalls, conMgr
      modifies conMgr.Owner(wc.qpNum)`freeChunks, conMgr.Owner(wc.qpNum)`reaps, conMgr.Owner(wc.qpNum)`recvPosts
      ensures Valid()
      ensures var owner := old(conMgr.GetConnection(wc.qpNum));
              d == Verdict(wc, owner) &&
              (d == TornDown ==> conMgr.Deleted(owner.value.conId, wc.qpNum) && closed == old(closed) + [owner.value]) &&
              (d != TornDown ==> unchanged(conMgr) && closed == old(closed)) &&
              (d == Reclaimed ==>
                 owner.value.freeChunks == old(owner.value.freeChunks) + [wc.wrId.ck] &&
                 owner.value.reaps == old(owner.value.reaps) + 1) &&
              (d != Reclaimed && owner.Some? ==> unchanged(owner.value`freeChunks, owner.value`reaps)) &&
              (d == Delivered ==>
                 var ck := wc.wrId.ck.(chkSize := wc.byteLen);
                 var con := owner.value;
                 con.recvPosts == old(con.recvPosts) + [RecvOf(ck)] &&
                 upcalls == old(upcalls) + (if con.readCallback.Some? then [ReadUpcall(con.readCallback.value, con, ck)] else [])) &&
              (d != Delivered ==> upcalls == old(upcalls)) &&
              (d != Delivered && owner.Some? ==> unchanged(owner.value`recvPosts))
    {
      if wc.status != 0 {
        d := HandleErr(wc);
        return;
      }
      match wc.opcode
      case WcSend =>
        d := HandleSend(wc);
      case WcRecv =>
        d := HandleRecv(wc);
      case WcOther(_) =>
        d := BadOpcode;
    }

    /**
     * One turn of the polling loop as the registry sees it: the verdict
     * for the connection the queue pair names, and on a teardown that
     * connection gone from the three maps and closed.
     */
    method PollOne(wc: WorkCompletion) returns (d: Disposition)
      requires Valid()
      modifies this`closed, this`upcalls, conMgr
      modifies conMgr.Owner(wc.qpNum)`freeChunks, conMgr.Owner(wc.qpNum)`reaps, conMgr.Owner(wc.qpNum)`recvPosts
      ensures Valid()
      ensures PolledOne(old(conMgr.State()), old(closed), wc, d, conMgr.State(), closed)
      ensures conMgr.cqThreads == old(conMgr.cqThreads)
    {
      d := Dispatch(wc);
    }

    /**
     * Turn i of the polling loop, as the loop's account sees it: after a
     * non-fatal completion the account covers i + 1 completions; after a
     * fatal one the run is complete.
     */
    method PollTurn(ghost s0: RegistryState, ghost closed0: seq<Connection>, wcs: seq<WorkCompletion>, i: nat,
                    ghost ds: seq<Disposition>, ghost torn: seq<Connection>) returns (d: Disposition)
      requires Valid() && i < |wcs|
      requires PollAccount(s0, closed0, wcs, i, ds, torn, conMgr.State(), closed)
      requires conMgr.qpConMap.Values <= s0.qpConMap.Values
      modifies this`closed, this`upcalls, conMgr
      modifies conMgr.Owner(wcs[i].qpNum)`freeChunks, conMgr.Owner(wcs[i].qpNum)`reaps
      modifies conMgr.Owner(wcs[i].qpNum)`recvPosts
      ensures Valid() && conMgr.cqThreads == old(conMgr.cqThreads)
      ensures Fatal(d) ==> PolledAs(s0, closed0, wcs, ds + [d], conMgr.State(), closed)
      ensures !Fatal(d) ==>
                PollAccount(s0, closed0, wcs, i + 1, ds + [d], NextTorn(torn, old(conMgr.State()), wcs[i], d),
                            conMgr.State(), closed) &&
                conMgr.qpConMap.Values <= s0.qpConMap.Values
    {
      ghost var s, closed1 := conMgr.State(), closed;
      d := PollOne(wcs[i]);
      if Fatal(d) {
        PollAccountDone(s0, closed0, wcs, i, ds, torn, s, closed1, d, conMgr.State(), closed);
      } else {
        PollAccountStep(s0, closed0, wcs, i, ds, torn, s, closed1, d, conMgr.State(), closed);
      }
    }

    /**
     * The polling loop over the completions available on a CQ: each is
     * dispatched in order until one ends the process.
     */
    method Drain(wcs: seq<WorkCompletion>) returns (ds: seq<Disposition>)
      requires Valid()
      modifies this`closed, this`upcalls, conMgr
      modifies conMgr.qpConMap.Values`freeChunks, conMgr.qpConMap.Values`reaps, conMgr.qpConMap.Values`recvPosts
      ensures Valid()
      ensures PolledAs(old(conMgr.State()), old(closed), wcs, ds, conMgr.State(), closed)
      ensures conMgr.cqThreads == old(conMgr.cqThreads)
      ensures forall i :: 0 <= i < |ds| - 1 ==> !Fatal(ds[i])
      ensures |ds| < |wcs| ==> |ds| > 0 && Fatal(ds[|ds| - 1])
    {
      ghost var s0, closed0 := conMgr.State(), closed;
      ghost var torn: seq<Connection> := [];
      ds := [];
      var i := 0;
      while i < |wcs|
        invariant Valid() && i == |ds| && conMgr.cqThreads == old(conMgr.cqThreads)
        invariant PollAccount(s0, closed0, wcs, i, ds, torn, conMgr.State(), closed)
        invariant conMgr.qpConMap.Values <= s0.qpConMap.Values
      {
        ghost var s := conMgr.State();
        var d := PollTurn(s0, closed0, wcs, i, ds, torn);
        ds := ds + [d];
        if Fatal(d) {
          PollStops(s0.qpConMap, wcs);
          return;
        }
        torn := NextTorn(torn, s, wcs[i], d);
        i := i + 1;
      }
      PollAccountDone(s0, closed0, wcs, i, ds, torn, conMgr.State(), closed, BadOpcode, conMgr.State(), closed);
      PollStops(s0.qpConMap, wcs);
    }

    /**
     * accept: registers a connection for the request and hands it to the
     * accept callback, when one is set.
     */
    method Accept(res: Resources) returns (con: Connection)
      requires Valid()
      modifies this`upcalls, conMgr
      ensures Valid() && fresh(con)
      ensures conMgr.Opened(con) && con.qpNum == res.qpNum
      ensures upcalls == old(upcalls) + (if acceptCallback.Some? then [AcceptUpcall(acceptCallback.value, con)] else [])
    {
      con := conMgr.NewConnection(res);
      if acceptCallback.Some? {
        upcalls := upcalls + [AcceptUpcall(acceptCallback.value, con)];
      }
    }

    /**
     * The body of cm_event_handler's switch for one event: a connection
     * request is accepted, and the connection it registers is returned.
     */
    method CmEvent(e: CmEvent) returns (accepted: Option<Connection>)
      requires Valid()
      modifies this`semPosts, this`upcalls, conMgr
      ensures Valid()
      ensures semPosts == old(semPosts) + CmPosts(e)
      ensures conMgr.conNumber == old(conMgr.conNumber) + (if e.ConnectRequest? then 1 else 0)
      ensures e.ConnectRequest? ==>
                accepted.Some? && fresh(accepted.value) &&
                conMgr.Opened(accepted.value) && accepted.value.qpNum == e.res.qpNum &&
                upcalls == old(upcalls) + (if acceptCallback.Some? then [AcceptUpcall(acceptCallback.value, accepted.value)] else [])
      ensures !e.ConnectRequest? ==> accepted == None && unchanged(conMgr) && upcalls == old(upcalls)
    {
      accepted := None;
      match e
      case AddrResolved(rst) =>
        if rst != 0 {
          semPosts := semPosts + 1;
        }
      case ConnectRequest(res) =>
        var con := Accept(res);
        accepted := Some(con);
      case Unknown(_) =>
      case _ =>
        semPosts := semPosts + 1;
    }

    /** One event of cm_event_handler, keeping every accepted connection announced. */
    method AnnouncedEvent(e: CmEvent, ghost s0: RegistryState, ghost upcalls0: seq<Upcall>)
      requires Valid() && Announced(s0, upcalls0, acceptCallback, conMgr.State(), upcalls)
      requires forall id :: id in s0.conMap ==> id < s0.conNumber
      requires forall id :: id in s0.cqMap ==> id < s0.conNumber
      modifies this`semPosts, this`upcalls, conMgr
      ensures Valid() && Announced(s0, upcalls0, acceptCallback, conMgr.State(), upcalls)
      ensures semPosts == old(semPosts) + CmPosts(e)
      ensures conMgr.conNumber == old(conMgr.conNumber) + (if e.ConnectRequest? then 1 else 0)
    {
      ghost var s1, upcalls1 := conMgr.State(), upcalls;
      var accepted := CmEvent(e);
      if accepted.Some? {
        AnnouncedByAccept(s0, upcalls0, acceptCallback, s1, upcalls1, conMgr.State(), accepted.value);
      }
    }

    /**
     * cm_event_handler over the events rdma_get_cm_event delivers: each is
     * handled and acknowledged in turn, except that a client returns on
     * ESTABLISHED without acknowledging it.  Every request handled
     * registers a new connection, keeping all earlier registrations, and
     * is announced to the accept callback when one is set.
     */
    method CmEventHandler(events: seq<CmEvent>) returns (handled: nat)
      requires Valid()
      modifies this`semPosts, this`acks, this`upcalls, conMgr
      ensures Valid()
      ensures handled == CmHandled(events, isServer)
      ensures semPosts == old(semPosts) + PostsOf(events[..handled])
      ensures acks == old(acks) + (if handled > 0 && CmExits(events[handled - 1], isServer) then handled - 1 else handled)
      ensures conMgr.conNumber == old(conMgr.conNumber) + RequestsOf(events[..handled])
      ensures Grown(old(conMgr.State()), conMgr.State())
      ensures acceptCallback.None? ==> upcalls == old(upcalls)
      ensures acceptCallback.Some? ==>
                upcalls == old(upcalls) + AcceptsOf(acceptCallback.value, conMgr.conMap, old(conMgr.conNumber), conMgr.conNumber)
    {
      handled := 0;
      ghost var s0, upcalls0, posts0, acks0 := conMgr.State(), upcalls, semPosts, acks;
      while handled < |events|
        invariant Valid()
        invariant HandledSoFar(events, isServer, handled, semPosts - posts0, conMgr.conNumber - s0.conNumber)
        invariant acks == acks0 + handled
        invariant Announced(s0, upcalls0, acceptCallback, conMgr.State(), upcalls)
      {
        var e := events[handled];
        HandledStep(events, isServer, handled, semPosts - posts0, conMgr.conNumber - s0.conNumber);
        AnnouncedEvent(e, s0, upcalls0);
        handled := handled + 1;
        if CmExits(e, isServer) {
          return;
        }
        acks := acks + 1;
      }
    }

    /**
     * connect: waits for the address and route to resolve, registers a
     * connection, waits for it to be established, and then would call the
     * connect callback, which is never set.
     */
    method Connect(res: Resources) returns (outcome: ConnectOutcome)
      requires Valid()
      modifies this`semWaits, this`upcalls, conMgr
      ensures Valid()
      ensures upcalls == old(upcalls) + (if outcome.Connected? && connectCallback.Some?
                                         then [ConnectUpcall(connectCallback.value, outcome.con)] else [])
      ensures old(semPosts - semWaits) == 0 ==> outcome == WaitingForRoute && semWaits == old(semWaits) && unchanged(conMgr)
      ensures old(semPosts - semWaits) == 1 ==> outcome.WaitingForEstablished? && semWaits == old(semWaits) + 1
      ensures old(semPosts - semWaits) >= 2 ==> outcome.Connected? && semWaits == old(semWaits) + 2
      ensures old(semPosts - semWaits) >= 1 ==>
                fresh(outcome.con) && conMgr.Opened(outcome.con) && outcome.con.qpNum == res.qpNum
    {
      if semPosts - semWaits == 0 {
        return WaitingForRoute;
      }
      semWaits := semWaits + 1;
      var con := conMgr.NewConnection(res);
      if semPosts - semWaits == 0 {
        return WaitingForEstablished(con);
      }
      semWaits := semWaits + 1;
      if connectCallback.Some? {
        upcalls := upcalls + [ConnectUpcall(connectCallback.value, con)];
      }
      outcome := Connected(con);
    }
  }

  /**
   * A client handshake: address resolved, route resolved, established.
   * The event loop posts twice and stops at ESTABLISHED, connect gets
   * through both waits, and the callback registered before connecting is
   * not called.
   */
  method ClientHandshake(res: Resources, later: seq<CmEvent>, cb: CallbackId)
    returns (handled: nat, outcome: ConnectOutcome, upcalls: seq<Upcall>)
    ensures handled == 3 && outcome.Connected? && outcome.con.conId == 0 && upcalls == []
  {
    var stack := new Stack(false);
    var handshake := [AddrResolved(0), RouteResolved, Established];
    var events := handshake + later;
    ClientStopsAtEstablished(events, 2);
    handled := stack.CmEventHandler(events);
    assert events[..3] == handshake;
    assert handshake[..2][..1] == [AddrResolved(0)] && [AddrResolved(0)][..0] == [];
    assert handshake[..2] == [AddrResolved(0), RouteResolved];
    assert PostsOf(handshake) == 2 && RequestsOf(handshake) == 0;
    stack.SetConnectCallback(cb);
    outcome := stack.Connect(res);
    upcalls := stack.upcalls;
  }
}
