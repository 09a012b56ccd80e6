/**
  The life of requests on a FUSE connection (dev.c), as atomic steps over shared state.

  Any number of CPUs send, a daemon reads and replies, the daemon may die and come
  back, and a timeout may abort everything. A step is what the driver does under one
  lock, or while pinned to a CPU, or inside one RCU read section; steps of different
  threads interleave freely.
 */
module FuseProtocol {
  import opened Errno
  import opened FuseIds
  import opened Seqs

  /** Identity of one allocated `struct fuse_req`. */
  type Rid = int

  /**
    Where a request is between `fuse_get_unique` and `fuse_put_unique`:
    Held       has its id, not yet in `request_map`
    Stored     in `request_map`, the connection flags not yet looked at
    Admitted   inside the RCU section, has seen a usable connection, not yet queued
    Pending, Processing   on that list
    Detached   taken off its list by a reply whose payload could not be copied
    Ending     taken off its list for good, end callback called, id not yet returned
   */
  datatype Phase = Held | Stored | Admitted | Pending | Processing | Detached | Ending(status: int)

  datatype Req = Req(uid: Id, phase: Phase)

  predicate OnList(phase: Phase) {
    phase.Pending? || phase.Processing?
  }

  predicate NotQueued(phase: Phase) {
    phase.Held? || phase.Stored? || phase.Admitted?
  }

  /** Progress of the timeout abort (`pxd_abort_context`). */
  datatype Abort = Idle | Cleared | DrainPending | DrainProcessing

  /** The last three fields are history: ids given out, requests queued, requests ended with their status. */
  datatype Conn = Conn(
    pool: Pool,
    reqMap: map<nat, Rid>,
    reqs: map<Rid, Req>,
    pending: seq<Rid>,
    processing: seq<Rid>,
    connected: bool,
    allow: bool,
    abort: Abort,
    issued: seq<(Rid, Id)>,
    queued: seq<Rid>,
    ended: seq<(Rid, int)>)

  datatype Step =
    | Get(r: Rid, cpu: nat)
    | Store(r: Rid)
    | Admit(r: Rid)
    | Enqueue(r: Rid)
    | Reject(r: Rid)
    | ReadMove(n: nat)
    | ReadFault(r: Rid)
    | Reply(uid: Id, status: int, faulted: bool, cpu: nat)
    | Put(r: Rid, cpu: nat)
    | Release
    | Open
    | AbortClear
    | AbortSync
    | AbortEnd
    | AbortNext
    | AbortDone

  // ------------------------------------------------------------------------
  // Building blocks
  // ------------------------------------------------------------------------

  predicate InPhase(s: Conn, r: Rid, phase: Phase) {
    r in s.reqs && s.reqs[r].phase == phase
  }

  function SetPhase(s: Conn, r: Rid, phase: Phase): Conn
    requires r in s.reqs
  {
    s.(reqs := s.reqs[r := s.reqs[r].(phase := phase)])
  }

  /** list_del: off whichever list the request is on. */
  function Unlink(s: Conn, r: Rid): Conn {
    s.(pending := Without(s.pending, r), processing := Without(s.processing, r))
  }

  /** The first half of `request_end`: off the list, end callback with `status`. */
  function Finish(s: Conn, r: Rid, status: int): Conn
    requires r in s.reqs
  {
    SetPhase(Unlink(s, r), r, Ending(status)).(ended := s.ended + [(r, status)])
  }

  /** `fuse_put_unique`: push the id, clear the map entry of its slot. */
  function Free(s: Conn, r: Rid, cpu: nat): Conn
    requires r in s.reqs && cpu < |s.pool.cpus|
  {
    var uid := s.reqs[r].uid;
    s.(pool := Give(s.pool, cpu, uid), reqMap := s.reqMap - {Slot(uid)}, reqs := s.reqs - {r})
  }

  /** `fuse_get_unique` for a new request. */
  function Take1(s: Conn, r: Rid, cpu: nat): Conn
    requires Available(s.pool, cpu)
  {
    var (pool, id) := Take(s.pool, cpu);
    var uid := NextId(id);
    s.(pool := pool, reqs := s.reqs[r := Req(uid, Held)], issued := s.issued + [(r, uid)])
  }

  /** The store into `request_map` in `fuse_request_send_nowait`. */
  function Publish(s: Conn, r: Rid): Conn
    requires r in s.reqs
  {
    SetPhase(s, r, Stored).(reqMap := s.reqMap[Slot(s.reqs[r].uid) := r])
  }

  /** `queue_request`: append to the pending list. */
  function Queue(s: Conn, r: Rid): Conn
    requires r in s.reqs
  {
    SetPhase(s, r, Pending).(pending := s.pending + [r], queued := s.queued + [r])
  }

  /** `list_del_init` of a reply whose payload then fails to copy. */
  function Detach(s: Conn, r: Rid): Conn
    requires r in s.reqs
  {
    SetPhase(Unlink(s, r), r, Detached)
  }

  /** The cut and splice of `fuse_dev_do_read`: the first n pending requests go to the tail of processing. */
  function MoveToProcessing(s: Conn, n: nat): Conn
    requires n <= |s.pending|
  {
    s.(pending := s.pending[n..], processing := s.processing + s.pending[..n],
       reqs := Rephase(s.reqs, s.pending[..n], Processing))
  }

  /** `fuse_restart_requests`: processing is spliced in front of pending. */
  function Restart(s: Conn): Conn {
    s.(pending := s.processing + s.pending, processing := [], reqs := Rephase(s.reqs, s.processing, Pending))
  }

  function Flags(s: Conn, connected: bool, allow: bool, abort: Abort): Conn {
    s.(connected := connected, allow := allow, abort := abort)
  }

  /** The request `end_requests` ends next. */
  function DrainHead(s: Conn): Rid
    requires Draining(s)
  {
    if s.abort == DrainPending then s.pending[0] else s.processing[0]
  }

  predicate Draining(s: Conn) {
    (s.abort == DrainPending && s.pending != []) || (s.abort == DrainProcessing && s.processing != [])
  }

  /** `request_find`: the map entry of the slot, if the full id agrees. */
  function Find(s: Conn, uid: Id): Option<Rid> {
    var x := Slot(uid);
    if x in s.reqMap && s.reqMap[x] in s.reqs && s.reqs[s.reqMap[x]].uid == uid then Some(s.reqMap[x]) else None
  }

  predicate Answerable(s: Conn, r: Rid) {
    InPhase(s, r, Pending) || InPhase(s, r, Processing) || InPhase(s, r, Detached)
  }

  /** Not on a list yet: its `list` links point to itself, and a removal does nothing. */
  predicate Unqueued(s: Conn, r: Rid) {
    InPhase(s, r, Stored) || InPhase(s, r, Admitted)
  }

  /** A reply that does not interfere with a sender or with somebody ending the request. */
  predicate Orderly(s: Conn, r: Rid, faulted: bool) {
    Answerable(s, r) || (faulted && Unqueued(s, r))
  }

  /** What `fuse_dev_do_write` does to the request it found, whatever its phase. */
  function Answered(s: Conn, r: Rid, status: int, faulted: bool, cpu: nat): Conn
    requires r in s.reqs && cpu < |s.pool.cpus|
  {
    if !faulted then Free(Finish(s, r, status), r, cpu)
    else if Answerable(s, r) then Detach(s, r)
    else s
  }

  function Issued(s: Conn): set<Rid> {
    set i | 0 <= i < |s.issued| :: s.issued[i].0
  }

  // ------------------------------------------------------------------------
  // The steps
  // ------------------------------------------------------------------------

  /** `fuse_conn_init`: every id on the global stack, highest slot at the bottom; a new context lets requests wait. */
  function Init(cpus: nat): Conn {
    Conn(Pool(seq(MAX_IDS, i requires 0 <= i < MAX_IDS => MAX_IDS - i - 1), seq(cpus, _ => [])),
         map[], map[], [], [], false, true, Idle, [], [], [])
  }

  predicate Enabled(s: Conn, step: Step) {
    match step
    case Get(r, cpu) => r !in Issued(s) && Available(s.pool, cpu)
    case Store(r) => InPhase(s, r, Held)
    case Admit(r) => InPhase(s, r, Stored) && (s.connected || s.allow)
    case Enqueue(r) => InPhase(s, r, Admitted)
    case Reject(r) => InPhase(s, r, Stored) && !(s.connected || s.allow)
    case ReadMove(n) => s.connected && n <= |s.pending|
    case ReadFault(r) => s.connected && (InPhase(s, r, Processing) || InPhase(s, r, Detached))
    case Reply(uid, status, _, cpu) =>
      && s.connected && uid != 0 && -1000 < status <= 0 && cpu < |s.pool.cpus|
      && (Find(s, uid).Some? ==> Orderly(s, Find(s, uid).value, step.faulted))
    case Put(r, cpu) => r in s.reqs && s.reqs[r].phase.Ending? && cpu < |s.pool.cpus|
    case Release => s.connected
    case Open => !s.connected && s.abort == Idle
    case AbortClear => !s.connected && s.abort == Idle
    case AbortSync => s.abort == Cleared && forall r :: r in s.reqs ==> s.reqs[r].phase != Admitted
    case AbortEnd => Draining(s) && DrainHead(s) in s.reqs
    case AbortNext => s.abort == DrainPending && s.pending == []
    case AbortDone => s.abort == DrainProcessing && s.processing == []
  }

  function Apply(s: Conn, step: Step): Conn
    requires Enabled(s, step)
  {
    match step
    case Get(r, cpu) => Take1(s, r, cpu)
    case Store(r) => Publish(s, r)
    case Admit(r) => SetPhase(s, r, Admitted)
    case Enqueue(r) => Queue(s, r)
    case Reject(r) => Finish(s, r, -ENOTCONN)
    case ReadMove(n) => MoveToProcessing(s, n)
    case ReadFault(r) => Finish(s, r, -EIO)
    case Reply(uid, status, faulted, cpu) =>
      (match Find(s, uid)
       case None => s
       case Some(r) => Answered(s, r, status, faulted, cpu))
    case Put(r, cpu) => Free(s, r, cpu)
    case Release => Flags(s, false, s.allow, s.abort)
    case Open => Flags(Restart(s), true, true, s.abort)
    case AbortClear => Flags(s, s.connected, false, Cleared)
    case AbortSync => Flags(s, s.connected, s.allow, DrainPending)
    case AbortEnd => Finish(s, DrainHead(s), -ECONNABORTED)
    case AbortNext => Flags(s, s.connected, s.allow, DrainProcessing)
    case AbortDone => Flags(s, s.connected, s.allow, Idle)
  }

  /** The requests in `rs` enter `phase`; everything else stays. */
  function Rephase(reqs: map<Rid, Req>, rs: seq<Rid>, phase: Phase): (out: map<Rid, Req>)
    ensures out.Keys == reqs.Keys
    ensures forall r :: r in reqs ==> out[r] == if r in rs then reqs[r].(phase := phase) else reqs[r]
  {
    map r | r in reqs :: if r in rs then reqs[r].(phase := phase) else reqs[r]
  }

  predicate Legal(s: Conn, steps: seq<Step>)
    decreases |steps|
  {
    steps == [] || (Enabled(s, steps[0]) && Legal(Apply(s, steps[0]), steps[1..]))
  }

  function Exec(s: Conn, steps: seq<Step>): Conn
    requires Legal(s, steps)
    decreases |steps|
  {
    if steps == [] then s else Exec(Apply(s, steps[0]), steps[1..])
  }

  // ------------------------------------------------------------------------
  // The invariant
  // ------------------------------------------------------------------------

  ghost function OutSlots(s: Conn): set<nat> {
    set r | r in s.reqs :: Slot(s.reqs[r].uid)
  }

  /** Every slot is in exactly one place: once on one stack, or with one outstanding request. */
  ghost predicate SlotsPartitioned(s: Conn) {
    && (forall x :: 0 <= x < MAX_IDS ==> PoolCount(s.pool, x) == if x in OutSlots(s) then 0 else 1)
    && (forall r, q :: r in s.reqs && q in s.reqs && r != q ==> Slot(s.reqs[r].uid) != Slot(s.reqs[q].uid))
    && PoolSize(s.pool) + |s.reqs| == MAX_IDS
    && Bounded(s.pool)
  }

  /** `request_map` holds exactly the outstanding requests that have been stored, each at its own slot. */
  ghost predicate MapExact(s: Conn) {
    && (forall x :: x in s.reqMap ==>
          var r := s.reqMap[x]; r in s.reqs && Slot(s.reqs[r].uid) == x && s.reqs[r].phase != Held)
    && (forall r :: r in s.reqs && s.reqs[r].phase != Held ==>
          var x := Slot(s.reqs[r].uid); x in s.reqMap && s.reqMap[x] == r)
  }

  /** The lists hold exactly the requests of their phase, each once. */
  ghost predicate ListsExact(s: Conn) {
    && NoDup(s.processing + s.pending)
    && (forall r :: r in s.pending <==> InPhase(s, r, Pending))
    && (forall r :: r in s.processing <==> InPhase(s, r, Processing))
  }

  /** How often slot `x` has been issued. */
  function Times(issued: seq<(Rid, Id)>, x: nat): nat {
    if issued == [] then 0
    else Times(issued[..|issued| - 1], x) + if Slot(issued[|issued| - 1].1) == x then 1 else 0
  }

  ghost function IsCurrent(issued: seq<(Rid, Id)>): Id -> bool {
    (id: Id) => id == IdAt(Slot(id), Times(issued, Slot(id)))
  }

  /** Ids on the stacks and in requests are the latest of their slot; past issues follow the closed form. */
  ghost predicate IdsCurrent(s: Conn) {
    && EachId(s.pool, IsCurrent(s.issued))
    && (forall r :: r in s.reqs ==> IsCurrent(s.issued)(s.reqs[r].uid))
    && IssuedInOrder(s.issued)
  }

  ghost predicate IssuedInOrder(issued: seq<(Rid, Id)>) {
    forall j :: 0 <= j < |issued| ==>
      issued[j].1 != 0 && IsCurrent(issued[..j + 1])(issued[j].1)
  }

  /** Every request issued is issued once, and ended at most once; it is outstanding until ended and returned. */
  ghost predicate HistoryExact(s: Conn) {
    && (forall i, j :: 0 <= i < j < |s.issued| ==> s.issued[i].0 != s.issued[j].0)
    && (forall i, j :: 0 <= i < j < |s.ended| ==> s.ended[i].0 != s.ended[j].0)
    && (forall r :: r in s.reqs ==> (r, s.reqs[r].uid) in s.issued)
    && (forall i :: 0 <= i < |s.ended| ==> s.ended[i].0 in Issued(s))
    && (forall r :: r in Issued(s) ==>
          (Ended(s, r) <==> r !in s.reqs || s.reqs[r].phase.Ending?))
  }

  ghost predicate Ended(s: Conn, r: Rid) {
    exists i :: 0 <= i < |s.ended| && s.ended[i].0 == r
  }

  ghost predicate AbortSafe(s: Conn) {
    && (s.abort != Idle ==> !s.connected && !s.allow)
    && ((s.abort == DrainPending || s.abort == DrainProcessing) ==> forall r :: r in s.reqs ==> s.reqs[r].phase != Admitted)
    && (s.abort == DrainProcessing ==> s.pending == [])
  }

  ghost function Listed(s: Conn): set<Rid> {
    set r | r in s.reqs && OnList(s.reqs[r].phase)
  }

  /** What is queued, oldest first, is the submission order with the finished requests left out. */
  ghost predicate InSubmissionOrder(s: Conn) {
    && NoDup(s.queued)
    && (forall r :: r in s.queued ==> r in Issued(s))
    && (forall r :: r in s.reqs && NotQueued(s.reqs[r].phase) ==> r !in s.queued)
    && s.processing + s.pending == Keep(s.queued, Listed(s))
  }

  /** The part of the invariant about who owns which id. */
  ghost predicate Owners(s: Conn) {
    SlotsPartitioned(s) && MapExact(s) && IdsCurrent(s)
  }

  /** The part of the invariant about lists and history. */
  ghost predicate Queues(s: Conn) {
    ListsExact(s) && HistoryExact(s) && AbortSafe(s) && InSubmissionOrder(s)
  }

  ghost predicate Inv(s: Conn) {
    Owners(s) && Queues(s)
  }
}
