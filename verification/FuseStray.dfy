/**
  Replies the daemon should not send (dev.c): `request_find` accepts the id of a request from the store into
  `request_map` to the clear in `fuse_put_unique`, so a reply can also hit a request that its sender has not queued
  yet, one that a read is still copying out, or one that somebody is ending. Here senders, readers and enders carry
  on with the request they hold, whatever has become of it meanwhile.
 */
module FuseStray {
  import opened Errno
  import opened FuseIds
  import opened Seqs
  import opened FuseProtocol
  import opened FuseSafety
  import opened FuseTheorems

  /** Identity of one pass of a read. */
  type Pass = int

  /** A thread in `fuse_request_send_nowait` after the store: before the flags are read, or about to queue. */
  datatype Sender = Sender(uid: Id, admitted: bool)

  datatype Item = Item(r: Rid, uid: Id)

  /**
    The copy loop of `fuse_dev_do_read`, the lock dropped: the requests its links still lead through, from the one it
    is at to the last of its batch. `peeked`: it has read the link of the one it is at.
   */
  datatype Reader = Reader(todo: seq<Item>, peeked: bool)

  /**
    `enders` are the threads in `request_end` between the end callback and `fuse_put_unique`, with the id they
    will return. `poisoned`: the links of a request were followed after `list_del` had poisoned them.
   */
  datatype World = World(
    conn: Conn,
    senders: map<Rid, Sender>,
    readers: map<Pass, Reader>,
    enders: map<Rid, Id>,
    poisoned: bool)

  /** A step of the protocol other than the read's, or one of a read: take a batch, read a link, copy, fail to copy. */
  datatype WStep = Of(step: Step) | Take(b: Pass, n: nat) | Peek(b: Pass) | Copied(b: Pass) | Fault(b: Pass)

  function WInit(cpus: nat): World {
    World(Init(cpus), map[], map[], map[], false)
  }

  /** Like `Enabled`, but each thread goes by what it remembers, and a reply may name any request. */
  predicate OfEnabled(w: World, step: Step) {
    match step
    case Admit(r) => r in w.senders && !w.senders[r].admitted && (w.conn.connected || w.conn.allow)
    case Enqueue(r) => r in w.senders && w.senders[r].admitted
    case Reject(r) => r in w.senders && !w.senders[r].admitted && !(w.conn.connected || w.conn.allow)
    case Put(r, cpu) => r in w.enders && cpu < |w.conn.pool.cpus|
    case Reply(uid, status, _, cpu) => w.conn.connected && uid != 0 && -1000 < status <= 0 && cpu < |w.conn.pool.cpus|
    case AbortSync => w.conn.abort == Cleared && forall r :: r in w.senders ==> !w.senders[r].admitted
    case ReadMove(_) => false
    case ReadFault(_) => false
    case Release => w.conn.connected && w.readers.Keys == {}
    case _ => Enabled(w.conn, step)
  }

  /** The device is released only when no read is under way on it. */
  predicate WEnabled(w: World, ws: WStep) {
    match ws
    case Of(step) => OfEnabled(w, step)
    case Take(b, n) => b !in w.readers && 0 < n && Enabled(w.conn, ReadMove(n))
    case Peek(b) => b in w.readers && !w.readers[b].peeked
    case Copied(b) => b in w.readers && w.readers[b].peeked && w.readers[b].todo != []
    case Fault(b) => b in w.readers && w.readers[b].peeked && w.readers[b].todo != []
  }

  /** `request_end` up to the end callback, for a request that may be gone. */
  function WEnd(w: World, r: Rid, uid: Id, status: int): World {
    if r in w.conn.reqs then w.(conn := Finish(w.conn, r, status), enders := w.enders[r := uid])
    else
      w.(conn := Unlink(w.conn, r).(ended := w.conn.ended + [(r, status)]), enders := w.enders[r := uid], poisoned := true)
  }

  function WQueue(s: Conn, r: Rid): Conn {
    if r in s.reqs then Queue(s, r) else s.(pending := s.pending + [r], queued := s.queued + [r])
  }

  function WPut(s: Conn, r: Rid, uid: Id, cpu: nat): Conn
    requires cpu < |s.pool.cpus|
  {
    s.(pool := Give(s.pool, cpu, uid), reqMap := s.reqMap - {Slot(uid)}, reqs := s.reqs - {r})
  }

  // ------------------------------------------------------------------------
  // Readers
  // ------------------------------------------------------------------------

  function Hold(s: Conn, rs: seq<Rid>): (todo: seq<Item>)
    ensures |todo| == |rs| && forall i :: 0 <= i < |rs| ==> todo[i].r == rs[i] && (rs[i] in s.reqs ==> todo[i].uid == s.reqs[rs[i]].uid)
  {
    seq(|rs|, i requires 0 <= i < |rs| => Item(rs[i], if rs[i] in s.reqs then s.reqs[rs[i]].uid else 0))
  }

  /** Where `r` is among the requests a reader still has before it; their number if it is not. */
  function Index(todo: seq<Item>, r: Rid): (i: nat)
    ensures i <= |todo| && (i < |todo| ==> todo[i].r == r)
    ensures i == |todo| <==> forall k :: 0 <= k < |todo| ==> todo[k].r != r
  {
    if todo == [] then 0 else if todo[0].r == r then 0 else 1 + Index(todo[1..], r)
  }

  /** Off the list in front of the reader: its links then lead around it, unless it is the last one or has been reached. */
  predicate PassedBy(rd: Reader, i: nat) {
    1 <= i < |rd.todo| - 1 && !(rd.peeked && i == 1)
  }

  /**
    Off the list with links that lead to itself, and no harm done: the reader has read its link already, or will not
    use it, because it is the last one and the reader is at it or about to be.
   */
  predicate MayDangle(rd: Reader, i: nat) {
    (i == 0 && (rd.peeked || |rd.todo| == 1)) || (i == 1 && rd.peeked && |rd.todo| == 2)
  }

  /** A reply to `r` leaves this reader with requests that are there and links that lead to the last of them. */
  predicate Bears(rd: Reader, r: Rid, faulted: bool) {
    var i := Index(rd.todo, r);
    i == |rd.todo| || PassedBy(rd, i) || (faulted && MayDangle(rd, i))
  }

  /** The reader's way once `r` is off the list. */
  function Around(rd: Reader, r: Rid): Reader {
    var i := Index(rd.todo, r);
    if PassedBy(rd, i) then rd.(todo := rd.todo[..i] + rd.todo[i + 1..]) else rd
  }

  function AllAround(readers: map<Pass, Reader>, r: Rid): (out: map<Pass, Reader>)
    ensures out.Keys == readers.Keys && forall b :: b in readers ==> out[b] == Around(readers[b], r)
  {
    map b | b in readers :: Around(readers[b], r)
  }

  /** On to the next request, or out of the loop. */
  function Advance(readers: map<Pass, Reader>, b: Pass): map<Pass, Reader>
    requires b in readers && readers[b].todo != []
  {
    if |readers[b].todo| == 1 then readers - {b} else readers[b := Reader(readers[b].todo[1..], false)]
  }

  // ------------------------------------------------------------------------
  // The steps
  // ------------------------------------------------------------------------

  function OfApply(w: World, step: Step): World
    requires OfEnabled(w, step)
  {
    match step
    case Store(r) => w.(conn := Publish(w.conn, r), senders := w.senders[r := Sender(w.conn.reqs[r].uid, false)])
    case Admit(r) =>
      w.(conn := if r in w.conn.reqs then SetPhase(w.conn, r, Admitted) else w.conn,
         senders := w.senders[r := w.senders[r].(admitted := true)])
    case Enqueue(r) => w.(conn := WQueue(w.conn, r), senders := w.senders - {r})
    case Reject(r) => WEnd(w.(senders := w.senders - {r}), r, w.senders[r].uid, -ENOTCONN)
    case AbortEnd => WEnd(w, DrainHead(w.conn), w.conn.reqs[DrainHead(w.conn)].uid, -ECONNABORTED)
    case Put(r, cpu) => w.(conn := WPut(w.conn, r, w.enders[r], cpu), enders := w.enders - {r})
    case Reply(uid, status, faulted, cpu) =>
      (match Find(w.conn, uid)
       case None => w
       case Some(r) =>
         w.(conn := Answered(w.conn, r, status, faulted, cpu), readers := AllAround(w.readers, r),
            poisoned := w.poisoned || w.conn.reqs[r].phase.Ending?))
    case Get(_, _) => w.(conn := Apply(w.conn, step))
    case Release => w.(conn := Apply(w.conn, step))
    case Open => w.(conn := Apply(w.conn, step))
    case AbortClear => w.(conn := Apply(w.conn, step))
    case AbortSync => w.(conn := Flags(w.conn, w.conn.connected, w.conn.allow, DrainPending))
    case AbortNext => w.(conn := Apply(w.conn, step))
    case AbortDone => w.(conn := Apply(w.conn, step))
  }

  function WApply(w: World, ws: WStep): World
    requires WEnabled(w, ws)
  {
    match ws
    case Of(step) => OfApply(w, step)
    case Take(b, n) =>
      w.(conn := MoveToProcessing(w.conn, n), readers := w.readers[b := Reader(Hold(w.conn, w.conn.pending[..n]), false)])
    case Peek(b) => w.(readers := w.readers[b := w.readers[b].(peeked := true)])
    case Copied(b) => w.(readers := Advance(w.readers, b))
    case Fault(b) =>
      var h := w.readers[b].todo[0];
      WEnd(w.(readers := Advance(w.readers, b)), h.r, h.uid, -EIO)
  }

  // ------------------------------------------------------------------------
  // What a safe world is
  // ------------------------------------------------------------------------

  /** Every sender's request is still there, in the phase the sender believes it to be in; and no others are. */
  ghost predicate SendersMatch(w: World) {
    && (forall r :: r in w.senders <==> Unqueued(w.conn, r))
    && (forall r :: r in w.senders ==>
          w.conn.reqs[r].uid == w.senders[r].uid && (w.senders[r].admitted <==> w.conn.reqs[r].phase == Admitted))
  }

  ghost predicate EndersMatch(w: World) {
    && (forall r :: r in w.enders <==> r in w.conn.reqs && w.conn.reqs[r].phase.Ending?)
    && (forall r :: r in w.enders ==> w.conn.reqs[r].uid == w.enders[r])
  }

  /** The i-th request before a reader is there and on the list, or off it where that does no harm. */
  ghost predicate Grip(s: Conn, rd: Reader, i: nat)
    requires i < |rd.todo|
  {
    var h := rd.todo[i];
    && h.r in s.reqs && s.reqs[h.r].uid == h.uid
    && (s.reqs[h.r].phase == Processing || (s.reqs[h.r].phase == Detached && MayDangle(rd, i)))
  }

  ghost predicate HeldOk(s: Conn, rd: Reader) {
    && rd.todo != []
    && (forall i, j :: 0 <= i < j < |rd.todo| ==> rd.todo[i].r != rd.todo[j].r)
    && (forall i :: 0 <= i < |rd.todo| ==> Grip(s, rd, i))
  }

  predicate Before(rd: Reader, r: Rid) {
    Index(rd.todo, r) < |rd.todo|
  }

  /** No request is before two readers. */
  ghost predicate Apart(readers: map<Pass, Reader>) {
    forall b, c, r :: b in readers && c in readers && Before(readers[b], r) && Before(readers[c], r) ==> b == c
  }

  ghost predicate ReadersMatch(w: World) {
    && (!w.conn.connected ==> w.readers.Keys == {})
    && (forall b :: b in w.readers ==> HeldOk(w.conn, w.readers[b]))
    && Apart(w.readers)
  }

  ghost predicate Safe(w: World) {
    Inv(w.conn) && SendersMatch(w) && ReadersMatch(w) && EndersMatch(w) && !w.poisoned
  }

  /** The step is no reply, or one that finds nobody, or an orderly one that every reader bears. */
  ghost predicate Tame(w: World, ws: WStep) {
    ws.Of? && ws.step.Reply? && Find(w.conn, ws.step.uid).Some? ==>
      var r := Find(w.conn, ws.step.uid).value;
      Orderly(w.conn, r, ws.step.faulted) && forall b :: b in w.readers ==> Bears(w.readers[b], r, ws.step.faulted)
  }

  /** The protocol's step behind a step, if it has one. */
  function Behind(w: World, ws: WStep): Option<Step>
    requires WEnabled(w, ws)
  {
    match ws
    case Of(step) => Some(step)
    case Take(_, n) => Some(ReadMove(n))
    case Fault(b) => Some(ReadFault(w.readers[b].todo[0].r))
    case _ => None
  }

  // ------------------------------------------------------------------------
  // Readers and the steps of others
  // ------------------------------------------------------------------------

  lemma BeforeIsGripped(s: Conn, rd: Reader, r: Rid)
    requires HeldOk(s, rd) && Before(rd, r)
    ensures InPhase(s, r, Processing) || InPhase(s, r, Detached)
  {
    assert Grip(s, rd, Index(rd.todo, r));
  }

  /** Nobody has a request before it that is neither being read nor detached. */
  lemma NotBefore(w: World, r: Rid)
    requires ReadersMatch(w) && !InPhase(w.conn, r, Processing) && !InPhase(w.conn, r, Detached)
    ensures forall b :: b in w.readers ==> !Before(w.readers[b], r)
  {
    forall b | b in w.readers ensures !Before(w.readers[b], r) {
      if Before(w.readers[b], r) {
        BeforeIsGripped(w.conn, w.readers[b], r);
      }
    }
  }

  /** Everybody but `r` keeps its phase and id. */
  ghost predicate OnlyTouches(s: Conn, t: Conn, r: Rid) {
    forall q :: q != r ==> (q in t.reqs <==> q in s.reqs) && (q in s.reqs ==> t.reqs[q] == s.reqs[q])
  }

  lemma HeldUntouched(s: Conn, t: Conn, rd: Reader, r: Rid)
    requires HeldOk(s, rd) && OnlyTouches(s, t, r) && !Before(rd, r)
    ensures HeldOk(t, rd)
  {
    forall i | 0 <= i < |rd.todo| ensures Grip(t, rd, i) {
      assert Grip(s, rd, i) && rd.todo[i].r != r;
    }
  }

  lemma ReadersUntouched(w: World, v: World, r: Rid)
    requires ReadersMatch(w) && v.readers == w.readers && v.conn.connected == w.conn.connected && OnlyTouches(w.conn, v.conn, r)
    requires forall b :: b in w.readers ==> !Before(w.readers[b], r)
    ensures ReadersMatch(v)
  {
    forall b | b in v.readers ensures HeldOk(v.conn, v.readers[b]) {
      HeldUntouched(w.conn, v.conn, w.readers[b], r);
    }
  }

  lemma NoReaders(w: World)
    requires w.readers.Keys == {}
    ensures ReadersMatch(w)
  {
  }

  // ------------------------------------------------------------------------
  // Readers and replies
  // ------------------------------------------------------------------------

  /** `r` has been answered: gone after a complete reply, detached after one whose payload faulted. */
  ghost predicate AnsweredTo(s: Conn, t: Conn, r: Rid, faulted: bool) {
    && OnlyTouches(s, t, r)
    && (if faulted then r in s.reqs && r in t.reqs && t.reqs[r] == s.reqs[r].(phase := Detached) else r !in t.reqs)
  }

  lemma AroundGrips(s: Conn, t: Conn, rd: Reader, r: Rid)
    requires HeldOk(s, rd) && OnlyTouches(s, t, r) && PassedBy(rd, Index(rd.todo, r))
    ensures HeldOk(t, Around(rd, r))
  {
    var i := Index(rd.todo, r);
    var out := Around(rd, r);
    forall k | 0 <= k < |out.todo| ensures Grip(t, out, k) {
      var j := if k < i then k else k + 1;
      assert out.todo[k] == rd.todo[j] && Grip(s, rd, j);
      assert rd.todo[j].r != r;
    }
    forall k, l | 0 <= k < l < |out.todo| ensures out.todo[k].r != out.todo[l].r {
      assert out.todo[k] == rd.todo[if k < i then k else k + 1] && out.todo[l] == rd.todo[if l < i then l else l + 1];
    }
  }

  lemma DangleGrips(s: Conn, t: Conn, rd: Reader, r: Rid)
    requires HeldOk(s, rd) && AnsweredTo(s, t, r, true) && Before(rd, r) && MayDangle(rd, Index(rd.todo, r))
    ensures HeldOk(t, rd)
  {
    forall k | 0 <= k < |rd.todo| ensures Grip(t, rd, k) {
      assert Grip(s, rd, k);
      assert rd.todo[k].r == r ==> k == Index(rd.todo, r);
    }
  }

  lemma BearsHeld(s: Conn, t: Conn, rd: Reader, r: Rid, faulted: bool)
    requires HeldOk(s, rd) && AnsweredTo(s, t, r, faulted) && Bears(rd, r, faulted)
    ensures HeldOk(t, Around(rd, r))
  {
    if !Before(rd, r) {
      HeldUntouched(s, t, rd, r);
    } else if PassedBy(rd, Index(rd.todo, r)) {
      AroundGrips(s, t, rd, r);
    } else {
      DangleGrips(s, t, rd, r);
    }
  }

  lemma NotBornBreaks(s: Conn, t: Conn, rd: Reader, r: Rid, faulted: bool)
    requires HeldOk(s, rd) && AnsweredTo(s, t, r, faulted) && !Bears(rd, r, faulted)
    ensures !HeldOk(t, Around(rd, r))
  {
    var i := Index(rd.todo, r);
    assert Around(rd, r) == rd;
    assert !Grip(t, rd, i);
  }

  lemma AroundBefore(rd: Reader, r: Rid, q: Rid)
    requires Before(Around(rd, r), q)
    ensures Before(rd, q)
  {
    var out := Around(rd, r);
    var k := Index(out.todo, q);
    assert out.todo[k] in rd.todo;
    var j :| 0 <= j < |rd.todo| && rd.todo[j] == out.todo[k];
    assert rd.todo[j].r == q;
  }

  lemma ApartAround(readers: map<Pass, Reader>, r: Rid)
    requires Apart(readers)
    ensures Apart(AllAround(readers, r))
  {
    var out := AllAround(readers, r);
    forall b, c, q | b in out && c in out && Before(out[b], q) && Before(out[c], q) ensures b == c {
      AroundBefore(readers[b], r, q);
      AroundBefore(readers[c], r, q);
    }
  }

  lemma ReplyReaders(w: World, v: World, r: Rid, faulted: bool)
    requires ReadersMatch(w) && AnsweredTo(w.conn, v.conn, r, faulted) && v.readers == AllAround(w.readers, r)
    requires v.conn.connected == w.conn.connected
    ensures ReadersMatch(v) <==> forall b :: b in w.readers ==> Bears(w.readers[b], r, faulted)
  {
    ApartAround(w.readers, r);
    forall b | b in w.readers ensures HeldOk(v.conn, v.readers[b]) <==> Bears(w.readers[b], r, faulted) {
      if Bears(w.readers[b], r, faulted) {
        BearsHeld(w.conn, v.conn, w.readers[b], r, faulted);
      } else {
        NotBornBreaks(w.conn, v.conn, w.readers[b], r, faulted);
      }
    }
  }

  /** Nobody has it before it: the readers' way is what it was. */
  lemma AroundNobody(readers: map<Pass, Reader>, r: Rid)
    requires forall b :: b in readers ==> !Before(readers[b], r)
    ensures AllAround(readers, r) == readers
  {
    forall b | b in readers ensures AllAround(readers, r)[b] == readers[b] {
      assert !Before(readers[b], r);
    }
  }

  // ------------------------------------------------------------------------
  // The steps of readers
  // ------------------------------------------------------------------------

  lemma AdvanceHeld(s: Conn, rd: Reader)
    requires HeldOk(s, rd) && rd.peeked && |rd.todo| > 1
    ensures HeldOk(s, Reader(rd.todo[1..], false))
  {
    var out := Reader(rd.todo[1..], false);
    forall k | 0 <= k < |out.todo| ensures Grip(s, out, k) {
      assert Grip(s, rd, k + 1);
    }
  }

  lemma TailBefore(rd: Reader, q: Rid)
    requires |rd.todo| > 1 && Before(Reader(rd.todo[1..], false), q)
    ensures Before(rd, q)
  {
    var k := Index(rd.todo[1..], q);
    assert rd.todo[k + 1].r == q;
  }

  lemma AdvanceApart(readers: map<Pass, Reader>, b: Pass)
    requires Apart(readers) && b in readers && readers[b].todo != []
    ensures Apart(Advance(readers, b))
    ensures forall c, q :: c in Advance(readers, b) && Before(Advance(readers, b)[c], q) ==> c in readers && Before(readers[c], q)
  {
    var out := Advance(readers, b);
    forall c, q | c in out && Before(out[c], q) ensures c in readers && Before(readers[c], q) {
      if c == b {
        TailBefore(readers[b], q);
      }
    }
    forall c, d, q | c in out && d in out && Before(out[c], q) && Before(out[d], q) ensures c == d {
    }
  }

  lemma CopiedReaders(w: World, b: Pass)
    requires ReadersMatch(w) && WEnabled(w, Copied(b))
    ensures ReadersMatch(WApply(w, Copied(b)))
  {
    var v := WApply(w, Copied(b));
    AdvanceApart(w.readers, b);
    forall c | c in v.readers ensures HeldOk(v.conn, v.readers[c]) {
      if c == b {
        AdvanceHeld(w.conn, w.readers[b]);
      }
    }
  }

  lemma PeekHeld(s: Conn, rd: Reader)
    requires HeldOk(s, rd)
    ensures HeldOk(s, rd.(peeked := true))
  {
    forall k | 0 <= k < |rd.todo| ensures Grip(s, rd.(peeked := true), k) {
      assert Grip(s, rd, k);
    }
  }

  lemma PeekReaders(w: World, b: Pass)
    requires ReadersMatch(w) && WEnabled(w, Peek(b))
    ensures ReadersMatch(WApply(w, Peek(b)))
  {
    var v := WApply(w, Peek(b));
    PeekHeld(w.conn, w.readers[b]);
    forall c, r | c in v.readers ensures Before(v.readers[c], r) <==> Before(w.readers[c], r) {
    }
  }

  /** The request the reader is at: nobody else has it before it, and the reader is past it. */
  lemma FaultReleases(w: World, b: Pass)
    requires ReadersMatch(w) && WEnabled(w, Fault(b))
    ensures var r := w.readers[b].todo[0].r;
            && (InPhase(w.conn, r, Processing) || InPhase(w.conn, r, Detached)) && w.conn.reqs[r].uid == w.readers[b].todo[0].uid
            && forall c :: c in Advance(w.readers, b) ==> !Before(Advance(w.readers, b)[c], r)
  {
    var rd := w.readers[b];
    var r := rd.todo[0].r;
    assert Grip(w.conn, rd, 0) && Before(rd, r);
    AdvanceApart(w.readers, b);
    forall c | c in Advance(w.readers, b) ensures !Before(Advance(w.readers, b)[c], r) {
      if c == b {
        assert forall k :: 0 <= k < |rd.todo[1..]| ==> rd.todo[1..][k] == rd.todo[k + 1];
      }
    }
  }

  lemma FaultReaders(w: World, b: Pass)
    requires ReadersMatch(w) && WEnabled(w, Fault(b))
    ensures ReadersMatch(WApply(w, Fault(b)))
  {
    var r := w.readers[b].todo[0].r;
    FaultReleases(w, b);
    CopiedReaders(w, b);
    ReadersUntouched(WApply(w, Copied(b)), WApply(w, Fault(b)), r);
  }

  lemma TakeHeld(s: Conn, n: nat)
    requires ListsExact(s) && 0 < n <= |s.pending|
    ensures HeldOk(MoveToProcessing(s, n), Reader(Hold(s, s.pending[..n]), false))
  {
    var batch := s.pending[..n];
    var rd := Reader(Hold(s, batch), false);
    var t := MoveToProcessing(s, n);
    forall i | 0 <= i < n ensures Grip(t, rd, i) {
      assert batch[i] in s.pending && InPhase(s, batch[i], Pending);
    }
    forall i, j | 0 <= i < j < n ensures rd.todo[i].r != rd.todo[j].r {
      assert (s.processing + s.pending)[|s.processing| + i] == batch[i] && (s.processing + s.pending)[|s.processing| + j] == batch[j];
    }
  }

  lemma TakeOthers(s: Conn, n: nat, rd: Reader)
    requires ListsExact(s) && n <= |s.pending| && HeldOk(s, rd)
    ensures HeldOk(MoveToProcessing(s, n), rd)
    ensures forall r :: r in s.pending ==> !Before(rd, r)
  {
    forall i | 0 <= i < |rd.todo| ensures Grip(MoveToProcessing(s, n), rd, i) {
      assert Grip(s, rd, i);
      assert !InPhase(s, rd.todo[i].r, Pending);
    }
    forall r | r in s.pending ensures !Before(rd, r) {
      if Before(rd, r) {
        BeforeIsGripped(s, rd, r);
      }
    }
  }

  lemma TakeReaders(w: World, b: Pass, n: nat)
    requires ReadersMatch(w) && ListsExact(w.conn) && WEnabled(w, Take(b, n))
    ensures ReadersMatch(WApply(w, Take(b, n)))
  {
    var v := WApply(w, Take(b, n));
    var batch := w.conn.pending[..n];
    TakeHeld(w.conn, n);
    forall c | c in w.readers ensures HeldOk(v.conn, w.readers[c]) && forall r :: r in w.conn.pending ==> !Before(w.readers[c], r) {
      TakeOthers(w.conn, n, w.readers[c]);
    }
    forall r | Before(v.readers[b], r) ensures r in w.conn.pending {
      assert batch[Index(v.readers[b].todo, r)] == r;
    }
    forall c, d, r | c in v.readers && d in v.readers && Before(v.readers[c], r) && Before(v.readers[d], r) ensures c == d {
    }
  }

  // ------------------------------------------------------------------------
  // Senders and enders
  // ------------------------------------------------------------------------

  ghost predicate ThreadsMatch(w: World) {
    SendersMatch(w) && EndersMatch(w)
  }

  lemma TouchOne(w: World, v: World, r: Rid)
    requires ThreadsMatch(w) && OnlyTouches(w.conn, v.conn, r)
    requires forall q :: q != r ==> (q in v.senders <==> q in w.senders) && (q in w.senders ==> v.senders[q] == w.senders[q])
    requires forall q :: q != r ==> (q in v.enders <==> q in w.enders) && (q in w.enders ==> v.enders[q] == w.enders[q])
    requires r in v.senders <==> Unqueued(v.conn, r)
    requires r in v.senders ==>
      v.conn.reqs[r].uid == v.senders[r].uid && (v.senders[r].admitted <==> v.conn.reqs[r].phase == Admitted)
    requires r in v.enders <==> r in v.conn.reqs && v.conn.reqs[r].phase.Ending?
    requires r in v.enders ==> v.conn.reqs[r].uid == v.enders[r]
    ensures ThreadsMatch(v)
  {
    forall q ensures (q in v.senders <==> Unqueued(v.conn, q)) && (q in v.enders <==> q in v.conn.reqs && v.conn.reqs[q].phase.Ending?) {
      if q != r {
        assert q in w.senders <==> Unqueued(w.conn, q);
      }
    }
  }

  /** Only the phases of listed requests change, and they stay listed. */
  lemma TouchListed(w: World, v: World)
    requires ThreadsMatch(w) && v.senders == w.senders && v.enders == w.enders
    requires v.conn.reqs.Keys == w.conn.reqs.Keys
    requires forall q :: q in w.conn.reqs ==>
      (v.conn.reqs[q] == w.conn.reqs[q] || (OnList(w.conn.reqs[q].phase) && OnList(v.conn.reqs[q].phase)))
    ensures ThreadsMatch(v)
  {
    forall q ensures (q in v.senders <==> Unqueued(v.conn, q)) && (q in v.enders <==> q in v.conn.reqs && v.conn.reqs[q].phase.Ending?) {
      assert q in w.senders <==> Unqueued(w.conn, q);
    }
  }

  lemma NotOut(w: World, r: Rid, cpu: nat)
    requires HistoryExact(w.conn) && Enabled(w.conn, Get(r, cpu))
    ensures r !in w.conn.reqs
  {
    if r in w.conn.reqs {
      OutIsIssued(w.conn, r);
    }
  }

  lemma GetMatches(w: World, r: Rid, cpu: nat)
    requires ThreadsMatch(w) && ReadersMatch(w) && HistoryExact(w.conn) && OfEnabled(w, Get(r, cpu))
    ensures ThreadsMatch(OfApply(w, Get(r, cpu))) && ReadersMatch(OfApply(w, Get(r, cpu)))
  {
    NotOut(w, r, cpu);
    var v := OfApply(w, Get(r, cpu));
    TouchOne(w, v, r);
    NotBefore(w, r);
    ReadersUntouched(w, v, r);
  }

  lemma SenderThreads(w: World, step: Step)
    requires ThreadsMatch(w) && OfEnabled(w, step) && Enabled(w.conn, step)
    requires step.Store? || step.Admit? || step.Enqueue?
    ensures ThreadsMatch(OfApply(w, step))
  {
    TouchOne(w, OfApply(w, step), step.r);
  }

  lemma SenderReaders(w: World, step: Step)
    requires ReadersMatch(w) && OfEnabled(w, step) && Enabled(w.conn, step)
    requires step.Store? || step.Admit? || step.Enqueue?
    ensures ReadersMatch(OfApply(w, step))
  {
    NotBefore(w, step.r);
    ReadersUntouched(w, OfApply(w, step), step.r);
  }

  lemma EndThreads(w: World, r: Rid, status: int)
    requires ThreadsMatch(w) && r in w.conn.reqs && !w.conn.reqs[r].phase.Ending?
    ensures var v := WEnd(w.(senders := w.senders - {r}), r, w.conn.reqs[r].uid, status);
            ThreadsMatch(v) && v.poisoned == w.poisoned
  {
    TouchOne(w, WEnd(w.(senders := w.senders - {r}), r, w.conn.reqs[r].uid, status), r);
  }

  /** The same for a request that has left its sender. */
  lemma EndQueued(w: World, r: Rid, status: int)
    requires ThreadsMatch(w) && r in w.conn.reqs && !w.conn.reqs[r].phase.Ending? && !Unqueued(w.conn, r)
    ensures var v := WEnd(w, r, w.conn.reqs[r].uid, status); ThreadsMatch(v) && v.poisoned == w.poisoned
  {
    assert r !in w.senders;
    assert w.senders - {r} == w.senders;
    assert w.(senders := w.senders - {r}) == w;
    EndThreads(w, r, status);
  }

  lemma RejectMatches(w: World, r: Rid)
    requires ThreadsMatch(w) && ReadersMatch(w) && OfEnabled(w, Reject(r)) && Enabled(w.conn, Reject(r))
    ensures var v := OfApply(w, Reject(r)); ThreadsMatch(v) && ReadersMatch(v) && v.poisoned == w.poisoned
  {
    EndThreads(w, r, -ENOTCONN);
    NotBefore(w, r);
    ReadersUntouched(w, OfApply(w, Reject(r)), r);
  }

  lemma PutMatches(w: World, r: Rid, cpu: nat)
    requires ThreadsMatch(w) && ReadersMatch(w) && OfEnabled(w, Put(r, cpu))
    ensures ThreadsMatch(OfApply(w, Put(r, cpu))) && ReadersMatch(OfApply(w, Put(r, cpu)))
  {
    var v := OfApply(w, Put(r, cpu));
    TouchOne(w, v, r);
    NotBefore(w, r);
    ReadersUntouched(w, v, r);
  }

  lemma ReplyThreads(w: World, step: Step)
    requires ThreadsMatch(w) && step.Reply? && OfEnabled(w, step)
    requires Find(w.conn, step.uid).Some? ==> Orderly(w.conn, Find(w.conn, step.uid).value, step.faulted)
    ensures var v := OfApply(w, step); ThreadsMatch(v) && v.poisoned == w.poisoned
  {
    if Find(w.conn, step.uid).Some? {
      TouchOne(w, OfApply(w, step), Find(w.conn, step.uid).value);
    }
  }

  lemma AnswerAnswers(s: Conn, r: Rid, status: int, faulted: bool, cpu: nat)
    requires Answerable(s, r) && cpu < |s.pool.cpus|
    ensures AnsweredTo(s, Answered(s, r, status, faulted, cpu), r, faulted)
  {
  }

  /** An orderly reply keeps the readers whole exactly if every reader bears it. */
  lemma ReplyReadersExactly(w: World, step: Step, r: Rid)
    requires ReadersMatch(w) && step.Reply? && OfEnabled(w, step) && Find(w.conn, step.uid) == Some(r)
    requires Orderly(w.conn, r, step.faulted)
    ensures ReadersMatch(OfApply(w, step)) <==> forall b :: b in w.readers ==> Bears(w.readers[b], r, step.faulted)
  {
    var v := OfApply(w, step);
    if Answerable(w.conn, r) {
      AnswerAnswers(w.conn, r, step.status, step.faulted, step.cpu);
      ReplyReaders(w, v, r, step.faulted);
    } else {
      NotBefore(w, r);
      AroundNobody(w.readers, r);
      ReadersUntouched(w, v, r);
    }
  }

  /** Without a connection there are no readers, and flags and lists are all that changes. */
  lemma IdleMatches(w: World, step: Step)
    requires ThreadsMatch(w) && ReadersMatch(w) && AbortSafe(w.conn) && ListsExact(w.conn) && OfEnabled(w, step) && Enabled(w.conn, step)
    requires step.Release? || step.Open? || step.AbortClear? || step.AbortSync? || step.AbortNext? || step.AbortDone?
    ensures var v := OfApply(w, step); ThreadsMatch(v) && ReadersMatch(v) && v.poisoned == w.poisoned
  {
    var v := OfApply(w, step);
    NoReaders(v);
    TouchListed(w, v);
  }

  lemma AbortEndMatches(w: World)
    requires ThreadsMatch(w) && ReadersMatch(w) && AbortSafe(w.conn) && ListsExact(w.conn) && OfEnabled(w, AbortEnd)
    ensures var v := OfApply(w, AbortEnd); ThreadsMatch(v) && ReadersMatch(v) && v.poisoned == w.poisoned
  {
    DrainHeadListed(w.conn);
    EndQueued(w, DrainHead(w.conn), -ECONNABORTED);
    NoReaders(OfApply(w, AbortEnd));
  }

  lemma OfMatches(w: World, step: Step)
    requires ThreadsMatch(w) && ReadersMatch(w) && Queues(w.conn) && OfEnabled(w, step) && Tame(w, Of(step)) && Enabled(w.conn, step)
    ensures var v := OfApply(w, step); ThreadsMatch(v) && ReadersMatch(v) && v.poisoned == w.poisoned
  {
    if step.Get? {
      GetMatches(w, step.r, step.cpu);
    } else if step.Store? || step.Admit? || step.Enqueue? {
      SenderThreads(w, step);
      SenderReaders(w, step);
    } else if step.Reject? {
      RejectMatches(w, step.r);
    } else if step.AbortEnd? {
      AbortEndMatches(w);
    } else if step.Put? {
      PutMatches(w, step.r, step.cpu);
    } else if step.Reply? {
      ReplyThreads(w, step);
      if Find(w.conn, step.uid).Some? {
        ReplyReadersExactly(w, step, Find(w.conn, step.uid).value);
      }
    } else {
      IdleMatches(w, step);
    }
  }

  lemma TakeMatches(w: World, b: Pass, n: nat)
    requires ThreadsMatch(w) && ReadersMatch(w) && ListsExact(w.conn) && WEnabled(w, Take(b, n))
    ensures var v := WApply(w, Take(b, n)); ThreadsMatch(v) && ReadersMatch(v)
  {
    ReadRelists(w.conn, n);
    TouchListed(w, WApply(w, Take(b, n)));
    TakeReaders(w, b, n);
  }

  lemma FaultMatches(w: World, b: Pass)
    requires ThreadsMatch(w) && ReadersMatch(w) && WEnabled(w, Fault(b))
    ensures var v := WApply(w, Fault(b)); ThreadsMatch(v) && ReadersMatch(v) && v.poisoned == w.poisoned
  {
    FaultReleases(w, b);
    EndQueued(w.(readers := Advance(w.readers, b)), w.readers[b].todo[0].r, -EIO);
    FaultReaders(w, b);
  }

  lemma TameMatches(w: World, ws: WStep)
    requires ThreadsMatch(w) && ReadersMatch(w) && Queues(w.conn) && WEnabled(w, ws) && Tame(w, ws)
    requires ws.Of? ==> Enabled(w.conn, ws.step)
    ensures var v := WApply(w, ws); ThreadsMatch(v) && ReadersMatch(v) && v.poisoned == w.poisoned
  {
    match ws
    case Of(step) => OfMatches(w, step);
    case Take(b, n) => TakeMatches(w, b, n);
    case Peek(b) => PeekReaders(w, b);
    case Copied(b) => CopiedReaders(w, b);
    case Fault(b) => FaultMatches(w, b);
  }

  // ------------------------------------------------------------------------
  // Tame steps are the protocol's steps
  // ------------------------------------------------------------------------

  lemma OfTameEnabled(w: World, step: Step)
    requires ThreadsMatch(w) && OfEnabled(w, step) && Tame(w, Of(step))
    ensures Enabled(w.conn, step)
  {
    if step.AbortSync? {
      forall r | r in w.conn.reqs ensures w.conn.reqs[r].phase != Admitted {
        assert Unqueued(w.conn, r) ==> r in w.senders;
      }
    }
  }

  predicate OfThread(step: Step) {
    step.Store? || step.Admit? || step.Enqueue? || step.Reject? || step.Put?
  }

  lemma ThreadConn(w: World, step: Step)
    requires ThreadsMatch(w) && OfThread(step) && OfEnabled(w, step) && Enabled(w.conn, step)
    ensures OfApply(w, step).conn == Apply(w.conn, step)
  {
  }

  lemma OtherConn(w: World, step: Step)
    requires !OfThread(step) && OfEnabled(w, step) && Enabled(w.conn, step)
    ensures OfApply(w, step).conn == Apply(w.conn, step)
  {
  }

  lemma FaultConn(w: World, b: Pass)
    requires ReadersMatch(w) && WEnabled(w, Fault(b))
    ensures var r := w.readers[b].todo[0].r; Enabled(w.conn, ReadFault(r)) && WApply(w, Fault(b)).conn == Apply(w.conn, ReadFault(r))
  {
    FaultReleases(w, b);
    assert b in w.readers.Keys;
  }

  /** The protocol's side of a tame step. */
  ghost predicate Follows(w: World, ws: WStep)
    requires WEnabled(w, ws)
  {
    match Behind(w, ws)
    case None => WApply(w, ws).conn == w.conn
    case Some(step) => Enabled(w.conn, step) && WApply(w, ws).conn == Apply(w.conn, step)
  }

  lemma TameFollows(w: World, ws: WStep)
    requires ThreadsMatch(w) && ReadersMatch(w) && WEnabled(w, ws) && Tame(w, ws)
    ensures Follows(w, ws)
  {
    match ws
    case Of(step) =>
      OfTameEnabled(w, step);
      if OfThread(step) {
        ThreadConn(w, step);
      } else {
        OtherConn(w, step);
      }
    case Take(b, n) =>
    case Peek(b) =>
    case Copied(b) =>
    case Fault(b) => FaultConn(w, b);
  }

  lemma FollowsInv(w: World, ws: WStep)
    requires Inv(w.conn) && WEnabled(w, ws) && Follows(w, ws)
    ensures Inv(WApply(w, ws).conn)
  {
    if Behind(w, ws).Some? {
      StepKeepsInv(w.conn, Behind(w, ws).value);
    }
  }

  /** A tame step of a safe world is the protocol's step, or none of its steps, and the world stays safe. */
  lemma TameStep(w: World, ws: WStep)
    requires Safe(w) && WEnabled(w, ws) && Tame(w, ws)
    ensures Follows(w, ws) && Safe(WApply(w, ws))
  {
    TameFollows(w, ws);
    assert Inv(WApply(w, ws).conn) by { FollowsInv(w, ws); }
    TameMatches(w, ws);
  }

  // ------------------------------------------------------------------------
  // Stray replies break it
  // ------------------------------------------------------------------------

  lemma FoundIsStored(s: Conn, uid: Id)
    requires MapExact(s) && Find(s, uid).Some?
    ensures s.reqs[Find(s, uid).value].phase != Held
  {
  }

  /** The sender of a request that was answered too early is left with a request that is gone. */
  lemma EarlyReplyBreaks(w: World, step: Step, r: Rid)
    requires SendersMatch(w) && step.Reply? && OfEnabled(w, step) && !step.faulted
    requires Find(w.conn, step.uid) == Some(r) && Unqueued(w.conn, r)
    ensures !SendersMatch(OfApply(w, step))
  {
    var v := OfApply(w, step);
    assert r in w.senders;
    assert r in v.senders && r !in v.conn.reqs;
  }

  /** A stray reply leaves a sender or a reader with a request that is gone or cannot be got past, or follows poisoned links. */
  lemma StrayBreaks(w: World, ws: WStep)
    requires SendersMatch(w) && ReadersMatch(w) && MapExact(w.conn) && WEnabled(w, ws) && !Tame(w, ws)
    ensures !SendersMatch(WApply(w, ws)) || !ReadersMatch(WApply(w, ws)) || WApply(w, ws).poisoned
  {
    var step := ws.step;
    var r := Find(w.conn, step.uid).value;
    FoundIsStored(w.conn, step.uid);
    if Orderly(w.conn, r, step.faulted) {
      ReplyReadersExactly(w, step, r);
    } else if Unqueued(w.conn, r) {
      EarlyReplyBreaks(w, step, r);
    }
  }

  /** Main theorem: a step keeps a safe world safe if and only if it is no stray reply. */
  lemma SafeExactly(w: World, ws: WStep)
    requires Safe(w) && WEnabled(w, ws)
    ensures Safe(WApply(w, ws)) <==> Tame(w, ws)
  {
    if Tame(w, ws) {
      TameStep(w, ws);
    } else {
      StrayBreaks(w, ws);
    }
  }

  // ------------------------------------------------------------------------
  // Whole runs
  // ------------------------------------------------------------------------

  predicate WLegal(w: World, steps: seq<WStep>)
    decreases |steps|
  {
    steps == [] || (WEnabled(w, steps[0]) && WLegal(WApply(w, steps[0]), steps[1..]))
  }

  function WExec(w: World, steps: seq<WStep>): World
    requires WLegal(w, steps)
    decreases |steps|
  {
    if steps == [] then w else WExec(WApply(w, steps[0]), steps[1..])
  }

  ghost predicate SafeThroughout(w: World, steps: seq<WStep>)
    requires WLegal(w, steps)
    decreases |steps|
  {
    Safe(w) && (steps == [] || SafeThroughout(WApply(w, steps[0]), steps[1..]))
  }

  ghost predicate TameRun(w: World, steps: seq<WStep>)
    requires WLegal(w, steps)
    decreases |steps|
  {
    steps == [] || (Tame(w, steps[0]) && TameRun(WApply(w, steps[0]), steps[1..]))
  }

  lemma FollowsReachable(w: World, ws: WStep)
    requires Reachable(w.conn) && WEnabled(w, ws) && Follows(w, ws)
    ensures Reachable(WApply(w, ws).conn)
  {
    if Behind(w, ws).Some? {
      ReachableStep(w.conn, Behind(w, ws).value);
    }
  }

  /** A run is safe from end to end if and only if it has no stray reply; and then its connection is in a state of the protocol. */
  lemma {:induction false} RunSafeExactly(w: World, steps: seq<WStep>)
    requires Safe(w) && Reachable(w.conn) && WLegal(w, steps)
    ensures SafeThroughout(w, steps) <==> TameRun(w, steps)
    ensures TameRun(w, steps) ==> Safe(WExec(w, steps)) && Reachable(WExec(w, steps).conn)
    decreases |steps|
  {
    if steps != [] {
      SafeExactly(w, steps[0]);
      if Tame(w, steps[0]) {
        TameStep(w, steps[0]);
        FollowsReachable(w, steps[0]);
        RunSafeExactly(WApply(w, steps[0]), steps[1..]);
      }
    }
  }

  lemma InitSafe(cpus: nat)
    ensures Safe(WInit(cpus)) && Reachable(WInit(cpus).conn)
  {
    InitInv(cpus);
    assert Legal(Init(cpus), []) && Exec(Init(cpus), []) == Init(cpus);
  }

  /** So for every run of a new connection. */
  lemma EveryRunSafeExactly(cpus: nat, steps: seq<WStep>)
    requires WLegal(WInit(cpus), steps)
    ensures SafeThroughout(WInit(cpus), steps) <==> TameRun(WInit(cpus), steps)
    ensures TameRun(WInit(cpus), steps) ==> Reachable(WExec(WInit(cpus), steps).conn)
  {
    InitSafe(cpus);
    RunSafeExactly(WInit(cpus), steps);
  }

  // ------------------------------------------------------------------------
  // Requests that readers hold
  // ------------------------------------------------------------------------

  /** A complete reply to the request a read is at is stray; so is one that faults before the read is past its link. */
  lemma ReplyUnderReader(w: World, b: Pass, step: Step)
    requires ReadersMatch(w) && b in w.readers && step.Reply? && Find(w.conn, step.uid) == Some(w.readers[b].todo[0].r)
    ensures !step.faulted || (!w.readers[b].peeked && |w.readers[b].todo| > 1) ==> !Tame(w, Of(step))
  {
    var rd := w.readers[b];
    assert HeldOk(w.conn, rd);
    assert Index(rd.todo, rd.todo[0].r) == 0;
  }

  /** Nobody but a complete reply with its id moves a detached request that no read is copying, and no read takes it up again. */
  lemma UnheldStaysOut(w: World, ws: WStep, r: Rid)
    requires Safe(w) && WEnabled(w, ws) && Tame(w, ws) && InPhase(w.conn, r, Detached)
    requires forall b :: b in w.readers ==> !Before(w.readers[b], r)
    requires ws.Of? && ws.step.Reply? && ws.step.uid == w.conn.reqs[r].uid ==> ws.step.faulted
    ensures var v := WApply(w, ws);
            InPhase(v.conn, r, Detached) && v.conn.reqs[r].uid == w.conn.reqs[r].uid && forall b :: b in v.readers ==> !Before(v.readers[b], r)
  {
    TameFollows(w, ws);
    UnheldStaysDetached(w, ws, r);
    UnheldStaysUnheld(w, ws, r);
  }

  lemma UnheldStaysDetached(w: World, ws: WStep, r: Rid)
    requires Queues(w.conn) && WEnabled(w, ws) && Follows(w, ws) && InPhase(w.conn, r, Detached)
    requires forall b :: b in w.readers ==> !Before(w.readers[b], r)
    requires ws.Of? && ws.step.Reply? && ws.step.uid == w.conn.reqs[r].uid ==> ws.step.faulted
    ensures InPhase(WApply(w, ws).conn, r, Detached) && WApply(w, ws).conn.reqs[r].uid == w.conn.reqs[r].uid
  {
    assert !InPhase(w.conn, r, Pending) && !InPhase(w.conn, r, Processing);
    if ws.Of? && ws.step.Get? {
      NotOut(w, ws.step.r, ws.step.cpu);
    }
    if ws.Fault? {
      assert Before(w.readers[ws.b], w.readers[ws.b].todo[0].r);
    }
    if Behind(w, ws).Some? {
      DetachedStep(w.conn, Behind(w, ws).value, r);
    }
  }

  lemma UnheldStaysUnheld(w: World, ws: WStep, r: Rid)
    requires ReadersMatch(w) && ListsExact(w.conn) && WEnabled(w, ws) && InPhase(w.conn, r, Detached)
    requires forall b :: b in w.readers ==> !Before(w.readers[b], r)
    ensures forall b :: b in WApply(w, ws).readers ==> !Before(WApply(w, ws).readers[b], r)
  {
    var v := WApply(w, ws);
    forall b | b in v.readers ensures !Before(v.readers[b], r) {
      match ws
      case Of(step) =>
        if step.Reply? && Find(w.conn, step.uid).Some? && Before(v.readers[b], r) {
          AroundBefore(w.readers[b], Find(w.conn, step.uid).value, r);
        }
      case Take(c, n) =>
        assert !InPhase(w.conn, r, Pending);
        assert r !in w.conn.pending[..n];
      case Peek(c) =>
        assert !Before(w.readers[b], r);
      case Copied(c) => AdvanceApart(w.readers, c);
      case Fault(c) => AdvanceApart(w.readers, c);
    }
  }

  // ------------------------------------------------------------------------
  // Three stray replies
  // ------------------------------------------------------------------------

  ghost predicate WReachable(w: World) {
    exists cpus: nat, steps: seq<WStep> :: WLegal(WInit(cpus), steps) && WExec(WInit(cpus), steps) == w
  }

  lemma {:induction false} WAppend(w: World, steps: seq<WStep>, ws: WStep)
    requires WLegal(w, steps) && WEnabled(WExec(w, steps), ws)
    ensures WLegal(w, steps + [ws]) && WExec(w, steps + [ws]) == WApply(WExec(w, steps), ws)
    decreases |steps|
  {
    if steps == [] {
      assert steps + [ws] == [ws] && [ws][1..] == [];
    } else {
      assert (steps + [ws])[1..] == steps[1..] + [ws];
      WAppend(WApply(w, steps[0]), steps[1..], ws);
    }
  }

  lemma WReach(w: World, ws: WStep) returns (v: World)
    requires WReachable(w) && WEnabled(w, ws)
    ensures WReachable(v) && v == WApply(w, ws)
  {
    var cpus: nat, steps: seq<WStep> :| WLegal(WInit(cpus), steps) && WExec(WInit(cpus), steps) == w;
    WAppend(WInit(cpus), steps, ws);
    v := WApply(w, ws);
  }

  /** One CPU, the daemon connected, one request with an id. */
  lemma HoldOne() returns (w: World)
    ensures WReachable(w) && 0 in w.conn.reqs && w.conn.reqs[0].uid != 0
    ensures w == World(Conn(w.conn.pool, map[], map[0 := Req(w.conn.reqs[0].uid, Phase.Held)], [], [], true, true, Idle,
                            w.conn.issued, [], []), map[], map[], map[], false)
    ensures |w.conn.pool.cpus| == 1
  {
    var i := WInit(1);
    assert WLegal(WInit(1), []) && WExec(WInit(1), []) == i;
    var o := WReach(i, Of(Open));
    assert o.conn.pool == i.conn.pool && Available(o.conn.pool, 0);
    TakeRemoves(o.conn.pool, 0, 0);
    w := WReach(o, Of(Get(0, 0)));
  }

  /** One request in phase `phase`, in the map and on the lists as that phase says. */
  ghost predicate One(w: World, uid: Id, phase: Phase, pending: seq<Rid>, processing: seq<Rid>) {
    && w.conn.reqs == map[0 := Req(uid, phase)] && w.conn.reqMap == map[Slot(uid) := 0]
    && w.conn.pending == pending && w.conn.processing == processing && w.conn.ended == []
    && w.conn.connected && |w.conn.pool.cpus| == 1 && w.enders == map[] && uid != 0
  }

  lemma StoreOne() returns (w: World, uid: Id)
    ensures WReachable(w) && One(w, uid, Stored, [], []) && w.senders == map[0 := Sender(uid, false)] && w.readers == map[]
  {
    w := HoldOne();
    uid := w.conn.reqs[0].uid;
    w := WReach(w, Of(Store(0)));
  }

  lemma AdmitOne() returns (w: World, uid: Id)
    ensures WReachable(w) && One(w, uid, Admitted, [], []) && w.senders == map[0 := Sender(uid, true)] && w.readers == map[]
  {
    w, uid := StoreOne();
    w := WReach(w, Of(Admit(0)));
  }

  lemma QueueOne() returns (w: World, uid: Id)
    ensures WReachable(w) && One(w, uid, Pending, [0], []) && w.readers == map[]
  {
    w, uid := AdmitOne();
    w := WReach(w, Of(Enqueue(0)));
  }

  lemma MoveOne(s: Conn, uid: Id)
    requires s.reqs == map[0 := Req(uid, Pending)] && s.pending == [0] && s.processing == []
    ensures var t := MoveToProcessing(s, 1);
            && t.reqs == map[0 := Req(uid, Processing)] && t.pending == [] && t.processing == [0]
            && Hold(s, s.pending[..1]) == [Item(0, uid)]
  {
    assert s.pending[..1] == [0];
  }

  /** A read is at that request and has read its link. */
  lemma ReadOne() returns (w: World, uid: Id)
    ensures WReachable(w) && One(w, uid, Processing, [], [0]) && w.readers == map[5 := Reader([Item(0, uid)], true)]
  {
    w, uid := QueueOne();
    MoveOne(w.conn, uid);
    w := WReach(w, Take(5, 1));
    w := WReach(w, Peek(5));
  }

  /** A request ended with -EIO because its copy to the daemon faulted is answered before its id is back: ended twice. */
  lemma EndedTwice() returns (w: World)
    ensures WReachable(w) && w.conn.ended == [(0, -EIO), (0, 0)] && w.poisoned
  {
    var uid;
    w, uid := FaultOne();
    w := WReach(w, Of(Reply(uid, 0, false, 0)));
  }

  lemma FaultOne() returns (w: World, uid: Id)
    ensures WReachable(w) && w.conn.reqs == map[0 := Req(uid, Ending(-EIO))] && w.conn.reqMap == map[Slot(uid) := 0]
    ensures w.conn.ended == [(0, -EIO)] && w.conn.connected && |w.conn.pool.cpus| == 1 && uid != 0
  {
    w, uid := ReadOne();
    w := WReach(w, Fault(5));
  }

  lemma AnsweredWhileRead() returns (w: World, uid: Id)
    ensures WReachable(w) && w.conn.ended == [(0, 0)] && w.conn.reqs == map[] && w.readers == map[5 := Reader([Item(0, uid)], true)]
    ensures |w.conn.pool.cpus| == 1 && PoolCount(w.conn.pool, Slot(uid)) >= 1
  {
    w, uid := ReadOne();
    GiveAdds(w.conn.pool, 0, uid, Slot(uid));
    w := WReach(w, Of(Reply(uid, 0, false, 0)));
  }

  /** A request answered while a read copies it out, and the copy then faults: ended twice, its id on the free stacks twice. */
  lemma EndedUnderReader() returns (w: World, uid: Id)
    ensures WReachable(w) && w.conn.ended == [(0, 0), (0, -EIO)] && w.poisoned && PoolCount(w.conn.pool, Slot(uid)) >= 2
  {
    w, uid := AnsweredWhileRead();
    w := WReach(w, Fault(5));
    GiveAdds(w.conn.pool, 0, uid, Slot(uid));
    w := WReach(w, Of(Put(0, 0)));
  }

  /** A request answered before its sender queued it: ended, its id free again, and on the pending list for good. */
  lemma QueuedAfterItsEnd() returns (w: World, uid: Id)
    ensures WReachable(w) && w.conn.ended == [(0, 0)] && w.conn.pending == [0] && 0 !in w.conn.reqs
    ensures PoolCount(w.conn.pool, Slot(uid)) >= 1
  {
    w, uid := StoreOne();
    GiveAdds(w.conn.pool, 0, uid, Slot(uid));
    w := WReach(w, Of(Reply(uid, 0, false, 0)));
    w := WReach(w, Of(Admit(0)));
    w := WReach(w, Of(Enqueue(0)));
  }
}
