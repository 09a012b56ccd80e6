/** What the invariant of the FUSE protocol means for its users, over all runs. */
module FuseTheorems {
  import opened Errno
  import opened FuseIds
  import opened Seqs
  import opened FuseProtocol
  import opened FuseSafety

  // ------------------------------------------------------------------------
  // Allocator
  // ------------------------------------------------------------------------

  /** As long as few enough requests are outstanding, no CPU can find the pool empty. */
  lemma PoolNeverEmpty(s: Conn, cpu: nat)
    requires Reachable(s) && cpu < |s.pool.cpus|
    requires |s.reqs| + MAX_PER_CPU * (|s.pool.cpus| - 1) < MAX_IDS
    ensures Available(s.pool, cpu)
  {
    assert SlotsPartitioned(s) by { ReachableIsSafe(s); }
    SumLenBounds(s.pool.cpus, cpu);
  }

  /** The spill assertion of `fuse_put_unique` holds: the upper half of a full CPU stack fits onto the global one. */
  lemma SpillAlwaysFits(s: Conn, cpu: nat)
    requires Reachable(s) && cpu < |s.pool.cpus|
    ensures |s.pool.cpus[cpu]| <= MAX_PER_CPU
    ensures |s.pool.cpus[cpu]| == MAX_PER_CPU ==> |s.pool.free| + HALF <= MAX_IDS
  {
    assert SlotsPartitioned(s) by { ReachableIsSafe(s); }
    SumLenBounds(s.pool.cpus, cpu);
  }

  // ------------------------------------------------------------------------
  // Ids
  // ------------------------------------------------------------------------

  ghost predicate AllDistinct(issued: seq<(Rid, Id)>) {
    forall i, j :: 0 <= i < j < |issued| ==> issued[i].1 != issued[j].1
  }

  /** No slot has been issued more often than it has generations. */
  ghost predicate WithinPeriod(issued: seq<(Rid, Id)>) {
    forall x :: 0 <= x < MAX_IDS ==> Times(issued, x) <= Period(x)
  }

  lemma {:induction false} TimesGrows(issued: seq<(Rid, Id)>, i: nat, j: nat, x: nat)
    requires i <= j <= |issued|
    ensures Times(issued[..i], x) <= Times(issued[..j], x)
    ensures i < j && Slot(issued[j - 1].1) == x ==> Times(issued[..i], x) < Times(issued[..j], x)
    decreases j
  {
    if i < j {
      assert issued[..j][..j - 1] == issued[..j - 1];
      TimesGrows(issued, i, j - 1, x);
    }
  }

  /** The k-th issue of a slot is somewhere in the history. */
  lemma {:induction false} KthIssue(issued: seq<(Rid, Id)>, x: nat, k: nat) returns (j: nat)
    requires 1 <= k <= Times(issued, x)
    ensures j < |issued| && Slot(issued[j].1) == x && Times(issued[..j + 1], x) == k
    decreases |issued|
  {
    var last := |issued| - 1;
    var rest := issued[..last];
    if Slot(issued[last].1) == x && Times(issued, x) == k {
      j := last;
      assert issued[..j + 1] == issued;
    } else {
      j := KthIssue(rest, x, k);
      assert rest[..j + 1] == issued[..j + 1];
    }
  }

  lemma SmallResidues(k: nat, k': nat, p: nat)
    requires 1 <= k < k' <= p
    ensures k % p != k' % p
  {
    if k' == p {
      Residue(k', p, 1, 0);
      Residue(k, p, 0, k);
    } else {
      Residue(k, p, 0, k);
      Residue(k', p, 0, k');
    }
  }

  lemma TimesMore(issued: seq<(Rid, Id)>, i: nat, j: nat, x: nat)
    requires i < j < |issued| && Slot(issued[j].1) == x
    ensures Times(issued[..i + 1], x) < Times(issued[..j + 1], x)
  {
    TimesGrows(issued, i + 1, j + 1, x);
  }

  lemma TimesPositive(issued: seq<(Rid, Id)>, i: nat, x: nat)
    requires i < |issued| && Slot(issued[i].1) == x
    ensures 1 <= Times(issued[..i + 1], x)
  {
    TimesGrows(issued, i, i + 1, x);
  }

  lemma TimesWhole(issued: seq<(Rid, Id)>, j: nat, x: nat)
    requires j <= |issued|
    ensures Times(issued[..j], x) <= Times(issued, x)
  {
    TimesGrows(issued, j, |issued|, x);
    assert issued[..|issued|] == issued;
  }

  lemma DistinctIssues(x: nat, k: nat, k': nat)
    requires x < MAX_IDS && 1 <= k < k' <= Period(x)
    ensures IdAt(x, k) != IdAt(x, k')
  {
    SmallResidues(k, k', Period(x));
    IdsRepeatExactly(x, k, x, k');
  }

  lemma DistinctPair(issued: seq<(Rid, Id)>, i: nat, j: nat)
    requires IssuedInOrder(issued) && WithinPeriod(issued) && i < j < |issued|
    ensures issued[i].1 != issued[j].1
  {
    var x := Slot(issued[i].1);
    if x == Slot(issued[j].1) {
      var k, k' := Times(issued[..i + 1], x), Times(issued[..j + 1], x);
      assert 1 <= k by { TimesPositive(issued, i, x); }
      assert k < k' by { TimesMore(issued, i, j, x); }
      assert k' <= Period(x) by { TimesWhole(issued, j + 1, x); }
      assert IsCurrent(issued[..i + 1])(issued[i].1) && IsCurrent(issued[..j + 1])(issued[j].1);
      DistinctIssues(x, k, k');
    }
  }

  lemma RepeatAfterPeriod(issued: seq<(Rid, Id)>, x: nat)
    requires IssuedInOrder(issued) && x < MAX_IDS && Times(issued, x) > Period(x)
    ensures !AllDistinct(issued)
  {
    var p := Period(x);
    var i := KthIssue(issued, x, 1);
    var j := KthIssue(issued, x, p + 1);
    Residue(p + 1, p, 1, 1);
    Residue(1, p, 0, 1);
    IdsRepeatExactly(x, 1, x, p + 1);
    assert issued[i].1 == issued[j].1;
    assert i != j;
  }

  /** All ids ever issued are nonzero; they are pairwise distinct exactly as long as no slot wrapped. */
  lemma IdsDistinctExactly(s: Conn)
    requires Reachable(s)
    ensures forall i :: 0 <= i < |s.issued| ==> s.issued[i].1 != 0
    ensures AllDistinct(s.issued) <==> WithinPeriod(s.issued)
  {
    assert IssuedInOrder(s.issued) by { ReachableIsSafe(s); }
    if WithinPeriod(s.issued) {
      forall i, j | 0 <= i < j < |s.issued| ensures s.issued[i].1 != s.issued[j].1 {
        DistinctPair(s.issued, i, j);
      }
    } else {
      var x :| 0 <= x < MAX_IDS && Times(s.issued, x) > Period(x);
      RepeatAfterPeriod(s.issued, x);
    }
  }

  // ------------------------------------------------------------------------
  // Looking up a reply
  // ------------------------------------------------------------------------

  /** `request_find` returns a request exactly when it is outstanding, stored, and carries that id. */
  lemma FindExact(s: Conn, uid: Id, r: Rid)
    requires Reachable(s)
    ensures Find(s, uid) == Some(r) <==> r in s.reqs && s.reqs[r].phase != Held && s.reqs[r].uid == uid
  {
    assert MapExact(s) by { ReachableIsSafe(s); }
  }

  /** A reply reaches the request its id was issued to, or nobody; never another one, and none that has been returned. */
  lemma ReplyNeverMisdirected(s: Conn, q: Rid, uid: Id)
    requires Reachable(s) && (q, uid) in s.issued && WithinPeriod(s.issued)
    ensures Find(s, uid) == None || Find(s, uid) == Some(q)
    ensures q !in s.reqs ==> Find(s, uid) == None
  {
    if Find(s, uid).Some? {
      var r := Find(s, uid).value;
      assert (r, uid) in s.issued by { ReachableIsSafe(s); }
      assert AllDistinct(s.issued) by { IdsDistinctExactly(s); }
      var i :| 0 <= i < |s.issued| && s.issued[i] == (q, uid);
      var j :| 0 <= j < |s.issued| && s.issued[j] == (r, uid);
      assert i == j;
    }
  }

  /** The clear in `fuse_put_unique`, late as it is, leaves every other stored request findable. */
  lemma LateClearIsHarmless(s: Conn, r: Rid, cpu: nat, p: Rid)
    requires Reachable(s) && Enabled(s, Put(r, cpu))
    requires p in s.reqs && p != r && s.reqs[p].phase != Held
    ensures Find(Apply(s, Put(r, cpu)), s.reqs[p].uid) == Some(p)
  {
    var t := Apply(s, Put(r, cpu));
    assert MapExact(t) by {
      assert SlotsPartitioned(s) && MapExact(s) by { ReachableIsSafe(s); }
      MapFree(s, r, cpu);
    }
    assert p in t.reqs && t.reqs[p] == s.reqs[p];
  }

  // ------------------------------------------------------------------------
  // Order
  // ------------------------------------------------------------------------

  function Queued(s: Conn): seq<Rid> {
    s.processing + s.pending
  }

  lemma UnlinkQueued(s: Conn, r: Rid)
    ensures Queued(Unlink(s, r)) == Without(Queued(s), r)
  {
    WithoutConcat(s.processing, s.pending, r);
    if r !in Queued(s) {
      assert Without(Queued(s), r) == Queued(s);
    }
  }

  /** The request a step ends or detaches, if it may be on a list. */
  function Removed(s: Conn, step: Step): Option<Rid>
    requires Enabled(s, step)
  {
    match step
    case ReadFault(r) => Some(r)
    case Reply(uid, _, _, _) => Find(s, uid)
    case AbortEnd => Some(DrainHead(s))
    case _ => None
  }

  lemma UnlistedUnlink(s: Conn, r: Rid)
    requires ListsExact(s) && !InPhase(s, r, Pending) && !InPhase(s, r, Processing)
    ensures Queued(Unlink(s, r)) == Queued(s) && Without(Queued(s), r) == Queued(s)
  {
    assert r !in s.pending && r !in s.processing;
  }

  lemma ReplyQueue(s: Conn, step: Step)
    requires ListsExact(s) && Enabled(s, step) && step.Reply?
    ensures Queued(Apply(s, step)) == if Find(s, step.uid).None? then Queued(s) else Without(Queued(s), Find(s, step.uid).value)
  {
    if Find(s, step.uid).Some? {
      var r := Find(s, step.uid).value;
      UnlinkQueued(s, r);
      if !Answerable(s, r) {
        UnlistedUnlink(s, r);
      }
    }
  }

  /** Sending appends; ending and detaching take out that one request; every other step leaves the queue alone. */
  lemma QueueStep(s: Conn, step: Step)
    requires ListsExact(s) && Enabled(s, step)
    ensures Queued(Apply(s, step)) ==
      if step.Enqueue? then Queued(s) + [step.r]
      else if Removed(s, step).Some? then Without(Queued(s), Removed(s, step).value)
      else Queued(s)
  {
    match step
    case Get(r, cpu) =>
    case Store(r) =>
    case Admit(r) =>
    case Enqueue(r) => assert Queued(Queue(s, r)) == Queued(s) + [r];
    case Reject(r) => UnlistedUnlink(s, r);
    case ReadMove(n) => ListsRead(s, n);
    case ReadFault(r) => UnlinkQueued(s, r);
    case Reply(uid, status, faulted, cpu) => ReplyQueue(s, step);
    case Put(r, cpu) =>
    case Release =>
    case Open => ListsRestart(s);
    case AbortClear =>
    case AbortSync =>
    case AbortEnd => UnlinkQueued(s, DrainHead(s));
    case AbortNext =>
    case AbortDone =>
  }

  /** Daemon restarts included: the queue is the submission order minus what was taken out. */
  lemma OrderAcrossRestarts(s: Conn)
    requires Reachable(s)
    ensures NoDup(s.queued) && Queued(s) == Keep(s.queued, Listed(s))
  {
    ReachableIsSafe(s);
  }

  // ------------------------------------------------------------------------
  // Abort
  // ------------------------------------------------------------------------

  predicate DrainStage(s: Conn) {
    s.abort == DrainPending || s.abort == DrainProcessing
  }

  predicate AbortWork(step: Step) {
    step.AbortEnd? || step.AbortNext? || step.AbortDone?
  }

  /** Steps of the abort worker still needed before it is done. */
  function Remaining(s: Conn): nat {
    if s.abort == DrainPending then |s.pending| + |s.processing| + 2
    else if s.abort == DrainProcessing then |s.processing| + 1
    else 0
  }

  lemma AbortNeverStuck(s: Conn)
    requires Reachable(s) && DrainStage(s)
    ensures Enabled(s, AbortEnd) || Enabled(s, AbortNext) || Enabled(s, AbortDone)
  {
    if Draining(s) {
      assert ListsExact(s) by { ReachableIsSafe(s); }
      DrainHeadListed(s);
    }
  }

  lemma DrainEnd(s: Conn)
    requires ListsExact(s) && AbortSafe(s) && Enabled(s, AbortEnd)
    ensures Remaining(Apply(s, AbortEnd)) == Remaining(s) - 1
    ensures forall r :: r != DrainHead(s) && r in Queued(s) ==> r in Queued(Apply(s, AbortEnd))
  {
    NoDupParts(s.processing, s.pending);
    if s.abort == DrainPending {
      WithoutHead(s.pending);
      NoDupSplit(s.processing, s.pending, 0, s.pending[0]);
    } else {
      WithoutHead(s.processing);
    }
  }

  lemma NoDupParts<T>(a: seq<T>, b: seq<T>)
    requires NoDup(a + b)
    ensures NoDup(a) && NoDup(b)
  {
    forall i, j | 0 <= i < j < |b| ensures b[i] != b[j] {
      assert b[i] == (a + b)[|a| + i] && b[j] == (a + b)[|a| + j];
    }
    forall i, j | 0 <= i < j < |a| ensures a[i] != a[j] {
      assert a[i] == (a + b)[i] && a[j] == (a + b)[j];
    }
  }

  /** While the abort drains, only its own steps touch the lists; each takes one step off the remaining work. */
  lemma DrainStep(s: Conn, step: Step)
    requires ListsExact(s) && AbortSafe(s) && DrainStage(s) && Enabled(s, step)
    ensures var t := Apply(s, step);
            if AbortWork(step) then Remaining(t) == Remaining(s) - 1 && (DrainStage(t) <==> step != AbortDone)
            else t.abort == s.abort && t.pending == s.pending && t.processing == s.processing && Remaining(t) == Remaining(s)
  {
    if step == AbortEnd {
      DrainEnd(s);
    } else if step.Reject? {
      assert step.r !in s.pending && step.r !in s.processing;
    }
  }

  function AbortWorkIn(steps: seq<Step>): nat {
    if steps == [] then 0 else (if AbortWork(steps[0]) then 1 else 0) + AbortWorkIn(steps[1..])
  }

  /** Already ended by an abort, or on a list. */
  ghost predicate AbortedOrListed(s: Conn, r: Rid) {
    (r, -ECONNABORTED) in s.ended || r in Queued(s)
  }

  lemma DrainKeepsAborted(s: Conn, step: Step, r: Rid)
    requires ListsExact(s) && AbortSafe(s) && DrainStage(s) && Enabled(s, step) && AbortedOrListed(s, r)
    ensures AbortedOrListed(Apply(s, step), r)
  {
    var t := Apply(s, step);
    if (r, -ECONNABORTED) in s.ended {
      EndedGrows(s, step);
      var i :| 0 <= i < |s.ended| && s.ended[i] == (r, -ECONNABORTED);
      assert t.ended[i] == (r, -ECONNABORTED);
    } else if step == AbortEnd {
      DrainEnd(s);
      assert t.ended[|s.ended|] == (DrainHead(s), -ECONNABORTED);
    } else {
      DrainStep(s, step);
    }
  }

  lemma EndedGrows(s: Conn, step: Step)
    requires Enabled(s, step)
    ensures s.ended <= Apply(s, step).ended
  {
  }

  /**
    The abort drains: from the moment `synchronize_rcu` returned, in every interleaving with senders, the abort
    worker finishes after exactly one step per listed request and two more; then both lists are empty and every
    request that was listed has been ended with -ECONNABORTED (and, by EndedOnce, not a second time).
   */
  lemma {:induction false} AbortDrains(s: Conn, steps: seq<Step>)
    requires Reachable(s) && DrainStage(s) && Legal(s, steps) && AbortDone !in steps
    requires Enabled(Exec(s, steps), AbortDone)
    ensures Queued(Exec(s, steps)) == []
    ensures AbortWorkIn(steps) == Remaining(s) - 1
    ensures forall r: Rid :: AbortedOrListed(s, r) ==> (r, -ECONNABORTED) in Exec(s, steps).ended
    decreases |steps|
  {
    assert ListsExact(s) && AbortSafe(s) by { ReachableIsSafe(s); }
    if steps == [] {
      assert Queued(s) == [];
    } else {
      var step := steps[0];
      assert step != AbortDone;
      var s' := Apply(s, step);
      ReachableStep(s, step);
      DrainStep(s, step);
      AbortDrains(s', steps[1..]);
      forall r: Rid | AbortedOrListed(s, r) ensures AbortedOrListed(s', r) {
        DrainKeepsAborted(s, step, r);
      }
    }
  }

  /** What the abort leaves outstanding: requests not yet past the flag check, detached ones, and ids on their way back. */
  lemma OutstandingAfterAbort(s: Conn, r: Rid)
    requires Reachable(s) && Enabled(s, AbortDone) && r in Apply(s, AbortDone).reqs
    ensures var phase := Apply(s, AbortDone).reqs[r].phase;
            phase == Held || phase == Stored || phase == Detached || phase.Ending?
  {
    assert ListsExact(s) && AbortSafe(s) by { ReachableIsSafe(s); }
    assert !InPhase(s, r, Pending) && !InPhase(s, r, Processing);
  }

  lemma DetachedReply(s: Conn, step: Step, r: Rid)
    requires Enabled(s, step) && InPhase(s, r, Detached) && step.Reply? && (step.uid == s.reqs[r].uid ==> step.faulted)
    ensures InPhase(Apply(s, step), r, Detached) && Apply(s, step).reqs[r].uid == s.reqs[r].uid
  {
  }

  lemma DetachedSend(s: Conn, step: Step, r: Rid)
    requires Enabled(s, step) && InPhase(s, r, Detached) && r !in s.pending && r !in s.processing
    requires step.Get? || step.Store? || step.Admit? || step.Enqueue? || step.Reject? || step.ReadFault? || step.Put?
    requires step.Get? || step.ReadFault? ==> step.r != r
    ensures InPhase(Apply(s, step), r, Detached) && Apply(s, step).reqs[r].uid == s.reqs[r].uid
  {
  }

  /** Nothing but a complete reply with its id, or the fault of a read that is still copying it, moves a detached request. */
  lemma DetachedStep(s: Conn, step: Step, r: Rid)
    requires Enabled(s, step) && InPhase(s, r, Detached) && r !in s.pending && r !in s.processing
    requires (step.Get? || step.ReadFault? ==> step.r != r) && (step.Reply? && step.uid == s.reqs[r].uid ==> step.faulted)
    ensures InPhase(Apply(s, step), r, Detached) && Apply(s, step).reqs[r].uid == s.reqs[r].uid
  {
    if step.Reply? {
      DetachedReply(s, step, r);
    } else if step.Get? || step.Store? || step.Admit? || step.Enqueue? || step.Reject? || step.ReadFault? || step.Put? {
      DetachedSend(s, step, r);
    } else if step.ReadMove? {
      assert r !in s.pending[..step.n];
    } else if step.AbortEnd? {
      assert DrainHead(s) in s.pending || DrainHead(s) in s.processing;
    }
  }

  lemma DetachedIsOut(s: Conn, r: Rid)
    requires Reachable(s) && InPhase(s, r, Detached)
    ensures PoolCount(s.pool, Slot(s.reqs[r].uid)) == 0 && r in Issued(s) && r !in s.pending && r !in s.processing
  {
    assert SlotsPartitioned(s) && ListsExact(s) && HistoryExact(s) by { ReachableIsSafe(s); }
    OutIsIssued(s, r);
    assert Slot(s.reqs[r].uid) in OutSlots(s);
    assert !InPhase(s, r, Pending) && !InPhase(s, r, Processing);
  }

  /**
    A detached request, and its slot, stay out through aborts and restarts until a complete reply with its id, or the
    fault of a read that was still copying it when it was detached.
   */
  lemma {:induction false} DetachedStaysOut(s: Conn, steps: seq<Step>, r: Rid)
    requires Reachable(s) && Legal(s, steps) && InPhase(s, r, Detached)
    requires forall i :: 0 <= i < |steps| && steps[i].Reply? && steps[i].uid == s.reqs[r].uid ==> steps[i].faulted
    requires ReadFault(r) !in steps
    ensures InPhase(Exec(s, steps), r, Detached) && PoolCount(Exec(s, steps).pool, Slot(s.reqs[r].uid)) == 0
    decreases |steps|
  {
    DetachedIsOut(s, r);
    if steps != [] {
      DetachedStep(s, steps[0], r);
      ReachableStep(s, steps[0]);
      DetachedStaysOut(Apply(s, steps[0]), steps[1..], r);
    }
  }

  /** In every run each request is ended at most once. */
  lemma EndedOnce(s: Conn, i: nat, j: nat)
    requires Reachable(s) && i < |s.ended| && j < |s.ended| && s.ended[i].0 == s.ended[j].0
    ensures i == j
  {
    assert HistoryExact(s) by { ReachableIsSafe(s); }
  }

  /** No usable connection, and nobody left who saw one. */
  ghost predicate ShutOut(s: Conn) {
    !s.connected && !s.allow && forall r :: r in s.reqs ==> s.reqs[r].phase != Admitted
  }

  lemma ShutOutStep(s: Conn, step: Step)
    requires ListsExact(s) && ShutOut(s) && Enabled(s, step) && step != Open
    ensures ShutOut(Apply(s, step))
    ensures forall r :: r in Queued(Apply(s, step)) ==> r in Queued(s)
  {
    QueueStep(s, step);
  }

  lemma ShutOutEnds(s: Conn, step: Step)
    requires ListsExact(s) && ShutOut(s) && Enabled(s, step) && step != Open
    ensures var t := Apply(s, step);
            forall i :: |s.ended| <= i < |t.ended| && t.ended[i].0 !in Queued(s) ==> t.ended[i].1 == -ENOTCONN
  {
    if step.AbortEnd? {
      DrainHeadListed(s);
      assert DrainHead(s) in Queued(s);
    }
  }

  /** After the abort, until the daemon opens the device again, every request not yet queued ends with -ENOTCONN. */
  lemma {:induction false} LaterSendsRefused(s: Conn, steps: seq<Step>)
    requires Reachable(s) && ShutOut(s) && Legal(s, steps) && Open !in steps
    ensures var t := Exec(s, steps);
            && s.ended <= t.ended
            && (forall r :: r in Queued(t) ==> r in Queued(s))
            && (forall i :: |s.ended| <= i < |t.ended| && t.ended[i].0 !in Queued(s) ==> t.ended[i].1 == -ENOTCONN)
    decreases |steps|
  {
    if steps != [] {
      var s' := Apply(s, steps[0]);
      assert ListsExact(s) by { ReachableIsSafe(s); }
      ReachableStep(s, steps[0]);
      ShutOutStep(s, steps[0]);
      ShutOutEnds(s, steps[0]);
      EndedGrows(s, steps[0]);
      LaterSendsRefused(s', steps[1..]);
    }
  }
}
