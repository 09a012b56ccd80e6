/** With which status each request ends and why, and when the connection takes requests, over all runs. */
module FuseOutcomes {
  import opened Errno
  import opened FuseIds
  import opened Seqs
  import opened FuseProtocol
  import opened FuseSafety
  import opened FuseTheorems

  // ------------------------------------------------------------------------
  // Statuses
  // ------------------------------------------------------------------------

  /**
    The four reasons for which `r` ends with status `e`: it found no usable connection, a read could not copy it to
    the daemon, the abort reached it, or the daemon sent a complete reply with its id and that status.
   */
  predicate Causes(s: Conn, step: Step, r: Rid, e: int) {
    match step
    case Reject(q) => q == r && e == -ENOTCONN
    case ReadFault(q) => q == r && e == -EIO
    case AbortEnd => Draining(s) && DrainHead(s) == r && e == -ECONNABORTED
    case Reply(uid, status, faulted, _) =>
      !faulted && r in s.reqs && s.reqs[r].phase != Held && s.reqs[r].uid == uid && e == status
    case _ => false
  }

  /** Some step of the run is such a reason, in the state it is taken in. */
  predicate CausedIn(s: Conn, steps: seq<Step>, r: Rid, e: int)
    requires Legal(s, steps)
    decreases |steps|
  {
    steps != [] && (Causes(s, steps[0], r, e) || CausedIn(Apply(s, steps[0]), steps[1..], r, e))
  }

  /** A complete reply that finds a request ends that request, now, with the status it carries. */
  lemma ReplyEndsWithStatus(s: Conn, uid: Id, status: int, cpu: nat)
    requires Enabled(s, Reply(uid, status, false, cpu))
    ensures Apply(s, Reply(uid, status, false, cpu)).ended ==
      if Find(s, uid).Some? then s.ended + [(Find(s, uid).value, status)] else s.ended
  {
  }

  /** `t` has one more ended request than `s`: that one, with that status. */
  predicate Adds(s: Conn, t: Conn, r: Rid, e: int) {
    |t.ended| > |s.ended| && t.ended[|s.ended|] == (r, e)
  }

  /** A step appends to the statuses what it causes, and nothing else. */
  lemma StepEnds(s: Conn, step: Step)
    requires Reachable(s) && Enabled(s, step)
    ensures s.ended <= Apply(s, step).ended && |Apply(s, step).ended| <= |s.ended| + 1
    ensures forall r: Rid, e: int :: Causes(s, step, r, e) <==> Adds(s, Apply(s, step), r, e)
  {
    if step.Reply? {
      ReplyCauses(s, step);
    }
  }

  lemma ReplyCauses(s: Conn, step: Step)
    requires Reachable(s) && Enabled(s, step) && step.Reply?
    ensures s.ended <= Apply(s, step).ended && |Apply(s, step).ended| <= |s.ended| + 1
    ensures forall r: Rid, e: int :: Causes(s, step, r, e) <==> Adds(s, Apply(s, step), r, e)
  {
    forall r: Rid ensures Find(s, step.uid) == Some(r) <==> r in s.reqs && s.reqs[r].phase != Held && s.reqs[r].uid == step.uid {
      FindExact(s, step.uid, r);
    }
    if !step.faulted {
      ReplyEndsWithStatus(s, step.uid, step.status, step.cpu);
    }
  }

  /** In every run a request is recorded as ended with a status if and only if a step of the run is a reason for it. */
  lemma {:induction false} EndedExactly(s: Conn, steps: seq<Step>, r: Rid, e: int)
    requires Reachable(s) && Legal(s, steps)
    ensures s.ended <= Exec(s, steps).ended
    ensures (r, e) in Exec(s, steps).ended <==> (r, e) in s.ended || CausedIn(s, steps, r, e)
    decreases |steps|
  {
    if steps != [] {
      var s' := Apply(s, steps[0]);
      StepEnds(s, steps[0]);
      ReachableStep(s, steps[0]);
      EndedExactly(s', steps[1..], r, e);
      EndedByStep(s.ended, s'.ended, (r, e));
    }
  }

  lemma EndedByStep(before: seq<(Rid, int)>, after: seq<(Rid, int)>, x: (Rid, int))
    requires before <= after && |after| <= |before| + 1
    ensures x in after <==> x in before || (|after| > |before| && after[|before|] == x)
  {
    assert after == before + after[|before|..];
  }

  // ------------------------------------------------------------------------
  // When requests are taken
  // ------------------------------------------------------------------------

  /** Opened, and not released since. */
  function OpenAfter(steps: seq<Step>, before: bool): bool {
    if steps == [] then before
    else
      var last := steps[|steps| - 1];
      if last == Open then true else if last == Release then false else OpenAfter(steps[..|steps| - 1], before)
  }

  /** No abort since the last open. */
  function WaitingAllowedAfter(steps: seq<Step>, before: bool): bool {
    if steps == [] then before
    else
      var last := steps[|steps| - 1];
      if last == Open then true else if last == AbortClear then false else WaitingAllowedAfter(steps[..|steps| - 1], before)
  }

  lemma {:induction false} RunSplitLast(s: Conn, steps: seq<Step>)
    requires Legal(s, steps) && steps != []
    ensures var n := |steps| - 1;
            && Legal(s, steps[..n]) && Enabled(Exec(s, steps[..n]), steps[n])
            && Exec(s, steps) == Apply(Exec(s, steps[..n]), steps[n])
    decreases |steps|
  {
    var n := |steps| - 1;
    if n > 0 {
      RunSplitLast(Apply(s, steps[0]), steps[1..]);
      assert steps[1..][..n - 1] == steps[..n][1..];
    } else {
      assert steps[..n] == [] && steps[1..] == [];
    }
  }

  /** The two flags, after any run, are what the opens, releases and aborts of the run say. */
  lemma {:induction false} FlagsFollowRun(s: Conn, steps: seq<Step>)
    requires Legal(s, steps)
    ensures Exec(s, steps).connected == OpenAfter(steps, s.connected)
    ensures Exec(s, steps).allow == WaitingAllowedAfter(steps, s.allow)
    decreases |steps|
  {
    if steps != [] {
      var n := |steps| - 1;
      RunSplitLast(s, steps);
      FlagsFollowRun(s, steps[..n]);
    }
  }

  lemma {:induction false} AllowedWithoutAbort(steps: seq<Step>, before: bool)
    requires AbortClear !in steps && (before || (steps != [] && steps[0] == Open))
    ensures WaitingAllowedAfter(steps, before)
    decreases |steps|
  {
    if steps != [] {
      var n := |steps| - 1;
      if n > 0 {
        assert steps[..n][0] == steps[0];
        AllowedWithoutAbort(steps[..n], before);
      } else if steps[0] != Open {
        assert before;
      }
    }
  }

  /** `s` lets requests wait: as a new context does, or because the run starts with an open. */
  predicate Accepting(s: Conn, steps: seq<Step>) {
    s.allow || (steps != [] && steps[0] == Open)
  }

  /** A request that has been stored is let in, and queued behind all others; it is not refused. */
  ghost predicate TakesRequests(s: Conn) {
    && (forall r :: !Enabled(s, Reject(r)))
    && (forall r :: InPhase(s, r, Stored) ==>
          && Enabled(s, Admit(r)) && Enabled(Apply(s, Admit(r)), Enqueue(r))
          && Queued(Apply(Apply(s, Admit(r)), Enqueue(r))) == Queued(s) + [r])
  }

  lemma AllowedTakes(s: Conn)
    requires s.allow
    ensures TakesRequests(s)
  {
    forall r | InPhase(s, r, Stored) ensures Queued(Apply(Apply(s, Admit(r)), Enqueue(r))) == Queued(s) + [r] {
      assert s.processing + (s.pending + [r]) == s.processing + s.pending + [r];
    }
  }

  /**
    Requests survive the daemon: from an open (or in a new context) on, however often the daemon dies and comes back,
    requests are taken and queued, never refused, until the timeout aborts.
   */
  lemma RequestsOutliveDaemon(s: Conn, steps: seq<Step>)
    requires Legal(s, steps) && Accepting(s, steps) && AbortClear !in steps
    ensures TakesRequests(Exec(s, steps))
  {
    FlagsFollowRun(s, steps);
    AllowedWithoutAbort(steps, s.allow);
    AllowedTakes(Exec(s, steps));
  }

  predicate Refused(s: Conn, r: Rid) {
    (r, -ENOTCONN) in s.ended
  }

  /** A run with no reply of status -ENOTCONN in it. */
  predicate NoSuchReply(steps: seq<Step>) {
    forall i :: 0 <= i < |steps| && steps[i].Reply? ==> steps[i].status != -ENOTCONN
  }

  /** In such a run no step refuses a request, and -ENOTCONN is nobody's status unless the daemon says so. */
  lemma {:induction false} NobodyRefused(s: Conn, steps: seq<Step>)
    requires Reachable(s) && Legal(s, steps) && Accepting(s, steps) && AbortClear !in steps
    ensures forall r :: Reject(r) !in steps
    ensures NoSuchReply(steps) ==> forall r: Rid :: Refused(Exec(s, steps), r) ==> Refused(s, r)
    decreases |steps|
  {
    if steps != [] {
      var step, rest := steps[0], steps[1..];
      var s' := Apply(s, step);
      assert s'.allow;
      ReachableStep(s, step);
      StepEnds(s, step);
      assert NoSuchReply(steps) ==> NoSuchReply(rest);
      NobodyRefused(s', rest);
      forall r ensures Reject(r) !in steps {
        assert Reject(r) != step;
      }
      forall r: Rid | NoSuchReply(steps) && Refused(s', r) ensures Refused(s, r) {
        EndedByStep(s.ended, s'.ended, (r, -ENOTCONN));
        assert !Causes(s, step, r, -ENOTCONN);
      }
    }
  }
}
