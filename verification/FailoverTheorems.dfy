/** What failover promises: parked IOs are reissued in order, and when they cannot be left behind. */
module FailoverTheorems {
  import opened Errno
  import opened Fanout
  import opened FailoverProtocol
  import opened FailoverSafety

  // ------------------------------------------------------------------------
  // failQ is in parking order
  // ------------------------------------------------------------------------

  /** The failover worker keeps this IO: a failover is active, or the fastpath is on and one is started. */
  predicate Parks(s: Dev, step: Step) {
    step.FailoverWork? && (s.activeFailover || s.fastpath)
  }

  /** A marker takes what is parked, or a worker that could not start the failover ends it. */
  predicate Unparks(s: Dev, step: Step) {
    step.Splice? || (step.GiveUp? && step.sid in s.starters && s.starters[step.sid].worker)
  }

  /** The IOs parked in a run since failQ was last emptied, in the order of the steps that parked them, after `before`. */
  function ParkedSince(s: Dev, steps: seq<Step>, before: seq<Io>): seq<Io>
    requires Legal(s, steps)
    decreases |steps|
  {
    if steps == [] then before
    else
      var now := if Parks(s, steps[0]) then before + [steps[0].io] else if Unparks(s, steps[0]) then [] else before;
      ParkedSince(Apply(s, steps[0]), steps[1..], now)
  }

  /** Parking appends, emptying empties, nothing else touches failQ. */
  lemma FailQStep(s: Dev, step: Step)
    requires Enabled(s, step)
    ensures Apply(s, step).failQ ==
      if Parks(s, step) then s.failQ + [step.io] else if Unparks(s, step) then [] else s.failQ
  {
    if !Moves(step) {
      QuietStep(s, step);
    } else {
      match step
      case Submit(io, clones, ok) => SubmitFrame(s, io, clones, ok);
      case Clone(io, t) => CloneFrame(s, io, t);
      case SlowReply(io, status) =>
      case FailoverWork(io, sid, ok) =>
      case GiveUp(sid) =>
      case Splice(mid) =>
      case ReissueOne(mid, ok) => ReissueQueue(s, mid, ok);
    }
  }

  lemma ReissueQueue(s: Dev, mid: Mid, ok: bool)
    requires Enabled(s, ReissueOne(mid, ok))
    ensures Apply(s, ReissueOne(mid, ok)).failQ == s.failQ
  {
  }

  /** After every run, failQ is exactly what was parked since it was last emptied, oldest first. */
  lemma {:induction false} FailQInParkingOrder(s: Dev, steps: seq<Step>)
    requires Legal(s, steps)
    ensures Exec(s, steps).failQ == ParkedSince(s, steps, s.failQ)
    decreases |steps|
  {
    if steps != [] {
      FailQStep(s, steps[0]);
      FailQInParkingOrder(Apply(s, steps[0]), steps[1..]);
    }
  }

  // ------------------------------------------------------------------------
  // A winning failover marker empties failQ in parking order
  // ------------------------------------------------------------------------

  /** One reissue: the oldest IO goes to userspace if the marker succeeded, else it ends with -EIO. */
  lemma ReissueOutcome(s: Dev, mid: Mid, ok: bool)
    requires Enabled(s, ReissueOne(mid, ok))
    ensures var io := LocalList(s, mid)[0]; var t := Apply(s, ReissueOne(mid, ok));
            && LocalList(t, mid) == LocalList(s, mid)[1..]
            && if s.markers[mid].stage.status == 0 && ok then io in t.slow && t.done == s.done
               else t.done == s.done + [(io, -EIO)] && t.slow == s.slow
  {
  }

  /** The IOs that marker `mid` reissues during a run, in order. */
  function Reissued(s: Dev, steps: seq<Step>, mid: Mid): seq<Io>
    requires Legal(s, steps)
    decreases |steps|
  {
    if steps == [] then []
    else (if steps[0].ReissueOne? && steps[0].mid == mid then [LocalList(s, mid)[0]] else [])
         + Reissued(Apply(s, steps[0]), steps[1..], mid)
  }

  predicate TouchesMarkers(step: Step) {
    OnMarker(step) || step.Splice? || step.ReissueOne?
  }

  lemma MoveStep(s: Dev, step: Step)
    requires Enabled(s, step) && Moves(step) && !TouchesMarkers(step)
    ensures Apply(s, step).markers == s.markers
  {
    match step
    case Submit(io, clones, ok) =>
    case Clone(io, t) => CloneFrame(s, io, t);
    case SlowReply(io, status) =>
    case FailoverWork(io, sid, ok) =>
    case GiveUp(sid) =>
  }

  lemma MarkersUntouched(s: Dev, step: Step)
    requires Enabled(s, step) && !TouchesMarkers(step)
    ensures Apply(s, step).markers == s.markers
  {
    if Moves(step) {
      MoveStep(s, step);
    } else {
      FlagStep(s, step);
    }
  }

  /** Each marker step changes only its own marker; one that holds a list shortens it, at the front, or finishes. */
  lemma OtherMarkers(s: Dev, step: Step, mid: Mid)
    requires Enabled(s, step) && TouchesMarkers(step) && mid in s.markers && step.mid != mid
    ensures mid in Apply(s, step).markers && Apply(s, step).markers[mid] == s.markers[mid]
  {
    match step
    case SendMarker(sid, m, ok) =>
    case Answer(m, status) =>
    case SwitchOff(m) =>
    case Splice(m) =>
    case ReissueOne(m, ok) => OtherReissue(s, m, ok, mid);
    case Finish(m) =>
  }

  lemma OtherReissue(s: Dev, m: Mid, ok: bool, mid: Mid)
    requires Enabled(s, ReissueOne(m, ok)) && mid in s.markers && m != mid
    ensures mid in Apply(s, ReissueOne(m, ok)).markers && Apply(s, ReissueOne(m, ok)).markers[mid] == s.markers[mid]
  {
  }

  lemma LocalListStep(s: Dev, step: Step, mid: Mid)
    requires Enabled(s, step) && mid in s.markers && s.markers[mid].stage.Reissue? && step != Finish(mid)
    ensures var t := Apply(s, step);
            && mid in t.markers && t.markers[mid].stage.Reissue?
            && t.markers[mid].stage.status == s.markers[mid].stage.status
            && LocalList(t, mid) == if step.ReissueOne? && step.mid == mid then LocalList(s, mid)[1..] else LocalList(s, mid)
  {
    if !TouchesMarkers(step) {
      MarkersUntouched(s, step);
    } else if step.mid != mid {
      OtherMarkers(s, step, mid);
    }
  }

  /** Whatever interleaves: what the marker has reissued so far, followed by what is left, is what it took from failQ. */
  lemma {:induction false} ReissuedInParkingOrder(s: Dev, steps: seq<Step>, mid: Mid)
    requires Legal(s, steps) && mid in s.markers && s.markers[mid].stage.Reissue? && Finish(mid) !in steps
    ensures var t := Exec(s, steps);
            && Reissued(s, steps, mid) + LocalList(t, mid) == LocalList(s, mid)
            && mid in t.markers && t.markers[mid].stage.Reissue?
            && (Enabled(t, Finish(mid)) <==> Reissued(s, steps, mid) == LocalList(s, mid))
    decreases |steps|
  {
    if steps != [] {
      var step := steps[0];
      assert step != Finish(mid);
      LocalListStep(s, step, mid);
      ReissuedInParkingOrder(Apply(s, step), steps[1..], mid);
    }
  }

  /** An IO a marker has let go: ended with -EIO if the marker failed, else in userspace, or answered from there. */
  ghost predicate Served(s: Dev, io: Io, status: int) {
    if status == 0 then io in s.slow || io in DoneSet(s.done) else (io, -EIO) in s.done
  }

  lemma {:induction false} EndAllGrows(done: seq<(Io, int)>, ios: seq<Io>)
    ensures done <= EndAll(done, ios)
    decreases ios
  {
    if ios != [] {
      EndAllGrows(done + [(ios[0], -EIO)], ios[1..]);
    }
  }

  ghost predicate Grows(s: Dev, t: Dev) {
    s.done <= t.done && s.slow <= t.slow
  }

  lemma RerouteGrows(s: Dev, io: Io, ok: bool)
    ensures Grows(s, Reroute(s, io, ok))
  {
  }

  lemma SubmitGrows(s: Dev, io: Io, clones: nat, ok: bool)
    requires Enabled(s, Submit(io, clones, ok))
    ensures Grows(s, Apply(s, Submit(io, clones, ok)))
  {
    RerouteGrows(s.(submitted := s.submitted + {io}), io, ok);
  }

  lemma CompleteGrows(s: Dev, io: Io, status: int)
    ensures Grows(s, CompleteWith(s, io, status))
  {
  }

  lemma CloneGrows(s: Dev, io: Io, step: TStep)
    requires io in s.fast && TEnabled(s.fast[io], step)
    ensures Grows(s, CloneStep(s, io, step))
  {
    var t := TApply(s.fast[io], step);
    if step.Drop? && t.active == 0 && |t.clones| > 0 && (forall i :: 0 <= i < |t.clones| ==> t.clones[i].Dropped?) {
      CompleteGrows(s, io, Reconcile(0, Statuses(t)));
    }
  }

  lemma ParkGrows(s: Dev, io: Io, sid: Sid, ok: bool)
    ensures Grows(s, Park(s, io, sid, ok))
  {
    RerouteGrows(s.(work := s.work - {io}), io, ok);
  }

  lemma GiveUpGrows(s: Dev, sid: Sid)
    requires Enabled(s, GiveUp(sid))
    ensures Grows(s, Apply(s, GiveUp(sid)))
  {
    EndAllGrows(s.done, s.failQ);
  }

  lemma ReissueGrows(s: Dev, mid: Mid, ok: bool)
    requires Enabled(s, ReissueOne(mid, ok))
    ensures Grows(s, Apply(s, ReissueOne(mid, ok)))
  {
    var Reissue(status, ios) := s.markers[mid].stage;
    RerouteGrows(SetStage(s, mid, Reissue(status, ios[1..])), ios[0], ok);
  }

  lemma StepGrows(s: Dev, step: Step)
    requires Enabled(s, step) && !step.SlowReply?
    ensures Grows(s, Apply(s, step))
  {
    if !Moves(step) {
      QuietStep(s, step);
    } else {
      match step
      case Submit(io, clones, ok) => SubmitGrows(s, io, clones, ok);
      case Clone(io, t) => CloneGrows(s, io, t);
      case FailoverWork(io, sid, ok) => ParkGrows(s, io, sid, ok);
      case GiveUp(sid) => GiveUpGrows(s, sid);
      case Splice(mid) =>
      case ReissueOne(mid, ok) => ReissueGrows(s, mid, ok);
    }
  }

  /** Nothing takes back what a marker has done. */
  lemma ServedStays(s: Dev, step: Step, io: Io, status: int)
    requires Enabled(s, step) && Served(s, io, status)
    ensures Served(Apply(s, step), io, status)
  {
    var t := Apply(s, step);
    if !step.SlowReply? {
      StepGrows(s, step);
    }
    DonePrefix(s.done, t.done, io);
    if step.SlowReply? && step.io == io {
      assert t.done[|s.done|] == (io, step.status);
    }
  }

  lemma DonePrefix(done: seq<(Io, int)>, more: seq<(Io, int)>, io: Io)
    requires done <= more
    ensures io in DoneSet(done) ==> io in DoneSet(more)
    ensures (io, -EIO) in done ==> (io, -EIO) in more
  {
    if io in DoneSet(done) {
      var i :| 0 <= i < |done| && done[i].0 == io;
      assert more[i].0 == io;
    }
  }

  lemma {:induction false} ServedForGood(s: Dev, steps: seq<Step>, io: Io, status: int)
    requires Legal(s, steps) && Served(s, io, status)
    ensures Served(Exec(s, steps), io, status)
    decreases |steps|
  {
    if steps != [] {
      ServedStays(s, steps[0], io, status);
      ServedForGood(Apply(s, steps[0]), steps[1..], io, status);
    }
  }

  lemma ReissueServes(s: Dev, mid: Mid, ok: bool)
    requires Enabled(s, ReissueOne(mid, ok))
    ensures Served(Apply(s, ReissueOne(mid, ok)), LocalList(s, mid)[0], s.markers[mid].stage.status)
  {
    ReissueOutcome(s, mid, ok);
    var io, t := LocalList(s, mid)[0], Apply(s, ReissueOne(mid, ok));
    if !(s.markers[mid].stage.status == 0 && ok) {
      assert t.done[|s.done|] == (io, -EIO);
    }
  }

  lemma {:induction false} ReissuedAreServed(s: Dev, steps: seq<Step>, mid: Mid, io: Io)
    requires Legal(s, steps) && mid in s.markers && s.markers[mid].stage.Reissue? && Finish(mid) !in steps
    requires io in Reissued(s, steps, mid)
    ensures Served(Exec(s, steps), io, s.markers[mid].stage.status)
    decreases |steps|
  {
    var step := steps[0];
    assert step != Finish(mid);
    LocalListStep(s, step, mid);
    if io in Reissued(Apply(s, step), steps[1..], mid) {
      ReissuedAreServed(Apply(s, step), steps[1..], mid, io);
    } else {
      ReissueServes(s, mid, step.ok);
      ServedForGood(Apply(s, step), steps[1..], io, s.markers[mid].stage.status);
    }
  }

  /**
    A winning failover marker, from its splice after any run `before` on, whatever interleaves: failQ is empty at
    once; what has been reissued, followed by what is left, is the IOs parked since failQ was last emptied, in
    parking order; the marker can finish exactly when all of them are reissued; each reissued IO is rerouted, or
    ended with -EIO if the marker came back with an error.
   */
  lemma WinnerReissuesFailQ(before: seq<Step>, mid: Mid, steps: seq<Step>)
    requires Legal(Init(), before) && Enabled(Exec(Init(), before), Splice(mid))
    requires Legal(Apply(Exec(Init(), before), Splice(mid)), steps) && Finish(mid) !in steps
    ensures var s := Exec(Init(), before);
            var u := Apply(s, Splice(mid));
            var t := Exec(u, steps);
            var parked := ParkedSince(Init(), before, []);
            && u.failQ == []
            && Reissued(u, steps, mid) + LocalList(t, mid) == parked
            && (Enabled(t, Finish(mid)) <==> Reissued(u, steps, mid) == parked)
            && forall io :: io in Reissued(u, steps, mid) ==> Served(t, io, s.markers[mid].stage.status)
  {
    var s := Exec(Init(), before);
    var u := Apply(s, Splice(mid));
    FailQInParkingOrder(Init(), before);
    ReissuedInParkingOrder(u, steps, mid);
    forall io | io in Reissued(u, steps, mid) ensures Served(Exec(u, steps), io, s.markers[mid].stage.status) {
      ReissuedAreServed(u, steps, mid, io);
    }
  }

  // ------------------------------------------------------------------------
  // Nobody is left behind
  // ------------------------------------------------------------------------

  predicate Holds(st: Starter) {
    st.stage in {Holding, Suspended}
  }

  predicate WillSplice(m: Marker) {
    m.code.Failover? && (m.stage.InUser? || m.stage.Won? || m.stage.Off?)
  }

  /** Somebody under way will empty failQ: a worker still starting a failover, or a switch on its way. */
  ghost predicate Rescue(s: Dev) {
    || (exists sid :: sid in s.starters && Rescuer(s.starters[sid]))
    || (exists mid :: mid in s.markers && WillSplice(s.markers[mid]))
  }

  ghost predicate Stranded(s: Dev) {
    s.failQ != [] && !Rescue(s)
  }

  ghost predicate SomeHolder(s: Dev) {
    || (exists sid :: sid in s.starters && Holds(s.starters[sid]))
    || (exists mid :: mid in s.markers && s.markers[mid].stage.InUser?)
  }

  /** `ioswitch_active` is set exactly while one thread or one marker holds the switch. */
  ghost predicate OneHolder(s: Dev) {
    && (forall sid :: sid in s.starters && Holds(s.starters[sid]) ==> s.ioswitch)
    && (forall mid :: mid in s.markers && s.markers[mid].stage.InUser? ==> s.ioswitch)
    && (forall a, b :: a in s.starters && b in s.starters && Holds(s.starters[a]) && Holds(s.starters[b]) ==> a == b)
    && (forall a, b :: a in s.markers && b in s.markers && s.markers[a].stage.InUser? && s.markers[b].stage.InUser? ==> a == b)
    && (forall a, b :: a in s.starters && b in s.markers ==> !(Holds(s.starters[a]) && s.markers[b].stage.InUser?))
    && (s.ioswitch ==> SomeHolder(s))
  }

  ghost predicate OnlyFailover(s: Dev) {
    && (forall sid :: sid in s.starters ==> s.starters[sid].code == Failover)
    && (forall mid :: mid in s.markers ==> s.markers[mid].code == Failover)
  }

  ghost predicate Watched(s: Dev) {
    s.activeFailover || s.failQ != [] ==> Rescue(s)
  }

  ghost predicate Guarded(s: Dev) {
    OneHolder(s) && OnlyFailover(s) && Watched(s)
  }

  /** No reset, no fallback marker, and no control-started failover that fails once it holds the switch. */
  predicate Benign(s: Dev, step: Step)
    requires Enabled(s, step)
  {
    match step
    case Reset => false
    case Start(_, code) => code == Failover
    case Suspend(sid, ok) => ok || s.starters[sid].worker
    case SendMarker(sid, _, ok) => ok || s.starters[sid].worker
    case _ => true
  }

  /** Steps that leave starters and markers alone. */
  predicate Bystander(step: Step) {
    step.Submit? || step.Clone? || step.SlowReply? || step.Disable? || step.Enable?
  }

  predicate Rescuer(st: Starter) {
    st.worker || (Holds(st) && st.code.Failover?)
  }

  /** Whoever could rescue still can. */
  lemma RescueKept(s: Dev, t: Dev)
    requires forall x :: x in s.starters && Rescuer(s.starters[x]) ==> x in t.starters && Rescuer(t.starters[x])
    requires forall x :: x in s.markers && WillSplice(s.markers[x]) ==> x in t.markers && WillSplice(t.markers[x])
    ensures Rescue(s) ==> Rescue(t)
  {
    if x :| x in s.starters && Rescuer(s.starters[x]) {
      assert x in t.starters && Rescuer(t.starters[x]);
    } else if x :| x in s.markers && WillSplice(s.markers[x]) {
      assert x in t.markers && WillSplice(t.markers[x]);
    }
  }

  lemma HolderKept(s: Dev, t: Dev)
    requires forall x :: x in s.starters && Holds(s.starters[x]) ==> x in t.starters && Holds(t.starters[x])
    requires forall x :: x in s.markers && s.markers[x].stage.InUser? ==> x in t.markers && t.markers[x].stage.InUser?
    ensures SomeHolder(s) ==> SomeHolder(t)
  {
    if x :| x in s.starters && Holds(s.starters[x]) {
      assert x in t.starters && Holds(t.starters[x]);
    } else if x :| x in s.markers && s.markers[x].stage.InUser? {
      assert x in t.markers && t.markers[x].stage.InUser?;
    }
  }

  /** A starter that neither held nor will hold the switch changes stage or leaves. */
  lemma StarterMoves(s: Dev, t: Dev, sid: Sid, st: Starter)
    requires Guarded(s) && sid in s.starters && t == s.(starters := s.starters[sid := st])
    requires st.code == Failover && st.worker == s.starters[sid].worker
    requires Holds(st) <==> Holds(s.starters[sid])
    ensures Guarded(t)
  {
    RescueKept(s, t);
    HolderKept(s, t);
  }

  lemma SwapGuarded(s: Dev, sid: Sid)
    requires Guarded(s) && Enabled(s, Swap(sid))
    ensures Guarded(Apply(s, Swap(sid)))
  {
    var t := Apply(s, Swap(sid));
    if s.ioswitch {
      HolderKept(s, t);
      HolderRescues(t);
    } else {
      assert Holds(t.starters[sid]);
      HolderRescues(t);
    }
  }

  lemma HolderRescues(s: Dev)
    requires OnlyFailover(s)
    ensures SomeHolder(s) ==> Rescue(s)
  {
    if x :| x in s.starters && Holds(s.starters[x]) {
      assert Rescuer(s.starters[x]);
    } else if x :| x in s.markers && s.markers[x].stage.InUser? {
      assert WillSplice(s.markers[x]);
    }
  }

  lemma WorkerRescues(s: Dev, sid: Sid)
    requires sid in s.starters && s.starters[sid].worker
    ensures Rescue(s)
  {
    assert Rescuer(s.starters[sid]);
  }

  lemma MarkerRescues(s: Dev, mid: Mid)
    requires mid in s.markers && WillSplice(s.markers[mid])
    ensures Rescue(s)
  {
  }

  lemma SuspendGuarded(s: Dev, sid: Sid, ok: bool)
    requires Guarded(s) && Enabled(s, Suspend(sid, ok)) && Benign(s, Suspend(sid, ok))
    ensures Guarded(Apply(s, Suspend(sid, ok)))
  {
    var t := Apply(s, Suspend(sid, ok));
    if ok {
      StarterMoves(s, t, sid, s.starters[sid].(stage := Suspended));
    } else {
      WorkerRescues(t, sid);
    }
  }

  lemma SendGuarded(s: Dev, sid: Sid, mid: Mid, ok: bool)
    requires Guarded(s) && Enabled(s, SendMarker(sid, mid, ok)) && Benign(s, SendMarker(sid, mid, ok))
    ensures Guarded(Apply(s, SendMarker(sid, mid, ok)))
  {
    var t := Apply(s, SendMarker(sid, mid, ok));
    if ok {
      MarkerRescues(t, mid);
    } else {
      WorkerRescues(t, sid);
    }
  }

  lemma GiveUpGuarded(s: Dev, sid: Sid)
    requires Guarded(s) && Enabled(s, GiveUp(sid))
    ensures Guarded(Apply(s, GiveUp(sid)))
  {
    var t := Apply(s, GiveUp(sid));
    HolderKept(s, t);
    if !s.starters[sid].worker {
      RescueKept(s, t);
    }
  }

  lemma AnswerGuarded(s: Dev, mid: Mid, status: int)
    requires Guarded(s) && Enabled(s, Answer(mid, status))
    ensures Guarded(Apply(s, Answer(mid, status)))
  {
    assert s.ioswitch;
    MarkerRescues(Apply(s, Answer(mid, status)), mid);
  }

  /** A new starter that does not hold the switch. */
  lemma NewStarterGuarded(s: Dev, t: Dev, sid: Sid, st: Starter)
    requires OneHolder(s) && OnlyFailover(s) && sid !in s.starters && t.starters == s.starters[sid := st]
    requires t.markers == s.markers && t.ioswitch == s.ioswitch && st.code == Failover && !Holds(st)
    ensures OneHolder(t) && OnlyFailover(t)
    ensures Rescue(s) ==> Rescue(t)
  {
    HolderKept(s, t);
    RescueKept(s, t);
  }

  lemma WorkGuarded(s: Dev, io: Io, sid: Sid, ok: bool)
    requires Guarded(s) && Enabled(s, FailoverWork(io, sid, ok))
    ensures Guarded(Apply(s, FailoverWork(io, sid, ok)))
  {
    var t := Apply(s, FailoverWork(io, sid, ok));
    if s.activeFailover {
      SwitchSameGuarded(s, t.(failQ := s.failQ));
      RescueKept(s, t);
    } else if s.fastpath {
      NewStarterGuarded(s, t, sid, Starter(true, Failover, Checking));
      WorkerRescues(t, sid);
    } else {
      SwitchSameGuarded(s, t);
    }
  }

  lemma StartGuarded(s: Dev, sid: Sid, code: Code)
    requires Guarded(s) && Enabled(s, Start(sid, code)) && code == Failover
    ensures Guarded(Apply(s, Start(sid, code)))
  {
    NewStarterGuarded(s, Apply(s, Start(sid, code)), sid, Starter(false, Failover, Checking));
  }

  lemma SpliceGuarded(s: Dev, mid: Mid)
    requires Guarded(s) && Enabled(s, Splice(mid))
    ensures Guarded(Apply(s, Splice(mid)))
  {
    HolderKept(s, Apply(s, Splice(mid)));
  }

  lemma FinishGuarded(s: Dev, mid: Mid)
    requires Guarded(s) && Enabled(s, Finish(mid))
    ensures Guarded(Apply(s, Finish(mid)))
  {
    HolderKept(s, Apply(s, Finish(mid)));
    RescueKept(s, Apply(s, Finish(mid)));
  }

  /** A marker that only holds a list changes its list, or IOs move elsewhere. */
  lemma ListChangeGuarded(s: Dev, t: Dev, mid: Mid, stage: MarkerStage)
    requires Guarded(s) && mid in s.markers && s.markers[mid].stage.Reissue? && stage.Reissue?
    requires t.starters == s.starters && t.ioswitch == s.ioswitch && t.failQ == s.failQ && t.activeFailover == s.activeFailover
    requires t.markers == s.markers[mid := s.markers[mid].(stage := stage)]
    ensures Guarded(t)
  {
    HolderKept(s, t);
    RescueKept(s, t);
  }

  /** Starters, markers, the switch and failQ stay; no failover becomes active. */
  predicate SwitchSame(s: Dev, t: Dev) {
    && t.starters == s.starters && t.markers == s.markers
    && t.ioswitch == s.ioswitch && t.failQ == s.failQ
    && (t.activeFailover ==> s.activeFailover)
  }

  lemma CloneFrame(s: Dev, io: Io, step: TStep)
    requires io in s.fast && TEnabled(s.fast[io], step)
    ensures SwitchSame(s, CloneStep(s, io, step))
  {
    var t := TApply(s.fast[io], step);
    if step.Drop? && t.active == 0 && |t.clones| > 0 && (forall i :: 0 <= i < |t.clones| ==> t.clones[i].Dropped?) {
      CompleteFrame(s, io, Reconcile(0, Statuses(t)));
    }
  }

  lemma CompleteFrame(s: Dev, io: Io, status: int)
    ensures SwitchSame(s, CompleteWith(s, io, status))
  {
  }

  lemma SubmitFrame(s: Dev, io: Io, clones: nat, ok: bool)
    requires Enabled(s, Submit(io, clones, ok))
    ensures SwitchSame(s, Apply(s, Submit(io, clones, ok)))
  {
  }

  lemma EnableFrame(s: Dev, canFailover: bool, ok: bool)
    requires Enabled(s, Enable(canFailover, ok))
    ensures SwitchSame(s, Apply(s, Enable(canFailover, ok)))
  {
  }

  lemma BystanderFrame(s: Dev, step: Step)
    requires Enabled(s, step) && Bystander(step)
    ensures SwitchSame(s, Apply(s, step))
  {
    match step
    case Submit(io, clones, ok) => SubmitFrame(s, io, clones, ok);
    case Clone(io, t) => CloneFrame(s, io, t);
    case SlowReply(io, status) =>
    case Disable =>
    case Enable(canFailover, ok) => EnableFrame(s, canFailover, ok);
  }

  lemma SwitchSameGuarded(s: Dev, t: Dev)
    requires Guarded(s) && SwitchSame(s, t)
    ensures Guarded(t)
  {
    HolderKept(s, t);
    RescueKept(s, t);
  }

  lemma ReissueGuarded(s: Dev, mid: Mid, ok: bool)
    requires Guarded(s) && Enabled(s, ReissueOne(mid, ok))
    ensures Guarded(Apply(s, ReissueOne(mid, ok)))
  {
    var Reissue(status, ios) := s.markers[mid].stage;
    var s0 := SetStage(s, mid, Reissue(status, ios[1..]));
    ListChangeGuarded(s, s0, mid, Reissue(status, ios[1..]));
    ReissueFrame(s0, ios[0], status, ok);
    SwitchSameGuarded(s0, ReissueTo(s0, ios[0], status, ok));
  }

  lemma ReissueFrame(s: Dev, io: Io, status: int, ok: bool)
    ensures SwitchSame(s, ReissueTo(s, io, status, ok))
  {
    if status == 0 && ok {
      assert ReissueTo(s, io, status, ok).done == s.done;
    } else {
      assert ReissueTo(s, io, status, ok) == End(s, io, -EIO);
    }
  }

  lemma SwitchOffGuarded(s: Dev, mid: Mid)
    requires Guarded(s) && Enabled(s, SwitchOff(mid))
    ensures Guarded(Apply(s, SwitchOff(mid)))
  {
    assert s.markers[mid].code == Failover;
    SwitchSameGuarded(s, Disabled(s));
    OffGuarded(Disabled(s), mid, s.markers[mid].stage.status);
  }

  lemma OffGuarded(s: Dev, mid: Mid, status: int)
    requires Guarded(s) && mid in s.markers && s.markers[mid].stage.Won?
    ensures Guarded(SetStage(s, mid, Off(status)))
  {
    HolderKept(s, SetStage(s, mid, Off(status)));
    MarkerRescues(SetStage(s, mid, Off(status)), mid);
  }

  lemma BystanderGuarded(s: Dev, step: Step)
    requires Guarded(s) && Enabled(s, step) && Bystander(step)
    ensures Guarded(Apply(s, step))
  {
    BystanderFrame(s, step);
    SwitchSameGuarded(s, Apply(s, step));
  }

  lemma StepGuarded(s: Dev, step: Step)
    requires Guarded(s) && Enabled(s, step) && Benign(s, step)
    ensures Guarded(Apply(s, step))
  {
    match step
    case FailoverWork(io, sid, ok) => WorkGuarded(s, io, sid, ok);
    case Start(sid, code) => StartGuarded(s, sid, code);
    case Check(sid) =>
      StarterMoves(s, Apply(s, step), sid, s.starters[sid].(stage := if s.fastpath then Swapping else Failed));
    case Swap(sid) => SwapGuarded(s, sid);
    case Suspend(sid, ok) => SuspendGuarded(s, sid, ok);
    case SendMarker(sid, mid, ok) => SendGuarded(s, sid, mid, ok);
    case GiveUp(sid) => GiveUpGuarded(s, sid);
    case Answer(mid, status) => AnswerGuarded(s, mid, status);
    case SwitchOff(mid) => SwitchOffGuarded(s, mid);
    case Splice(mid) => SpliceGuarded(s, mid);
    case ReissueOne(mid, ok) => ReissueGuarded(s, mid, ok);
    case Finish(mid) => FinishGuarded(s, mid);
    case _ => BystanderGuarded(s, step);
  }

  predicate BenignRun(s: Dev, steps: seq<Step>)
    decreases |steps|
  {
    steps == [] ||
    (Enabled(s, steps[0]) && Benign(s, steps[0]) && BenignRun(Apply(s, steps[0]), steps[1..]))
  }

  lemma {:induction false} BenignIsGuarded(s: Dev, steps: seq<Step>)
    requires Guarded(s) && BenignRun(s, steps)
    ensures Legal(s, steps) && Guarded(Exec(s, steps))
    decreases |steps|
  {
    if steps != [] {
      StepGuarded(s, steps[0]);
      BenignIsGuarded(Apply(s, steps[0]), steps[1..]);
    }
  }

  /** In every run of benign steps, whenever an IO is parked, somebody is under way to empty failQ. */
  lemma NobodyLeftBehind(steps: seq<Step>)
    requires BenignRun(Init(), steps)
    ensures Legal(Init(), steps) && !Stranded(Exec(Init(), steps))
  {
    BenignIsGuarded(Init(), steps);
  }

  // ------------------------------------------------------------------------
  // Each of the three exclusions is needed
  // ------------------------------------------------------------------------

  ghost predicate Reachable(s: Dev) {
    exists steps: seq<Step> :: Legal(Init(), steps) && Exec(Init(), steps) == s
  }

  lemma {:induction false} ExecAppend(s: Dev, steps: seq<Step>, step: Step)
    requires Legal(s, steps) && Enabled(Exec(s, steps), step)
    ensures Legal(s, steps + [step]) && Exec(s, steps + [step]) == Apply(Exec(s, steps), step)
    decreases |steps|
  {
    if steps == [] {
      assert steps + [step] == [step];
      assert [step][1..] == [];
    } else {
      assert (steps + [step])[1..] == steps[1..] + [step];
      ExecAppend(Apply(s, steps[0]), steps[1..], step);
    }
  }

  lemma Reach(s: Dev, step: Step) returns (t: Dev)
    requires Reachable(s) && Enabled(s, step)
    ensures Reachable(t) && t == Apply(s, step)
  {
    var steps: seq<Step> :| Legal(Init(), steps) && Exec(Init(), steps) == s;
    ExecAppend(Init(), steps, step);
    t := Apply(s, step);
    assert Legal(Init(), steps + [step]);
  }

  /** A device in fastpath with one read in flight, sent but not back. */
  lemma OneInFlight() returns (s: Dev)
    ensures Reachable(s)
    ensures s == Init().(fast := map[0 := Tracker([InFlight], 1, 1)], submitted := {0}, fastpath := true, canFailover := true, ncount := 1)
  {
    assert Legal(Init(), []) && Exec(Init(), []) == Init();
    s := Reach(Init(), Enable(true, true));
    s := Reach(s, Submit(0, 1, true));
    assert s.fast[0].clones == [Idle];
    s := Reach(s, Clone(0, TStep.Send));
    assert s.fast[0].clones == [InFlight];
    assert s.fast == map[0 := Tracker([InFlight], 1, 1)];
  }

  /** That read comes back with -EIO and is queued to the failover worker. */
  lemma ItFails(s: Dev) returns (t: Dev)
    requires Reachable(s) && s.canFailover && s.work == {} && s.ncount == 1
    requires s.fast == map[0 := Tracker([InFlight], 1, 1)]
    ensures Reachable(t) && t == s.(fast := map[], work := {0}, ncount := 0)
  {
    t := Reach(s, Clone(0, Record(0, -EIO)));
    assert t.fast[0].clones == [Recorded(-EIO)];
    var u := TApply(t.fast[0], Drop(0));
    assert u.clones == [Dropped(-EIO)];
    assert Statuses(u) == [-EIO];
    assert !Spared([-EIO][0]);
    ReconcileMeaning([-EIO]);
    t := Reach(t, Clone(0, Drop(0)));
    assert t.fast == map[];
  }

  /** A control request takes the switch and sends its marker. */
  lemma ControlSends(s: Dev, code: Code) returns (t: Dev)
    requires Reachable(s) && s.starters == map[] && s.markers == map[] && !s.ioswitch && s.fastpath == code.Failover?
    ensures Reachable(t) && t == s.(ioswitch := true, markers := map[7 := Marker(code, InUser)])
  {
    t := Reach(s, Start(1, code));
    t := Reach(t, Check(1));
    t := Reach(t, Swap(1));
    t := Reach(t, Suspend(1, true));
    t := Reach(t, SendMarker(1, 7, true));
    assert t.starters == map[] && t.markers == map[7 := Marker(code, InUser)];
  }

  /** The fastpath was switched off under that read, a fallback was started, and userspace has switched it on again. */
  lemma FallbackUnderWay() returns (s: Dev)
    ensures Reachable(s)
    ensures s == Init().(fast := map[0 := Tracker([InFlight], 1, 1)], submitted := {0}, fastpath := true, canFailover := true,
                         ncount := 1, ioswitch := true, markers := map[7 := Marker(Fallback, InUser)])
  {
    s := OneInFlight();
    s := Reach(s, Disable);
    s := ControlSends(s, Fallback);
    s := Reach(s, Enable(true, true));
  }

  /** A fallback marker holds the switch while a late fastpath error comes in: the parked IO is stranded. */
  lemma FallbackStrands() returns (s: Dev)
    ensures Reachable(s) && Stranded(s)
  {
    s := FallbackUnderWay();
    s := ItFails(s);
    s := Reach(s, FailoverWork(0, 2, true));
    s := Reach(s, Check(2));
    s := Reach(s, Swap(2));
    assert s.starters == map[] && s.failQ == [0];
    s := Reach(s, Answer(7, 0));
    s := Reach(s, SwitchOff(7));
    s := Reach(s, Finish(7));
    assert s.markers == map[];
  }

  /** A control-started failover that fails while holding the switch strands what was parked meanwhile. */
  lemma FailedControlStrands() returns (s: Dev)
    ensures Reachable(s) && Stranded(s)
  {
    s := OneInFlight();
    s := ItFails(s);
    s := Reach(s, Start(1, Failover));
    s := Reach(s, Check(1));
    s := Reach(s, Swap(1));
    s := Reach(s, FailoverWork(0, 2, true));
    s := Reach(s, Check(2));
    s := Reach(s, Swap(2));
    s := Reach(s, Suspend(1, false));
    s := Reach(s, GiveUp(1));
    assert s.starters == map[] && s.failQ == [0] && s.markers == map[];
  }

  /** A reset while a failover marker is away strands what is parked: the marker comes back and loses. */
  lemma ResetStrands() returns (s: Dev)
    ensures Reachable(s) && Stranded(s)
  {
    s := OneInFlight();
    s := ItFails(s);
    s := Reach(s, FailoverWork(0, 2, true));
    s := Reach(s, Check(2));
    s := Reach(s, Swap(2));
    s := Reach(s, Suspend(2, true));
    s := Reach(s, SendMarker(2, 7, true));
    s := Reach(s, Reset);
    s := Reach(s, Answer(7, 0));
    assert s.starters == map[] && s.failQ == [0] && s.markers == map[];
  }
}
