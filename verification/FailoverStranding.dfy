/** Exactly which step leaves a parked IO behind, in any run, with resets, fallbacks and failures of every kind. */
module FailoverStranding {
  import opened FailoverProtocol
  import opened FailoverTheorems

  /** Two facts of every run: a failover is active only while something is parked, and workers start failovers only. */
  ghost predicate Sane(s: Dev) {
    && (s.activeFailover ==> s.failQ != [])
    && (forall sid :: sid in s.starters && s.starters[sid].worker ==> s.starters[sid].code.Failover?)
  }

  /** One starter leaves or changes stage; nothing is parked or unparked. */
  lemma StarterSane(s: Dev, t: Dev, sid: Sid)
    requires Sane(s) && sid in s.starters && t.activeFailover == s.activeFailover && t.failQ == s.failQ
    requires forall x :: x in t.starters && x != sid ==> x in s.starters && t.starters[x] == s.starters[x]
    requires sid in t.starters ==> t.starters[sid].worker == s.starters[sid].worker && t.starters[sid].code == s.starters[sid].code
    ensures Sane(t)
  {
  }

  predicate OfStarter(step: Step) {
    step.Start? || step.Check? || step.Swap? || step.Suspend? || step.SendMarker? || step.GiveUp?
  }

  lemma SwapSane(s: Dev, step: Step)
    requires Sane(s) && Enabled(s, step) && (step.Check? || step.Swap?)
    ensures Sane(Apply(s, step))
  {
    StarterSane(s, Apply(s, step), step.sid);
  }

  lemma SuspendSane(s: Dev, sid: Sid, ok: bool)
    requires Sane(s) && Enabled(s, Suspend(sid, ok))
    ensures Sane(Apply(s, Suspend(sid, ok)))
  {
    StarterSane(s, Apply(s, Suspend(sid, ok)), sid);
  }

  lemma SendSane(s: Dev, sid: Sid, mid: Mid, ok: bool)
    requires Sane(s) && Enabled(s, SendMarker(sid, mid, ok))
    ensures Sane(Apply(s, SendMarker(sid, mid, ok)))
  {
    StarterSane(s, Apply(s, SendMarker(sid, mid, ok)), sid);
  }

  lemma StarterStepSane(s: Dev, step: Step)
    requires Sane(s) && Enabled(s, step) && OfStarter(step)
    ensures Sane(Apply(s, step))
  {
    if step.Check? || step.Swap? {
      SwapSane(s, step);
    } else if step.Suspend? {
      SuspendSane(s, step.sid, step.ok);
    } else if step.SendMarker? {
      SendSane(s, step.sid, step.mid, step.ok);
    } else if step.GiveUp? {
      GiveUpSane(s, step.sid);
    }
  }

  lemma MarkerStepSane(s: Dev, step: Step)
    requires Sane(s) && Enabled(s, step) && !OfStarter(step) && !Bystander(step)
    ensures Sane(Apply(s, step))
  {
    match step
    case FailoverWork(io, sid, ok) => ParkSane(s, io, sid, ok);
    case Answer(_, _) =>
    case SwitchOff(_) =>
    case Splice(_) =>
    case ReissueOne(mid, ok) => ReissueSane(s, mid, ok);
    case Finish(_) =>
    case Reset =>
  }

  lemma StepSane(s: Dev, step: Step)
    requires Sane(s) && Enabled(s, step)
    ensures Sane(Apply(s, step))
  {
    if Bystander(step) {
      BystanderFrame(s, step);
    } else if OfStarter(step) {
      StarterStepSane(s, step);
    } else {
      MarkerStepSane(s, step);
    }
  }

  lemma ParkSane(s: Dev, io: Io, sid: Sid, ok: bool)
    requires Sane(s)
    ensures Sane(Park(s, io, sid, ok))
  {
  }

  lemma GiveUpSane(s: Dev, sid: Sid)
    requires Sane(s) && Enabled(s, GiveUp(sid))
    ensures Sane(Apply(s, GiveUp(sid)))
  {
  }

  lemma ReissueSane(s: Dev, mid: Mid, ok: bool)
    requires Sane(s) && Enabled(s, ReissueOne(mid, ok))
    ensures Sane(Apply(s, ReissueOne(mid, ok)))
  {
    var Reissue(status, ios) := s.markers[mid].stage;
    ReissueFrame(SetStage(s, mid, Reissue(status, ios[1..])), ios[0], status, ok);
  }

  lemma {:induction false} RunSane(s: Dev, steps: seq<Step>)
    requires Sane(s) && Legal(s, steps)
    ensures Sane(Exec(s, steps))
    decreases |steps|
  {
    if steps != [] {
      StepSane(s, steps[0]);
      RunSane(Apply(s, steps[0]), steps[1..]);
    }
  }

  lemma ReachableIsSane(s: Dev)
    requires Reachable(s)
    ensures Sane(s)
  {
    var steps :| Legal(Init(), steps) && Exec(Init(), steps) == s;
    RunSane(Init(), steps);
  }

  // ------------------------------------------------------------------------
  // The step that strands
  // ------------------------------------------------------------------------

  /**
    A starter or marker walks away from failQ: a failover that finds the switch taken, a control-started one that
    cannot suspend or send its marker, a marker that comes back after the switch was turned off under it.
   */
  predicate Deserts(s: Dev, step: Step)
    requires Enabled(s, step)
  {
    match step
    case Swap(sid) => s.ioswitch && s.starters[sid].code.Failover?
    case Suspend(sid, ok) => !ok && !s.starters[sid].worker
    case SendMarker(sid, _, ok) => !ok && !s.starters[sid].worker
    case Answer(_, _) => !s.ioswitch
    case _ => false
  }

  predicate OwnStarter(step: Step, x: Sid) {
    (step.Swap? || step.Suspend? || step.SendMarker?) && step.sid == x
  }

  predicate OwnMarker(step: Step, x: Mid) {
    step.Answer? && step.mid == x
  }

  /** Somebody other than the one taking the step will empty failQ. */
  ghost predicate RescueBesides(s: Dev, step: Step) {
    || (exists x :: x in s.starters && Rescuer(s.starters[x]) && !OwnStarter(step, x))
    || (exists x :: x in s.markers && WillSplice(s.markers[x]) && !OwnMarker(step, x))
  }

  /** Everybody but the one taking the step is as before. */
  ghost predicate OthersSame(s: Dev, t: Dev, step: Step) {
    && (forall x :: !OwnStarter(step, x) ==> (x in t.starters <==> x in s.starters) && (x in s.starters ==> t.starters[x] == s.starters[x]))
    && (forall x :: !OwnMarker(step, x) ==> (x in t.markers <==> x in s.markers) && (x in s.markers ==> t.markers[x] == s.markers[x]))
  }

  lemma OthersRemain(s: Dev, t: Dev, step: Step)
    requires OthersSame(s, t, step)
    ensures RescueBesides(s, step) ==> Rescue(t)
  {
    if x :| x in s.starters && Rescuer(s.starters[x]) && !OwnStarter(step, x) {
      assert x in t.starters && Rescuer(t.starters[x]);
    } else if x :| x in s.markers && WillSplice(s.markers[x]) && !OwnMarker(step, x) {
      assert x in t.markers && WillSplice(t.markers[x]);
    }
  }

  lemma OthersDecide(s: Dev, t: Dev, step: Step)
    requires OthersSame(s, t, step)
    requires forall x :: OwnStarter(step, x) && x in t.starters ==> !Rescuer(t.starters[x])
    requires forall x :: OwnMarker(step, x) ==> x !in t.markers
    ensures Rescue(t) ==> RescueBesides(s, step)
  {
    if x :| x in t.starters && Rescuer(t.starters[x]) {
      assert !OwnStarter(step, x) && x in s.starters && Rescuer(s.starters[x]);
    } else if x :| x in t.markers && WillSplice(t.markers[x]) {
      assert !OwnMarker(step, x) && x in s.markers && WillSplice(s.markers[x]);
    }
  }

  lemma Deserted(s: Dev, step: Step)
    requires Enabled(s, step) && Deserts(s, step)
    ensures Apply(s, step).failQ == s.failQ && (Rescue(Apply(s, step)) <==> RescueBesides(s, step))
  {
    OthersDecide(s, Apply(s, step), step);
    OthersRemain(s, Apply(s, step), step);
  }

  lemma StarterStays(s: Dev, t: Dev, sid: Sid)
    requires sid in s.starters && t.markers == s.markers
    requires forall x :: x in s.starters && x != sid ==> x in t.starters && t.starters[x] == s.starters[x]
    requires Rescuer(s.starters[sid]) ==> sid in t.starters && Rescuer(t.starters[sid])
    ensures Rescue(s) ==> Rescue(t)
  {
    RescueKept(s, t);
  }

  lemma MarkerStays(s: Dev, t: Dev, mid: Mid)
    requires mid in s.markers && t.starters == s.starters
    requires forall x :: x in s.markers && x != mid ==> x in t.markers && t.markers[x] == s.markers[x]
    requires WillSplice(s.markers[mid]) ==> mid in t.markers && WillSplice(t.markers[mid])
    ensures Rescue(s) ==> Rescue(t)
  {
    RescueKept(s, t);
  }

  lemma SendStays(s: Dev, sid: Sid, mid: Mid)
    requires Sane(s) && Enabled(s, SendMarker(sid, mid, true))
    ensures Rescue(s) ==> Rescue(Apply(s, SendMarker(sid, mid, true)))
  {
    var t := Apply(s, SendMarker(sid, mid, true));
    if Rescuer(s.starters[sid]) {
      MarkerRescues(t, mid);
    } else if x :| x in s.starters && Rescuer(s.starters[x]) {
      assert x in t.starters && Rescuer(t.starters[x]);
    } else if x :| x in s.markers && WillSplice(s.markers[x]) {
      assert x in t.markers && WillSplice(t.markers[x]);
    }
  }

  lemma ParkStays(s: Dev, io: Io, sid: Sid, ok: bool)
    requires Sane(s) && !Stranded(s) && sid !in s.starters
    ensures !Stranded(Park(s, io, sid, ok))
  {
    var t := Park(s, io, sid, ok);
    if s.activeFailover || !s.fastpath {
      assert Rescue(s) ==> Rescue(t) by { RescueKept(s, t); }
    } else {
      WorkerRescues(t, sid);
    }
  }

  lemma ReissueStays(s: Dev, mid: Mid, ok: bool)
    requires Enabled(s, ReissueOne(mid, ok))
    ensures Apply(s, ReissueOne(mid, ok)).failQ == s.failQ
    ensures Rescue(s) ==> Rescue(Apply(s, ReissueOne(mid, ok)))
  {
    var Reissue(status, ios) := s.markers[mid].stage;
    var s0 := SetStage(s, mid, Reissue(status, ios[1..]));
    MarkerStays(s, s0, mid);
    ReissueFrame(s0, ios[0], status, ok);
    RescueKept(s0, Apply(s, ReissueOne(mid, ok)));
  }

  lemma AnswerStays(s: Dev, mid: Mid, status: int)
    requires Enabled(s, Answer(mid, status)) && s.ioswitch
    ensures Rescue(s) ==> Rescue(Apply(s, Answer(mid, status)))
  {
    MarkerStays(s, Apply(s, Answer(mid, status)), mid);
  }

  lemma SwitchOffStays(s: Dev, mid: Mid)
    requires Enabled(s, SwitchOff(mid))
    ensures Rescue(s) ==> Rescue(Apply(s, SwitchOff(mid)))
  {
    MarkerStays(s, Apply(s, SwitchOff(mid)), mid);
  }

  lemma FinishStays(s: Dev, mid: Mid)
    requires Enabled(s, Finish(mid))
    ensures Rescue(s) ==> Rescue(Apply(s, Finish(mid)))
  {
    MarkerStays(s, Apply(s, Finish(mid)), mid);
  }

  lemma FrameStays(s: Dev, t: Dev)
    requires t.starters == s.starters && t.markers == s.markers && t.failQ == s.failQ && !Stranded(s)
    ensures !Stranded(t)
  {
    RescueKept(s, t);
  }

  lemma SwapStays(s: Dev, step: Step)
    requires !Stranded(s) && Enabled(s, step) && !Deserts(s, step) && (step.Check? || step.Swap?)
    ensures !Stranded(Apply(s, step))
  {
    StarterStays(s, Apply(s, step), step.sid);
  }

  lemma SuspendStays(s: Dev, step: Step)
    requires !Stranded(s) && Enabled(s, step) && !Deserts(s, step)
    requires step.Suspend? || (step.SendMarker? && !step.ok)
    ensures !Stranded(Apply(s, step))
  {
    StarterStays(s, Apply(s, step), step.sid);
  }

  lemma GiveUpStays(s: Dev, sid: Sid)
    requires !Stranded(s) && Enabled(s, GiveUp(sid))
    ensures !Stranded(Apply(s, GiveUp(sid)))
  {
    if !s.starters[sid].worker {
      StarterStays(s, Apply(s, GiveUp(sid)), sid);
    }
  }

  /** The steps of starters that do not desert. */
  lemma StarterKeeps(s: Dev, step: Step)
    requires Sane(s) && !Stranded(s) && Enabled(s, step) && !Deserts(s, step) && OfStarter(step)
    ensures !Stranded(Apply(s, step))
  {
    if step.Start? {
      RescueKept(s, Apply(s, step));
    } else if step.Check? || step.Swap? {
      SwapStays(s, step);
    } else if step.GiveUp? {
      GiveUpStays(s, step.sid);
    } else if step.SendMarker? && step.ok {
      SendStays(s, step.sid, step.mid);
    } else {
      SuspendStays(s, step);
    }
  }

  /** All other steps. */
  lemma OtherKeeps(s: Dev, step: Step)
    requires Sane(s) && !Stranded(s) && Enabled(s, step) && !Deserts(s, step)
    requires !OfStarter(step)
    ensures !Stranded(Apply(s, step))
  {
    var t := Apply(s, step);
    if Bystander(step) {
      BystanderFrame(s, step);
      FrameStays(s, t);
    } else {
      match step
      case FailoverWork(io, sid, ok) => ParkStays(s, io, sid, ok);
      case Answer(mid, status) => AnswerStays(s, mid, status);
      case SwitchOff(mid) => SwitchOffStays(s, mid);
      case Splice(_) =>
      case ReissueOne(mid, ok) => ReissueStays(s, mid, ok);
      case Finish(mid) => FinishStays(s, mid);
      case Reset => FrameStays(s, t);
    }
  }

  /**
    Main theorem: in whatever state a run has reached with nothing stranded, the next step strands a parked IO
    if and only if something is parked, the step deserts it, and nobody else is under way.
   */
  lemma StrandsExactly(s: Dev, step: Step)
    requires Reachable(s) && !Stranded(s) && Enabled(s, step)
    ensures Stranded(Apply(s, step)) <==> s.failQ != [] && Deserts(s, step) && !RescueBesides(s, step)
  {
    ReachableIsSane(s);
    if Deserts(s, step) {
      Deserted(s, step);
    } else if OfStarter(step) {
      StarterKeeps(s, step);
    } else {
      OtherKeeps(s, step);
    }
  }
}
