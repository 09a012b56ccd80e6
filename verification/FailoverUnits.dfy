/**
  The suspend count under interleaving (pxd.c, pxd_fastpath.c): a switch takes its unit and gives it back in steps
  of its own, between which other switches, the application and a reset can come.
 */
module FailoverUnits {
  import opened Fanout
  import opened FailoverProtocol
  import opened FailoverTheorems

  /** Where `pxd_fastpath_reset_device` is: the path is off and the switch cleared, then the application is resumed, then everybody. */
  datatype Resetting = NoReset | Cleared | Draining

  datatype World = World(dev: Dev, suspend: int, app: bool, reset: Resetting)

  /**
    A step of the failover protocol, the application suspends or resumes IO, or a reset goes on: it resumes the
    application, takes one unit more from the count, or finds none left.
   */
  datatype UStep = Switch(step: Step) | AppSuspend | AppResume | ResetApp | ResetDrain | ResetDone

  predicate UEnabled(w: World, u: UStep) {
    match u
    case Switch(step) => Enabled(w.dev, step) && (step.Reset? ==> w.reset == NoReset)
    case AppSuspend => !w.app
    case AppResume => w.app
    case ResetApp => w.reset == Cleared
    case ResetDrain => w.reset == Draining && w.suspend > 0
    case ResetDone => w.reset == Draining && w.suspend <= 0
  }

  /** `pxd_request_resume`. */
  function Released(w: World): World {
    if w.app then w.(app := false, suspend := w.suspend - 1) else w
  }

  /**
    What a step does to the count: a starter takes a unit when it suspends IO; a winning marker gives one back after
    the splice, a fallback marker when it is done with the switch; a fallback that cannot send its marker gives its
    unit back, a failover resumes the application instead.
   */
  function Count(w: World, step: Step): World
    requires Enabled(w.dev, step)
  {
    match step
    case Suspend(_, ok) => if ok then w.(suspend := w.suspend + 1) else w
    case SendMarker(sid, _, ok) =>
      if ok then w
      else if w.dev.starters[sid].code.Failover? then Released(w)
      else w.(suspend := w.suspend - 1)
    case SwitchOff(mid) => if w.dev.markers[mid].code.Failover? then w else w.(suspend := w.suspend - 1)
    case Splice(_) => w.(suspend := w.suspend - 1)
    case Reset => w.(reset := Cleared)
    case _ => w
  }

  function UApply(w: World, u: UStep): World
    requires UEnabled(w, u)
  {
    match u
    case Switch(step) => Count(w, step).(dev := Apply(w.dev, step))
    case AppSuspend => w.(app := true, suspend := w.suspend + 1)
    case AppResume => Released(w)
    case ResetApp => Released(w).(reset := Draining)
    case ResetDrain => w.(suspend := w.suspend - 1)
    case ResetDone => w.(reset := NoReset)
  }

  // ------------------------------------------------------------------------
  // Who holds a unit
  // ------------------------------------------------------------------------

  /** Starters that have suspended IO and not yet sent their marker. */
  ghost function Holders(s: Dev): set<Sid> {
    set sid | sid in s.starters && s.starters[sid].stage == Suspended
  }

  predicate Carries(m: Marker) {
    m.stage.InUser? || m.stage.Won? || m.stage.Off?
  }

  /** Markers that have not given a unit back yet. */
  ghost function Carriers(s: Dev): set<Mid> {
    set mid | mid in s.markers && Carries(s.markers[mid])
  }

  ghost function Claims(s: Dev): int {
    |Holders(s)| + |Carriers(s)|
  }

  /** Every unit in the count is the application's, a starter's or a marker's. */
  ghost predicate Accounted(w: World) {
    w.suspend == Claims(w.dev) + if w.app then 1 else 0
  }

  /** A claim disappears without its unit. */
  predicate Orphans(s: Dev, step: Step)
    requires Enabled(s, step)
  {
    match step
    case SendMarker(sid, _, ok) => !ok && s.starters[sid].code.Failover?
    case Answer(_, _) => !s.ioswitch
    case _ => false
  }

  /** Or a unit disappears under its claim: a reset takes one that is still in the count. */
  predicate Unsettles(w: World, u: UStep)
    requires UEnabled(w, u)
  {
    match u
    case Switch(step) => Orphans(w.dev, step)
    case ResetDrain => true
    case _ => false
  }

  // ------------------------------------------------------------------------
  // How claims change
  // ------------------------------------------------------------------------

  /** The change of the number of claims. */
  function Change(s: Dev, step: Step): int
    requires Enabled(s, step)
  {
    match step
    case Suspend(_, ok) => if ok then 1 else 0
    case SendMarker(_, _, ok) => if ok then 0 else -1
    case Answer(_, _) => if s.ioswitch then 0 else -1
    case SwitchOff(mid) => if s.markers[mid].code.Failover? then 0 else -1
    case Splice(_) => -1
    case _ => 0
  }

  lemma SameClaims(s: Dev, t: Dev)
    requires t.starters == s.starters && t.markers == s.markers
    ensures Claims(t) == Claims(s)
  {
  }

  lemma OneElement(a: set<int>, b: set<int>, x: int)
    requires forall y :: y != x ==> (y in b <==> y in a)
    ensures |b| == |a| + (if x in b then 1 else 0) - (if x in a then 1 else 0)
  {
    forall y ensures y in b - {x} <==> y in a - {x} {
      if y != x {
        assert y in b <==> y in a;
      }
    }
    assert b - {x} == a - {x};
    Without1(a, x);
    Without1(b, x);
  }

  lemma Without1(a: set<int>, x: int)
    ensures |a - {x}| == |a| - if x in a then 1 else 0
  {
    if x !in a {
      assert a - {x} == a;
    }
  }

  /** One starter leaves or changes. */
  lemma StarterClaims(s: Dev, t: Dev, sid: Sid)
    requires forall x :: x != sid ==> (x in t.starters <==> x in s.starters) && (x in s.starters ==> t.starters[x] == s.starters[x])
    ensures |Holders(t)| == |Holders(s)| + (if sid in Holders(t) then 1 else 0) - (if sid in Holders(s) then 1 else 0)
  {
    forall x | x != sid ensures x in Holders(t) <==> x in Holders(s) {
      assert x in t.starters <==> x in s.starters;
    }
    OneElement(Holders(s), Holders(t), sid);
  }

  lemma MarkerClaims(s: Dev, t: Dev, mid: Mid)
    requires forall x :: x != mid ==> (x in t.markers <==> x in s.markers) && (x in s.markers ==> t.markers[x] == s.markers[x])
    ensures |Carriers(t)| == |Carriers(s)| + (if mid in Carriers(t) then 1 else 0) - (if mid in Carriers(s) then 1 else 0)
  {
    forall x | x != mid ensures x in Carriers(t) <==> x in Carriers(s) {
      assert x in t.markers <==> x in s.markers;
    }
    OneElement(Carriers(s), Carriers(t), mid);
  }

  lemma SameMarkers(s: Dev, t: Dev)
    requires t.markers == s.markers
    ensures |Carriers(t)| == |Carriers(s)|
  {
  }

  lemma SameStarters(s: Dev, t: Dev)
    requires t.starters == s.starters
    ensures |Holders(t)| == |Holders(s)|
  {
  }

  lemma SwapClaims(s: Dev, step: Step)
    requires Enabled(s, step) && (step.Start? || step.Check? || step.Swap?)
    ensures Claims(Apply(s, step)) == Claims(s)
  {
    var t := Apply(s, step);
    StarterClaims(s, t, step.sid);
    SameMarkers(s, t);
  }

  lemma SuspendClaims(s: Dev, sid: Sid, ok: bool)
    requires Enabled(s, Suspend(sid, ok))
    ensures Claims(Apply(s, Suspend(sid, ok))) == Claims(s) + if ok then 1 else 0
  {
    var t := Apply(s, Suspend(sid, ok));
    StarterClaims(s, t, sid);
    SameMarkers(s, t);
  }

  lemma SendClaims(s: Dev, sid: Sid, mid: Mid, ok: bool)
    requires Enabled(s, SendMarker(sid, mid, ok))
    ensures Claims(Apply(s, SendMarker(sid, mid, ok))) == Claims(s) - if ok then 0 else 1
  {
    var t := Apply(s, SendMarker(sid, mid, ok));
    StarterClaims(s, t, sid);
    MarkerClaims(s, t, mid);
  }

  lemma GiveUpClaims(s: Dev, sid: Sid)
    requires Enabled(s, GiveUp(sid))
    ensures Claims(Apply(s, GiveUp(sid))) == Claims(s)
  {
    var t := Apply(s, GiveUp(sid));
    StarterClaims(s, t, sid);
    SameMarkers(s, t);
  }

  lemma ParkClaims(s: Dev, io: Io, sid: Sid, ok: bool)
    requires Enabled(s, FailoverWork(io, sid, ok))
    ensures Claims(Apply(s, FailoverWork(io, sid, ok))) == Claims(s)
  {
    var t := Apply(s, FailoverWork(io, sid, ok));
    StarterClaims(s, t, sid);
    SameMarkers(s, t);
  }

  lemma AnswerClaims(s: Dev, mid: Mid, status: int)
    requires Enabled(s, Answer(mid, status))
    ensures Claims(Apply(s, Answer(mid, status))) == Claims(s) - if s.ioswitch then 0 else 1
  {
    var t := Apply(s, Answer(mid, status));
    MarkerClaims(s, t, mid);
    SameStarters(s, t);
  }

  lemma SwitchOffClaims(s: Dev, mid: Mid)
    requires Enabled(s, SwitchOff(mid))
    ensures Claims(Apply(s, SwitchOff(mid))) == Claims(s) - if s.markers[mid].code.Failover? then 0 else 1
  {
    var t := Apply(s, SwitchOff(mid));
    MarkerClaims(s, t, mid);
    SameStarters(s, t);
  }

  lemma SpliceClaims(s: Dev, mid: Mid)
    requires Enabled(s, Splice(mid))
    ensures Claims(Apply(s, Splice(mid))) == Claims(s) - 1
  {
    var t := Apply(s, Splice(mid));
    MarkerClaims(s, t, mid);
    SameStarters(s, t);
  }

  lemma ReissueClaims(s: Dev, mid: Mid, ok: bool)
    requires Enabled(s, ReissueOne(mid, ok))
    ensures Claims(Apply(s, ReissueOne(mid, ok))) == Claims(s)
  {
    var Reissue(status, ios) := s.markers[mid].stage;
    var s0 := SetStage(s, mid, Reissue(status, ios[1..]));
    MarkerClaims(s, s0, mid);
    SameStarters(s, s0);
    ReissueFrame(s0, ios[0], status, ok);
    SameClaims(s0, Apply(s, ReissueOne(mid, ok)));
  }

  lemma FinishClaims(s: Dev, mid: Mid)
    requires Enabled(s, Finish(mid))
    ensures Claims(Apply(s, Finish(mid))) == Claims(s)
  {
    var t := Apply(s, Finish(mid));
    MarkerClaims(s, t, mid);
    SameStarters(s, t);
  }

  lemma StepClaims(s: Dev, step: Step)
    requires Enabled(s, step)
    ensures Claims(Apply(s, step)) == Claims(s) + Change(s, step)
  {
    if Bystander(step) {
      BystanderFrame(s, step);
      SameClaims(s, Apply(s, step));
    } else {
      match step
      case FailoverWork(io, sid, ok) => ParkClaims(s, io, sid, ok);
      case Start(_, _) => SwapClaims(s, step);
      case Check(_) => SwapClaims(s, step);
      case Swap(_) => SwapClaims(s, step);
      case Suspend(sid, ok) => SuspendClaims(s, sid, ok);
      case SendMarker(sid, mid, ok) => SendClaims(s, sid, mid, ok);
      case GiveUp(sid) => GiveUpClaims(s, sid);
      case Answer(mid, status) => AnswerClaims(s, mid, status);
      case SwitchOff(mid) => SwitchOffClaims(s, mid);
      case Splice(mid) => SpliceClaims(s, mid);
      case ReissueOne(mid, ok) => ReissueClaims(s, mid, ok);
      case Finish(mid) => FinishClaims(s, mid);
      case Reset => SameClaims(s, Apply(s, step));
    }
  }

  // ------------------------------------------------------------------------
  // The theorems
  // ------------------------------------------------------------------------

  lemma CountChange(w: World, step: Step)
    requires Enabled(w.dev, step) && w.suspend == Claims(w.dev) + (if w.app then 1 else 0)
    ensures var v := Count(w, step);
            v.suspend == Claims(w.dev) + Change(w.dev, step) + (if v.app then 1 else 0) <==> !Orphans(w.dev, step)
  {
  }

  /**
    In any state in which every unit is accounted for, a step leaves them all accounted for if and only if it is not
    a failover that cannot send its marker, nor a marker that comes back to a switch that was given up under it, nor
    a reset that finds a unit in the count after it has resumed the application.
   */
  lemma AccountedExactly(w: World, u: UStep)
    requires Accounted(w) && UEnabled(w, u)
    ensures Accounted(UApply(w, u)) <==> !Unsettles(w, u)
  {
    if u.Switch? {
      StepClaims(w.dev, u.step);
      CountChange(w, u.step);
    }
  }

  predicate ULegal(w: World, us: seq<UStep>)
    decreases |us|
  {
    us == [] || (UEnabled(w, us[0]) && ULegal(UApply(w, us[0]), us[1..]))
  }

  function UExec(w: World, us: seq<UStep>): World
    requires ULegal(w, us)
    decreases |us|
  {
    if us == [] then w else UExec(UApply(w, us[0]), us[1..])
  }

  function UInit(): World {
    World(Init(), 0, false, NoReset)
  }

  ghost predicate NoneUnsettles(w: World, us: seq<UStep>)
    requires ULegal(w, us)
    decreases |us|
  {
    us == [] || (!Unsettles(w, us[0]) && NoneUnsettles(UApply(w, us[0]), us[1..]))
  }

  ghost predicate AccountedThroughout(w: World, us: seq<UStep>)
    requires ULegal(w, us)
    decreases |us|
  {
    Accounted(w) && (us == [] || AccountedThroughout(UApply(w, us[0]), us[1..]))
  }

  /** In every interleaving of switches, application and reset, no unit is lost or orphaned iff no such step is taken. */
  lemma {:induction false} RunAccountedExactly(w: World, us: seq<UStep>)
    requires Accounted(w) && ULegal(w, us)
    ensures AccountedThroughout(w, us) <==> NoneUnsettles(w, us)
    decreases |us|
  {
    if us != [] {
      AccountedExactly(w, us[0]);
      if Accounted(UApply(w, us[0])) {
        RunAccountedExactly(UApply(w, us[0]), us[1..]);
      }
    }
  }

  lemma InitAccounted()
    ensures Accounted(UInit())
  {
    assert Holders(Init()) == {} && Carriers(Init()) == {};
  }

  /** So for every run of a new device. */
  lemma EveryRunAccountedExactly(us: seq<UStep>)
    requires ULegal(UInit(), us)
    ensures AccountedThroughout(UInit(), us) <==> NoneUnsettles(UInit(), us)
  {
    InitAccounted();
    RunAccountedExactly(UInit(), us);
  }

  // ------------------------------------------------------------------------
  // A unit orphaned by a reset
  // ------------------------------------------------------------------------

  ghost predicate UReachable(w: World) {
    exists us :: ULegal(UInit(), us) && UExec(UInit(), us) == w
  }

  lemma {:induction false} UAppend(w: World, us: seq<UStep>, u: UStep)
    requires ULegal(w, us) && UEnabled(UExec(w, us), u)
    ensures ULegal(w, us + [u]) && UExec(w, us + [u]) == UApply(UExec(w, us), u)
    decreases |us|
  {
    if us == [] {
      assert us + [u] == [u] && [u][1..] == [];
    } else {
      assert (us + [u])[1..] == us[1..] + [u];
      UAppend(UApply(w, us[0]), us[1..], u);
    }
  }

  lemma UReach(w: World, u: UStep) returns (v: World)
    requires UReachable(w) && UEnabled(w, u)
    ensures UReachable(v) && v == UApply(w, u)
  {
    var us :| ULegal(UInit(), us) && UExec(UInit(), us) == w;
    UAppend(UInit(), us, u);
    v := UApply(w, u);
  }

  /** A control-started fallback holds the switch and has not suspended IO yet. */
  lemma HoldingOne() returns (w: World)
    ensures UReachable(w) && w == World(Init().(ioswitch := true, starters := map[3 := Starter(false, Fallback, Holding)]), 0, false, NoReset)
  {
    w := SwappingOne();
    w := UReach(w, Switch(Swap(3)));
  }

  lemma SwappingOne() returns (w: World)
    ensures UReachable(w) && w == World(Init().(starters := map[3 := Starter(false, Fallback, Swapping)]), 0, false, NoReset)
  {
    w := UInit();
    assert ULegal(UInit(), []) && UExec(UInit(), []) == w;
    w := UReach(w, Switch(Start(3, Fallback)));
    w := UReach(w, Switch(Check(3)));
  }

  /** A reset from beginning to end leaves it believing that it holds the switch. */
  lemma ResetUnderIt() returns (w: World)
    ensures UReachable(w) && w == World(Init().(starters := map[3 := Starter(false, Fallback, Holding)]), 0, false, NoReset)
  {
    var h := HoldingOne();
    w := UReach(h, Switch(Reset));
    w := UReach(w, ResetApp);
    w := UReach(w, ResetDone);
  }

  lemma SendAnyway() returns (w: World)
    ensures UReachable(w) && w == World(Init().(markers := map[7 := Marker(Fallback, InUser)]), 1, false, NoReset)
  {
    w := ResetUnderIt();
    w := UReach(w, Switch(Suspend(3, true)));
    w := UReach(w, Switch(SendMarker(3, 7, true)));
  }

  /** It suspends IO and sends its marker, which loses: its unit stays in the count for good, with nobody to release it. */
  lemma ResetOrphansUnit() returns (w: World)
    ensures UReachable(w) && w.suspend == 1 && !w.app && !w.dev.ioswitch && w.dev.starters == map[] && w.dev.markers == map[]
    ensures w.reset == NoReset
  {
    w := SendAnyway();
    w := UReach(w, Switch(Answer(7, 0)));
  }

  /** A fallback takes the switch and its unit between the clear and the drain of a reset. */
  lemma SuspendedMeanwhile() returns (w: World)
    ensures UReachable(w) && w == World(Init().(ioswitch := true, starters := map[3 := Starter(false, Fallback, Suspended)]), 1, false, Draining)
  {
    w := ResetBeforeSwap();
    w := UReach(w, Switch(Swap(3)));
    w := UReach(w, Switch(Suspend(3, true)));
  }

  lemma ResetBeforeSwap() returns (w: World)
    ensures UReachable(w) && w == World(Init().(starters := map[3 := Starter(false, Fallback, Swapping)]), 0, false, Draining)
  {
    w := SwappingOne();
    w := UReach(w, Switch(Reset));
    w := UReach(w, ResetApp);
  }

  lemma DrainedMeanwhile() returns (w: World)
    ensures UReachable(w) && w == World(Init().(ioswitch := true, markers := map[7 := Marker(Fallback, InUser)]), 0, false, NoReset)
  {
    w := DrainedOne();
    w := UReach(w, Switch(SendMarker(3, 7, true)));
  }

  lemma DrainedOne() returns (w: World)
    ensures UReachable(w) && w == World(Init().(ioswitch := true, starters := map[3 := Starter(false, Fallback, Suspended)]), 0, false, NoReset)
  {
    w := SuspendedMeanwhile();
    w := UReach(w, ResetDrain);
    w := UReach(w, ResetDone);
  }

  /** The reset takes that unit, and the marker gives it back once more: the count ends at -1. */
  lemma ResetOverdraws() returns (w: World)
    ensures UReachable(w) && w.suspend == -1 && !w.app && !w.dev.ioswitch && w.dev.starters == map[] && w.reset == NoReset
  {
    w := DrainedMeanwhile();
    w := UReach(w, Switch(Answer(7, 0)));
    w := UReach(w, Switch(SwitchOff(7)));
  }
}
