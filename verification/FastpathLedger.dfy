/**
  Who keeps a device's IO suspended (pxd_fastpath.c, pxd.c).

  `suspend` counts nested suspensions of several owners. This module follows the count
  through every control operation, whatever its outcome, and says exactly whose units it holds.
 */
module FastpathLedger {
  import Routing

  datatype Code = Failover | Fallback

  /**
    `enabled` is how the device was registered, `fastpath` whether it is active now. `sent` are all markers sent so
    far, numbered in order, `back` those that have come back, `holder` is the one whose start set `ioswitch`. The last
    three fields keep the books: units left by failed enables and still held, units left by failovers whose marker could not be
    sent and still held, and units of an owner that a cleanup took.
   */
  datatype Ledger = Ledger(
    enabled: bool,
    fastpath: bool,
    suspend: int,
    app: bool,
    ioswitch: bool,
    sent: seq<Code>,
    back: set<int>,
    holder: int,
    failed: int,
    leaked: int,
    stolen: int)

  /**
    Control operations. `ok`: the suspend part (flush of the backing files included) succeeds; `sent`: a
    request for the marker could be had; `allOpen`: every path opens to a file of a known type; `mid`: the marker
    that comes back from userspace.
   */
  datatype Op =
    | Suspend(ok: bool)
    | Resume
    | UpdatePath(count: nat, allOpen: bool)
    | Disable
    | Cleanup
    | StartFailover(ok: bool, sent: bool)
    | StartFallback(sent: bool)
    | MarkerDone(mid: int)
    | Reset

  function Init(enabled: bool): Ledger {
    Ledger(enabled, false, 0, false, false, [], {}, 0, 0, 0, 0)
  }

  /** The marker is in userspace. */
  predicate Away(l: Ledger, mid: int) {
    0 <= mid < |l.sent| && mid !in l.back
  }

  /** The units of the two owners a caller can see: the application and a switch under way. */
  function Owned(l: Ledger): int {
    (if l.app then 1 else 0) + (if l.ioswitch then 1 else 0)
  }

  /** `pxd_request_resume`. */
  function AppResume(l: Ledger): Ledger {
    if l.app && l.enabled then l.(app := false, suspend := l.suspend - 1) else l
  }

  /** A marker of the given kind goes to userspace, and holds the switch. */
  function SendMarker(l: Ledger, code: Code): Ledger {
    l.(ioswitch := true, suspend := l.suspend + 1, sent := l.sent + [code], holder := |l.sent|)
  }

  /** A unit is released by `pxd_fastpath_vol_cleanup`, and booked: a failed enable's, else a leaked one, else an owner's. */
  function Clean(l: Ledger): Ledger {
    var m := l.(fastpath := false, suspend := l.suspend - 1);
    if l.failed > 0 then m.(failed := l.failed - 1)
    else if l.leaked > 0 then m.(leaked := l.leaked - 1)
    else m.(stolen := l.stolen + 1)
  }

  /** The compare-and-swap of a returning marker, whichever it is, and what the winner does. */
  function Complete(l: Ledger, code: Code): Ledger {
    if !l.ioswitch then l
    else l.(ioswitch := false, fastpath := l.fastpath && code == Fallback, suspend := l.suspend - 1)
  }

  function Apply(l: Ledger, op: Op): Ledger {
    match op
    case Suspend(ok) =>
      if l.app || !l.enabled || !ok then l else l.(app := true, suspend := l.suspend + 1)
    case Resume => AppResume(l)
    case UpdatePath(count, allOpen) =>
      if !l.enabled || l.fastpath || count > Routing.MAX_BACKING_DEVS || count == 0 then l
      else if allOpen then l.(fastpath := true)
      else l.(suspend := l.suspend + 1, failed := l.failed + 1)
    case Disable => l.(fastpath := false)
    case Cleanup => if l.suspend == 0 then l else Clean(l)
    case StartFailover(ok, sent) =>
      if !l.fastpath || l.ioswitch || !l.enabled || !ok then l
      else if sent then SendMarker(l, Failover)
      else AppResume(l.(suspend := l.suspend + 1)).(leaked := l.leaked + 1)
    case StartFallback(sent) =>
      if l.fastpath || l.ioswitch || !l.enabled || !sent then l else SendMarker(l, Fallback)
    case MarkerDone(mid) =>
      if !Away(l, mid) then l else Complete(l, l.sent[mid]).(back := l.back + {mid})
    case Reset =>
      if !l.enabled then l
      else
        var m := AppResume(l.(fastpath := false, ioswitch := false));
        m.(suspend := if m.suspend > 0 then 0 else m.suspend, failed := 0, leaked := 0,
           stolen := if m.suspend > 0 then 0 else -m.suspend)
  }

  function Run(l: Ledger, ops: seq<Op>): Ledger
    decreases |ops|
  {
    if ops == [] then l else Run(Apply(l, ops[0]), ops[1..])
  }

  // ------------------------------------------------------------------------
  // The ledger
  // ------------------------------------------------------------------------

  /** The count is the units of its owners and what failures left behind, less what cleanups took from owners. */
  ghost predicate Balanced(l: Ledger) {
    && l.suspend == Owned(l) + l.failed + l.leaked - l.stolen
    && l.failed >= 0 && l.leaked >= 0 && l.stolen >= 0
    && (!l.enabled ==> !l.fastpath && !l.ioswitch && !l.app && l.failed == 0 && l.leaked == 0)
  }

  /** Only markers sent come back, and the one that holds the switch is away. */
  ghost predicate MarkersOk(l: Ledger) {
    && (forall mid :: mid in l.back ==> mid < |l.sent|)
    && (l.ioswitch ==> Away(l, l.holder))
  }

  lemma StepBalanced(l: Ledger, op: Op)
    requires Balanced(l)
    ensures Balanced(Apply(l, op)) && Apply(l, op).enabled == l.enabled
  {
  }

  lemma StepMarkers(l: Ledger, op: Op)
    requires MarkersOk(l)
    ensures MarkersOk(Apply(l, op))
  {
  }

  /** After every sequence of control operations, whatever their outcomes, the ledger balances. */
  lemma {:induction false} LedgerBalances(l: Ledger, ops: seq<Op>)
    requires Balanced(l) && MarkersOk(l)
    ensures Balanced(Run(l, ops)) && MarkersOk(Run(l, ops)) && Run(l, ops).enabled == l.enabled
    decreases |ops|
  {
    if ops != [] {
      StepBalanced(l, ops[0]);
      StepMarkers(l, ops[0]);
      LedgerBalances(Apply(l, ops[0]), ops[1..]);
    }
  }

  // ------------------------------------------------------------------------
  // What one operation undoes
  // ------------------------------------------------------------------------

  /** A resume undoes a suspend, whatever the application does in between that touches neither path nor switch. */
  lemma ResumeUndoesSuspend(l: Ledger)
    requires l.enabled && !l.app
    ensures var m := Apply(l, Suspend(true));
            && m.app && m.suspend == l.suspend + 1
            && Apply(m, Suspend(true)) == m && Apply(m, Resume) == l && Apply(l, Resume) == l
  {
  }

  /**
    Switching to userspace holds one unit from the start to the marker's return, on the same path; then the unit and
    the switch are given back, and the path is off after a failover as it was before a fallback.
   */
  lemma SwitchGivesBack(l: Ledger, code: Code)
    requires l.enabled && !l.ioswitch && MarkersOk(l) && (l.fastpath <==> code == Failover)
    ensures var m := Apply(l, if code == Failover then StartFailover(true, true) else StartFallback(true));
            var r := Apply(m, MarkerDone(m.holder));
            && m.ioswitch && m.suspend == l.suspend + 1 && m.fastpath == l.fastpath && Away(m, m.holder)
            && r.suspend == l.suspend && !r.ioswitch && !r.fastpath && r.app == l.app
            && !Away(r, m.holder) && Apply(r, MarkerDone(m.holder)) == r
  {
  }

  // ------------------------------------------------------------------------
  // Owners keep their units
  // ------------------------------------------------------------------------

  /** Every owner has its unit in the count. */
  ghost predicate Covered(l: Ledger) {
    Balanced(l) && l.suspend >= Owned(l)
  }

  /** A cleanup is issued only if there is nothing to release, or a unit that no owner needs. */
  predicate Disciplined(l: Ledger, op: Op) {
    op == Cleanup ==> l.suspend == 0 || l.suspend > Owned(l)
  }

  predicate DisciplinedRun(l: Ledger, ops: seq<Op>)
    decreases |ops|
  {
    ops == [] || (Disciplined(l, ops[0]) && DisciplinedRun(Apply(l, ops[0]), ops[1..]))
  }

  lemma InitCovered(enabled: bool)
    ensures Covered(Init(enabled))
  {
  }

  lemma InitMarkers(enabled: bool)
    ensures MarkersOk(Init(enabled))
  {
  }

  /** Every owner still has its unit after an operation exactly if that was no cleanup at `suspend == Owned`. */
  lemma StepCovered(l: Ledger, op: Op)
    requires Covered(l)
    ensures Covered(Apply(l, op)) <==> Disciplined(l, op)
  {
  }

  ghost predicate CoveredThroughout(l: Ledger, ops: seq<Op>)
    decreases |ops|
  {
    Covered(l) && (ops == [] || CoveredThroughout(Apply(l, ops[0]), ops[1..]))
  }

  /**
    No owner loses its unit anywhere in a run if and only if no cleanup is issued at a moment at which the count is
    positive and no larger than the application's and the switch's units.
   */
  lemma {:induction false} CoveredExactly(l: Ledger, ops: seq<Op>)
    requires Covered(l)
    ensures CoveredThroughout(l, ops) <==> DisciplinedRun(l, ops)
    ensures DisciplinedRun(l, ops) ==> Covered(Run(l, ops))
    decreases |ops|
  {
    if ops != [] {
      StepCovered(l, ops[0]);
      if Disciplined(l, ops[0]) {
        CoveredExactly(Apply(l, ops[0]), ops[1..]);
      }
    }
  }

  lemma {:induction false} NothingStolen(l: Ledger, ops: seq<Op>)
    requires Covered(l) && l.stolen == 0 && DisciplinedRun(l, ops)
    ensures Run(l, ops).stolen == 0
    decreases |ops|
  {
    if ops != [] {
      StepCovered(l, ops[0]);
      NothingStolen(Apply(l, ops[0]), ops[1..]);
    }
  }

  /** The states that disciplined operations lead a new device to. */
  ghost predicate Kept(l: Ledger) {
    exists enabled: bool, ops :: DisciplinedRun(Init(enabled), ops) && Run(Init(enabled), ops) == l
  }

  lemma RunKept(start: Ledger, ops: seq<Op>)
    requires Covered(start) && MarkersOk(start) && start.stolen == 0 && DisciplinedRun(start, ops)
    ensures var l := Run(start, ops); Covered(l) && MarkersOk(l) && l.stolen == 0
  {
    CoveredExactly(start, ops);
    LedgerBalances(start, ops);
    NothingStolen(start, ops);
  }

  lemma FromInit(enabled: bool, ops: seq<Op>)
    requires DisciplinedRun(Init(enabled), ops)
    ensures var l := Run(Init(enabled), ops); Covered(l) && MarkersOk(l) && l.stolen == 0
  {
    InitCovered(enabled);
    InitMarkers(enabled);
    RunKept(Init(enabled), ops);
  }

  lemma KeptMeans(l: Ledger)
    requires Kept(l)
    ensures Covered(l) && MarkersOk(l) && l.stolen == 0
  {
    var enabled: bool, ops :| DisciplinedRun(Init(enabled), ops) && Run(Init(enabled), ops) == l;
    FromInit(enabled, ops);
  }

  /** Then the count is never negative: it is the owners' units and those that failures left and nobody released. */
  lemma NeverNegative(l: Ledger)
    requires Kept(l)
    ensures l.suspend == Owned(l) + l.failed + l.leaked && l.failed >= 0 && l.leaked >= 0
  {
    KeptMeans(l);
  }

  /** The discipline is needed: a cleanup that takes the application's unit drives the count below zero. */
  lemma StolenUnit()
    ensures Run(Init(true), [Suspend(true), Cleanup, Resume]).suspend == -1
  {
    Run3(Init(true), Suspend(true), Cleanup, Resume);
  }

  // ------------------------------------------------------------------------
  // The leaked unit
  // ------------------------------------------------------------------------

  /** The count is the application's and the switch's units and the failed enables that were not cleaned up. */
  ghost predicate Plain(l: Ledger) {
    l.suspend == Owned(l) + l.failed
  }

  /** A failover that has suspended IO and cannot get a request for its marker. */
  predicate LosesMarker(l: Ledger, op: Op) {
    op.StartFailover? && op.ok && !op.sent && l.enabled && l.fastpath && !l.ioswitch
  }

  /** The plain ledger holds exactly while no leaked unit is held. */
  lemma PlainLedgerExactly(l: Ledger)
    requires Kept(l)
    ensures Plain(l) <==> l.leaked == 0
  {
    KeptMeans(l);
  }

  /**
    Where it breaks and where it heals: it breaks exactly at a failover whose marker cannot be had, and heals exactly
    at a reset, or at a cleanup that finds one leaked unit and no failed enable.
   */
  lemma PlainStepExactly(l: Ledger, op: Op)
    requires Kept(l) && Disciplined(l, op)
    ensures Plain(Apply(l, op)) <==>
      if Plain(l) then !LosesMarker(l, op) else op == Reset || (op == Cleanup && l.failed == 0 && l.leaked == 1)
  {
    KeptMeans(l);
  }

  /** The leaked unit: nobody owns it, and no enable failed. */
  lemma LeakedUnit()
    ensures var l := Run(Init(true), [UpdatePath(1, true), StartFailover(true, false)]);
            l.suspend == 1 && !l.app && !l.ioswitch && l.failed == 0 && l.leaked == 1
  {
    Run2(Init(true), UpdatePath(1, true), StartFailover(true, false));
  }

  /** With a suspended application it is worse: the application's claim is dropped, and the count stays where it was. */
  lemma LeakedUnitDropsTheApplication()
    ensures var l := Run(Init(true), [UpdatePath(1, true), Suspend(true), StartFailover(true, false)]);
            l.suspend == 1 && !l.app && !l.ioswitch && l.failed == 0 && l.leaked == 1 && Apply(l, Resume) == l
  {
    Run3(Init(true), UpdatePath(1, true), Suspend(true), StartFailover(true, false));
  }

  lemma Run2(l: Ledger, a: Op, b: Op)
    ensures Run(l, [a, b]) == Apply(Apply(l, a), b)
  {
    assert [a, b][1..] == [b] && [b][1..] == [];
    assert Run(Apply(l, a), [b]) == Run(Apply(Apply(l, a), b), []);
  }

  lemma Run3(l: Ledger, a: Op, b: Op, c: Op)
    ensures Run(l, [a, b, c]) == Apply(Apply(Apply(l, a), b), c)
  {
    assert [a, b, c][1..] == [b, c];
    Run2(Apply(l, a), b, c);
  }

  // ------------------------------------------------------------------------
  // Reset, and markers that come back after it
  // ------------------------------------------------------------------------

  /** After any operations, a reset leaves the device as new, but for the markers still away, exactly if the count covers the application. */
  lemma ResetExactly(l: Ledger)
    requires Balanced(l) && l.enabled
    ensures Apply(l, Reset) == Init(true).(sent := l.sent, back := l.back, holder := l.holder) <==> l.suspend >= if l.app then 1 else 0
  {
  }

  lemma ResetCleans(start: Ledger, ops: seq<Op>)
    requires Balanced(start) && MarkersOk(start) && start.enabled
    ensures var l := Run(start, ops);
            Apply(l, Reset) == Init(true).(sent := l.sent, back := l.back, holder := l.holder) <==> l.suspend >= if l.app then 1 else 0
  {
    LedgerBalances(start, ops);
    ResetExactly(Run(start, ops));
  }

  /** In particular in every disciplined state. */
  lemma KeptResets(l: Ledger)
    requires Kept(l) && l.enabled
    ensures Apply(l, Reset) == Init(true).(sent := l.sent, back := l.back, holder := l.holder)
  {
    KeptMeans(l);
    ResetExactly(l);
  }

  /** A reset after a cleanup that took the application's unit: the count ends at -1. */
  lemma ResetAfterTheft()
    ensures var l := Run(Init(true), [Suspend(true), Cleanup]); l.app && l.suspend == 0 && Apply(l, Reset).suspend == -1
  {
    Run2(Init(true), Suspend(true), Cleanup);
  }

  /** The marker was sent, and whatever switch is active now is not its own. */
  ghost predicate Late(l: Ledger, mid: int) {
    Away(l, mid) && (l.ioswitch ==> l.holder != mid)
  }

  lemma {:induction false} StaysLate(l: Ledger, ops: seq<Op>, mid: int)
    requires Late(l, mid) && MarkerDone(mid) !in ops
    ensures Late(Run(l, ops), mid)
    decreases |ops|
  {
    if ops != [] {
      assert ops[0] != MarkerDone(mid);
      StaysLate(Apply(l, ops[0]), ops[1..], mid);
    }
  }

  /**
    A marker that was away when the device was reset comes back after any further operations. It changes nothing if
    and only if no switch is active then. If one is, it is somebody else's: the late marker takes that switch and
    releases its unit, while the marker it belongs to is still away.
   */
  lemma LateMarkerExactly(l: Ledger, ops: seq<Op>, mid: int)
    requires Balanced(l) && MarkersOk(l) && l.enabled && Away(l, mid) && MarkerDone(mid) !in ops
    ensures var m := Run(Apply(l, Reset), ops);
            var t := Apply(m, MarkerDone(mid));
            && (t == m.(back := m.back + {mid}) <==> !m.ioswitch)
            && (m.ioswitch ==>
                  && m.holder != mid && Away(t, m.holder)
                  && !t.ioswitch && t.suspend == m.suspend - 1 && (t.fastpath ==> m.sent[mid] == Fallback))
  {
    StepBalanced(l, Reset);
    StepMarkers(l, Reset);
    LedgerBalances(Apply(l, Reset), ops);
    StaysLate(Apply(l, Reset), ops, mid);
  }

  /** A failover under way, its marker the last of those sent. */
  function UnderWay(sent: seq<Code>): Ledger {
    Ledger(true, true, 1, false, true, sent, {}, |sent| - 1, 0, 0, 0)
  }

  lemma FirstSwitch()
    ensures Run(Init(true), [UpdatePath(1, true), StartFailover(true, true)]) == UnderWay([Failover])
  {
    Run2(Init(true), UpdatePath(1, true), StartFailover(true, true));
    assert [] + [Failover] == [Failover];
  }

  lemma SecondSwitch()
    ensures Run(UnderWay([Failover]), [Reset, UpdatePath(1, true), StartFailover(true, true)]) == UnderWay([Failover, Failover])
  {
    Run3(UnderWay([Failover]), Reset, UpdatePath(1, true), StartFailover(true, true));
    assert [Failover] + [Failover] == [Failover, Failover];
  }

  /** It happens: the second failover is finished by the first one's marker, while its own is still away. */
  lemma LateMarkerWins()
    ensures var l := Run(Run(Init(true), [UpdatePath(1, true), StartFailover(true, true)]),
                         [Reset, UpdatePath(1, true), StartFailover(true, true)]);
            var t := Apply(l, MarkerDone(0));
            && l.suspend == 1 && l.ioswitch && l.fastpath && l.holder == 1 && Away(l, 0)
            && t.suspend == 0 && !t.ioswitch && !t.fastpath && Away(t, 1)
  {
    FirstSwitch();
    SecondSwitch();
  }
}
