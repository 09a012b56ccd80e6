/** Where every step takes an IO, with which status each IO ends and why, over all runs of the failover protocol. */
module FailoverOutcomes {
  import opened Errno
  import opened Seqs
  import opened Fanout
  import opened FailoverProtocol
  import opened FailoverSafety
  import opened FailoverTheorems

  // ------------------------------------------------------------------------
  // The status of an IO whose clones are all in
  // ------------------------------------------------------------------------

  function StatusesOf(clones: seq<Clone>): (sts: seq<int>)
    requires forall i :: 0 <= i < |clones| ==> clones[i].Recorded? || clones[i].Dropped?
    ensures |sts| == |clones| && forall i :: 0 <= i < |sts| ==> sts[i] == clones[i].status
  {
    seq(|clones|, i requires 0 <= i < |clones| => clones[i].status)
  }

  /** Every clone but `i` has given up its reference, and `i` is about to. */
  predicate LastIn(s: Dev, io: Io, i: nat) {
    && io in s.fast && i < |s.fast[io].clones| && s.fast[io].clones[i].Recorded?
    && forall j :: 0 <= j < |s.fast[io].clones| && j != i ==> s.fast[io].clones[j].Dropped?
  }

  /** What the clones came back with: the replicas in list order, then the head. */
  function CameBack(s: Dev, io: Io, i: nat): seq<int>
    requires LastIn(s, io, i)
  {
    var clones := s.fast[io].clones;
    StatusesOf(clones[1..]) + StatusesOf(clones[..1])
  }

  /** Success if all succeeded, -EIO if some failure is not spared, else the first failure. */
  ghost predicate Settles(sts: seq<int>, e: int) {
    && (e == 0 <==> forall k :: 0 <= k < |sts| ==> sts[k] == 0)
    && (e == -EIO <==> SomeEio(sts))
    && (e != 0 && e != -EIO ==> exists k :: 0 <= k < |sts| && sts[k] == e && forall j :: 0 <= j < k ==> sts[j] == 0)
  }

  lemma SettlesOnce(sts: seq<int>, e: int, f: int)
    requires Settles(sts, e) && Settles(sts, f)
    ensures e == f
  {
    if e != 0 && e != -EIO {
      var k :| 0 <= k < |sts| && sts[k] == e && forall j :: 0 <= j < k ==> sts[j] == 0;
      var l :| 0 <= l < |sts| && sts[l] == f && forall j :: 0 <= j < l ==> sts[j] == 0;
      assert k == l;
    }
  }

  lemma {:induction false} FirstErrorIsFirst(sts: seq<int>)
    requires FirstError(sts) != 0
    ensures exists k :: 0 <= k < |sts| && sts[k] == FirstError(sts) && forall j :: 0 <= j < k ==> sts[j] == 0
  {
    if sts[0] != 0 {
      assert sts[0] == FirstError(sts);
    } else {
      FirstErrorIsFirst(sts[1..]);
      var k :| 0 <= k < |sts[1..]| && sts[1..][k] == FirstError(sts) && forall j :: 0 <= j < k ==> sts[1..][j] == 0;
      assert sts[k + 1] == FirstError(sts);
      forall j | 0 <= j < k + 1 ensures sts[j] == 0 {
        assert j > 0 ==> sts[1..][j - 1] == 0;
      }
    }
  }

  lemma ReconcileSettles(sts: seq<int>)
    ensures Settles(sts, Reconcile(0, sts))
  {
    ReconcileMeaning(sts);
    if !SomeEio(sts) && FirstError(sts) != 0 {
      FirstErrorIsFirst(sts);
    }
  }

  lemma ReachableHolds(s: Dev)
    requires Reachable(s)
    ensures exists place :: Conserved(s, place)
  {
    var steps: seq<Step> :| Legal(Init(), steps) && Exec(Init(), steps) == s;
    EveryRunConserves(steps);
  }

  lemma ReachableTrackers(s: Dev)
    requires Reachable(s)
    ensures TrackersOk(s)
  {
    ReachableHolds(s);
  }

  /** The test of the completer, seen before its drop. */
  lemma LastInIsLast(s: Dev, io: Io, i: nat)
    requires TrackersOk(s) && io in s.fast && i < |s.fast[io].clones| && s.fast[io].clones[i].Recorded?
    ensures Enabled(s, Clone(io, Drop(i)))
    ensures var t := TApply(s.fast[io], Drop(i));
            && (LastIn(s, io, i) <==> t.active == 0)
            && (LastIn(s, io, i) <==> t.active == 0 && |t.clones| > 0 && forall j :: 0 <= j < |t.clones| ==> t.clones[j].Dropped?)
  {
    var clones := s.fast[io].clones;
    OutstandingZero(clones);
    assert !clones[i].Dropped?;
    assert TInv(s.fast[io]);
    CompleterTest(s, io, i);
    var t := TApply(s.fast[io], Drop(i));
    assert |t.clones| == |clones|;
    forall j | 0 <= j < |clones| ensures t.clones[j].Dropped? <==> clones[j].Dropped? || j == i {
    }
    assert t.clones[i].Dropped?;
    if t.active == 0 {
      forall j | 0 <= j < |clones| && j != i ensures clones[j].Dropped? {
        assert t.clones[j].Dropped?;
      }
    }
  }

  lemma VisitedInListOrder(s: Dev, io: Io, i: nat)
    requires LastIn(s, io, i) && TEnabled(s.fast[io], Drop(i))
    requires forall j :: 0 <= j < |s.fast[io].clones| ==> TApply(s.fast[io], Drop(i)).clones[j].Dropped?
    ensures Statuses(TApply(s.fast[io], Drop(i))) == CameBack(s, io, i)
  {
    var clones, t := s.fast[io].clones, TApply(s.fast[io], Drop(i));
    var n := |clones|;
    forall k | 0 <= k < n ensures Statuses(t)[k] == CameBack(s, io, i)[k] {
      var c := if k == n - 1 then 0 else k + 1;
      assert t.clones[c].status == clones[c].status;
    }
  }

  /**
    The last clone of an IO is in: the IO goes to the failover worker exactly if the device can fail over and some
    clone failed in a way that is not spared; otherwise it ends, with the status its clones settle on.
   */
  lemma CompletionOutcome(s: Dev, io: Io, i: nat)
    requires Reachable(s) && LastIn(s, io, i)
    ensures Enabled(s, Clone(io, Drop(i)))
    ensures var t := Apply(s, Clone(io, Drop(i)));
            var sts := CameBack(s, io, i);
            && t.fast == s.fast - {io} && t.ncount == s.ncount - 1
            && (if s.canFailover && SomeEio(sts) then t.work == s.work + {io} && t.done == s.done
                else t.work == s.work && exists e :: Settles(sts, e) && t.done == s.done + [(io, e)])
  {
    ReachableTrackers(s);
    LastInIsLast(s, io, i);
    var u := TApply(s.fast[io], Drop(i));
    VisitedInListOrder(s, io, i);
    var sts := CameBack(s, io, i);
    ReconcileSettles(sts);
    CompleteAs(s, io, Reconcile(0, sts));
    assert Apply(s, Clone(io, Drop(i))) == CompleteWith(s, io, Reconcile(0, sts));
  }

  lemma CompleteAs(s: Dev, io: Io, rc: int)
    ensures var t := CompleteWith(s, io, rc);
            && t.fast == s.fast - {io} && t.ncount == s.ncount - 1
            && (if s.canFailover && rc == -EIO then t.work == s.work + {io} && t.done == s.done
                else t.work == s.work && t.done == s.done + [(io, rc)])
  {
    var s0 := s.(fast := s.fast - {io}, ncount := s.ncount - 1);
    if s.canFailover && rc == -EIO {
      assert CompleteWith(s, io, rc) == s0.(work := s0.work + {io});
    } else {
      assert CompleteWith(s, io, rc) == End(s0, io, rc);
    }
  }

  /** Clone `i` of `io` has come back with `status`, as long as the IO has not been completed. */
  predicate CameBackWith(s: Dev, io: Io, i: nat, status: int) {
    io in s.submitted && (io in s.fast ==>
      i < |s.fast[io].clones| && (s.fast[io].clones[i] == Recorded(status) || s.fast[io].clones[i] == Dropped(status)))
  }

  /** A status written stays: the submitter only sends clones that are idle, and nobody writes a second one. */
  lemma TrackerKeepsStatus(t: Tracker, step: TStep, i: nat, status: int)
    requires TInv(t) && TEnabled(t, step) && i < |t.clones| && (t.clones[i] == Recorded(status) || t.clones[i] == Dropped(status))
    ensures var u := TApply(t, step);
            i < |u.clones| && (u.clones[i] == Recorded(status) || u.clones[i] == Dropped(status))
  {
  }

  lemma RecordClone(s: Dev, x: Io, t: TStep, io: Io, i: nat, status: int)
    requires TrackersOk(s) && x in s.fast && TEnabled(s.fast[x], t) && CameBackWith(s, io, i, status)
    ensures CameBackWith(CloneStep(s, x, t), io, i, status)
  {
    CloneFast(s, x, t);
    if x == io {
      TrackerKeepsStatus(s.fast[io], t, i, status);
    }
  }

  lemma RecordStep(s: Dev, step: Step, io: Io, i: nat, status: int)
    requires TrackersOk(s) && Enabled(s, step) && CameBackWith(s, io, i, status)
    ensures CameBackWith(Apply(s, step), io, i, status)
  {
    if step.Submit? {
      SubmitFast(s, step.io, step.clones, step.ok);
    } else if step.Clone? {
      RecordClone(s, step.io, step.t, io, i, status);
    } else {
      FastUntouched(s, step);
    }
  }

  /** Only submitting and the clones' own steps touch what is in flight on the fastpath. */
  lemma FastUntouched(s: Dev, step: Step)
    requires Enabled(s, step) && !step.Submit? && !step.Clone?
    ensures Apply(s, step).fast == s.fast && Apply(s, step).submitted == s.submitted
  {
    if !Moves(step) {
      QuietStep(s, step);
    } else if step.ReissueOne? {
      ReissueFast(s, step.mid, step.ok);
    }
  }

  lemma SubmitFast(s: Dev, io: Io, clones: nat, ok: bool)
    requires Enabled(s, Submit(io, clones, ok))
    ensures var t := Apply(s, Submit(io, clones, ok));
            && t.submitted == s.submitted + {io} && t.fast.Keys <= s.fast.Keys + {io}
            && forall x :: x in t.fast && x != io ==> t.fast[x] == s.fast[x]
  {
  }

  lemma CloneFast(s: Dev, io: Io, step: TStep)
    requires io in s.fast && TEnabled(s.fast[io], step)
    ensures var t := CloneStep(s, io, step);
            && t.submitted == s.submitted && t.fast.Keys <= s.fast.Keys
            && (forall x :: x in t.fast && x != io ==> t.fast[x] == s.fast[x])
            && (io in t.fast ==> t.fast[io] == TApply(s.fast[io], step))
  {
    var t := TApply(s.fast[io], step);
    if step.Drop? && t.active == 0 && |t.clones| > 0 && (forall i :: 0 <= i < |t.clones| ==> t.clones[i].Dropped?) {
      CompleteAs(s, io, Reconcile(0, Statuses(t)));
    }
  }

  lemma ReissueFast(s: Dev, mid: Mid, ok: bool)
    requires Enabled(s, ReissueOne(mid, ok))
    ensures Apply(s, ReissueOne(mid, ok)).fast == s.fast && Apply(s, ReissueOne(mid, ok)).submitted == s.submitted
  {
  }

  lemma FastIsSubmitted(s: Dev, io: Io)
    requires Reachable(s) && io in s.fast
    ensures io in s.submitted
  {
    ReachableHolds(s);
    var place :| Conserved(s, place);
    assert Is(place, io, InFast);
  }

  /** The status a clone comes back with is the one the IO is settled on: nothing overwrites it, whatever interleaves. */
  lemma {:induction false} RecordKept(s: Dev, steps: seq<Step>, io: Io, i: nat, status: int)
    requires Reachable(s) && Legal(s, steps) && steps != [] && steps[0] == Clone(io, Record(i, status))
    ensures CameBackWith(Exec(s, steps), io, i, status)
  {
    var t := Apply(s, steps[0]);
    assert io in s.submitted by { FastIsSubmitted(s, io); }
    CloneFast(s, io, Record(i, status));
    var u := Reach(s, steps[0]);
    StatusStays(t, steps[1..], io, i, status);
  }

  lemma {:induction false} StatusStays(s: Dev, steps: seq<Step>, io: Io, i: nat, status: int)
    requires Reachable(s) && Legal(s, steps) && CameBackWith(s, io, i, status)
    ensures CameBackWith(Exec(s, steps), io, i, status)
    decreases |steps|
  {
    if steps != [] {
      var t := Reach(s, steps[0]);
      ReachableTrackers(s);
      RecordStep(s, steps[0], io, i, status);
      StatusStays(Apply(s, steps[0]), steps[1..], io, i, status);
    }
  }

  // ------------------------------------------------------------------------
  // Every status an application sees, and why
  // ------------------------------------------------------------------------

  /** `__pxd_abortfailQ` ends what is parked with -EIO, oldest first, after everything already ended. */
  lemma {:induction false} EndAllMeaning(done: seq<(Io, int)>, ios: seq<Io>)
    ensures var all := EndAll(done, ios);
            && |all| == |done| + |ios| && all[..|done|] == done
            && forall k :: 0 <= k < |ios| ==> all[|done| + k] == (ios[k], -EIO)
    decreases ios
  {
    if ios != [] {
      var more := done + [(ios[0], -EIO)];
      EndAllMeaning(more, ios[1..]);
      var all := EndAll(more, ios[1..]);
      assert all[..|done|] == all[..|more|][..|done|];
      assert all[|done|] == all[..|more|][|done|];
      forall k | 0 <= k < |ios| ensures all[|done| + k] == (ios[k], -EIO) {
        assert k > 0 ==> all[|more| + (k - 1)] == (ios[1..][k - 1], -EIO);
      }
    }
  }

  /** The reasons for which `io` ends with status `e`. */
  ghost predicate Causes(s: Dev, step: Step, io: Io, e: int)
    requires Enabled(s, step)
  {
    match step
    case Submit(x, _, ok) => x == io && !ok && e == if s.fastpath then -ENOMEM else -EIO
    case Clone(x, t) =>
      x == io && t.Drop? && LastIn(s, io, t.i) && Settles(CameBack(s, io, t.i), e) && !(s.canFailover && SomeEio(CameBack(s, io, t.i)))
    case SlowReply(x, status) => x == io && e == status
    case FailoverWork(x, _, ok) => x == io && !s.activeFailover && !s.fastpath && !ok && e == -EIO
    case GiveUp(sid) => s.starters[sid].worker && io in s.failQ && e == -EIO
    case ReissueOne(mid, ok) => LocalList(s, mid)[0] == io && !(s.markers[mid].stage.status == 0 && ok) && e == -EIO
    case _ => false
  }

  /** Exactly what `step` causes is ended by it. */
  ghost predicate EndsWhatItCauses(s: Dev, step: Step)
    requires Enabled(s, step)
  {
    && s.done <= Apply(s, step).done
    && forall io: Io, e: int :: (io, e) in Apply(s, step).done <==> (io, e) in s.done || Causes(s, step, io, e)
  }

  lemma SubmitEnds(s: Dev, step: Step)
    requires Enabled(s, step) && step.Submit?
    ensures EndsWhatItCauses(s, step)
  {
    if step.ok {
      assert Apply(s, step).done == s.done;
    } else {
      assert Apply(s, step).done == s.done + [(step.io, if s.fastpath then -ENOMEM else -EIO)];
    }
  }

  lemma OtherCloneSteps(s: Dev, io: Io, t: TStep)
    requires TrackersOk(s) && io in s.fast && TEnabled(s.fast[io], t) && !(t.Drop? && LastIn(s, io, t.i))
    ensures CloneStep(s, io, t).done == s.done
  {
    if t.Drop? {
      LastInIsLast(s, io, t.i);
    }
  }

  lemma CloneEnds(s: Dev, io: Io, t: TStep)
    requires Reachable(s) && Enabled(s, Clone(io, t))
    ensures EndsWhatItCauses(s, Clone(io, t))
  {
    if t.Drop? && LastIn(s, io, t.i) {
      CompletionOutcome(s, io, t.i);
      var sts := CameBack(s, io, t.i);
      if !(s.canFailover && SomeEio(sts)) {
        var e :| Settles(sts, e) && Apply(s, Clone(io, t)).done == s.done + [(io, e)];
        forall f: int ensures Settles(sts, f) <==> f == e {
          if Settles(sts, f) {
            SettlesOnce(sts, e, f);
          }
        }
      }
    } else {
      ReachableTrackers(s);
      OtherCloneSteps(s, io, t);
    }
  }

  lemma WorkEnds(s: Dev, step: Step)
    requires Enabled(s, step) && step.FailoverWork?
    ensures EndsWhatItCauses(s, step)
  {
    if s.activeFailover || s.fastpath || step.ok {
      assert Apply(s, step).done == s.done;
    } else {
      assert Apply(s, step).done == s.done + [(step.io, -EIO)];
    }
  }

  lemma GiveUpEnds(s: Dev, sid: Sid)
    requires Enabled(s, GiveUp(sid))
    ensures EndsWhatItCauses(s, GiveUp(sid))
  {
    var t := Apply(s, GiveUp(sid));
    if s.starters[sid].worker {
      assert t.done == EndAll(s.done, s.failQ);
      EndAllMeaning(s.done, s.failQ);
      EndAllHas(s.done, s.failQ, t.done);
    } else {
      assert t.done == s.done;
    }
  }

  lemma EndAllHas(done: seq<(Io, int)>, ios: seq<Io>, all: seq<(Io, int)>)
    requires |all| == |done| + |ios| && all[..|done|] == done
    requires forall k :: 0 <= k < |ios| ==> all[|done| + k] == (ios[k], -EIO)
    ensures done <= all
    ensures forall io: Io, e: int :: (io, e) in all <==> (io, e) in done || (io in ios && e == -EIO)
  {
    forall io: Io, e: int ensures (io, e) in all <==> (io, e) in done || (io in ios && e == -EIO) {
      if (io, e) in all {
        var k :| 0 <= k < |all| && all[k] == (io, e);
        if k < |done| {
          assert done[k] == (io, e);
        } else {
          assert all[|done| + (k - |done|)] == (ios[k - |done|], -EIO);
        }
      }
      if io in ios && e == -EIO {
        var k :| 0 <= k < |ios| && ios[k] == io;
        assert all[|done| + k] == (io, e);
      }
      if (io, e) in done {
        var k :| 0 <= k < |done| && done[k] == (io, e);
        assert all[..|done|][k] == all[k];
      }
    }
  }

  lemma ReissueEnds(s: Dev, mid: Mid, ok: bool)
    requires Enabled(s, ReissueOne(mid, ok))
    ensures EndsWhatItCauses(s, ReissueOne(mid, ok))
  {
    ReissueOutcome(s, mid, ok);
  }

  lemma StepEnds(s: Dev, step: Step)
    requires Reachable(s) && Enabled(s, step)
    ensures EndsWhatItCauses(s, step)
  {
    if !Moves(step) {
      QuietStep(s, step);
    } else {
      match step
      case Submit(io, clones, ok) => SubmitEnds(s, step);
      case Clone(io, t) => CloneEnds(s, io, t);
      case SlowReply(io, status) => assert Apply(s, step).done == s.done + [(io, status)];
      case FailoverWork(io, sid, ok) => WorkEnds(s, step);
      case GiveUp(sid) => GiveUpEnds(s, sid);
      case Splice(mid) =>
      case ReissueOne(mid, ok) => ReissueEnds(s, mid, ok);
    }
  }

  /** Some step of the run is a reason for it, in the state it is taken in. */
  ghost predicate CausedIn(s: Dev, steps: seq<Step>, io: Io, e: int)
    requires Legal(s, steps)
    decreases |steps|
  {
    steps != [] && (Causes(s, steps[0], io, e) || CausedIn(Apply(s, steps[0]), steps[1..], io, e))
  }

  /** In every run an IO is recorded as ended with a status if and only if a step of the run is a reason for it. */
  lemma {:induction false} DoneExactly(s: Dev, steps: seq<Step>, io: Io, e: int)
    requires Reachable(s) && Legal(s, steps)
    ensures (io, e) in Exec(s, steps).done <==> (io, e) in s.done || CausedIn(s, steps, io, e)
    decreases |steps|
  {
    if steps != [] {
      StepEnds(s, steps[0]);
      var s' := Reach(s, steps[0]);
      DoneExactly(s', steps[1..], io, e);
    }
  }

  // ------------------------------------------------------------------------
  // Where an IO goes
  // ------------------------------------------------------------------------

  /** Where a new IO goes: to userspace while the fastpath is off, to its clones while it is on; without memory it ends. */
  function FirstPlace(s: Dev, ok: bool): Place {
    if !ok then Over else if s.fastpath then InFast else InSlow
  }

  /** Where `step` takes the IO `io`, so far at `p`. */
  ghost function NextPlace(s: Dev, step: Step, io: Io, p: Place): Place
    requires Enabled(s, step)
  {
    match step
    case Clone(x, t) =>
      if x == io && t.Drop? && LastIn(s, io, t.i) then (if s.canFailover && SomeEio(CameBack(s, io, t.i)) then InWork else Over)
      else p
    case SlowReply(x, _) => if x == io then Over else p
    case FailoverWork(x, _, ok) =>
      if x != io then p else if s.activeFailover || s.fastpath then Parked else if ok then InSlow else Over
    case GiveUp(sid) => if p == Parked && s.starters[sid].worker then Over else p
    case Splice(mid) => if p == Parked then Local(mid) else p
    case ReissueOne(mid, ok) =>
      if p == Local(mid) && io == LocalList(s, mid)[0] then (if s.markers[mid].stage.status == 0 && ok then InSlow else Over) else p
    case _ => p
  }

  lemma OverAfter(done: seq<(Io, int)>, io: Io, e: int)
    requires (io, e) in done
    ensures io in DoneSet(done)
  {
    var k :| 0 <= k < |done| && done[k] == (io, e);
    assert done[k].0 == io;
  }

  lemma OverStays(s: Dev, step: Step, io: Io)
    requires Reachable(s) && Enabled(s, step) && At(s, io, Over)
    ensures At(Apply(s, step), io, Over)
  {
    StepEnds(s, step);
    DonePrefix(s.done, Apply(s, step).done, io);
  }

  lemma CausedIsOver(s: Dev, step: Step, io: Io, e: int)
    requires Reachable(s) && Enabled(s, step) && Causes(s, step, io, e)
    ensures At(Apply(s, step), io, Over)
  {
    StepEnds(s, step);
    OverAfter(Apply(s, step).done, io, e);
  }

  /** `io` has that many clones, none of them sent. */
  predicate AllIdle(s: Dev, io: Io, clones: nat) {
    io in s.fast && |s.fast[io].clones| == clones && forall i :: 0 <= i < clones ==> s.fast[io].clones[i] == Clone.Idle
  }

  lemma Submitted(s: Dev, io: Io, clones: nat, ok: bool)
    requires Reachable(s) && Enabled(s, Submit(io, clones, ok))
    ensures At(Apply(s, Submit(io, clones, ok)), io, FirstPlace(s, ok))
    ensures FirstPlace(s, ok) == InFast ==> AllIdle(Apply(s, Submit(io, clones, ok)), io, clones)
  {
    if !ok {
      CausedIsOver(s, Submit(io, clones, ok), io, if s.fastpath then -ENOMEM else -EIO);
    }
  }

  lemma CloneMoves(s: Dev, x: Io, t: TStep, io: Io, p: Place)
    requires Reachable(s) && Enabled(s, Clone(x, t)) && At(s, io, p) && p != Over
    ensures At(Apply(s, Clone(x, t)), io, NextPlace(s, Clone(x, t), io, p))
  {
    var u := Apply(s, Clone(x, t));
    CloneFrame(s, x, t);
    if t.Drop? && LastIn(s, x, t.i) {
      CompletionOutcome(s, x, t.i);
      var sts := CameBack(s, x, t.i);
      if x == io && !(s.canFailover && SomeEio(sts)) {
        var e :| Settles(sts, e) && u.done == s.done + [(x, e)];
        assert u.done[|s.done|].0 == io;
      }
      LastDropKeeps(s, x, t);
    } else {
      ReachableTrackers(s);
      OtherCloneStays(s, x, t);
    }
  }

  lemma LastDropKeeps(s: Dev, x: Io, t: TStep)
    requires x in s.fast && TEnabled(s.fast[x], t)
    ensures CloneStep(s, x, t).slow == s.slow && s.work <= CloneStep(s, x, t).work
  {
  }

  lemma OtherCloneStays(s: Dev, io: Io, t: TStep)
    requires TrackersOk(s) && io in s.fast && TEnabled(s.fast[io], t) && !(t.Drop? && LastIn(s, io, t.i))
    ensures var u := CloneStep(s, io, t); u == s.(fast := u.fast) && u.fast.Keys == s.fast.Keys
  {
    if t.Drop? {
      LastInIsLast(s, io, t.i);
    }
  }

  lemma WorkMoves(s: Dev, x: Io, sid: Sid, ok: bool, io: Io, p: Place)
    requires Reachable(s) && Enabled(s, FailoverWork(x, sid, ok)) && At(s, io, p) && p != Over && (x == io ==> p == InWork)
    ensures At(Apply(s, FailoverWork(x, sid, ok)), io, NextPlace(s, FailoverWork(x, sid, ok), io, p))
  {
    var step := FailoverWork(x, sid, ok);
    if x == io && !s.activeFailover && !s.fastpath && !ok {
      CausedIsOver(s, step, io, -EIO);
    }
  }

  lemma GiveUpMoves(s: Dev, sid: Sid, io: Io, p: Place)
    requires Reachable(s) && Enabled(s, GiveUp(sid)) && At(s, io, p) && p != Over
    ensures At(Apply(s, GiveUp(sid)), io, NextPlace(s, GiveUp(sid), io, p))
  {
    if p == Parked && s.starters[sid].worker {
      CausedIsOver(s, GiveUp(sid), io, -EIO);
    }
  }

  lemma ReissueMoves(s: Dev, mid: Mid, ok: bool, io: Io, p: Place)
    requires Reachable(s) && Enabled(s, ReissueOne(mid, ok)) && At(s, io, p) && p != Over
    ensures At(Apply(s, ReissueOne(mid, ok)), io, NextPlace(s, ReissueOne(mid, ok), io, p))
  {
    var step := ReissueOne(mid, ok);
    ReissueOutcome(s, mid, ok);
    ReissueFast(s, mid, ok);
    if p == Local(mid) && io == LocalList(s, mid)[0] {
      if !(s.markers[mid].stage.status == 0 && ok) {
        CausedIsOver(s, step, io, -EIO);
      }
    } else {
      ReissueRest(s, mid, ok, io, p);
    }
  }

  lemma ReissueRest(s: Dev, mid: Mid, ok: bool, io: Io, p: Place)
    requires Enabled(s, ReissueOne(mid, ok)) && At(s, io, p) && p != Over && !(p == Local(mid) && io == LocalList(s, mid)[0])
    ensures At(Apply(s, ReissueOne(mid, ok)), io, p)
  {
    var t := Apply(s, ReissueOne(mid, ok));
    if p.Local? {
      LocalListStep(s, ReissueOne(mid, ok), p.mid);
    } else {
      ReissueFrames(s, mid, ok);
    }
  }

  lemma ReissueFrames(s: Dev, mid: Mid, ok: bool)
    requires Enabled(s, ReissueOne(mid, ok))
    ensures var t := Apply(s, ReissueOne(mid, ok));
            t.fast == s.fast && t.work == s.work && t.failQ == s.failQ && s.slow <= t.slow
  {
  }

  lemma OnePlace(s: Dev, io: Io, p: Place, q: Place)
    requires Reachable(s) && At(s, io, p) && At(s, io, q)
    ensures p == q
  {
    var steps: seq<Step> :| Legal(Init(), steps) && Exec(Init(), steps) == s;
    ExactlyOnePlace(steps, io);
  }

  lemma OverIsEnd(s: Dev, step: Step, io: Io)
    requires Reachable(s) && Enabled(s, step) && At(s, io, Over)
    ensures NextPlace(s, step, io, Over) == Over
  {
    if step.Clone? && step.io == io {
      assert At(s, io, InFast);
      OnePlace(s, io, InFast, Over);
    } else if step.FailoverWork? && step.io == io {
      assert At(s, io, InWork);
      OnePlace(s, io, InWork, Over);
    }
  }

  /** Steps that move no IO, and those that move one in an obvious way. */
  lemma PlainMoves(s: Dev, step: Step, io: Io, p: Place)
    requires Enabled(s, step) && At(s, io, p) && p != Over
    requires step.Submit? || !Moves(step)
    ensures At(Apply(s, step), io, p)
  {
    if step.Submit? {
      SubmitKeepsPlaces(s, step);
    } else {
      QuietStep(s, step);
      if p.Local? {
        assert LocalList(Apply(s, step), p.mid) == LocalList(s, p.mid);
      }
    }
  }

  lemma SubmitKeepsPlaces(s: Dev, step: Step)
    requires Enabled(s, step) && step.Submit?
    ensures var t := Apply(s, step);
            && s.fast.Keys <= t.fast.Keys && t.work == s.work && s.slow <= t.slow
            && t.failQ == s.failQ && t.markers == s.markers
  {
    var s0 := s.(submitted := s.submitted + {step.io});
    if !s.fastpath && step.ok {
      assert Apply(s, step) == s0.(slow := s0.slow + {step.io}, ncount := s0.ncount + 1);
    } else if !step.ok {
      assert Apply(s, step) == End(s0, step.io, if s.fastpath then -ENOMEM else -EIO);
    } else {
      assert Apply(s, step) == s0.(fast := s0.fast[step.io := NewTracker(step.clones)], ncount := s0.ncount + 1);
    }
  }

  lemma SlowReplyMoves(s: Dev, x: Io, status: int, io: Io, p: Place)
    requires Reachable(s) && Enabled(s, SlowReply(x, status)) && At(s, io, p) && p != Over
    ensures At(Apply(s, SlowReply(x, status)), io, NextPlace(s, SlowReply(x, status), io, p))
  {
    if x == io {
      CausedIsOver(s, SlowReply(x, status), io, status);
    }
  }

  lemma SpliceMoves(s: Dev, mid: Mid, io: Io, p: Place)
    requires Enabled(s, Splice(mid)) && At(s, io, p) && p != Over
    ensures At(Apply(s, Splice(mid)), io, NextPlace(s, Splice(mid), io, p))
  {
  }

  /** Every step takes every IO where `NextPlace` says, and nowhere else (ExactlyOnePlace). */
  lemma Journey(s: Dev, step: Step, io: Io, p: Place)
    requires Reachable(s) && Enabled(s, step) && At(s, io, p)
    ensures At(Apply(s, step), io, NextPlace(s, step, io, p))
  {
    if p == Over {
      OverIsEnd(s, step, io);
      OverStays(s, step, io);
    } else if step.Submit? || !Moves(step) {
      PlainMoves(s, step, io, p);
    } else {
      match step
      case Clone(x, t) => CloneMoves(s, x, t, io, p);
      case SlowReply(x, status) => SlowReplyMoves(s, x, status, io, p);
      case FailoverWork(x, sid, ok) => FromWork(s, x, io, p); WorkMoves(s, x, sid, ok, io, p);
      case GiveUp(sid) => GiveUpMoves(s, sid, io, p);
      case Splice(mid) => SpliceMoves(s, mid, io, p);
      case ReissueOne(mid, ok) => ReissueMoves(s, mid, ok, io, p);
    }
  }

  lemma FromWork(s: Dev, x: Io, io: Io, p: Place)
    requires Reachable(s) && x in s.work && At(s, io, p)
    ensures x == io ==> p == InWork
  {
    if x == io {
      assert At(s, io, InWork);
      OnePlace(s, io, InWork, p);
    }
  }

  // ------------------------------------------------------------------------
  // The path, and one failover at a time
  // ------------------------------------------------------------------------

  /** A control request, a reset or a winning failover marker switches the fastpath off. */
  predicate SwitchesOff(s: Dev, step: Step) {
    step.Disable? || step.Reset? || (step.SwitchOff? && step.mid in s.markers && s.markers[step.mid].code.Failover?)
  }

  /** On if the last attempt to switch it on succeeded and nothing switched it off since. */
  function OnAfter(s: Dev, steps: seq<Step>, before: bool): bool
    requires Legal(s, steps)
    decreases |steps|
  {
    if steps == [] then before
    else OnAfter(Apply(s, steps[0]), steps[1..],
                 if steps[0].Enable? then steps[0].ok else if SwitchesOff(s, steps[0]) then false else before)
  }

  /** What the last attempt to switch it on asked for, until the path it switched on is switched off. */
  function CapableAfter(s: Dev, steps: seq<Step>, before: bool): bool
    requires Legal(s, steps)
    decreases |steps|
  {
    if steps == [] then before
    else CapableAfter(Apply(s, steps[0]), steps[1..],
                      if steps[0].Enable? then steps[0].canFailover
                      else if SwitchesOff(s, steps[0]) && s.fastpath then false else before)
  }

  predicate TurnsFlags(step: Step) {
    || step.FailoverWork? || step.GiveUp? || step.SwitchOff? || step.Splice? || step.Disable? || step.Enable? || step.Reset?
  }

  lemma OtherFlags(s: Dev, step: Step)
    requires Enabled(s, step) && !TurnsFlags(step)
    ensures var t := Apply(s, step);
            t.fastpath == s.fastpath && t.canFailover == s.canFailover && t.activeFailover == s.activeFailover
  {
    if step.Clone? {
      ClonePath(s, step.io, step.t);
    } else if step.ReissueOne? {
      ReissuePath(s, step.mid, step.ok);
    }
  }

  lemma PathOfStep(s: Dev, step: Step)
    requires Enabled(s, step)
    ensures Apply(s, step).fastpath == if step.Enable? then step.ok else if SwitchesOff(s, step) then false else s.fastpath
  {
    if !TurnsFlags(step) {
      OtherFlags(s, step);
    }
  }

  lemma CapableOfStep(s: Dev, step: Step)
    requires Enabled(s, step)
    ensures Apply(s, step).canFailover ==
      if step.Enable? then step.canFailover else if SwitchesOff(s, step) && s.fastpath then false else s.canFailover
  {
    if !TurnsFlags(step) {
      OtherFlags(s, step);
    }
  }

  lemma ClonePath(s: Dev, io: Io, t: TStep)
    requires io in s.fast && TEnabled(s.fast[io], t)
    ensures CloneStep(s, io, t).fastpath == s.fastpath && CloneStep(s, io, t).canFailover == s.canFailover
    ensures CloneStep(s, io, t).activeFailover == s.activeFailover
  {
    var u := TApply(s.fast[io], t);
    if t.Drop? && u.active == 0 && |u.clones| > 0 && (forall i :: 0 <= i < |u.clones| ==> u.clones[i].Dropped?) {
      CompleteFlags(s, io, Reconcile(0, Statuses(u)));
    }
  }

  lemma CompleteFlags(s: Dev, io: Io, rc: int)
    ensures var t := CompleteWith(s, io, rc);
            t.fastpath == s.fastpath && t.canFailover == s.canFailover && t.activeFailover == s.activeFailover
  {
  }

  lemma ReissuePath(s: Dev, mid: Mid, ok: bool)
    requires Enabled(s, ReissueOne(mid, ok))
    ensures var t := Apply(s, ReissueOne(mid, ok));
            t.fastpath == s.fastpath && t.canFailover == s.canFailover && t.activeFailover == s.activeFailover
  {
  }

  /** After every run the path, and whether it may fail over, are what the run's control steps say. */
  lemma {:induction false} PathFollowsRun(s: Dev, steps: seq<Step>)
    requires Legal(s, steps)
    ensures Exec(s, steps).fastpath == OnAfter(s, steps, s.fastpath)
    ensures Exec(s, steps).canFailover == CapableAfter(s, steps, s.canFailover)
    decreases |steps|
  {
    if steps != [] {
      PathOfStep(s, steps[0]);
      CapableOfStep(s, steps[0]);
      PathFollowsRun(Apply(s, steps[0]), steps[1..]);
    }
  }

  /** The worker starts a failover for the IO it parks. */
  predicate Starts(s: Dev, step: Step) {
    step.FailoverWork? && s.fastpath && !s.activeFailover
  }

  /** The device forgets about an active failover: failQ is emptied, or the path is torn down while it is off. */
  predicate Forgets(s: Dev, step: Step) {
    || Unparks(s, step)
    || (SwitchesOff(s, step) && !s.fastpath)
    || (step.Enable? && !step.ok)
  }

  function StartsIn(s: Dev, steps: seq<Step>): nat
    requires Legal(s, steps)
    decreases |steps|
  {
    if steps == [] then 0
    else (if Starts(s, steps[0]) then 1 else 0) + StartsIn(Apply(s, steps[0]), steps[1..])
  }

  predicate ForgetsIn(s: Dev, steps: seq<Step>)
    requires Legal(s, steps)
    decreases |steps|
  {
    steps != [] && (Forgets(s, steps[0]) || ForgetsIn(Apply(s, steps[0]), steps[1..]))
  }

  lemma ActiveStep(s: Dev, step: Step)
    requires Enabled(s, step)
    ensures Apply(s, step).activeFailover <==> Starts(s, step) || (s.activeFailover && !Forgets(s, step))
  {
    if !TurnsFlags(step) {
      OtherFlags(s, step);
    }
  }

  /** However many IOs fail, the workers start one failover, until the device forgets about it. */
  lemma {:induction false} OneFailoverAtATime(s: Dev, steps: seq<Step>)
    requires Legal(s, steps) && !ForgetsIn(s, steps)
    ensures StartsIn(s, steps) == if !s.activeFailover && Exec(s, steps).activeFailover then 1 else 0
    ensures s.activeFailover ==> Exec(s, steps).activeFailover
    decreases |steps|
  {
    if steps != [] {
      ActiveStep(s, steps[0]);
      OneFailoverAtATime(Apply(s, steps[0]), steps[1..]);
    }
  }
}
