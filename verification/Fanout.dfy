/**
  Fan-out of one original IO to its clones (pxd_bio_makereq.c, pxd_bio_blkmq.c).

  Clone 0 belongs to the head tracker, clones 1.. are the replicas in list order. The
  submitter sends the replicas first and the head last; completions come in any order,
  on any CPU, also while the submitter is still at work.
 */
module Fanout {
  import opened Errno

  // ------------------------------------------------------------------------
  // Reconciling the clones' statuses
  // ------------------------------------------------------------------------

  /** `remap_io_status` (pxd_fastpath.h). */
  function Remap(status: int): int {
    if status == 0 || status == -EOPNOTSUPP || status == -ENOSPC || status == -ENOMEM then status else -EIO
  }

  /** One turn of the loop in `reconcile_io_status`. */
  function Merge(acc: int, status: int): int {
    var tmp := Remap(status);
    if acc == 0 || tmp == -EIO then tmp else acc
  }

  /** The loop of `reconcile_io_status`, statuses in the order it visits them: replicas, then head. */
  function Reconcile(acc: int, statuses: seq<int>): int
    decreases statuses
  {
    if statuses == [] then acc else Reconcile(Merge(acc, statuses[0]), statuses[1..])
  }

  /** The first status that is not success. */
  function FirstError(statuses: seq<int>): int {
    if statuses == [] then 0 else if statuses[0] != 0 then statuses[0] else FirstError(statuses[1..])
  }

  /** The statuses that reach the application as they are; any other failure counts as -EIO. */
  predicate Spared(status: int) {
    status in {0, -EOPNOTSUPP, -ENOSPC, -ENOMEM}
  }

  ghost predicate SomeEio(statuses: seq<int>) {
    exists i :: 0 <= i < |statuses| && !Spared(statuses[i])
  }

  lemma {:induction false} ReconcileFrom(acc: int, statuses: seq<int>)
    requires acc == Remap(acc)
    ensures Reconcile(acc, statuses) ==
      if acc == -EIO || SomeEio(statuses) then -EIO
      else if acc != 0 then acc
      else FirstError(statuses)
    decreases statuses
  {
    if statuses != [] {
      var rest := statuses[1..];
      ReconcileFrom(Merge(acc, statuses[0]), rest);
      assert SomeEio(statuses) <==> !Spared(statuses[0]) || SomeEio(rest) by {
        if SomeEio(rest) {
          var i :| 0 <= i < |rest| && !Spared(rest[i]);
          assert statuses[i + 1] == rest[i];
        }
        if SomeEio(statuses) && Spared(statuses[0]) {
          var i :| 0 <= i < |statuses| && !Spared(statuses[i]);
          assert rest[i - 1] == statuses[i];
        }
      }
    }
  }

  /** What the fold means: any failure that is not spared outranks everything, else the first error, else success. */
  lemma ReconcileMeaning(statuses: seq<int>)
    ensures Reconcile(0, statuses) == if SomeEio(statuses) then -EIO else FirstError(statuses)
    ensures Reconcile(0, statuses) == 0 <==> forall i :: 0 <= i < |statuses| ==> statuses[i] == 0
    ensures Reconcile(0, statuses) == -EIO <==> SomeEio(statuses)
  {
    ReconcileFrom(0, statuses);
    FirstErrorMeaning(statuses);
  }

  lemma {:induction false} FirstErrorMeaning(statuses: seq<int>)
    ensures FirstError(statuses) == 0 <==> forall i :: 0 <= i < |statuses| ==> statuses[i] == 0
    ensures FirstError(statuses) != 0 ==> FirstError(statuses) in statuses
  {
    if statuses != [] {
      FirstErrorMeaning(statuses[1..]);
      assert statuses == [statuses[0]] + statuses[1..];
    }
  }

  /** `reconcile_status` of the blk-mq variant: no remapping, the first error in list order. */
  function ReconcileMq(acc: int, statuses: seq<int>): int
    decreases statuses
  {
    if statuses == [] then acc else ReconcileMq(if acc == 0 then statuses[0] else acc, statuses[1..])
  }

  lemma {:induction false} ReconcileMqMeaning(acc: int, statuses: seq<int>)
    ensures ReconcileMq(acc, statuses) == if acc != 0 then acc else FirstError(statuses)
    decreases statuses
  {
    if statuses != [] {
      ReconcileMqMeaning(if acc == 0 then statuses[0] else acc, statuses[1..]);
    }
  }

  /** The two variants agree on success; they agree on failing over exactly when the first error decides like the worst. */
  lemma VariantsCompared(statuses: seq<int>)
    ensures ReconcileMq(0, statuses) == 0 <==> Reconcile(0, statuses) == 0
    ensures (ReconcileMq(0, statuses) == -EIO <==> Reconcile(0, statuses) == -EIO) <==>
            (SomeEio(statuses) ==> FirstError(statuses) == -EIO)
  {
    ReconcileMeaning(statuses);
    ReconcileMqMeaning(0, statuses);
    FirstErrorMeaning(statuses);
    if FirstError(statuses) == -EIO {
      var i :| 0 <= i < |statuses| && statuses[i] == -EIO;
      assert !Spared(statuses[i]);
    }
  }

  /** They do differ: a full replica ahead of a broken one fails over in one variant only. */
  lemma VariantsDiffer()
    ensures Reconcile(0, [-ENOSPC, -EIO]) == -EIO && ReconcileMq(0, [-ENOSPC, -EIO]) == -ENOSPC
  {
    var statuses := [-ENOSPC, -EIO];
    assert !Spared(statuses[1]);
    ReconcileMeaning(statuses);
    ReconcileMqMeaning(0, statuses);
  }

  // ------------------------------------------------------------------------
  // The tracker of one IO
  // ------------------------------------------------------------------------

  /** InFlight: submitted. Recorded: status written into the tracker. Dropped: its reference on the head given up. */
  datatype Clone = Idle | InFlight | Recorded(status: int) | Dropped(status: int)

  /** `sent` counts the clones the submitter has sent: replicas 1, 2, .. and clone 0 as the last. */
  datatype Tracker = Tracker(clones: seq<Clone>, active: nat, sent: nat)

  function NewTracker(n: nat): Tracker {
    Tracker(seq(n, _ => Idle), n, 0)
  }

  /** Which clone the submitter sends as number k: the head goes last. */
  function SendOrder(n: nat, k: nat): nat
    requires k < n
  {
    if k == n - 1 then 0 else k + 1
  }

  datatype TStep = Send | Record(i: nat, status: int) | Drop(i: nat)

  predicate TEnabled(t: Tracker, step: TStep) {
    match step
    case Send => t.sent < |t.clones|
    case Record(i, _) => i < |t.clones| && t.clones[i].InFlight?
    case Drop(i) => i < |t.clones| && t.clones[i].Recorded? && t.active > 0
  }

  function TApply(t: Tracker, step: TStep): Tracker
    requires TEnabled(t, step)
  {
    match step
    case Send => t.(clones := t.clones[SendOrder(|t.clones|, t.sent) := InFlight], sent := t.sent + 1)
    case Record(i, status) => t.(clones := t.clones[i := Recorded(status)])
    case Drop(i) => t.(clones := t.clones[i := Dropped(t.clones[i].status)], active := t.active - 1)
  }

  function Outstanding(clones: seq<Clone>): nat {
    if clones == [] then 0
    else Outstanding(clones[..|clones| - 1]) + if clones[|clones| - 1].Dropped? then 0 else 1
  }

  ghost predicate TInv(t: Tracker) {
    && t.sent <= |t.clones|
    && t.active == Outstanding(t.clones)
    && (forall k :: t.sent <= k < |t.clones| ==> t.clones[SendOrder(|t.clones|, k)].Idle?)
  }

  lemma {:induction false} OutstandingUpdate(clones: seq<Clone>, i: nat, c: Clone)
    requires i < |clones|
    ensures Outstanding(clones[i := c]) + (if clones[i].Dropped? then 0 else 1) ==
            Outstanding(clones) + (if c.Dropped? then 0 else 1)
  {
    var last := |clones| - 1;
    if i == last {
      assert clones[i := c][..last] == clones[..last];
    } else {
      assert clones[i := c][..last] == clones[..last][i := c];
      OutstandingUpdate(clones[..last], i, c);
    }
  }

  lemma {:induction false} OutstandingZero(clones: seq<Clone>)
    ensures Outstanding(clones) == 0 <==> forall i :: 0 <= i < |clones| ==> clones[i].Dropped?
    ensures Outstanding(clones) <= |clones|
  {
    if clones != [] {
      OutstandingZero(clones[..|clones| - 1]);
    }
  }

  lemma {:induction false} OutstandingNew(clones: seq<Clone>)
    requires forall i :: 0 <= i < |clones| ==> clones[i] == Idle
    ensures Outstanding(clones) == |clones|
  {
    if clones != [] {
      OutstandingNew(clones[..|clones| - 1]);
    }
  }

  lemma NewTrackerInv(n: nat)
    ensures TInv(NewTracker(n))
  {
    OutstandingNew(NewTracker(n).clones);
  }

  lemma TStepInv(t: Tracker, step: TStep)
    requires TInv(t) && TEnabled(t, step)
    ensures TInv(TApply(t, step)) && |TApply(t, step).clones| == |t.clones|
  {
    match step
    case Send => OutstandingUpdate(t.clones, SendOrder(|t.clones|, t.sent), InFlight);
    case Record(i, status) => OutstandingUpdate(t.clones, i, Recorded(status));
    case Drop(i) => OutstandingUpdate(t.clones, i, Dropped(t.clones[i].status));
  }

  /** Statuses in the order `reconcile_io_status` visits them. */
  function Statuses(t: Tracker): seq<int>
    requires |t.clones| > 0 && forall i :: 0 <= i < |t.clones| ==> t.clones[i].Dropped?
  {
    seq(|t.clones|, k requires 0 <= k < |t.clones| => t.clones[SendOrder(|t.clones|, k)].status)
  }

  lemma AllSent(t: Tracker)
    requires TInv(t) && t.clones != [] && forall i :: 0 <= i < |t.clones| ==> t.clones[i].Dropped?
    ensures t.sent == |t.clones|
  {
    var j := if t.sent < |t.clones| then SendOrder(|t.clones|, t.sent) else 0;
    assert t.clones[j].Dropped?;
  }

  /**
    The count reaches zero exactly when every clone is in; then all statuses are final and the submitter
    has sent its last clone, so freeing the trackers cannot pull the list from under it.
   */
  lemma LastDrop(t: Tracker, i: nat)
    requires TInv(t) && TEnabled(t, Drop(i))
    ensures var u := TApply(t, Drop(i));
            && (u.active == 0 <==> forall j :: 0 <= j < |u.clones| ==> u.clones[j].Dropped?)
            && (u.active == 0 ==> u.sent == |u.clones|)
  {
    var u := TApply(t, Drop(i));
    TStepInv(t, Drop(i));
    OutstandingZero(u.clones);
    if u.active == 0 {
      AllSent(u);
    }
  }

  predicate TLegal(t: Tracker, steps: seq<TStep>)
    decreases |steps|
  {
    steps == [] || (TEnabled(t, steps[0]) && TLegal(TApply(t, steps[0]), steps[1..]))
  }

  function TExec(t: Tracker, steps: seq<TStep>): Tracker
    requires TLegal(t, steps)
    decreases |steps|
  {
    if steps == [] then t else TExec(TApply(t, steps[0]), steps[1..])
  }

  /** How many of the steps were a drop that saw the count reach zero. */
  function Completers(t: Tracker, steps: seq<TStep>): nat
    requires TLegal(t, steps)
    decreases |steps|
  {
    if steps == [] then 0
    else (if steps[0].Drop? && TApply(t, steps[0]).active == 0 then 1 else 0) + Completers(TApply(t, steps[0]), steps[1..])
  }

  lemma {:induction false} CompletersCount(t: Tracker, steps: seq<TStep>)
    requires TInv(t) && TLegal(t, steps)
    ensures TInv(TExec(t, steps)) && |TExec(t, steps).clones| == |t.clones|
    ensures Completers(t, steps) == if t.active > 0 && TExec(t, steps).active == 0 then 1 else 0
    ensures TExec(t, steps).active <= t.active
    decreases |steps|
  {
    if steps != [] {
      TStepInv(t, steps[0]);
      CompletersCount(TApply(t, steps[0]), steps[1..]);
    }
  }

  /** In every order of sending and completing, at most one completer sees zero, and exactly one once all are in. */
  lemma ExactlyOneCompleter(n: nat, steps: seq<TStep>)
    requires n > 0 && TLegal(NewTracker(n), steps)
    ensures var t := TExec(NewTracker(n), steps);
            && Completers(NewTracker(n), steps) <= 1
            && (Completers(NewTracker(n), steps) == 1 <==> forall j :: 0 <= j < |t.clones| ==> t.clones[j].Dropped?)
            && (Completers(NewTracker(n), steps) == 1 ==> t.sent == n)
  {
    NewTrackerInv(n);
    CompletersCount(NewTracker(n), steps);
    var t := TExec(NewTracker(n), steps);
    OutstandingZero(t.clones);
    if t.active == 0 {
      AllSent(t);
    }
  }

  /**
    Why the head goes last: as long as the submitter is at a replica, whose link it still has to follow, the count has
    not reached zero in any order of completions, so no completer has freed the trackers.
   */
  lemma WalkSeesLiveTrackers(n: nat, steps: seq<TStep>)
    requires n > 0 && TLegal(NewTracker(n), steps)
    ensures var t := TExec(NewTracker(n), steps);
            0 < t.sent <= n && SendOrder(n, t.sent - 1) != 0 ==> t.active > 0 && Completers(NewTracker(n), steps) == 0
  {
    NewTrackerInv(n);
    CompletersCount(NewTracker(n), steps);
    var t := TExec(NewTracker(n), steps);
    OutstandingZero(t.clones);
    if 0 < t.sent < n {
      assert t.clones[SendOrder(n, t.sent)].Idle?;
    }
  }
}
