/** Conservation of IOs over every run of the failover protocol. */
module FailoverSafety {
  import opened Errno
  import opened Seqs
  import opened Fanout
  import opened FailoverProtocol

  /** Where an original IO can be. */
  datatype Place = InFast | InWork | Parked | Local(mid: Mid) | InSlow | Over

  function DoneSet(done: seq<(Io, int)>): set<Io> {
    set i | 0 <= i < |done| :: done[i].0
  }

  function LocalList(s: Dev, mid: Mid): seq<Io> {
    if mid in s.markers && s.markers[mid].stage.Reissue? then s.markers[mid].stage.ios else []
  }

  ghost predicate At(s: Dev, io: Io, p: Place) {
    match p
    case InFast => io in s.fast
    case InWork => io in s.work
    case Parked => io in s.failQ
    case Local(mid) => io in LocalList(s, mid)
    case InSlow => io in s.slow
    case Over => io in DoneSet(s.done)
  }

  predicate Is(place: map<Io, Place>, io: Io, p: Place) {
    io in place && place[io] == p
  }

  /** `place` says where everything is: each container holds exactly the IOs it assigns to that container. */
  ghost predicate Located(s: Dev, place: map<Io, Place>) {
    && (forall io :: io in s.fast <==> Is(place, io, InFast))
    && (forall io :: io in s.work <==> Is(place, io, InWork))
    && (forall io :: io in s.failQ <==> Is(place, io, Parked))
    && (forall io, mid :: io in LocalList(s, mid) <==> Is(place, io, Local(mid)))
    && (forall io :: io in s.slow <==> Is(place, io, InSlow))
    && (forall io :: io in DoneSet(s.done) <==> Is(place, io, Over))
  }

  ghost predicate DoneOnce(done: seq<(Io, int)>) {
    forall i, j :: 0 <= i < j < |done| ==> done[i].0 != done[j].0
  }

  /** No list holds an IO twice, and no IO ends twice. */
  ghost predicate NoRepeats(s: Dev) {
    && NoDup(s.failQ)
    && (forall mid :: mid in s.markers ==> NoDup(LocalList(s, mid)))
    && DoneOnce(s.done)
  }

  ghost predicate TrackersOk(s: Dev) {
    forall io :: io in s.fast ==> TInv(s.fast[io]) && s.fast[io].clones != []
  }

  /** The active count is what is in flight on the fastpath plus what is outstanding on the slowpath. */
  ghost predicate Counted(s: Dev) {
    s.ncount == |s.fast| + |s.slow|
  }

  ghost predicate Sound(s: Dev) {
    NoRepeats(s) && TrackersOk(s) && Counted(s)
  }

  ghost predicate Conserved(s: Dev, place: map<Io, Place>) {
    place.Keys == s.submitted && Located(s, place) && Sound(s)
  }

  // ------------------------------------------------------------------------
  // Ending IOs
  // ------------------------------------------------------------------------

  lemma DoneAppend(done: seq<(Io, int)>, io: Io, status: int)
    ensures DoneSet(done + [(io, status)]) == DoneSet(done) + {io}
    ensures DoneOnce(done) && io !in DoneSet(done) ==> DoneOnce(done + [(io, status)])
  {
    var all := done + [(io, status)];
    forall x | x in DoneSet(done) ensures x in DoneSet(all) {
      var i :| 0 <= i < |done| && done[i].0 == x;
      assert all[i].0 == x;
    }
    assert all[|done|].0 == io;
    if io !in DoneSet(done) {
      forall i | 0 <= i < |done| ensures done[i].0 != io {
        assert done[i].0 in DoneSet(done);
      }
    }
  }

  lemma {:induction false} EndAllEnds(done: seq<(Io, int)>, ios: seq<Io>)
    requires NoDup(ios) && DoneOnce(done) && forall io :: io in ios ==> io !in DoneSet(done)
    ensures DoneOnce(EndAll(done, ios))
    ensures forall io :: io in DoneSet(EndAll(done, ios)) <==> io in DoneSet(done) || io in ios
    decreases ios
  {
    if ios != [] {
      DoneAppend(done, ios[0], -EIO);
      assert ios[0] !in ios[1..];
      EndAllEnds(done + [(ios[0], -EIO)], ios[1..]);
      assert ios == [ios[0]] + ios[1..];
    }
  }

  // ------------------------------------------------------------------------
  // Moving one IO
  // ------------------------------------------------------------------------

  /** As Conserved, but one submitted IO is in nobody's hands. */
  ghost predicate Between(s: Dev, place: map<Io, Place>, io: Io) {
    io in s.submitted && place.Keys == s.submitted - {io} && Located(s, place) && Sound(s)
  }

  lemma SameLocalLists(s: Dev, t: Dev)
    requires t.markers == s.markers
    ensures forall mid :: LocalList(t, mid) == LocalList(s, mid)
  {
  }

  /** Placing an IO that had no place: which container has to take it. */
  lemma Put(s: Dev, t: Dev, place: map<Io, Place>, io: Io, p: Place)
    requires Located(s, place) && io !in place && t.markers == s.markers && !p.Local?
    requires forall x :: x in t.fast <==> x in s.fast || (x == io && p == InFast)
    requires forall x :: x in t.work <==> x in s.work || (x == io && p == InWork)
    requires forall x :: x in t.failQ <==> x in s.failQ || (x == io && p == Parked)
    requires forall x :: x in t.slow <==> x in s.slow || (x == io && p == InSlow)
    requires forall x :: x in DoneSet(t.done) <==> x in DoneSet(s.done) || (x == io && p == Over)
    ensures Located(t, place[io := p])
  {
    SameLocalLists(s, t);
    forall x, q ensures Is(place[io := p], x, q) <==> Is(place, x, q) || (x == io && q == p) {
    }
  }

  lemma NotDone(s: Dev, place: map<Io, Place>, io: Io)
    requires Located(s, place) && io !in place
    ensures io !in s.fast && io !in s.work && io !in s.failQ && io !in s.slow && io !in DoneSet(s.done)
  {
    assert !Is(place, io, InFast) && !Is(place, io, InWork) && !Is(place, io, Parked) && !Is(place, io, InSlow) && !Is(place, io, Over);
  }

  lemma EndSound(s: Dev, io: Io, status: int)
    requires Sound(s) && io !in DoneSet(s.done)
    ensures Sound(End(s, io, status))
  {
    DoneAppend(s.done, io, status);
  }

  lemma EndKeeps(s: Dev, place: map<Io, Place>, io: Io, status: int)
    requires Between(s, place, io)
    ensures Conserved(End(s, io, status), place[io := Over])
  {
    var t := End(s, io, status);
    assert Sound(t) by {
      NotDone(s, place, io);
      EndSound(s, io, status);
    }
    assert Located(t, place[io := Over]) by {
      DoneAppend(s.done, io, status);
      Put(s, t, place, io, Over);
    }
  }

  lemma SlowSound(s: Dev, io: Io)
    requires Sound(s) && io !in s.slow
    ensures Sound(s.(slow := s.slow + {io}, ncount := s.ncount + 1))
  {
  }

  function Rerouted(place: map<Io, Place>, io: Io, ok: bool): map<Io, Place> {
    if ok then place[io := InSlow] else place[io := Over]
  }

  lemma RerouteKeeps(s: Dev, place: map<Io, Place>, io: Io, ok: bool)
    requires Between(s, place, io)
    ensures Conserved(Reroute(s, io, ok), Rerouted(place, io, ok))
  {
    if ok {
      SlowKeeps(s, place, io);
    } else {
      EndKeeps(s, place, io, -EIO);
    }
  }

  lemma SlowKeeps(s: Dev, place: map<Io, Place>, io: Io)
    requires Between(s, place, io)
    ensures Conserved(s.(slow := s.slow + {io}, ncount := s.ncount + 1), place[io := InSlow])
  {
    var t := s.(slow := s.slow + {io}, ncount := s.ncount + 1);
    assert Sound(t) by {
      NotDone(s, place, io);
      SlowSound(s, io);
    }
    assert Located(t, place[io := InSlow]) by { Put(s, t, place, io, InSlow); }
  }

  lemma QueueWorkKeeps(s: Dev, place: map<Io, Place>, io: Io)
    requires Between(s, place, io)
    ensures Conserved(s.(work := s.work + {io}), place[io := InWork])
  {
    var t := s.(work := s.work + {io});
    assert Sound(t);
    assert Located(t, place[io := InWork]) by { Put(s, t, place, io, InWork); }
  }

  lemma ParkSound(s: Dev, io: Io)
    requires Sound(s) && io !in s.failQ
    ensures Sound(s.(failQ := s.failQ + [io]))
  {
  }

  lemma ParkKeeps(s: Dev, place: map<Io, Place>, io: Io)
    requires Between(s, place, io)
    ensures Conserved(s.(failQ := s.failQ + [io]), place[io := Parked])
  {
    var t := s.(failQ := s.failQ + [io]);
    assert Sound(t) by {
      NotDone(s, place, io);
      ParkSound(s, io);
    }
    assert Located(t, place[io := Parked]) by { Put(s, t, place, io, Parked); }
  }

  lemma FlySound(s: Dev, io: Io, clones: nat)
    requires Sound(s) && io !in s.fast && clones > 0
    ensures Sound(s.(fast := s.fast[io := NewTracker(clones)], ncount := s.ncount + 1))
  {
    var t := s.(fast := s.fast[io := NewTracker(clones)], ncount := s.ncount + 1);
    NewTrackerInv(clones);
    assert |t.fast| == |s.fast| + 1;
  }

  lemma FlyKeeps(s: Dev, place: map<Io, Place>, io: Io, clones: nat)
    requires Between(s, place, io) && clones > 0
    ensures Conserved(s.(fast := s.fast[io := NewTracker(clones)], ncount := s.ncount + 1), place[io := InFast])
  {
    var t := s.(fast := s.fast[io := NewTracker(clones)], ncount := s.ncount + 1);
    assert Sound(t) by {
      NotDone(s, place, io);
      FlySound(s, io, clones);
    }
    assert Located(t, place[io := InFast]) by { Put(s, t, place, io, InFast); }
  }

  /** Taking an IO out of the one container that has it. */
  lemma Remove(s: Dev, t: Dev, place: map<Io, Place>, io: Io)
    requires Located(s, place) && io in place && t.done == s.done && t.failQ == s.failQ
    requires place[io] in {InFast, InWork, InSlow} && t.markers == s.markers
    requires forall x :: x in t.fast <==> x in s.fast && x != io
    requires forall x :: x in t.work <==> x in s.work && x != io
    requires forall x :: x in t.slow <==> x in s.slow && x != io
    ensures Located(t, place - {io})
  {
    SameLocalLists(s, t);
    assert forall x, q :: Is(place - {io}, x, q) <==> Is(place, x, q) && x != io;
    assert !Is(place, io, Over) && !Is(place, io, Parked);
    assert forall mid :: !Is(place, io, Local(mid));
  }

  /** Nothing the containers hold changes. */
  ghost predicate SameContainers(s: Dev, t: Dev) {
    && t.fast == s.fast && t.work == s.work && t.failQ == s.failQ && t.slow == s.slow
    && t.done == s.done && t.submitted == s.submitted && t.ncount == s.ncount
    && (forall mid :: LocalList(t, mid) == LocalList(s, mid))
  }

  lemma SameSound(s: Dev, t: Dev)
    requires Sound(s) && SameContainers(s, t)
    ensures Sound(t)
  {
    forall mid | mid in t.markers ensures NoDup(LocalList(t, mid)) {
      assert LocalList(t, mid) == LocalList(s, mid);
    }
  }

  lemma SameKeeps(s: Dev, t: Dev, place: map<Io, Place>)
    requires Conserved(s, place) && SameContainers(s, t)
    ensures Conserved(t, place)
  {
    SameSound(s, t);
  }

  // ------------------------------------------------------------------------
  // The steps that move IOs
  // ------------------------------------------------------------------------

  lemma Register(s: Dev, place: map<Io, Place>, io: Io)
    requires Conserved(s, place) && io !in s.submitted
    ensures Between(s.(submitted := s.submitted + {io}), place, io)
  {
    SameLocalLists(s, s.(submitted := s.submitted + {io}));
  }

  lemma SubmitKeeps(s: Dev, place: map<Io, Place>, io: Io, clones: nat, ok: bool) returns (place': map<Io, Place>)
    requires Conserved(s, place) && Enabled(s, Submit(io, clones, ok))
    ensures Conserved(Apply(s, Submit(io, clones, ok)), place')
  {
    Register(s, place, io);
    place' := RouteKeeps(s.(submitted := s.submitted + {io}), place, io, clones, ok);
  }

  lemma RouteKeeps(s: Dev, place: map<Io, Place>, io: Io, clones: nat, ok: bool) returns (place': map<Io, Place>)
    requires Between(s, place, io) && clones > 0
    ensures Conserved(Route(s, io, clones, ok), place')
  {
    if !s.fastpath {
      place' := Rerouted(place, io, ok);
      RerouteKeeps(s, place, io, ok);
    } else if !ok {
      place' := place[io := Over];
      EndKeeps(s, place, io, -ENOMEM);
    } else {
      place' := place[io := InFast];
      FlyKeeps(s, place, io, clones);
    }
  }

  /** In a state of some run, the completer's test is simply that the count reached zero. */
  lemma CompleterTest(s: Dev, io: Io, i: nat)
    requires TrackersOk(s) && io in s.fast && TEnabled(s.fast[io], Drop(i))
    ensures var t := TApply(s.fast[io], Drop(i));
            t.active == 0 <==> |t.clones| > 0 && forall j :: 0 <= j < |t.clones| ==> t.clones[j].Dropped?
  {
    LastDrop(s.fast[io], i);
    TStepInv(s.fast[io], Drop(i));
  }

  lemma RemoveFastSound(s: Dev, io: Io)
    requires Sound(s) && io in s.fast
    ensures Sound(s.(fast := s.fast - {io}, ncount := s.ncount - 1))
  {
    assert |s.fast - {io}| == |s.fast| - 1;
  }

  lemma RemoveFast(s: Dev, place: map<Io, Place>, io: Io)
    requires Conserved(s, place) && io in s.fast
    ensures Between(s.(fast := s.fast - {io}, ncount := s.ncount - 1), place - {io}, io)
  {
    assert Is(place, io, InFast) && !Is(place, io, InWork) && !Is(place, io, InSlow);
    RemoveFastSound(s, io);
    Remove(s, s.(fast := s.fast - {io}, ncount := s.ncount - 1), place, io);
  }

  /** What the last completer does with the reconciled status. */
  lemma VerdictKeeps(s: Dev, place: map<Io, Place>, io: Io, rc: int, failover: bool)
    requires Between(s, place, io)
    ensures if failover then Conserved(s.(work := s.work + {io}), place[io := InWork])
            else Conserved(End(s, io, rc), place[io := Over])
  {
    if failover {
      QueueWorkKeeps(s, place, io);
    } else {
      EndKeeps(s, place, io, rc);
    }
  }

  lemma CompleteKeeps(s: Dev, place: map<Io, Place>, io: Io, rc: int) returns (place': map<Io, Place>)
    requires Conserved(s, place) && io in s.fast
    ensures Conserved(CompleteWith(s, io, rc), place')
  {
    var failover := s.canFailover && rc == -EIO;
    place' := (place - {io})[io := if failover then InWork else Over];
    var s0 := s.(fast := s.fast - {io}, ncount := s.ncount - 1);
    assert Between(s0, place - {io}, io) by { RemoveFast(s, place, io); }
    VerdictKeeps(s0, place - {io}, io, rc, failover);
  }

  lemma TrackerSound(s: Dev, io: Io, t: Tracker)
    requires Sound(s) && io in s.fast && TInv(t) && t.clones != []
    ensures Sound(s.(fast := s.fast[io := t]))
  {
    var u := s.(fast := s.fast[io := t]);
    assert u.fast.Keys == s.fast.Keys;
    assert |u.fast| == |u.fast.Keys| == |s.fast|;
  }

  lemma TrackerKeeps(s: Dev, place: map<Io, Place>, io: Io, t: Tracker)
    requires Conserved(s, place) && io in s.fast && TInv(t) && t.clones != []
    ensures Conserved(s.(fast := s.fast[io := t]), place)
  {
    TrackerSound(s, io, t);
    SameLocalLists(s, s.(fast := s.fast[io := t]));
  }

  lemma CloneKeeps(s: Dev, place: map<Io, Place>, io: Io, step: TStep) returns (place': map<Io, Place>)
    requires Conserved(s, place) && io in s.fast && TEnabled(s.fast[io], step)
    ensures Conserved(CloneStep(s, io, step), place')
  {
    var t := TApply(s.fast[io], step);
    TStepInv(s.fast[io], step);
    if step.Drop? {
      CompleterTest(s, io, step.i);
      if t.active == 0 {
        place' := CompleteKeeps(s, place, io, Reconcile(0, Statuses(t)));
        return;
      }
    }
    TrackerKeeps(s, place, io, t);
    place' := place;
  }

  lemma RemoveSlow(s: Dev, place: map<Io, Place>, io: Io)
    requires Conserved(s, place) && io in s.slow
    ensures Between(s.(slow := s.slow - {io}, ncount := s.ncount - 1), place - {io}, io)
  {
    var s0 := s.(slow := s.slow - {io}, ncount := s.ncount - 1);
    assert Sound(s0);
    assert Is(place, io, InSlow) && !Is(place, io, InWork) && !Is(place, io, InFast);
    Remove(s, s0, place, io);
  }

  lemma SlowReplyKeeps(s: Dev, place: map<Io, Place>, io: Io, status: int)
    requires Conserved(s, place) && io in s.slow
    ensures Conserved(End(s.(slow := s.slow - {io}, ncount := s.ncount - 1), io, status), (place - {io})[io := Over])
  {
    RemoveSlow(s, place, io);
    EndKeeps(s.(slow := s.slow - {io}, ncount := s.ncount - 1), place - {io}, io, status);
  }

  lemma RemoveWork(s: Dev, place: map<Io, Place>, io: Io)
    requires Conserved(s, place) && io in s.work
    ensures Between(s.(work := s.work - {io}), place - {io}, io)
  {
    var s0 := s.(work := s.work - {io});
    assert Sound(s0);
    assert Is(place, io, InWork) && !Is(place, io, InSlow) && !Is(place, io, InFast);
    Remove(s, s0, place, io);
  }

  lemma WorkKeeps(s: Dev, place: map<Io, Place>, io: Io, sid: Sid, ok: bool) returns (place': map<Io, Place>)
    requires Conserved(s, place) && io in s.work
    ensures Conserved(Park(s, io, sid, ok), place')
  {
    var s0 := s.(work := s.work - {io});
    RemoveWork(s, place, io);
    if s.activeFailover || s.fastpath {
      place' := (place - {io})[io := Parked];
      ParkKeeps(s0, place - {io}, io);
      var s1 := s0.(failQ := s0.failQ + [io]);
      SameLocalLists(s1, Park(s, io, sid, ok));
      SameKeeps(s1, Park(s, io, sid, ok), place');
    } else {
      place' := Rerouted(place - {io}, io, ok);
      RerouteKeeps(s0, place - {io}, io, ok);
    }
  }

  lemma AbortSound(s: Dev)
    requires Sound(s) && forall io :: io in s.failQ ==> io !in DoneSet(s.done)
    ensures Sound(AbortFailQ(s))
    ensures forall io :: io in DoneSet(AbortFailQ(s).done) <==> io in DoneSet(s.done) || io in s.failQ
  {
    EndAllEnds(s.done, s.failQ);
  }

  /** Everything parked moves to another place at once. */
  function Unpark(place: map<Io, Place>, p: Place): (out: map<Io, Place>)
    ensures out.Keys == place.Keys
    ensures p != Parked ==> forall io, q :: Is(out, io, q) <==>
      (q != Parked && Is(place, io, q)) || (q == p && Is(place, io, Parked))
  {
    map io | io in place :: if place[io] == Parked then p else place[io]
  }

  lemma AbortKeeps(s: Dev, place: map<Io, Place>)
    requires Conserved(s, place)
    ensures Conserved(AbortFailQ(s), Unpark(place, Over))
  {
    forall io | io in s.failQ ensures io !in DoneSet(s.done) {
      assert Is(place, io, Parked);
      assert !Is(place, io, Over);
    }
    AbortSound(s);
    SameLocalLists(s, AbortFailQ(s));
  }

  lemma GiveUpKeeps(s: Dev, place: map<Io, Place>, sid: Sid) returns (place': map<Io, Place>)
    requires Conserved(s, place) && Enabled(s, GiveUp(sid))
    ensures Conserved(Apply(s, GiveUp(sid)), place')
  {
    var m := s;
    place' := place;
    if s.starters[sid].worker {
      m := AbortFailQ(s);
      place' := Unpark(place, Over);
      AbortKeeps(s, place);
    }
    SameLocalLists(m, DropStarter(m, sid));
    SameKeeps(m, DropStarter(m, sid), place');
  }

  lemma SpliceSound(s: Dev, mid: Mid)
    requires Sound(s) && Enabled(s, Splice(mid))
    ensures Sound(Apply(s, Splice(mid)))
    ensures LocalList(s, mid) == [] && LocalList(Apply(s, Splice(mid)), mid) == s.failQ
    ensures forall m :: m != mid ==> LocalList(Apply(s, Splice(mid)), m) == LocalList(s, m)
  {
  }

  lemma SpliceKeeps(s: Dev, place: map<Io, Place>, mid: Mid)
    requires Conserved(s, place) && Enabled(s, Splice(mid))
    ensures Conserved(Apply(s, Splice(mid)), Unpark(place, Local(mid)))
  {
    SpliceSound(s, mid);
    forall io ensures !Is(place, io, Local(mid)) {
      assert io !in LocalList(s, mid);
    }
  }

  lemma PopSound(s: Dev, mid: Mid)
    requires Sound(s) && LocalList(s, mid) != []
    ensures var Reissue(status, ios) := s.markers[mid].stage;
            var t := SetStage(s, mid, Reissue(status, ios[1..]));
            Sound(t) && LocalList(t, mid) == ios[1..] && forall m :: m != mid ==> LocalList(t, m) == LocalList(s, m)
  {
    assert NoDup(LocalList(s, mid));
  }

  /** The front IO of a marker's list is taken off it. */
  lemma RemoveLocal(s: Dev, place: map<Io, Place>, mid: Mid)
    requires Conserved(s, place) && LocalList(s, mid) != []
    ensures var Reissue(status, ios) := s.markers[mid].stage;
            Between(SetStage(s, mid, Reissue(status, ios[1..])), place - {ios[0]}, ios[0])
  {
    var ios := LocalList(s, mid);
    var io := ios[0];
    PopSound(s, mid);
    assert NoDup(ios);
    assert forall x :: x in ios <==> x == io || x in ios[1..];
    assert io !in ios[1..];
    assert Is(place, io, Local(mid));
    assert forall x, q :: Is(place - {io}, x, q) <==> Is(place, x, q) && x != io;
  }

  lemma ReissueKeeps(s: Dev, place: map<Io, Place>, mid: Mid, ok: bool) returns (place': map<Io, Place>)
    requires Conserved(s, place) && Enabled(s, ReissueOne(mid, ok))
    ensures Conserved(Apply(s, ReissueOne(mid, ok)), place')
  {
    var status, ios := s.markers[mid].stage.status, s.markers[mid].stage.ios;
    var io := ios[0];
    var s0 := SetStage(s, mid, Reissue(status, ios[1..]));
    RemoveLocal(s, place, mid);
    if status == 0 {
      place' := Rerouted(place - {io}, io, ok);
      RerouteKeeps(s0, place - {io}, io, ok);
    } else {
      place' := (place - {io})[io := Over];
      EndKeeps(s0, place - {io}, io, -EIO);
    }
  }

  predicate Moves(step: Step) {
    step.Submit? || step.Clone? || step.SlowReply? || step.FailoverWork? || step.GiveUp? || step.Splice? || step.ReissueOne?
  }

  /** Only flags, markers and starters differ. */
  predicate SameLists(s: Dev, t: Dev) {
    t == s.(markers := t.markers, starters := t.starters, fastpath := t.fastpath, canFailover := t.canFailover,
            ioswitch := t.ioswitch, activeFailover := t.activeFailover)
  }

  lemma MarkersSame(s: Dev, t: Dev)
    requires SameLists(s, t) && t.markers == s.markers
    ensures SameContainers(s, t)
  {
  }

  /** A marker takes a stage without a list, having had none before. */
  lemma MarkerSet(s: Dev, t: Dev, mid: Mid, m: Marker)
    requires SameLists(s, t) && t.markers == s.markers[mid := m]
    requires LocalList(s, mid) == [] && (m.stage.Reissue? ==> m.stage.ios == [])
    ensures SameContainers(s, t)
  {
  }

  lemma MarkerGone(s: Dev, t: Dev, mid: Mid)
    requires SameLists(s, t) && t.markers == s.markers - {mid} && LocalList(s, mid) == []
    ensures SameContainers(s, t)
  {
  }

  predicate OnMarker(step: Step) {
    step.SendMarker? || step.Answer? || step.SwitchOff? || step.Finish?
  }

  lemma SendStep(s: Dev, sid: Sid, mid: Mid, ok: bool)
    requires Enabled(s, SendMarker(sid, mid, ok))
    ensures SameContainers(s, Apply(s, SendMarker(sid, mid, ok)))
  {
    var t := Apply(s, SendMarker(sid, mid, ok));
    if ok {
      MarkerSet(s, t, mid, Marker(s.starters[sid].code, InUser));
    } else {
      MarkersSame(s, t);
    }
  }

  lemma AnswerStep(s: Dev, mid: Mid, status: int)
    requires Enabled(s, Answer(mid, status))
    ensures SameContainers(s, Apply(s, Answer(mid, status)))
  {
    var t := Apply(s, Answer(mid, status));
    if s.ioswitch {
      MarkerSet(s, t, mid, s.markers[mid].(stage := Won(status)));
    } else {
      MarkerGone(s, t, mid);
    }
  }

  lemma SwitchOffStep(s: Dev, mid: Mid)
    requires Enabled(s, SwitchOff(mid))
    ensures SameContainers(s, Apply(s, SwitchOff(mid)))
  {
    var m := s.markers[mid];
    if m.code.Failover? {
      DisabledLists(s);
      StageLists(Disabled(s), mid, Off(m.stage.status));
      MarkerSet(s, Apply(s, SwitchOff(mid)), mid, m.(stage := Off(m.stage.status)));
    } else {
      StageLists(s, mid, Reissue(m.stage.status, []));
      MarkerSet(s, Apply(s, SwitchOff(mid)), mid, m.(stage := Reissue(m.stage.status, [])));
    }
  }

  lemma DisabledLists(s: Dev)
    ensures SameLists(s, Disabled(s)) && Disabled(s).markers == s.markers
  {
  }

  lemma StageLists(s: Dev, mid: Mid, stage: MarkerStage)
    requires mid in s.markers
    ensures SameLists(s, SetStage(s, mid, stage))
    ensures SetStage(s, mid, stage).markers == s.markers[mid := s.markers[mid].(stage := stage)]
  {
  }

  lemma FinishStep(s: Dev, mid: Mid)
    requires Enabled(s, Finish(mid))
    ensures SameContainers(s, Apply(s, Finish(mid)))
  {
    MarkerGone(s, Apply(s, Finish(mid)), mid);
  }

  lemma MarkerStep(s: Dev, step: Step)
    requires Enabled(s, step) && OnMarker(step)
    ensures SameContainers(s, Apply(s, step))
  {
    match step
    case SendMarker(sid, mid, ok) => SendStep(s, sid, mid, ok);
    case Answer(mid, status) => AnswerStep(s, mid, status);
    case SwitchOff(mid) => SwitchOffStep(s, mid);
    case Finish(mid) => FinishStep(s, mid);
  }

  lemma PathStep(s: Dev, step: Step)
    requires Enabled(s, step) && (step.Disable? || step.Enable? || step.Reset?)
    ensures SameLists(s, Apply(s, step)) && Apply(s, step).markers == s.markers
  {
  }

  lemma FlagStep(s: Dev, step: Step)
    requires Enabled(s, step) && !Moves(step) && !OnMarker(step)
    ensures SameLists(s, Apply(s, step)) && Apply(s, step).markers == s.markers
  {
    match step
    case Start(sid, code) =>
    case Check(sid) =>
    case Swap(sid) =>
    case Suspend(sid, ok) =>
    case Disable => PathStep(s, step);
    case Enable(canFailover, ok) => PathStep(s, step);
    case Reset => PathStep(s, step);
  }

  /** All other steps only turn flags, markers and starters. */
  lemma QuietStep(s: Dev, step: Step)
    requires Enabled(s, step) && !Moves(step)
    ensures SameContainers(s, Apply(s, step))
  {
    if OnMarker(step) {
      MarkerStep(s, step);
    } else {
      FlagStep(s, step);
      MarkersSame(s, Apply(s, step));
    }
  }

  lemma MoveConserves(s: Dev, place: map<Io, Place>, step: Step) returns (place': map<Io, Place>)
    requires Conserved(s, place) && Enabled(s, step) && Moves(step)
    ensures Conserved(Apply(s, step), place')
  {
    match step
    case Submit(io, clones, ok) => place' := SubmitKeeps(s, place, io, clones, ok);
    case Clone(io, t) => place' := CloneKeeps(s, place, io, t);
    case SlowReply(io, status) => SlowReplyKeeps(s, place, io, status); place' := (place - {io})[io := Over];
    case FailoverWork(io, sid, ok) => place' := WorkKeeps(s, place, io, sid, ok);
    case GiveUp(sid) => place' := GiveUpKeeps(s, place, sid);
    case Splice(mid) => SpliceKeeps(s, place, mid); place' := Unpark(place, Local(mid));
    case ReissueOne(mid, ok) => place' := ReissueKeeps(s, place, mid, ok);
  }

  lemma StepConserves(s: Dev, place: map<Io, Place>, step: Step) returns (place': map<Io, Place>)
    requires Conserved(s, place) && Enabled(s, step)
    ensures Conserved(Apply(s, step), place')
  {
    if Moves(step) {
      place' := MoveConserves(s, place, step);
    } else {
      place' := place;
      QuietStep(s, step);
      SameKeeps(s, Apply(s, step), place);
    }
  }

  lemma {:induction false} RunConserves(s: Dev, place: map<Io, Place>, steps: seq<Step>) returns (place': map<Io, Place>)
    requires Conserved(s, place) && Legal(s, steps)
    ensures Conserved(Exec(s, steps), place')
    decreases |steps|
  {
    if steps == [] {
      place' := place;
    } else {
      var mid := StepConserves(s, place, steps[0]);
      place' := RunConserves(Apply(s, steps[0]), mid, steps[1..]);
    }
  }

  /** Main theorem: after every run, each submitted IO is in exactly one place, none ended twice, and the count is right. */
  lemma EveryRunConserves(steps: seq<Step>)
    requires Legal(Init(), steps)
    ensures exists place :: Conserved(Exec(Init(), steps), place)
  {
    assert Conserved(Init(), map[]);
    var place := RunConserves(Init(), map[], steps);
  }

  /** The same in terms of one IO: exactly one place if it was submitted, none if not; ended at most once; count right. */
  lemma ExactlyOnePlace(steps: seq<Step>, io: Io)
    requires Legal(Init(), steps)
    ensures var s := Exec(Init(), steps);
            && (io in s.submitted ==> exists p :: At(s, io, p))
            && (forall p, q :: At(s, io, p) && At(s, io, q) ==> p == q)
            && (io !in s.submitted ==> forall p :: !At(s, io, p))
            && DoneOnce(s.done)
            && s.ncount == |s.fast| + |s.slow|
  {
    EveryRunConserves(steps);
    var s := Exec(Init(), steps);
    var place :| Conserved(s, place);
    forall p ensures At(s, io, p) <==> Is(place, io, p) {
    }
    if io in s.submitted {
      assert At(s, io, place[io]);
    }
  }
}
