/**
  Fastpath IO with failover to userspace (pxd_bio_makereq.c, pxd.c), as atomic steps.

  An original IO goes down the fastpath as a set of clones, or down the slowpath as a
  request to userspace. A fastpath IO that comes back with -EIO is handed to a worker,
  which parks it on `failQ` and starts a failover: a marker request travels to userspace
  and back, and its completion reissues what is parked. Control operations start markers
  of their own, switch the fastpath on and off, and reset the device. All of these run
  concurrently; a step is what one of them does under one lock or with one atomic.
 */
module FailoverProtocol {
  import opened Errno
  import opened Fanout

  type Io = int
  type Mid = int
  type Sid = int

  /** PXD_FAILOVER_TO_USERSPACE, PXD_FALLBACK_TO_KERNEL. */
  datatype Code = Failover | Fallback

  /**
    The completion of a marker (`pxd_process_ioswitch_complete`):
    InUser    sent, or waiting to be answered
    Won       its compare-and-swap turned `ioswitch_active` off
    Off       fastpath disabled, `failQ` not yet taken
    Reissue   holds the list of IOs still to be reissued
   */
  datatype MarkerStage = InUser | Won(status: int) | Off(status: int) | Reissue(status: int, ios: seq<Io>)

  datatype Marker = Marker(code: Code, stage: MarkerStage)

  /**
    A thread inside `pxd_initiate_failover` or `pxd_initiate_fallback`:
    Checking   about to look at the path
    Swapping   about to try the compare-and-swap on `ioswitch_active`
    Holding    has set `ioswitch_active`, IO not yet suspended
    Suspended  IO suspended, marker not yet sent
    Failed     on its way out with an error
   */
  datatype StarterStage = Checking | Swapping | Holding | Suspended | Failed

  /** `worker`: started by `pxd_io_failover`, which aborts `failQ` if the start fails; else by a control request. */
  datatype Starter = Starter(worker: bool, code: Code, stage: StarterStage)

  datatype Dev = Dev(
    fast: map<Io, Tracker>,
    work: set<Io>,
    failQ: seq<Io>,
    slow: set<Io>,
    done: seq<(Io, int)>,
    submitted: set<Io>,
    markers: map<Mid, Marker>,
    starters: map<Sid, Starter>,
    fastpath: bool,
    canFailover: bool,
    activeFailover: bool,
    ioswitch: bool,
    ncount: int)

  datatype Step =
    | Submit(io: Io, clones: nat, ok: bool)
    | Clone(io: Io, t: TStep)
    | SlowReply(io: Io, status: int)
    | FailoverWork(io: Io, sid: Sid, ok: bool)
    | Start(sid: Sid, code: Code)
    | Check(sid: Sid)
    | Swap(sid: Sid)
    | Suspend(sid: Sid, ok: bool)
    | SendMarker(sid: Sid, mid: Mid, ok: bool)
    | GiveUp(sid: Sid)
    | Answer(mid: Mid, status: int)
    | SwitchOff(mid: Mid)
    | Splice(mid: Mid)
    | ReissueOne(mid: Mid, ok: bool)
    | Finish(mid: Mid)
    | Disable
    | Enable(canFailover: bool, ok: bool)
    | Reset

  function Init(): Dev {
    Dev(map[], {}, [], {}, [], {}, map[], map[], false, false, false, false, 0)
  }

  // ------------------------------------------------------------------------
  // Building blocks
  // ------------------------------------------------------------------------

  function End(s: Dev, io: Io, status: int): Dev {
    s.(done := s.done + [(io, status)])
  }

  /** `pxd_reroute_slowpath`: counted and sent, or ended with -EIO if no request can be had. */
  function Reroute(s: Dev, io: Io, ok: bool): Dev {
    if ok then s.(slow := s.slow + {io}, ncount := s.ncount + 1) else End(s, io, -EIO)
  }

  /** The read-locked part of the entry function: slowpath, or a fan-out if the trackers can be had. */
  function Route(s: Dev, io: Io, clones: nat, ok: bool): Dev {
    if !s.fastpath then Reroute(s, io, ok)
    else if !ok then End(s, io, -ENOMEM)
    else s.(fast := s.fast[io := NewTracker(clones)], ncount := s.ncount + 1)
  }

  /** `disableFastPath`, as far as the IO path can see it. */
  function Disabled(s: Dev): Dev {
    if s.fastpath then s.(fastpath := false, canFailover := false) else s.(activeFailover := false)
  }

  function EndAll(done: seq<(Io, int)>, ios: seq<Io>): seq<(Io, int)>
    decreases ios
  {
    if ios == [] then done else EndAll(done + [(ios[0], -EIO)], ios[1..])
  }

  /** `__pxd_abortfailQ` and the flag write after it. */
  function AbortFailQ(s: Dev): Dev {
    s.(done := EndAll(s.done, s.failQ), failQ := [], activeFailover := false)
  }

  function DropStarter(s: Dev, sid: Sid): Dev {
    s.(starters := s.starters - {sid})
  }

  function SetStarter(s: Dev, sid: Sid, st: Starter): Dev {
    s.(starters := s.starters[sid := st])
  }

  function SetStage(s: Dev, mid: Mid, stage: MarkerStage): Dev
    requires mid in s.markers
  {
    s.(markers := s.markers[mid := s.markers[mid].(stage := stage)])
  }

  /** `pxd_io_failover` under `fail_lock`, and its reroute. */
  function Park(s: Dev, io: Io, sid: Sid, ok: bool): Dev {
    var s0 := s.(work := s.work - {io});
    if s.activeFailover then s0.(failQ := s.failQ + [io])
    else if s.fastpath then
      SetStarter(s0.(failQ := s.failQ + [io], activeFailover := true), sid, Starter(true, Failover, Checking))
    else Reroute(s0, io, ok)
  }

  /** The part of `pxd_complete_io` that only the last completer runs, with the reconciled status. */
  function CompleteWith(s: Dev, io: Io, rc: int): Dev {
    var s0 := s.(fast := s.fast - {io}, ncount := s.ncount - 1);
    if s.canFailover && rc == -EIO then s0.(work := s.work + {io}) else End(s0, io, rc)
  }

  function Complete(s: Dev, io: Io, t: Tracker): Dev
    requires |t.clones| > 0 && forall i :: 0 <= i < |t.clones| ==> t.clones[i].Dropped?
  {
    CompleteWith(s, io, Reconcile(0, Statuses(t)))
  }

  /** One turn of `pxd_reissuefailQ`. */
  function ReissueTo(s: Dev, io: Io, status: int, ok: bool): Dev {
    if status == 0 then Reroute(s, io, ok) else End(s, io, -EIO)
  }

  function CloneStep(s: Dev, io: Io, step: TStep): Dev
    requires io in s.fast && TEnabled(s.fast[io], step)
  {
    var t := TApply(s.fast[io], step);
    if step.Drop? && t.active == 0 && |t.clones| > 0 && (forall i :: 0 <= i < |t.clones| ==> t.clones[i].Dropped?)
    then Complete(s, io, t)
    else s.(fast := s.fast[io := t])
  }

  // ------------------------------------------------------------------------
  // The steps
  // ------------------------------------------------------------------------

  predicate HasStarter(s: Dev, sid: Sid, stage: StarterStage) {
    sid in s.starters && s.starters[sid].stage == stage
  }

  predicate HasMarker(s: Dev, mid: Mid) {
    mid in s.markers
  }

  predicate Enabled(s: Dev, step: Step) {
    match step
    case Submit(io, clones, _) => io !in s.submitted && clones > 0
    case Clone(io, t) => io in s.fast && TEnabled(s.fast[io], t)
    case SlowReply(io, _) => io in s.slow
    case FailoverWork(io, sid, _) => io in s.work && sid !in s.starters
    case Start(sid, _) => sid !in s.starters
    case Check(sid) => HasStarter(s, sid, Checking)
    case Swap(sid) => HasStarter(s, sid, Swapping)
    case Suspend(sid, _) => HasStarter(s, sid, Holding)
    case SendMarker(sid, mid, _) => HasStarter(s, sid, Suspended) && mid !in s.markers
    case GiveUp(sid) => HasStarter(s, sid, Failed)
    case Answer(mid, _) => HasMarker(s, mid) && s.markers[mid].stage.InUser?
    case SwitchOff(mid) => HasMarker(s, mid) && s.markers[mid].stage.Won?
    case Splice(mid) => HasMarker(s, mid) && s.markers[mid].stage.Off?
    case ReissueOne(mid, _) => HasMarker(s, mid) && s.markers[mid].stage.Reissue? && s.markers[mid].stage.ios != []
    case Finish(mid) => HasMarker(s, mid) && s.markers[mid].stage.Reissue? && s.markers[mid].stage.ios == []
    case Disable => true
    case Enable(_, _) => !s.fastpath
    case Reset => true
  }

  function Apply(s: Dev, step: Step): Dev
    requires Enabled(s, step)
  {
    match step
    case Submit(io, clones, ok) => Route(s.(submitted := s.submitted + {io}), io, clones, ok)
    case Clone(io, t) => CloneStep(s, io, t)
    case SlowReply(io, status) => End(s.(slow := s.slow - {io}, ncount := s.ncount - 1), io, status)
    case FailoverWork(io, sid, ok) => Park(s, io, sid, ok)
    case Start(sid, code) => SetStarter(s, sid, Starter(false, code, Checking))
    case Check(sid) =>
      var st := s.starters[sid];
      SetStarter(s, sid, st.(stage := if s.fastpath == st.code.Failover? then Swapping else Failed))
    case Swap(sid) =>
      var st := s.starters[sid];
      if !s.ioswitch then SetStarter(s.(ioswitch := true), sid, st.(stage := Holding))
      else if st.code.Failover? then DropStarter(s, sid)
      else SetStarter(s, sid, st.(stage := Failed))
    case Suspend(sid, ok) =>
      if ok then SetStarter(s, sid, s.starters[sid].(stage := Suspended))
      else SetStarter(s.(ioswitch := false), sid, s.starters[sid].(stage := Failed))
    case SendMarker(sid, mid, ok) =>
      if ok then DropStarter(s, sid).(markers := s.markers[mid := Marker(s.starters[sid].code, InUser)])
      else SetStarter(s.(ioswitch := false), sid, s.starters[sid].(stage := Failed))
    case GiveUp(sid) =>
      DropStarter(if s.starters[sid].worker then AbortFailQ(s) else s, sid)
    case Answer(mid, status) =>
      if s.ioswitch then SetStage(s.(ioswitch := false), mid, Won(status))
      else s.(markers := s.markers - {mid})
    case SwitchOff(mid) =>
      if s.markers[mid].code.Failover? then SetStage(Disabled(s), mid, Off(s.markers[mid].stage.status))
      else SetStage(s, mid, Reissue(s.markers[mid].stage.status, []))
    case Splice(mid) =>
      SetStage(s, mid, Reissue(s.markers[mid].stage.status, s.failQ)).(failQ := [], activeFailover := false)
    case ReissueOne(mid, ok) =>
      var Reissue(status, ios) := s.markers[mid].stage;
      ReissueTo(SetStage(s, mid, Reissue(status, ios[1..])), ios[0], status, ok)
    case Finish(mid) => s.(markers := s.markers - {mid})
    case Disable => Disabled(s)
    case Enable(canFailover, ok) =>
      if ok then s.(fastpath := true, canFailover := canFailover) else Disabled(s.(canFailover := canFailover))
    case Reset => Disabled(s).(ioswitch := false)
  }

  predicate Legal(s: Dev, steps: seq<Step>)
    decreases |steps|
  {
    steps == [] || (Enabled(s, steps[0]) && Legal(Apply(s, steps[0]), steps[1..]))
  }

  function Exec(s: Dev, steps: seq<Step>): Dev
    requires Legal(s, steps)
    decreases |steps|
  {
    if steps == [] then s else Exec(Apply(s, steps[0]), steps[1..])
  }
}
