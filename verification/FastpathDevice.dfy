/**
  The control side of a fastpath device (pxd_fastpath.c, pxd.c, and the suspend/resume pairs of both
  bio files), working in place on the device's fields.
 */
module FastpathDevice {
  import opened Errno
  import opened Seqs
  import opened Routing
  import L = FastpathLedger

  /** Outcome of `filp_open` and of the look at the inode: an error, a usable file, or a file of unknown type. */
  datatype Open = Fails | Usable | UnknownType

  /** Does `pxd_request_suspend_internal` succeed? `timedOut` and `rcs` are the outcome of flushing the replicas. */
  function SuspendOk(skipFlush: bool, coe: bool, syncPending: bool, fastpath: bool, timedOut: bool, rcs: seq<int>): bool {
    && (skipFlush || !syncPending)
    && (skipFlush || !fastpath || coe || (!timedOut && forall i :: 0 <= i < |rcs| ==> rcs[i] == 0))
  }

  /** The first error a flush reported, replica by replica. */
  function FirstFailure(rcs: seq<int>, i: nat): int
    decreases |rcs| - i
  {
    if i >= |rcs| then 0 else if rcs[i] != 0 then rcs[i] else FirstFailure(rcs, i + 1)
  }

  /** What `pxd_request_suspend_internal` returns. */
  function SuspendRc(enabled: bool, skipFlush: bool, coe: bool, syncPending: bool, fastpath: bool, timedOut: bool, rcs: seq<int>): int {
    if !enabled then -EINVAL
    else if !skipFlush && syncPending then -EBUSY
    else if skipFlush || !fastpath || coe then 0
    else if timedOut then -EBUSY
    else FirstFailure(rcs, 0)
  }

  lemma {:induction false} FirstFailureMeaning(rcs: seq<int>, i: nat)
    requires i <= |rcs|
    ensures var e := FirstFailure(rcs, i);
            if forall j :: i <= j < |rcs| ==> rcs[j] == 0 then e == 0
            else e != 0 && exists k :: i <= k < |rcs| && rcs[k] == e && forall j :: i <= j < k ==> rcs[j] == 0
    decreases |rcs| - i
  {
    if i < |rcs| && rcs[i] == 0 {
      FirstFailureMeaning(rcs, i + 1);
    }
  }

  /**
    A suspend that is to continue on error does not care how the flush went, nor does one that flushes nothing: it
    fails only where the fastpath is not enabled or an earlier flush is still at work. One that has to flush succeeds
    exactly if every replica did, in time, and reports the first failure.
   */
  lemma SuspendMeaning(enabled: bool, skipFlush: bool, coe: bool, syncPending: bool, fastpath: bool, timedOut: bool, rcs: seq<int>)
    ensures var rc := SuspendRc(enabled, skipFlush, coe, syncPending, fastpath, timedOut, rcs);
            && (rc == 0 <==> enabled && SuspendOk(skipFlush, coe, syncPending, fastpath, timedOut, rcs))
            && (coe || skipFlush || !fastpath ==> (rc == 0 <==> enabled && !(syncPending && !skipFlush)))
            && (enabled && !syncPending && fastpath && !coe && !skipFlush ==>
                  && (rc == 0 <==> !timedOut && forall i :: 0 <= i < |rcs| ==> rcs[i] == 0)
                  && (timedOut ==> rc == -EBUSY)
                  && (!timedOut && rc != 0 ==> exists k :: 0 <= k < |rcs| && rcs[k] == rc && forall j :: 0 <= j < k ==> rcs[j] == 0))
            && (!enabled ==> rc == -EINVAL) && (enabled && syncPending && !skipFlush ==> rc == -EBUSY)
  {
    FirstFailureMeaning(rcs, 0);
  }

  /** What is left of a count once every unit in it is released. */
  function Drained(count: int): int {
    if count > 0 then 0 else count
  }

  function Handle(f: Option<int>): set<int> {
    if f.Some? then {f.value} else {}
  }

  class Device {
    const enabled: bool
    const blkmq: bool
    var disk: bool

    var suspend: int
    var barrier: bool
    var appSuspend: bool
    var ioswitch: bool

    var fastpath: bool
    var nfd: int
    const file: array<Option<int>>
    var nextHandle: int            // open files are numbered in the order they are opened
    var canFailover: bool
    var activeFailover: bool

    ghost var early: bool          // the present suspension began before there was a disk
    ghost var sent: seq<L.Code>    // markers sent, those back, and the one that holds the switch
    ghost var back: set<int>
    ghost var holder: int
    ghost var failed: int          // units left by failures and still held, and units taken from an owner
    ghost var leaked: int
    ghost var stolen: int
    ghost var live: set<int>       // opened and not yet closed
    ghost var trace: seq<Snap>

    ghost function View(): L.Ledger
      reads `fastpath, `suspend, `appSuspend, `ioswitch, `sent, `back, `holder, `failed, `leaked, `stolen
    {
      L.Ledger(enabled, fastpath, suspend, appSuspend, ioswitch, sent, back, holder, failed, leaked, stolen)
    }

    ghost function Flags(): PathFlags
      reads `fastpath, `canFailover, `activeFailover
    {
      PathFlags(fastpath, canFailover, activeFailover)
    }

    ghost function Path(): Route
      reads `fastpath, `nfd, file
    {
      Route(fastpath, nfd, file[..])
    }

    /** Open handles are exactly the non-null entries of `file[]`, each there once. */
    ghost predicate HandlesOk()
      reads `live, `nextHandle, file
    {
      && file.Length == MAX_BACKING_DEVS
      && live == Handle(file[0]) + Handle(file[1]) + Handle(file[2])
      && Handle(file[0]) !! Handle(file[1]) !! Handle(file[2])
      && forall h :: h in live ==> h < nextHandle
    }

    /** IO is shut out exactly while the count is positive; blk-mq cannot quiesce a queue that is not there yet. */
    ghost predicate BarrierOk()
      reads `suspend, `barrier, `early, `disk
    {
      && (barrier <==> suspend > 0 && !(blkmq && early))
      && (blkmq && barrier ==> disk)
    }

    /** Nobody can submit IO: the lock is held or the queue quiesced, or there is no disk yet. */
    ghost predicate Shut()
      reads `barrier, `disk
    {
      barrier || (blkmq && !disk)
    }

    /**
      One unit more would not shut IO out: the present suspension began before the disk, so the queue was never
      quiesced; or the count is below zero, so the unit that takes it to one is not this one.
     */
    ghost predicate Window()
      reads `suspend, `disk, `early
    {
      (suspend > 0 && blkmq && disk && early) || (suspend < 0 && !(blkmq && !disk))
    }

    /** The count covers its owners; and then the path of a make-request device was never changed under a submitter. */
    ghost predicate Kept()
      reads `fastpath, `suspend, `appSuspend, `ioswitch, `sent, `back, `holder, `failed, `leaked, `stolen, `trace
    {
      suspend >= L.Owned(View()) && (!blkmq ==> !Exposed(trace))
    }

    /** The trace is up to date. */
    ghost predicate TraceOk()
      reads `trace, `barrier, `disk, `fastpath, `nfd, file
    {
      trace != [] && trace[|trace| - 1] == Snap(Shut(), Path())
    }

    /** Active: 1 to 3 files, all open. Inactive: none. */
    ghost predicate Settled()
      reads `fastpath, `nfd, file
    {
      && file.Length == MAX_BACKING_DEVS
      && if fastpath
         then enabled && 1 <= nfd <= MAX_BACKING_DEVS && forall i :: 0 <= i < MAX_BACKING_DEVS ==> (file[i].Some? <==> i < nfd)
         else nfd == 0 && forall i :: 0 <= i < MAX_BACKING_DEVS ==> file[i] == None
    }

    /** What holds at every single write. */
    ghost predicate Sound()
      reads `live, `nextHandle, `suspend, `barrier, `early, `disk, `trace, `fastpath, `nfd, file
    {
      HandlesOk() && BarrierOk() && TraceOk()
    }

    /** What holds between control operations. */
    ghost predicate Valid()
      reads this, file
    {
      Sound() && Settled() && L.Balanced(View())
    }

    /** So it is of a new device. */
    lemma NewIsKept()
      requires suspend == 0 && !appSuspend && !ioswitch && |trace| == 1
      ensures Kept()
    {
    }

    /** `pxd_fastpath_init`: a valid device, nothing owed. */
    constructor (enabled: bool, blkmq: bool)
      ensures Sound() && Settled() && L.Balanced(View())
      ensures !fastpath && suspend == 0 && !appSuspend && !ioswitch && sent == [] && failed == 0 && leaked == 0 && stolen == 0
      ensures !disk && trace == [Snap(Shut(), Path())] && fresh(file)
    {
      this.enabled := enabled;
      this.blkmq := blkmq;
      disk := false;
      suspend, barrier, appSuspend, ioswitch := 0, false, false, false;
      fastpath, nfd := false, 0;
      file := new Option<int>[] [None, None, None];
      canFailover, activeFailover := false, false;
      early, failed, leaked, stolen := false, 0, 0, 0;
      sent, back, holder := [], {}, 0;
      nextHandle, live := 0, {};
      new;
      trace := [Snap(Shut(), Path())];
    }

    // ----------------------------------------------------------------------
    // Single writes
    // ----------------------------------------------------------------------

    /** The write just made goes into the trace: a change of the path, or of what is shut out, not of both. */
    ghost method Note()
      requires file.Length == MAX_BACKING_DEVS && trace != []
      requires trace[|trace| - 1].shut == Shut() || trace[|trace| - 1].route == Path()
      modifies `trace
      ensures TraceOk() && old(trace) <= trace
      ensures Exposed(trace) == (old(Exposed(trace)) || (old(trace)[|old(trace)| - 1].route != Path() && !Shut()))
    {
      var snap := Snap(Shut(), Path());
      ExposedAppend(trace, snap);
      trace := trace + [snap];
    }

    /** `pxd_suspend_io`. */
    method SuspendIo()
      requires Sound()
      modifies `suspend, `barrier, `early, `trace
      ensures Sound() && suspend == old(suspend) + 1 && old(trace) <= trace
      ensures Exposed(trace) == old(Exposed(trace)) && (early == old(early) || old(suspend) == 0)
      ensures Shut() == !old(Window()) && (Window() ==> old(Window()))
    {
      suspend := suspend + 1;
      if suspend == 1 {
        early := blkmq && !disk;
        if !blkmq || disk {
          barrier := true;
        }
      }
      Note();
    }

    /** `pxd_resume_io`. */
    method ResumeIo()
      requires Sound()
      modifies `suspend, `barrier, `trace
      ensures Sound() && suspend == old(suspend) - 1 && old(trace) <= trace
      ensures Exposed(trace) == old(Exposed(trace))
    {
      suspend := suspend - 1;
      if suspend == 0 && barrier {
        barrier := false;
      }
      Note();
    }

    method SetFastpath(b: bool)
      requires Sound()
      modifies `fastpath, `trace
      ensures Sound() && fastpath == b && old(trace) <= trace
      ensures Exposed(trace) == (old(Exposed(trace)) || (!Shut() && old(fastpath) != b))
    {
      fastpath := b;
      Note();
    }

    method SetNfd(n: int)
      requires Sound()
      modifies `nfd, `trace
      ensures Sound() && nfd == n && old(trace) <= trace
      ensures Exposed(trace) == (old(Exposed(trace)) || (!Shut() && old(nfd) != n))
    {
      nfd := n;
      Note();
    }

    /** A successful `filp_open` and the store into `file[i]`. */
    method OpenFile(i: nat)
      requires Sound() && i < MAX_BACKING_DEVS && file[i] == None
      modifies file, `live, `nextHandle, `trace
      ensures Sound() && file[i].Some? && old(trace) <= trace
      ensures forall j :: 0 <= j < MAX_BACKING_DEVS && j != i ==> file[j] == old(file[j])
      ensures Exposed(trace) == (old(Exposed(trace)) || !Shut())
    {
      file[i] := Some(nextHandle);
      assert Path().files[i] != trace[|trace| - 1].route.files[i];
      live := live + {nextHandle};
      nextHandle := nextHandle + 1;
      Note();
    }

    /** `filp_close` of an open file, and the entry cleared. */
    method CloseFile(i: nat)
      requires Sound() && i < MAX_BACKING_DEVS && file[i].Some? && file[i].value in live
      modifies file, `live, `trace
      ensures Sound() && file[i] == None && old(trace) <= trace
      ensures live == old(live) - {old(file[i]).value}
      ensures forall j :: 0 <= j < MAX_BACKING_DEVS && j != i ==> file[j] == old(file[j])
      ensures Exposed(trace) == (old(Exposed(trace)) || !Shut())
    {
      live := live - {file[i].value};
      file[i] := None;
      assert Path().files[i] != trace[|trace| - 1].route.files[i];
      Note();
    }

    // ----------------------------------------------------------------------
    // Suspend and resume requests
    // ----------------------------------------------------------------------

    /** `pxd_request_suspend_internal`; `rcs` are the results of flushing the replicas. */
    method RequestSuspendInternal(skipFlush: bool, coe: bool, syncPending: bool, timedOut: bool, rcs: seq<int>) returns (rc: int)
      requires Sound() && |rcs| == MAX_BACKING_DEVS
      modifies `suspend, `barrier, `early, `trace
      ensures Sound() && old(trace) <= trace && Exposed(trace) == old(Exposed(trace))
      ensures rc == SuspendRc(enabled, skipFlush, coe, syncPending, fastpath, timedOut, rcs)
      ensures rc == 0 <==> enabled && SuspendOk(skipFlush, coe, syncPending, fastpath, timedOut, rcs)
      ensures suspend == if rc == 0 then old(suspend) + 1 else old(suspend)
    {
      if !enabled {
        return -EINVAL;
      }
      if !skipFlush && syncPending {
        return -EBUSY;
      }
      SuspendIo();
      if skipFlush || !fastpath {
        return 0;
      }
      rc := 0;
      if timedOut {
        rc := -EBUSY;
      } else {
        var i := 0;
        while i < MAX_BACKING_DEVS && rc == 0
          invariant 0 <= i <= MAX_BACKING_DEVS
          invariant rc == 0 ==> forall j :: 0 <= j < i ==> rcs[j] == 0
          invariant rc != 0 ==> exists j :: 0 <= j < |rcs| && rcs[j] != 0
          invariant FirstFailure(rcs, 0) == if rc == 0 then FirstFailure(rcs, i) else rc
        {
          rc := rcs[i];
          i := i + 1;
        }
      }
      if rc == 0 || coe {
        return 0;
      }
      ResumeIo();
    }

    /** `pxd_request_suspend` once it has claimed the application's unit. */
    method AppSuspend(skipFlush: bool, coe: bool, syncPending: bool, timedOut: bool, rcs: seq<int>) returns (rc: int)
      requires Sound() && |rcs| == MAX_BACKING_DEVS
      modifies `suspend, `barrier, `early, `trace, `appSuspend
      ensures Sound() && old(trace) <= trace && Exposed(trace) == old(Exposed(trace))
      ensures appSuspend <==> enabled && SuspendOk(skipFlush, coe, syncPending, fastpath, timedOut, rcs)
      ensures suspend == old(suspend) + (if appSuspend then 1 else 0)
      ensures appSuspend <==> rc == 0
      ensures rc == SuspendRc(enabled, skipFlush, coe, syncPending, fastpath, timedOut, rcs)
    {
      appSuspend := true;
      rc := RequestSuspendInternal(skipFlush, coe, syncPending, timedOut, rcs);
      if rc != 0 {
        appSuspend := false;
      }
    }

    /** `pxd_request_suspend`. */
    method RequestSuspend(skipFlush: bool, coe: bool, syncPending: bool, timedOut: bool, rcs: seq<int>) returns (rc: int)
      requires Valid() && |rcs| == MAX_BACKING_DEVS
      modifies `suspend, `barrier, `early, `trace, `appSuspend
      ensures old(Kept()) ==> Kept()
      ensures Valid() && old(trace) <= trace && Exposed(trace) == old(Exposed(trace))
      ensures View() == L.Apply(old(View()), L.Suspend(SuspendOk(skipFlush, coe, syncPending, fastpath, timedOut, rcs)))
      ensures rc == 0 ==> appSuspend && suspend == old(suspend) + 1
      ensures rc == if old(appSuspend) then -EBUSY else SuspendRc(enabled, skipFlush, coe, syncPending, fastpath, timedOut, rcs)
    {
      if appSuspend {
        return -EBUSY;
      }
      rc := AppSuspend(skipFlush, coe, syncPending, timedOut, rcs);
    }

    /** `pxd_request_resume`. */
    method RequestResume() returns (rc: int)
      requires Sound()
      modifies `suspend, `barrier, `trace, `appSuspend
      ensures Sound() && old(trace) <= trace && Exposed(trace) == old(Exposed(trace))
      ensures View() == L.AppResume(old(View()))
      ensures rc == 0 <==> View() != old(View())
    {
      if !appSuspend {
        return -EINVAL;
      }
      appSuspend := false;
      if !enabled {
        appSuspend := true;
        return -EINVAL;
      }
      ResumeIo();
      rc := 0;
    }

    /** `pxd_request_resume` as a request of its own. */
    method Resume() returns (rc: int)
      requires Valid()
      modifies `suspend, `barrier, `trace, `appSuspend
      ensures old(Kept()) ==> Kept()
      ensures Valid() && old(trace) <= trace && View() == L.Apply(old(View()), L.Resume) && Exposed(trace) == old(Exposed(trace))
      ensures rc == 0 <==> old(appSuspend)
      ensures rc == 0 ==> !appSuspend && suspend == old(suspend) - 1
    {
      rc := RequestResume();
    }

    // ----------------------------------------------------------------------
    // Switching the fastpath on and off
    // ----------------------------------------------------------------------

    /** The error exit of `enableFastPath`: every file opened so far is closed. */
    method CloseAll()
      requires Sound()
      modifies file, `live, `trace
      ensures Sound() && old(trace) <= trace
      ensures live == {} && forall j :: 0 <= j < MAX_BACKING_DEVS ==> file[j] == None
      ensures old(Exposed(trace)) ==> Exposed(trace)
      ensures Exposed(trace) ==> old(Exposed(trace)) || !Shut()
      ensures !Shut() && old(file[0]).Some? ==> Exposed(trace)
    {
      var i := 0;
      while i < MAX_BACKING_DEVS
        invariant 0 <= i <= MAX_BACKING_DEVS && Sound() && old(trace) <= trace
        invariant forall j :: 0 <= j < i ==> file[j] == None
        invariant (old(Exposed(trace)) ==> Exposed(trace)) && (Exposed(trace) ==> old(Exposed(trace)) || !Shut())
        invariant if i == 0 then file[0] == old(file[0]) else !Shut() && old(file[0]).Some? ==> Exposed(trace)
      {
        if file[i].Some? {
          CloseFile(i);
        }
        i := i + 1;
      }
    }

    /** The loop of `enableFastPath`: open every path, stop at the first that fails or is of an unknown type. */
    method OpenAll(results: seq<Open>) returns (ok: bool)
      requires Sound() && 1 <= nfd <= MAX_BACKING_DEVS && |results| == MAX_BACKING_DEVS
      requires forall j :: 0 <= j < MAX_BACKING_DEVS ==> file[j] == None
      modifies file, `live, `nextHandle, `trace
      ensures Sound() && old(trace) <= trace
      ensures ok <==> forall j :: 0 <= j < nfd ==> results[j] == Usable
      ensures ok ==> forall j :: 0 <= j < MAX_BACKING_DEVS ==> (file[j].Some? <==> j < nfd)
      ensures (old(Exposed(trace)) ==> Exposed(trace)) && (Exposed(trace) ==> old(Exposed(trace)) || !Shut())
    {
      var i := 0;
      while i < nfd
        invariant 0 <= i <= nfd && Sound() && old(trace) <= trace
        invariant forall j :: 0 <= j < i ==> results[j] == Usable
        invariant forall j :: 0 <= j < MAX_BACKING_DEVS ==> (file[j].Some? <==> j < i)
        invariant (old(Exposed(trace)) ==> Exposed(trace)) && (Exposed(trace) ==> old(Exposed(trace)) || !Shut())
      {
        if results[i] == Fails {
          return false;
        }
        OpenFile(i);
        if results[i] == UnknownType {
          return false;
        }
        i := i + 1;
      }
      ok := true;
    }

    ghost predicate AllUsable(count: int, results: seq<Open>)
      requires count <= |results|
    {
      forall j :: 0 <= j < count ==> results[j] == Usable
    }

    /** `enableFastPath`. On failure the device stays suspended, waiting for a cleanup request. */
    method EnableFastPath(results: seq<Open>)
      requires Sound() && 0 <= nfd <= MAX_BACKING_DEVS && |results| == MAX_BACKING_DEVS
      requires !fastpath && enabled && forall j :: 0 <= j < MAX_BACKING_DEVS ==> file[j] == None
      modifies file, `live, `nextHandle, `suspend, `barrier, `early, `fastpath, `nfd, `trace
      ensures Sound() && Settled() && old(trace) <= trace
      ensures fastpath <==> old(nfd) > 0 && AllUsable(old(nfd), results)
      ensures suspend == if old(nfd) > 0 && !fastpath then old(suspend) + 1 else old(suspend)
      ensures Exposed(trace) == (old(Exposed(trace)) || (old(Window()) && old(nfd) > 0))
    {
      if nfd == 0 {
        SetFastpath(false);
        return;
      }
      SuspendIo();
      var ok := OpenAll(results);
      if ok {
        SetFastpath(true);
        ResumeIo();
      } else {
        SetNfd(0);
        CloseAll();
        SetFastpath(false);
      }
    }

    /** `disableFastPath`. */
    method DisableFastPath()
      requires Sound() && Settled()
      modifies file, `live, `suspend, `barrier, `early, `fastpath, `nfd, `canFailover, `activeFailover, `trace
      ensures Sound() && Settled() && old(trace) <= trace
      ensures !fastpath && suspend == old(suspend)
      ensures Flags() == DisabledFlags(old(Flags()))
      ensures Exposed(trace) == (old(Exposed(trace)) || (old(Window()) && old(fastpath)))
    {
      if !enabled || nfd == 0 || !fastpath {
        activeFailover := false;
        SetFastpath(false);
        return;
      }
      SuspendIo();
      TearDown();
      canFailover := false;
      ResumeIo();
    }

    /** Its suspended part: every file closed, the path cleared. */
    method TearDown()
      requires Sound() && fastpath
      modifies file, `live, `fastpath, `nfd, `trace
      ensures Sound() && Settled() && old(trace) <= trace && !fastpath && live == {}
      ensures Exposed(trace) == (old(Exposed(trace)) || !Shut())
    {
      CloseAll();
      SetNfd(0);
      SetFastpath(false);
    }

    /** The suspended part of `pxd_init_fastpath_target`: take over the paths and try to enable them. */
    method InstallPaths(count: nat, mayFailover: bool, results: seq<Open>)
      requires Sound() && Settled() && enabled && !fastpath && count <= MAX_BACKING_DEVS && |results| == MAX_BACKING_DEVS
      modifies file, `live, `nextHandle, `suspend, `barrier, `early, `fastpath, `nfd, `canFailover, `trace
      ensures Sound() && Settled() && old(trace) <= trace
      ensures fastpath <==> count > 0 && AllUsable(count, results)
      ensures canFailover == mayFailover
      ensures suspend == if count > 0 && !fastpath then old(suspend) + 1 else old(suspend)
      ensures Exposed(trace) == (old(Exposed(trace)) || (old(Window()) && count > 0))
    {
      SuspendIo();
      SetNfd(count);
      canFailover := mayFailover;
      EnableFastPath(results);
      ResumeIo();
    }

    /** `pxd_init_fastpath_target` on the device's fields. */
    method TargetPaths(count: nat, mayFailover: bool, results: seq<Open>)
      requires Sound() && Settled() && enabled && !fastpath && |results| == MAX_BACKING_DEVS
      modifies file, `live, `nextHandle, `suspend, `barrier, `early, `fastpath, `nfd, `canFailover, `activeFailover, `trace
      ensures Sound() && Settled() && old(trace) <= trace
      ensures fastpath <==> 0 < count <= MAX_BACKING_DEVS && AllUsable(count, results)
      ensures suspend == if 0 < count <= MAX_BACKING_DEVS && !fastpath then old(suspend) + 1 else old(suspend)
      ensures canFailover == (if count <= MAX_BACKING_DEVS then mayFailover else old(canFailover))
      ensures activeFailover == (old(activeFailover) && fastpath)
      ensures Exposed(trace) == (old(Exposed(trace)) || (old(Window()) && 0 < count <= MAX_BACKING_DEVS))
    {
      if count <= MAX_BACKING_DEVS {
        InstallPaths(count, mayFailover, results);
        if fastpath {
          return;
        }
      }
      DisableFastPath();
      SetNfd(0);
    }

    /** `pxd_init_fastpath_target`, with `count` paths. */
    method InitFastpathTarget(count: nat, mayFailover: bool, results: seq<Open>)
      requires Valid() && enabled && !fastpath && |results| == MAX_BACKING_DEVS
      modifies file, `live, `nextHandle, `suspend, `barrier, `early, `fastpath, `nfd, `canFailover, `activeFailover, `trace, `failed
      ensures old(Kept()) ==> Kept()
      ensures Valid() && old(trace) <= trace
      ensures View() == L.Apply(old(View()), L.UpdatePath(count, count <= |results| && AllUsable(count, results)))
      ensures canFailover == (if count <= MAX_BACKING_DEVS then mayFailover else old(canFailover))
      ensures activeFailover == (old(activeFailover) && fastpath)
      ensures Exposed(trace) == (old(Exposed(trace)) || (old(Window()) && 0 < count <= MAX_BACKING_DEVS))
    {
      TargetBooked(count, mayFailover, results);
    }

    method TargetBooked(count: nat, mayFailover: bool, results: seq<Open>)
      requires Sound() && Settled() && enabled && !fastpath && |results| == MAX_BACKING_DEVS
      modifies file, `live, `nextHandle, `suspend, `barrier, `early, `fastpath, `nfd, `canFailover, `activeFailover, `trace, `failed
      ensures Sound() && Settled() && old(trace) <= trace
      ensures View() == L.Apply(old(View()), L.UpdatePath(count, count <= |results| && AllUsable(count, results)))
      ensures canFailover == (if count <= MAX_BACKING_DEVS then mayFailover else old(canFailover))
      ensures activeFailover == (old(activeFailover) && fastpath)
      ensures Exposed(trace) == (old(Exposed(trace)) || (old(Window()) && 0 < count <= MAX_BACKING_DEVS))
    {
      TargetPaths(count, mayFailover, results);
      if 0 < count <= MAX_BACKING_DEVS && !fastpath {
        BookFailed();
      }
    }

    /** `__pxd_update_path`. */
    method UpdatePath(count: nat, mayFailover: bool, results: seq<Open>) returns (rc: int)
      requires Valid() && |results| == MAX_BACKING_DEVS
      modifies file, `live, `nextHandle, `suspend, `barrier, `early, `fastpath, `nfd, `canFailover, `activeFailover, `trace, `failed
      ensures old(Kept()) ==> Kept()
      ensures Valid() && old(trace) <= trace
      ensures View() == L.Apply(old(View()), L.UpdatePath(count, count <= |results| && AllUsable(count, results)))
      ensures rc == if enabled && !old(fastpath) then 0 else -EINVAL
      ensures canFailover == (if rc == 0 && count <= MAX_BACKING_DEVS then mayFailover else old(canFailover))
      ensures activeFailover == (old(activeFailover) && (rc != 0 || fastpath))
      ensures Exposed(trace) == (old(Exposed(trace)) || (old(Window()) && rc == 0 && 0 < count <= MAX_BACKING_DEVS))
    {
      if !enabled || fastpath {
        return -EINVAL;
      }
      InitFastpathTarget(count, mayFailover, results);
      rc := 0;
    }

    /** `pxd_fastpath_cleanup`, and every other plain disable. */
    method Disable()
      requires Valid()
      modifies file, `live, `suspend, `barrier, `early, `fastpath, `nfd, `canFailover, `activeFailover, `trace
      ensures old(Kept()) ==> Kept()
      ensures Valid() && old(trace) <= trace && View() == L.Apply(old(View()), L.Disable)
      ensures Flags() == DisabledFlags(old(Flags()))
      ensures Exposed(trace) == (old(Exposed(trace)) || (old(Window()) && old(fastpath)))
    {
      DisableFastPath();
    }

    /** `disableFastPath` followed by one `pxd_resume_io`. */
    method DisableAndResume(disable: bool)
      requires Sound() && Settled()
      modifies file, `live, `suspend, `barrier, `early, `fastpath, `nfd, `canFailover, `activeFailover, `trace
      ensures Sound() && Settled() && old(trace) <= trace
      ensures suspend == old(suspend) - 1
      ensures Flags() == if disable then DisabledFlags(old(Flags())) else old(Flags())
      ensures Exposed(trace) == (old(Exposed(trace)) || (disable && old(Window()) && old(fastpath)))
    {
      if disable {
        DisableFastPath();
      }
      ResumeIo();
    }

    /** `pxd_fastpath_vol_cleanup`. Everybody keeps its unit exactly if no owner needed the one released. */
    method VolCleanup() returns (rc: int)
      requires Valid()
      modifies file, `live, `suspend, `barrier, `early, `fastpath, `nfd, `canFailover, `activeFailover, `trace, `failed, `leaked, `stolen
      ensures Valid() && old(trace) <= trace
      ensures View() == L.Apply(old(View()), L.Cleanup)
      ensures old(Kept()) ==> (Kept() <==> L.Disciplined(old(View()), L.Cleanup))
      ensures rc == if old(suspend) == 0 then -EINVAL else 0
      ensures Flags() == if rc == 0 then DisabledFlags(old(Flags())) else old(Flags())
      ensures Exposed(trace) == (old(Exposed(trace)) || (rc == 0 && old(Window()) && old(fastpath)))
    {
      if suspend == 0 {
        return -EINVAL;
      }
      CleanHeld();
      rc := 0;
    }

    method CleanHeld()
      requires Sound() && Settled()
      modifies file, `live, `suspend, `barrier, `early, `fastpath, `nfd, `canFailover, `activeFailover, `trace, `failed, `leaked, `stolen
      ensures Sound() && Settled() && old(trace) <= trace
      ensures View() == L.Clean(old(View())) && Flags() == DisabledFlags(old(Flags()))
      ensures Exposed(trace) == (old(Exposed(trace)) || (old(Window()) && old(fastpath)))
    {
      DisableAndResume(true);
      BookCleanup();
    }

    // ----------------------------------------------------------------------
    // The books
    // ----------------------------------------------------------------------

    ghost method BookFailed()
      requires Sound() && Settled()
      modifies `failed
      ensures Sound() && Settled() && failed == old(failed) + 1
    {
      failed := failed + 1;
    }

    ghost method BookLeaked()
      requires Sound() && Settled()
      modifies `leaked
      ensures Sound() && Settled() && leaked == old(leaked) + 1
    {
      leaked := leaked + 1;
    }

    ghost method BookCleanup()
      requires Sound() && Settled()
      modifies `failed, `leaked, `stolen
      ensures Sound() && Settled()
      ensures failed == old(failed) - (if old(failed) > 0 then 1 else 0)
      ensures leaked == old(leaked) - (if old(failed) <= 0 && old(leaked) > 0 then 1 else 0)
      ensures stolen == old(stolen) + (if old(failed) <= 0 && old(leaked) <= 0 then 1 else 0)
    {
      if failed > 0 {
        failed := failed - 1;
      } else if leaked > 0 {
        leaked := leaked - 1;
      } else {
        stolen := stolen + 1;
      }
    }

    ghost method BookMarker(code: L.Code)
      requires Sound() && Settled()
      modifies `sent, `holder
      ensures Sound() && Settled() && sent == old(sent) + [code] && holder == |old(sent)|
    {
      sent, holder := sent + [code], |sent|;
    }

    ghost method BookReturn(mid: int)
      requires Sound() && Settled()
      modifies `back
      ensures Sound() && Settled() && back == old(back) + {mid}
    {
      back := back + {mid};
    }

    /** Nothing is owed any more, but what cleanups took. */
    ghost method ClearBooks()
      requires Sound() && Settled()
      modifies `failed, `leaked, `stolen
      ensures Sound() && Settled() && failed == 0 && leaked == 0 && stolen == if suspend > 0 then 0 else -suspend
    {
      failed, leaked, stolen := 0, 0, if suspend > 0 then 0 else -suspend;
    }

    // ----------------------------------------------------------------------
    // Switching between kernel and userspace
    // ----------------------------------------------------------------------

    /** `pxd_initiate_failover` once it holds the switch. */
    method FailoverHeld(syncPending: bool, timedOut: bool, rcs: seq<int>, sends: bool) returns (rc: int)
      requires Sound() && |rcs| == MAX_BACKING_DEVS && (appSuspend ==> enabled)
      modifies `suspend, `barrier, `early, `trace, `appSuspend, `ioswitch
      ensures Sound() && old(trace) <= trace && Exposed(trace) == old(Exposed(trace))
      ensures var ok := enabled && SuspendOk(false, true, syncPending, fastpath, timedOut, rcs);
              && ioswitch == (ok && sends)
              && appSuspend == (old(appSuspend) && !(ok && !sends))
              && suspend == old(suspend) + (if !ok then 0 else if sends || !old(appSuspend) then 1 else 0)
      ensures var rc0 := SuspendRc(enabled, false, true, syncPending, fastpath, timedOut, rcs);
              rc == if rc0 != 0 then rc0 else if sends then 0 else -ENOMEM
    {
      ioswitch := true;
      rc := RequestSuspendInternal(false, true, syncPending, timedOut, rcs);
      if rc != 0 {
        ioswitch := false;
        return;
      }
      if !sends {
        DropSwitch();
        rc := -ENOMEM;
      }
    }

    /** Its error exit: the application is resumed, and the switch given up. */
    method DropSwitch()
      requires Sound() && (appSuspend ==> enabled)
      modifies `suspend, `barrier, `trace, `appSuspend, `ioswitch
      ensures Sound() && old(trace) <= trace && Exposed(trace) == old(Exposed(trace))
      ensures !ioswitch && !appSuspend && suspend == old(suspend) - (if old(appSuspend) then 1 else 0)
    {
      var ignored := RequestResume();
      ioswitch := false;
    }

    /** `pxd_initiate_failover`; `sends` says whether a request for the marker could be had. */
    method InitiateFailover(syncPending: bool, timedOut: bool, rcs: seq<int>, sends: bool) returns (rc: int)
      requires Valid() && |rcs| == MAX_BACKING_DEVS
      modifies `suspend, `barrier, `early, `trace, `appSuspend, `ioswitch, `leaked, `sent, `holder
      ensures old(Kept()) ==> Kept()
      ensures Valid() && old(trace) <= trace && Exposed(trace) == old(Exposed(trace))
      ensures View() == L.Apply(old(View()), L.StartFailover(SuspendOk(false, true, syncPending, fastpath, timedOut, rcs), sends))
      ensures fastpath && !old(ioswitch) && enabled && !syncPending && sends ==> rc == 0 && ioswitch && suspend == old(suspend) + 1
      ensures var rc0 := SuspendRc(enabled, false, true, syncPending, fastpath, timedOut, rcs);
              rc == if !fastpath then -EINVAL else if old(ioswitch) then 0 else if rc0 != 0 then rc0 else if sends then 0 else -ENOMEM
    {
      if !fastpath {
        return -EINVAL;
      }
      if ioswitch {
        return 0;
      }
      rc := FailoverBooked(syncPending, timedOut, rcs, sends);
    }

    /** The same with the books. */
    method FailoverBooked(syncPending: bool, timedOut: bool, rcs: seq<int>, sends: bool) returns (rc: int)
      requires Sound() && Settled() && |rcs| == MAX_BACKING_DEVS && (appSuspend ==> enabled) && fastpath && !ioswitch
      modifies `suspend, `barrier, `early, `trace, `appSuspend, `ioswitch, `leaked, `sent, `holder
      ensures Sound() && Settled() && old(trace) <= trace && Exposed(trace) == old(Exposed(trace))
      ensures View() == L.Apply(old(View()), L.StartFailover(SuspendOk(false, true, syncPending, fastpath, timedOut, rcs), sends))
      ensures var rc0 := SuspendRc(enabled, false, true, syncPending, fastpath, timedOut, rcs);
              rc == if rc0 != 0 then rc0 else if sends then 0 else -ENOMEM
    {
      ghost var ok := SuspendOk(false, true, syncPending, fastpath, timedOut, rcs);
      rc := FailoverHeld(syncPending, timedOut, rcs, sends);
      if ok && !sends {
        BookLeaked();
      } else if ok {
        BookMarker(L.Failover);
      }
    }

    /** `pxd_initiate_fallback` once it holds the switch. */
    method FallbackHeld(sends: bool) returns (rc: int)
      requires Sound()
      modifies `suspend, `barrier, `early, `trace, `ioswitch
      ensures Sound() && old(trace) <= trace && Exposed(trace) == old(Exposed(trace))
      ensures ioswitch == (enabled && sends) && suspend == old(suspend) + (if ioswitch then 1 else 0)
      ensures rc == if !enabled then -EINVAL else if sends then 0 else -ENOMEM
    {
      ioswitch := true;
      rc := RequestSuspendInternal(true, false, false, false, [0, 0, 0]);
      if rc != 0 {
        ioswitch := false;
        return;
      }
      if !sends {
        ResumeIo();
        ioswitch := false;
        rc := -ENOMEM;
      }
    }

    /** `pxd_initiate_fallback`. */
    method InitiateFallback(sends: bool) returns (rc: int)
      requires Valid()
      modifies `suspend, `barrier, `early, `trace, `ioswitch, `sent, `holder
      ensures old(Kept()) ==> Kept()
      ensures Valid() && old(trace) <= trace && Exposed(trace) == old(Exposed(trace))
      ensures View() == L.Apply(old(View()), L.StartFallback(sends))
      ensures rc == 0 ==> ioswitch && suspend == old(suspend) + 1
      ensures rc == if fastpath then -EINVAL else if old(ioswitch) then -EBUSY
                    else if !enabled then -EINVAL else if sends then 0 else -ENOMEM
    {
      if fastpath {
        return -EINVAL;
      }
      if ioswitch {
        return -EBUSY;
      }
      rc := FallbackHeld(sends);
      if ioswitch {
        BookMarker(L.Fallback);
      }
    }

    /** `pxd_process_ioswitch_complete` for marker `mid`, as far as it concerns the path and the count. */
    method IoswitchComplete(code: L.Code, ghost mid: int) returns (won: bool)
      requires Valid() && L.Away(View(), mid) && sent[mid] == code
      modifies file, `live, `suspend, `barrier, `early, `fastpath, `nfd, `canFailover, `activeFailover, `trace, `ioswitch, `back
      ensures old(Kept()) ==> Kept()
      ensures Valid() && old(trace) <= trace
      ensures View() == L.Apply(old(View()), L.MarkerDone(mid)) && won == old(ioswitch)
      ensures Flags() == if won && code == L.Failover then DisabledFlags(old(Flags())) else old(Flags())
      ensures Exposed(trace) == (old(Exposed(trace)) || (won && code == L.Failover && old(Window()) && old(fastpath)))
    {
      won := ioswitch;
      if !won {
        BookReturn(mid);
        return;
      }
      FinishSwitch(code);
      BookReturn(mid);
    }

    /** The winner's part. */
    method FinishSwitch(code: L.Code)
      requires Sound() && Settled() && ioswitch
      modifies file, `live, `suspend, `barrier, `early, `fastpath, `nfd, `canFailover, `activeFailover, `trace, `ioswitch
      ensures Sound() && Settled() && old(trace) <= trace && !ioswitch && suspend == old(suspend) - 1
      ensures Flags() == if code == L.Failover then DisabledFlags(old(Flags())) else old(Flags())
      ensures Exposed(trace) == (old(Exposed(trace)) || (code == L.Failover && old(Window()) && old(fastpath)))
    {
      ioswitch := false;
      DisableAndResume(code == L.Failover);
    }

    /** `pxd_fastpath_reset_device` on the device's fields. */
    method ResetFields()
      requires Sound() && Settled() && enabled
      modifies file, `live, `suspend, `barrier, `early, `fastpath, `nfd, `canFailover, `activeFailover, `trace, `ioswitch, `appSuspend
      ensures Sound() && Settled() && old(trace) <= trace
      ensures !fastpath && !appSuspend && !ioswitch && nfd == 0 && live == {} && !barrier
      ensures suspend == Drained(old(suspend) - if old(appSuspend) then 1 else 0)
      ensures Flags() == DisabledFlags(old(Flags()))
      ensures Exposed(trace) == (old(Exposed(trace)) || (old(Window()) && old(fastpath)))
    {
      DisableFastPath();
      ReleaseAll();
    }

    /** Its part after `disableFastPath`: the switch, the application's unit, then every other unit. */
    method ReleaseAll()
      requires Sound() && enabled
      modifies `suspend, `barrier, `trace, `ioswitch, `appSuspend
      ensures Sound() && old(trace) <= trace && Exposed(trace) == old(Exposed(trace))
      ensures !appSuspend && !ioswitch && !barrier && suspend == Drained(old(suspend) - if old(appSuspend) then 1 else 0)
    {
      if ioswitch {
        ioswitch := false;
      }
      var rc := RequestResume();
      ResumeAll();
    }

    /** The same with the books. */
    method ResetToNew()
      requires Sound() && Settled() && enabled
      modifies file, `live, `suspend, `barrier, `early, `fastpath, `nfd, `canFailover, `activeFailover, `trace, `ioswitch, `appSuspend, `failed, `leaked, `stolen
      ensures Sound() && Settled() && old(trace) <= trace && nfd == 0 && live == {} && !barrier
      ensures View() == L.Apply(old(View()), L.Reset)
      ensures Flags() == DisabledFlags(old(Flags()))
      ensures Exposed(trace) == (old(Exposed(trace)) || (old(Window()) && old(fastpath)))
    {
      ResetFields();
      ClearBooks();
    }

    /** `pxd_fastpath_reset_device`, with the marker lookup failing as it always does. */
    method ResetDevice()
      requires Valid()
      modifies file, `live, `suspend, `barrier, `early, `fastpath, `nfd, `canFailover, `activeFailover, `trace, `ioswitch, `appSuspend, `failed, `leaked, `stolen
      ensures old(Kept()) ==> Kept()
      ensures Valid() && old(trace) <= trace
      ensures View() == L.Apply(old(View()), L.Reset)
      ensures enabled ==> !appSuspend && !ioswitch && !fastpath && nfd == 0 && live == {} && !barrier
      ensures enabled ==> (suspend == 0 <==> old(suspend) >= if old(appSuspend) then 1 else 0)
      ensures Flags() == if enabled then DisabledFlags(old(Flags())) else old(Flags())
      ensures Exposed(trace) == (old(Exposed(trace)) || (enabled && old(Window()) && old(fastpath)))
    {
      if !enabled {
        return;
      }
      ResetToNew();
    }

    /** The last loop of `pxd_fastpath_reset_device`. */
    method ResumeAll()
      requires Sound()
      modifies `suspend, `barrier, `trace
      ensures Sound() && old(trace) <= trace && suspend == Drained(old(suspend)) && Exposed(trace) == old(Exposed(trace))
    {
      while suspend > 0
        invariant Sound() && old(trace) <= trace && Exposed(trace) == old(Exposed(trace))
        invariant Drained(suspend) == Drained(old(suspend))
        decreases suspend
      {
        ResumeIo();
      }
    }

    /** The disk comes up, possibly while the device is suspended. */
    method AttachDisk()
      requires Valid()
      modifies `disk, `trace
      ensures Valid() && disk && old(trace) <= trace && Exposed(trace) == old(Exposed(trace))
      ensures Window() == ((suspend > 0 && blkmq && early) || suspend < 0) && (old(Kept()) ==> Kept())
    {
      disk := true;
      Note();
    }
  }

  /** A device whose paths cannot be opened before it has a disk: its queue comes up suspended but not quiesced. */
  method SuspendedBeforeDisk(d: Device)
    requires d.Valid() && d.enabled && d.blkmq && !d.disk && d.suspend == 0 && !d.fastpath
    modifies d, d.file
    ensures d.Valid() && d.disk && d.suspend == 1 && !d.barrier && !d.fastpath && d.Window() && Exposed(d.trace) == old(Exposed(d.trace))
  {
    var results := [Fails, Fails, Fails];
    assert results[0] != Usable;
    d.InitFastpathTarget(1, false, results);
    assert d.suspend == 1 && !d.barrier && d.early;
    d.AttachDisk();
  }

  /** The next path update of that device switches the fastpath on under running submitters: its trace is not steady. */
  method ExposedUpdate(d: Device)
    requires d.Valid() && d.enabled && d.blkmq && !d.disk && d.suspend == 0 && !d.fastpath
    modifies d, d.file
    ensures d.Valid() && d.fastpath && d.suspend == 1 && !Steady(d.trace)
  {
    SuspendedBeforeDisk(d);
    var rc := d.UpdatePath(1, false, [Usable, Usable, Usable]);
    ExposedExactly(d.trace);
  }

  /** A cleanup that takes the application's unit does the same to a make-request device, once the application resumes. */
  method StolenUnitExposes(d: Device)
    requires d.Valid() && d.Kept() && d.enabled && !d.blkmq && d.suspend == 0 && !d.fastpath && !d.appSuspend && !d.ioswitch
    modifies d, d.file
    ensures d.Valid() && d.fastpath && d.suspend == -1 && !Steady(d.trace)
  {
    var rc := d.RequestSuspend(true, false, false, false, [0, 0, 0]);
    rc := d.VolCleanup();
    rc := d.Resume();
    SwitchOnAtMinusOne(d);
  }

  method SwitchOnAtMinusOne(d: Device)
    requires d.Valid() && d.enabled && !d.blkmq && d.suspend == -1 && !d.fastpath
    modifies d, d.file
    ensures d.Valid() && d.fastpath && d.suspend == -1 && !Steady(d.trace)
  {
    var rc := d.UpdatePath(1, false, [Usable, Usable, Usable]);
    ExposedExactly(d.trace);
  }
}
