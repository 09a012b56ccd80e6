/** The failover code that works in place on a device's `failQ` and flags, proved to do the protocol's steps. */
module FailoverDevice {
  import opened Errno
  import Routing
  import opened FailoverProtocol
  import opened FailoverSafety
  import opened FailoverTheorems

  /** Where a reissued IO ends up. */
  ghost predicate Resolved(s: Dev, io: Io, status: int, ok: bool) {
    if status == 0 && ok then io in s.slow else (io, -EIO) in s.done
  }

  class Device {
    var failQ: seq<Io>
    var slow: set<Io>
    var done: seq<(Io, int)>
    var fastpath: bool
    var canFailover: bool
    var activeFailover: bool
    var ioswitch: bool
    var ncount: int
    ghost var model: Dev

    ghost predicate Valid()
      reads this
    {
      && failQ == model.failQ && slow == model.slow && done == model.done
      && fastpath == model.fastpath && canFailover == model.canFailover
      && activeFailover == model.activeFailover && ioswitch == model.ioswitch && ncount == model.ncount
    }

    ghost function Flags(): Routing.PathFlags
      reads this
    {
      Routing.PathFlags(fastpath, canFailover, activeFailover)
    }

    /** `__pxd_abortfailQ` and the flag write after it: everything parked ends with -EIO, oldest first. */
    method AbortFailQueue()
      requires Valid()
      modifies this
      ensures Valid() && model == AbortFailQ(old(model))
    {
      while failQ != []
        invariant EndAll(done, failQ) == EndAll(old(done), old(failQ))
        invariant slow == old(slow) && fastpath == old(fastpath) && canFailover == old(canFailover)
        invariant ioswitch == old(ioswitch) && ncount == old(ncount) && model == old(model)
        decreases |failQ|
      {
        var head := failQ[0];
        failQ := failQ[1..];
        done := done + [(head, -EIO)];
      }
      activeFailover := false;
      model := AbortFailQ(model);
    }

    /** `pxd_reroute_slowpath`; `ok` says whether a request could be had. */
    method RerouteSlowpath(io: Io, ok: bool)
      requires Valid()
      modifies this
      ensures Valid() && model == Reroute(old(model), io, ok)
    {
      if ok {
        ncount := ncount + 1;
        slow := slow + {io};
      } else {
        done := done + [(io, -EIO)];
      }
      model := Reroute(model, io, ok);
    }

    /** The locked part of `pxd_io_failover`, and its reroute. `start`: the caller goes on to start a failover. */
    method ParkOrReroute(io: Io, ghost sid: Sid, ok: bool) returns (start: bool)
      requires Valid() && io in model.work && sid !in model.starters
      modifies this
      ensures Valid() && model == Apply(old(model), FailoverWork(io, sid, ok))
      ensures start <==> !old(activeFailover) && old(fastpath)
      ensures failQ == if old(activeFailover) || old(fastpath) then old(failQ) + [io] else old(failQ)
      ensures slow == if !old(activeFailover) && !old(fastpath) && ok then old(slow) + {io} else old(slow)
      ensures done == if !old(activeFailover) && !old(fastpath) && !ok then old(done) + [(io, -EIO)] else old(done)
      ensures start ==> model.starters[sid] == Starter(true, Failover, Checking)
    {
      ghost var t := Park(model, io, sid, ok);
      start := false;
      var reroute := false;
      if !activeFailover {
        if fastpath {
          activeFailover := true;
          failQ := failQ + [io];
          start := true;
        } else {
          reroute := true;
        }
      } else {
        failQ := failQ + [io];
      }
      if reroute {
        model := model.(work := model.work - {io});
        RerouteSlowpath(io, ok);
      }
      model := t;
    }

    /** The writes of one turn of `pxd_reissuefailQ`. */
    method WriteReissue(io: Io, status: int, ok: bool)
      requires Valid()
      modifies this
      ensures Valid() && model == ReissueTo(old(model), io, status, ok)
    {
      if status == 0 {
        RerouteSlowpath(io, ok);
      } else {
        done := done + [(io, -EIO)];
        model := End(model, io, -EIO);
      }
    }

    /** One turn of `pxd_reissuefailQ` on the marker's local list, of which `ios[i..]` is left. */
    method ReissueNext(mid: Mid, ios: seq<Io>, i: nat, status: int, alloc: Io -> bool)
      requires Valid() && i < |ios| && mid in model.markers && model.markers[mid].stage == Reissue(status, ios[i..])
      modifies this
      ensures Valid() && Enabled(old(model), ReissueOne(mid, alloc(ios[i])))
      ensures model == Apply(old(model), ReissueOne(mid, alloc(ios[i])))
    {
      model := SetStage(model, mid, Reissue(status, ios[i..][1..]));
      WriteReissue(ios[i], status, alloc(ios[i]));
    }

    /** `pxd_reissuefailQ`: the local list, oldest first. */
    method ReissueAll(mid: Mid, ios: seq<Io>, status: int, alloc: Io -> bool) returns (ghost steps: seq<Step>)
      requires Valid() && mid in model.markers && model.markers[mid].stage == Reissue(status, ios)
      modifies this
      ensures Valid() && Legal(old(model), steps) && model == Exec(old(model), steps)
      ensures Finish(mid) !in steps && SameSwitch(old(model), model)
      ensures mid in model.markers && model.markers[mid].stage == Reissue(status, [])
      ensures AllResolved(model, ios, |ios|, status, alloc)
    {
      steps := [];
      var i := 0;
      assert ios[0..] == ios;
      while i < |ios|
        invariant 0 <= i <= |ios| && Valid()
        invariant Legal(old(model), steps) && model == Exec(old(model), steps) && Finish(mid) !in steps
        invariant mid in model.markers && model.markers[mid].stage == Reissue(status, ios[i..])
        invariant SameSwitch(old(model), model) && AllResolved(model, ios, i, status, alloc)
      {
        ReissueResolves(model, mid, status, ios, i, alloc);
        ReissueNext(mid, ios, i, status, alloc);
        ExecAppend(old(model), steps, ReissueOne(mid, alloc(ios[i])));
        steps := steps + [ReissueOne(mid, alloc(ios[i]))];
        i := i + 1;
      }
    }

    /** The compare-and-swap of a returning marker. */
    method TrySwitch(mid: Mid, status: int) returns (won: bool)
      requires Valid() && Enabled(model, Answer(mid, status))
      modifies this
      ensures Valid() && model == Apply(old(model), Answer(mid, status)) && won == old(ioswitch)
    {
      won := ioswitch;
      ioswitch := false;
      model := Apply(model, Answer(mid, status));
    }

    /** `disableFastPath` as the winner calls it. */
    method TurnOff(mid: Mid)
      requires Valid() && Enabled(model, SwitchOff(mid)) && model.markers[mid].code == Failover
      modifies this
      ensures Valid() && model == Apply(old(model), SwitchOff(mid)) && !fastpath
      ensures Flags() == Routing.DisabledFlags(old(Flags()))
    {
      if fastpath {
        fastpath := false;
        canFailover := false;
      } else {
        activeFailover := false;
      }
      model := Apply(model, SwitchOff(mid));
    }

    /** The splice of failQ onto a local list, under `fail_lock`. */
    method TakeFailQueue(mid: Mid) returns (ios: seq<Io>)
      requires Valid() && Enabled(model, Splice(mid))
      modifies this
      ensures Valid() && model == Apply(old(model), Splice(mid))
      ensures ios == old(failQ) && failQ == [] && !activeFailover
    {
      ios := failQ;
      failQ := [];
      activeFailover := false;
      model := Apply(model, Splice(mid));
    }

    /** A winner switches the fastpath off and takes what is parked. */
    method SwitchAndTake(mid: Mid, ghost status: int) returns (ios: seq<Io>)
      requires Valid() && mid in model.markers && model.markers[mid] == Marker(Failover, Won(status))
      modifies this
      ensures Valid() && Legal(old(model), [SwitchOff(mid), Splice(mid)])
      ensures model == Exec(old(model), [SwitchOff(mid), Splice(mid)])
      ensures mid in model.markers && model.markers[mid].stage == Reissue(status, ios) && ios == old(failQ)
      ensures !fastpath && !activeFailover && failQ == [] && ioswitch == old(ioswitch)
      ensures Flags() == Routing.DisabledFlags(old(Flags())).(activeFailover := false)
    {
      ghost var s := model;
      TurnOff(mid);
      ghost var s1 := model;
      ios := TakeFailQueue(mid);
      RunTwo(s, s1, SwitchOff(mid), Splice(mid));
    }

    /** It then reissues what it took, and is done. */
    method ReissueAndFinish(mid: Mid, ios: seq<Io>, status: int, alloc: Io -> bool) returns (ghost steps: seq<Step>)
      requires Valid() && mid in model.markers && model.markers[mid].stage == Reissue(status, ios)
      modifies this
      ensures Valid() && Legal(old(model), steps) && model == Exec(old(model), steps)
      ensures SameSwitch(old(model), model) && AllResolved(model, ios, |ios|, status, alloc)
    {
      steps := ReissueAll(mid, ios, status, alloc);
      FinishChangesNothing(model, mid, ios, status, alloc);
      ExecAppend(old(model), steps, Finish(mid));
      steps := steps + [Finish(mid)];
      model := Apply(model, Finish(mid));
    }

    /** A winning fallback marker touches neither the path nor failQ. */
    method FinishFallback(ghost mid: Mid) returns (ghost steps: seq<Step>)
      requires Valid() && mid in model.markers && model.markers[mid].code == Fallback && model.markers[mid].stage.Won?
      modifies this`model
      ensures Valid() && Legal(old(model), steps) && model == Exec(old(model), steps)
      ensures model == old(model).(markers := old(model).markers - {mid})
    {
      ghost var s := model;
      model := Apply(model, SwitchOff(mid));
      RunTwo(s, model, SwitchOff(mid), Finish(mid));
      steps := [SwitchOff(mid), Finish(mid)];
      model := Apply(model, Finish(mid));
      assert model.markers == s.markers - {mid};
    }

    /** A winning failover marker. */
    method FinishFailover(mid: Mid, status: int, alloc: Io -> bool) returns (ghost steps: seq<Step>)
      requires Valid() && mid in model.markers && model.markers[mid] == Marker(Failover, Won(status))
      modifies this
      ensures Valid() && Legal(old(model), steps) && model == Exec(old(model), steps)
      ensures ioswitch == old(ioswitch) && !fastpath && !activeFailover && failQ == []
      ensures AllResolved(model, old(failQ), |old(failQ)|, status, alloc)
    {
      ghost var s := model;
      var ios := SwitchAndTake(mid, status);
      steps := [SwitchOff(mid), Splice(mid)];
      ghost var more := ReissueAndFinish(mid, ios, status, alloc);
      RunConcat(s, steps, more);
      steps := steps + more;
    }

    /**
      `pxd_process_ioswitch_complete`, run to its end. A failover marker that wins the switch empties failQ and
      reroutes or ends every IO in it; a fallback marker that wins only gives the switch back; one that loses does
      nothing.
     */
    method IoSwitchComplete(mid: Mid, code: Code, status: int, alloc: Io -> bool) returns (won: bool, ghost steps: seq<Step>)
      requires Valid() && Enabled(model, Answer(mid, status)) && model.markers[mid].code == code
      modifies this
      ensures Valid() && Legal(old(model), steps) && model == Exec(old(model), steps)
      ensures won == old(ioswitch)
      ensures won ==> !ioswitch
      ensures won && code == Failover ==> !fastpath && !activeFailover && failQ == []
      ensures won && code == Failover ==> AllResolved(model, old(failQ), |old(failQ)|, status, alloc)
      ensures won && code == Fallback ==> model == old(model).(ioswitch := false, markers := old(model).markers - {mid})
      ensures !won ==> model == old(model).(markers := old(model).markers - {mid})
    {
      ghost var s := model;
      won := TrySwitch(mid, status);
      ExecAppend(s, [], Answer(mid, status));
      steps := [Answer(mid, status)];
      assert [] + [Answer(mid, status)] == steps;
      if won {
        ghost var more;
        if code == Failover {
          more := FinishFailover(mid, status, alloc);
        } else {
          more := FinishFallback(mid);
          assert s.markers[mid := s.markers[mid].(stage := Won(status))] - {mid} == s.markers - {mid};
        }
        RunConcat(s, steps, more);
        steps := steps + more;
      }
    }
  }

  ghost predicate AllResolved(s: Dev, ios: seq<Io>, n: nat, status: int, alloc: Io -> bool)
    requires n <= |ios|
  {
    forall k :: 0 <= k < n ==> Resolved(s, ios[k], status, alloc(ios[k]))
  }

  predicate SameSwitch(s: Dev, t: Dev) {
    t.failQ == s.failQ && t.fastpath == s.fastpath && t.ioswitch == s.ioswitch && t.activeFailover == s.activeFailover
  }

  lemma RunTwo(s: Dev, m: Dev, a: Step, b: Step)
    requires Enabled(s, a) && m == Apply(s, a) && Enabled(m, b)
    ensures Legal(s, [a, b]) && Exec(s, [a, b]) == Apply(m, b)
  {
    ExecAppend(s, [], a);
    ExecAppend(s, [a], b);
    assert [] + [a] == [a] && [a] + [b] == [a, b];
  }

  lemma FinishChangesNothing(s: Dev, mid: Mid, ios: seq<Io>, status: int, alloc: Io -> bool)
    requires mid in s.markers && s.markers[mid].stage == Reissue(status, []) && AllResolved(s, ios, |ios|, status, alloc)
    ensures Enabled(s, Finish(mid)) && SameSwitch(s, Apply(s, Finish(mid)))
    ensures AllResolved(Apply(s, Finish(mid)), ios, |ios|, status, alloc)
  {
    var t := Apply(s, Finish(mid));
    assert t.slow == s.slow && t.done == s.done;
  }

  lemma {:induction false} RunConcat(s: Dev, steps: seq<Step>, more: seq<Step>)
    requires Legal(s, steps) && Legal(Exec(s, steps), more)
    ensures Legal(s, steps + more) && Exec(s, steps + more) == Exec(Exec(s, steps), more)
    decreases |steps|
  {
    if steps == [] {
      assert steps + more == more;
    } else {
      assert (steps + more)[1..] == steps[1..] + more;
      RunConcat(Apply(s, steps[0]), steps[1..], more);
    }
  }

  lemma ReissueToResolves(s: Dev, io: Io, status: int, ok: bool)
    ensures var t := ReissueTo(s, io, status, ok);
            && Resolved(t, io, status, ok) && s.slow <= t.slow && s.done <= t.done
            && SameSwitch(s, t) && t.markers == s.markers
  {
    if status == 0 && ok {
      assert io in ReissueTo(s, io, status, ok).slow;
    } else {
      var t := End(s, io, -EIO);
      assert t.done[|s.done|] == (io, -EIO);
    }
  }

  lemma StaysResolved(s: Dev, t: Dev, io: Io, status: int, ok: bool)
    requires Resolved(s, io, status, ok) && s.slow <= t.slow && s.done <= t.done
    ensures Resolved(t, io, status, ok)
  {
    if !(status == 0 && ok) {
      var i :| 0 <= i < |s.done| && s.done[i] == (io, -EIO);
      assert t.done[i] == (io, -EIO);
    }
  }

  /** One reissue resolves its IO and leaves the resolved ones resolved. */
  lemma ReissueResolves(s: Dev, mid: Mid, status: int, ios: seq<Io>, i: nat, alloc: Io -> bool)
    requires i < |ios| && mid in s.markers && s.markers[mid].stage == Reissue(status, ios[i..])
    requires AllResolved(s, ios, i, status, alloc)
    ensures Enabled(s, ReissueOne(mid, alloc(ios[i])))
    ensures var t := Apply(s, ReissueOne(mid, alloc(ios[i])));
            && AllResolved(t, ios, i + 1, status, alloc)
            && mid in t.markers && t.markers[mid].stage == Reissue(status, ios[i + 1..])
            && SameSwitch(s, t)
  {
    var ok := alloc(ios[i]);
    var s0 := SetStage(s, mid, Reissue(status, ios[i..][1..]));
    assert ios[i..][1..] == ios[i + 1..];
    ReissueToResolves(s0, ios[i], status, ok);
    var t := ReissueTo(s0, ios[i], status, ok);
    forall k | 0 <= k < i ensures Resolved(t, ios[k], status, alloc(ios[k])) {
      StaysResolved(s, t, ios[k], status, alloc(ios[k]));
    }
  }
}
