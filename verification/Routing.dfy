/**
  What submitters see of a device's IO path (pxd_bio_makereq.c, pxd_fastpath.c).

  A submitter reads `fastpath`, `nfd` and `file[]` between read_lock and read_unlock. Control
  code writes them one at a time. A trace lists the path after each single write of the
  control side, with a note whether IO was shut out at that moment.
 */
module Routing {
  import opened Seqs

  /** MAX_PXD_BACKING_DEVS. */
  const MAX_BACKING_DEVS: nat := 3

  /** The flags the failover code goes by. */
  datatype PathFlags = PathFlags(fastpath: bool, canFailover: bool, activeFailover: bool)

  /** What `disableFastPath` does to them: an active failover is forgotten only if the fastpath was off already. */
  function DisabledFlags(f: PathFlags): PathFlags {
    if f.fastpath then PathFlags(false, false, f.activeFailover) else f.(activeFailover := false)
  }

  datatype Route = Route(fastpath: bool, nfd: int, files: seq<Option<int>>)

  datatype Snap = Snap(shut: bool, route: Route)

  /** The path changes only where IO is shut out. */
  ghost predicate Steady(trace: seq<Snap>) {
    forall k :: 0 <= k < |trace| - 1 && trace[k].route != trace[k + 1].route ==> trace[k].shut || trace[k + 1].shut
  }

  predicate Exposing(a: Snap, b: Snap) {
    a.route != b.route && !a.shut && !b.shut
  }

  predicate ExposedTo(trace: seq<Snap>, n: nat)
    requires n <= |trace|
  {
    n > 1 && (ExposedTo(trace, n - 1) || Exposing(trace[n - 2], trace[n - 1]))
  }

  /** Some change of the path fell between two moments at which IO was let in. */
  predicate Exposed(trace: seq<Snap>) {
    ExposedTo(trace, |trace|)
  }

  lemma {:induction false} ExposedPrefix(trace: seq<Snap>, more: seq<Snap>, n: nat)
    requires n <= |trace| && trace <= more
    ensures ExposedTo(more, n) == ExposedTo(trace, n)
  {
    if n > 1 {
      ExposedPrefix(trace, more, n - 1);
    }
  }

  lemma ExposedAppend(trace: seq<Snap>, snap: Snap)
    requires trace != []
    ensures Exposed(trace + [snap]) <==> Exposed(trace) || Exposing(trace[|trace| - 1], snap)
  {
    ExposedPrefix(trace, trace + [snap], |trace|);
  }

  lemma {:induction false} ExposedMeans(trace: seq<Snap>, n: nat)
    requires n <= |trace|
    ensures ExposedTo(trace, n) <==> exists k :: 0 <= k < n - 1 && Exposing(trace[k], trace[k + 1])
  {
    if n > 1 {
      ExposedMeans(trace, n - 1);
      var k := n - 2;
      assert trace[k + 1] == trace[n - 1];
    }
  }

  lemma ExposedExactly(trace: seq<Snap>)
    ensures Steady(trace) <==> !Exposed(trace)
  {
    ExposedMeans(trace, |trace|);
    if !Steady(trace) {
      var k :| 0 <= k < |trace| - 1 && trace[k].route != trace[k + 1].route && !(trace[k].shut || trace[k + 1].shut);
      assert Exposing(trace[k], trace[k + 1]);
    }
  }

  /** How far the control side has come, and what each submitter inside read when it came in. */
  datatype System = System(pos: nat, inside: map<int, Route>)

  /** Shutting IO out waits for the submitters inside; while it is shut out, none can come in. */
  datatype Step = Advance | Enter(x: int) | Leave(x: int)

  predicate Enabled(trace: seq<Snap>, s: System, step: Step)
    requires s.pos < |trace|
  {
    match step
    case Advance => s.pos + 1 < |trace| && (!trace[s.pos].shut && trace[s.pos + 1].shut ==> s.inside.Keys == {})
    case Enter(x) => !trace[s.pos].shut && x !in s.inside
    case Leave(x) => x in s.inside
  }

  function Apply(trace: seq<Snap>, s: System, step: Step): System
    requires s.pos < |trace| && Enabled(trace, s, step)
  {
    match step
    case Advance => s.(pos := s.pos + 1)
    case Enter(x) => s.(inside := s.inside[x := trace[s.pos].route])
    case Leave(x) => s.(inside := s.inside - {x})
  }

  predicate Legal(trace: seq<Snap>, s: System, steps: seq<Step>)
    requires s.pos < |trace|
    decreases |steps|
  {
    steps == [] || (Enabled(trace, s, steps[0]) && Legal(trace, Apply(trace, s, steps[0]), steps[1..]))
  }

  function Exec(trace: seq<Snap>, s: System, steps: seq<Step>): (t: System)
    requires s.pos < |trace| && Legal(trace, s, steps)
    ensures t.pos < |trace|
    decreases |steps|
  {
    if steps == [] then s else Exec(trace, Apply(trace, s, steps[0]), steps[1..])
  }

  /** Everybody inside still sees the path it came in with, and IO is not shut out under anybody. */
  ghost predicate Undisturbed(trace: seq<Snap>, s: System)
    requires s.pos < |trace|
  {
    forall x :: x in s.inside ==> s.inside[x] == trace[s.pos].route && !trace[s.pos].shut
  }

  /** For every interleaving of submitters with a steady control side, no path changes under a submitter. */
  lemma {:induction false} RoutingStable(trace: seq<Snap>, s: System, steps: seq<Step>)
    requires Steady(trace) && s.pos < |trace| && Undisturbed(trace, s) && Legal(trace, s, steps)
    ensures Undisturbed(trace, Exec(trace, s, steps))
    decreases |steps|
  {
    if steps != [] {
      var t := Apply(trace, s, steps[0]);
      forall x | x in t.inside ensures t.inside[x] == trace[t.pos].route && !trace[t.pos].shut {
        assert steps[0] == Advance ==> x in s.inside.Keys;
      }
      RoutingStable(trace, t, steps[1..]);
    }
  }

  lemma {:induction false} ExecAppend(trace: seq<Snap>, s: System, steps: seq<Step>, step: Step)
    requires s.pos < |trace| && Legal(trace, s, steps) && Enabled(trace, Exec(trace, s, steps), step)
    ensures Legal(trace, s, steps + [step])
    ensures Exec(trace, s, steps + [step]) == Apply(trace, Exec(trace, s, steps), step)
    decreases |steps|
  {
    if steps == [] {
      assert steps + [step] == [step] && [step][1..] == [];
    } else {
      assert (steps + [step])[1..] == steps[1..] + [step];
      ExecAppend(trace, Apply(trace, s, steps[0]), steps[1..], step);
    }
  }

  /** With nobody inside, the control side gets to every place of its trace. */
  lemma {:induction false} AdvanceTo(trace: seq<Snap>, k: nat) returns (steps: seq<Step>)
    requires k < |trace|
    ensures Legal(trace, System(0, map[]), steps) && Exec(trace, System(0, map[]), steps) == System(k, map[])
  {
    steps := [];
    if k > 0 {
      steps := AdvanceTo(trace, k - 1);
      ExecAppend(trace, System(0, map[]), steps, Advance);
      steps := steps + [Advance];
    }
  }

  /** A path that changes while IO is let in changes under some submitter. */
  lemma SomebodyIsDisturbed(trace: seq<Snap>, k: nat) returns (steps: seq<Step>)
    requires k + 1 < |trace| && trace[k].route != trace[k + 1].route && !trace[k].shut && !trace[k + 1].shut
    ensures Legal(trace, System(0, map[]), steps) && !Undisturbed(trace, Exec(trace, System(0, map[]), steps))
  {
    var start := System(0, map[]);
    steps := AdvanceTo(trace, k);
    ExecAppend(trace, start, steps, Enter(0));
    steps := steps + [Enter(0)];
    ExecAppend(trace, start, steps, Advance);
    steps := steps + [Advance];
    assert 0 in Exec(trace, start, steps).inside;
  }

  /** No submitter ever sees the path change, in any interleaving, if and only if the control side is steady. */
  lemma RoutingExactly(trace: seq<Snap>)
    requires trace != []
    ensures Steady(trace) <==>
            forall steps :: Legal(trace, System(0, map[]), steps) ==> Undisturbed(trace, Exec(trace, System(0, map[]), steps))
  {
    if Steady(trace) {
      forall steps | Legal(trace, System(0, map[]), steps) ensures Undisturbed(trace, Exec(trace, System(0, map[]), steps)) {
        RoutingStable(trace, System(0, map[]), steps);
      }
    } else {
      var k :| 0 <= k < |trace| - 1 && trace[k].route != trace[k + 1].route && !(trace[k].shut || trace[k + 1].shut);
      var steps := SomebodyIsDisturbed(trace, k);
    }
  }
}
