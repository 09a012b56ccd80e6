/** Every step of the FUSE protocol keeps the invariant, so every run does. */
module FuseSafety {
  import opened Errno
  import opened FuseIds
  import opened Seqs
  import opened FuseProtocol

  // ------------------------------------------------------------------------
  // Small facts about the invariant
  // ------------------------------------------------------------------------

  /** Who owns which id is the same in both states. */
  ghost predicate SameOwners(s: Conn, t: Conn) {
    && t.pool == s.pool
    && t.issued == s.issued
    && t.reqs.Keys == s.reqs.Keys
    && (forall r :: r in s.reqs ==> t.reqs[r].uid == s.reqs[r].uid)
  }

  lemma OutIsIssued(s: Conn, r: Rid)
    requires HistoryExact(s) && r in s.reqs
    ensures r in Issued(s)
  {
    var i :| 0 <= i < |s.issued| && s.issued[i] == (r, s.reqs[r].uid);
    assert s.issued[i].0 == r;
  }

  lemma NotIssuedNotOut(s: Conn, r: Rid)
    requires HistoryExact(s) && r !in Issued(s)
    ensures r !in s.reqs
  {
    if r in s.reqs {
      OutIsIssued(s, r);
    }
  }

  lemma OutSlotsAdd(s: Conn, t: Conn, r: Rid)
    requires r in t.reqs && r !in s.reqs && t.reqs == s.reqs[r := t.reqs[r]]
    ensures OutSlots(t) == OutSlots(s) + {Slot(t.reqs[r].uid)}
  {
    forall x | x in OutSlots(s) ensures x in OutSlots(t) {
      var q :| q in s.reqs && Slot(s.reqs[q].uid) == x;
      assert q in t.reqs && Slot(t.reqs[q].uid) == x;
    }
    assert r in t.reqs;
  }

  lemma NoDupSplit<T>(a: seq<T>, b: seq<T>, n: nat, x: T)
    requires NoDup(a + b) && n <= |b|
    ensures !(x in b[..n] && x in b[n..])
    ensures !(x in a && x in b)
  {
    forall i, j | 0 <= i < n <= j < |b| ensures b[i] != b[j] {
      assert b[i] == (a + b)[|a| + i] && b[j] == (a + b)[|a| + j];
    }
    forall i, j | 0 <= i < |a| && 0 <= j < |b| ensures a[i] != b[j] {
      assert a[i] == (a + b)[i] && b[j] == (a + b)[|a| + j];
    }
  }

  // ------------------------------------------------------------------------
  // Frame: a change the given part of the invariant does not look at
  // ------------------------------------------------------------------------

  lemma SlotsSame(s: Conn, t: Conn)
    requires SlotsPartitioned(s) && SameOwners(s, t)
    ensures SlotsPartitioned(t)
  {
    assert OutSlots(t) == OutSlots(s);
    assert |t.reqs| == |t.reqs.Keys| == |s.reqs|;
  }

  lemma IdsSame(s: Conn, t: Conn)
    requires IdsCurrent(s) && SameOwners(s, t)
    ensures IdsCurrent(t)
  {
  }

  lemma MapSame(s: Conn, t: Conn)
    requires MapExact(s) && SameOwners(s, t) && t.reqMap == s.reqMap
    requires forall r :: r in s.reqs ==> (s.reqs[r].phase == Held <==> t.reqs[r].phase == Held)
    ensures MapExact(t)
  {
  }

  lemma OwnersSame(s: Conn, t: Conn)
    requires Owners(s) && SameOwners(s, t) && t.reqMap == s.reqMap
    requires forall r :: r in s.reqs ==> (s.reqs[r].phase == Held <==> t.reqs[r].phase == Held)
    ensures Owners(t)
  {
    SlotsSame(s, t);
    MapSame(s, t);
    IdsSame(s, t);
  }

  /** One request changes phase; no owner changes. */
  lemma OwnersPhase(s: Conn, t: Conn, r: Rid, phase: Phase)
    requires Owners(s) && r in s.reqs && s.reqs[r].phase != Held && phase != Held
    requires t.reqs == s.reqs[r := s.reqs[r].(phase := phase)]
    requires t.pool == s.pool && t.issued == s.issued && t.reqMap == s.reqMap
    ensures Owners(t)
  {
    OwnersSame(s, t);
  }

  lemma ListsSame(s: Conn, t: Conn)
    requires ListsExact(s) && t.pending == s.pending && t.processing == s.processing
    requires forall r :: InPhase(s, r, Pending) <==> InPhase(t, r, Pending)
    requires forall r :: InPhase(s, r, Processing) <==> InPhase(t, r, Processing)
    ensures ListsExact(t)
  {
  }

  lemma HistorySame(s: Conn, t: Conn)
    requires HistoryExact(s) && t.issued == s.issued && t.ended == s.ended
    requires t.reqs.Keys <= s.reqs.Keys
    requires forall r :: r in t.reqs ==>
      t.reqs[r].uid == s.reqs[r].uid && (t.reqs[r].phase.Ending? <==> s.reqs[r].phase.Ending?)
    requires forall r :: r in s.reqs && r !in t.reqs ==> s.reqs[r].phase.Ending?
    ensures HistoryExact(t)
  {
    assert Issued(t) == Issued(s);
    forall r | r in Issued(t) ensures Ended(t, r) <==> r !in t.reqs || t.reqs[r].phase.Ending? {
      assert Ended(t, r) <==> Ended(s, r);
    }
  }

  lemma OrderSame(s: Conn, t: Conn)
    requires InSubmissionOrder(s)
    requires t.processing + t.pending == s.processing + s.pending
    requires t.queued == s.queued && Issued(s) <= Issued(t)
    requires forall r :: r in s.queued ==> (r in Listed(s) <==> r in Listed(t))
    requires forall r :: r in t.reqs && NotQueued(t.reqs[r].phase) ==> r !in s.queued
    ensures InSubmissionOrder(t)
  {
    forall r | r in s.queued ensures r in Listed(s) <==> r in Listed(t) {
    }
    KeepSame(s.queued, Listed(s), Listed(t));
  }

  // ------------------------------------------------------------------------
  // Getting an id
  // ------------------------------------------------------------------------

  lemma SlotsGet(s: Conn, r: Rid, cpu: nat)
    requires SlotsPartitioned(s) && r !in s.reqs && Available(s.pool, cpu)
    ensures SlotsPartitioned(Take1(s, r, cpu))
  {
    var t := Take1(s, r, cpu);
    var (pool, id) := Take(s.pool, cpu);
    TakeRemoves(s.pool, cpu, Slot(id));
    assert Slot(id) !in OutSlots(s);
    OutSlotsAdd(s, t, r);
    forall x | 0 <= x < MAX_IDS
      ensures PoolCount(t.pool, x) == if x in OutSlots(t) then 0 else 1
    {
      TakeRemoves(s.pool, cpu, x);
    }
    forall p, q | p in t.reqs && q in t.reqs && p != q
      ensures Slot(t.reqs[p].uid) != Slot(t.reqs[q].uid)
    {
      if p == r { assert Slot(s.reqs[q].uid) in OutSlots(s); }
      if q == r { assert Slot(s.reqs[p].uid) in OutSlots(s); }
    }
    assert |t.reqs| == |s.reqs| + 1;
  }

  lemma TimesAppend(issued: seq<(Rid, Id)>, e: (Rid, Id), x: nat)
    ensures Times(issued + [e], x) == Times(issued, x) + if Slot(e.1) == x then 1 else 0
  {
    assert (issued + [e])[..|issued|] == issued;
  }

  /** A further issue of slot x leaves ids of other slots current. */
  lemma CurrentElsewhere(issued: seq<(Rid, Id)>, e: (Rid, Id), id: Id)
    requires IsCurrent(issued)(id) && Slot(id) != Slot(e.1)
    ensures IsCurrent(issued + [e])(id)
  {
    TimesAppend(issued, e, Slot(id));
  }

  lemma CurrentAdvances(issued: seq<(Rid, Id)>, r: Rid, id: Id)
    requires IsCurrent(issued)(id)
    ensures IsCurrent(issued + [(r, NextId(id))])(NextId(id))
  {
    var x := Slot(id);
    TimesAppend(issued, (r, NextId(id)), x);
    NextIdOrbit(x, Times(issued, x));
  }

  lemma IssuedInOrderAppend(issued: seq<(Rid, Id)>, e: (Rid, Id))
    requires IssuedInOrder(issued) && e.1 != 0 && IsCurrent(issued + [e])(e.1)
    ensures IssuedInOrder(issued + [e])
  {
    var all := issued + [e];
    forall j | 0 <= j < |all| ensures all[j].1 != 0 && IsCurrent(all[..j + 1])(all[j].1) {
      if j < |issued| {
        assert all[..j + 1] == issued[..j + 1];
      } else {
        assert all[..j + 1] == all;
      }
    }
  }

  lemma IdsGet(s: Conn, r: Rid, cpu: nat)
    requires SlotsPartitioned(s) && IdsCurrent(s) && r !in s.reqs && Available(s.pool, cpu)
    ensures IdsCurrent(Take1(s, r, cpu))
  {
    var t := Take1(s, r, cpu);
    var (pool, id) := Take(s.pool, cpu);
    var e := (r, NextId(id));
    TakeEach(s.pool, cpu, IsCurrent(s.issued));
    CurrentAdvances(s.issued, r, id);
    IssuedInOrderAppend(s.issued, e);
    TakeRemoves(s.pool, cpu, Slot(id));
    assert PoolCount(pool, Slot(id)) == 0 && Slot(id) !in OutSlots(s);
    forall id' | IsCurrent(s.issued)(id') && PoolCount(pool, Slot(id')) >= 1
      ensures IsCurrent(t.issued)(id')
    {
      CurrentElsewhere(s.issued, e, id');
    }
    EachChange(pool, IsCurrent(s.issued), IsCurrent(t.issued));
    forall q | q in t.reqs ensures IsCurrent(t.issued)(t.reqs[q].uid) {
      if q != r {
        assert Slot(s.reqs[q].uid) in OutSlots(s);
        CurrentElsewhere(s.issued, e, s.reqs[q].uid);
      }
    }
  }

  lemma IssuedGrows(s: Conn, r: Rid, cpu: nat)
    requires Available(s.pool, cpu)
    ensures Issued(Take1(s, r, cpu)) == Issued(s) + {r}
  {
    var t := Take1(s, r, cpu);
    forall q | q in Issued(s) ensures q in Issued(t) {
      var i :| 0 <= i < |s.issued| && s.issued[i].0 == q;
      assert t.issued[i].0 == q;
    }
    assert t.issued[|s.issued|].0 == r;
  }

  lemma HistoryGet(s: Conn, r: Rid, cpu: nat)
    requires HistoryExact(s) && r !in Issued(s) && r !in s.reqs && Available(s.pool, cpu)
    ensures HistoryExact(Take1(s, r, cpu))
  {
    var t := Take1(s, r, cpu);
    IssuedGrows(s, r, cpu);
    forall i | 0 <= i < |s.issued| ensures s.issued[i].0 != r {
      assert s.issued[i].0 in Issued(s);
    }
    assert t.issued[|s.issued|] == (r, t.reqs[r].uid);
    forall q | q in t.reqs ensures (q, t.reqs[q].uid) in t.issued {
      if q != r { assert (q, s.reqs[q].uid) in s.issued; }
    }
    forall q | q in Issued(t) ensures Ended(t, q) <==> q !in t.reqs || t.reqs[q].phase.Ending? {
      assert Ended(t, q) <==> Ended(s, q);
      assert !Ended(s, r);
    }
  }

  lemma QueuesGet(s: Conn, r: Rid, cpu: nat)
    requires Queues(s) && r !in Issued(s) && r !in s.reqs && Available(s.pool, cpu)
    ensures Queues(Take1(s, r, cpu))
  {
    var t := Take1(s, r, cpu);
    ListsSame(s, t);
    HistoryGet(s, r, cpu);
    IssuedGrows(s, r, cpu);
    OrderSame(s, t);
  }

  lemma OwnersGet(s: Conn, r: Rid, cpu: nat)
    requires Owners(s) && r !in s.reqs && Available(s.pool, cpu)
    ensures Owners(Take1(s, r, cpu))
  {
    SlotsGet(s, r, cpu);
    IdsGet(s, r, cpu);
    MapGet(s, r, cpu);
  }

  lemma MapGet(s: Conn, r: Rid, cpu: nat)
    requires MapExact(s) && r !in s.reqs && Available(s.pool, cpu)
    ensures MapExact(Take1(s, r, cpu))
  {
  }

  lemma GetKeeps(s: Conn, r: Rid, cpu: nat)
    requires Inv(s) && r !in Issued(s) && Available(s.pool, cpu)
    ensures Inv(Take1(s, r, cpu))
  {
    NotIssuedNotOut(s, r);
    OwnersGet(s, r, cpu);
    QueuesGet(s, r, cpu);
  }

  // ------------------------------------------------------------------------
  // Storing in the map, entering the RCU section, queueing
  // ------------------------------------------------------------------------

  lemma MapPublish(s: Conn, r: Rid)
    requires SlotsPartitioned(s) && MapExact(s) && InPhase(s, r, Held)
    ensures MapExact(Publish(s, r))
  {
  }

  lemma OrderPhase(s: Conn, t: Conn, r: Rid)
    requires InSubmissionOrder(s) && r in s.reqs && (s.reqs[r].phase == Held || s.reqs[r].phase == Stored)
    requires t.reqs.Keys == s.reqs.Keys && (t.reqs[r].phase == Stored || t.reqs[r].phase == Admitted)
    requires forall q :: q in s.reqs && q != r ==> t.reqs[q] == s.reqs[q]
    requires t.queued == s.queued && t.issued == s.issued && t.pending == s.pending && t.processing == s.processing
    ensures InSubmissionOrder(t)
  {
    assert Issued(t) == Issued(s);
    forall r ensures r in Listed(t) <==> r in Listed(s) {
    }
    assert Listed(t) == Listed(s);
  }

  lemma OwnersPublish(s: Conn, r: Rid)
    requires Owners(s) && InPhase(s, r, Held)
    ensures Owners(Publish(s, r))
  {
    MapPublish(s, r);
    SlotsSame(s, Publish(s, r));
    IdsSame(s, Publish(s, r));
  }

  /** A request on no list enters another phase that is on no list. */
  lemma ListsPhase(s: Conn, t: Conn, r: Rid, phase: Phase)
    requires ListsExact(s) && r in s.reqs && (s.reqs[r].phase == Held || s.reqs[r].phase == Stored) && (phase == Stored || phase == Admitted)
    requires t == s.(reqs := s.reqs[r := s.reqs[r].(phase := phase)], reqMap := t.reqMap)
    ensures ListsExact(t)
  {
    ListsSame(s, t);
  }

  lemma HistoryPhase(s: Conn, t: Conn, r: Rid, phase: Phase)
    requires HistoryExact(s) && r in s.reqs && (s.reqs[r].phase == Held || s.reqs[r].phase == Stored) && (phase == Stored || phase == Admitted)
    requires t == s.(reqs := s.reqs[r := s.reqs[r].(phase := phase)], reqMap := t.reqMap)
    ensures HistoryExact(t)
  {
    HistorySame(s, t);
  }

  lemma QueuesPhase(s: Conn, t: Conn, r: Rid, phase: Phase)
    requires Queues(s) && r in s.reqs && (s.reqs[r].phase == Held || s.reqs[r].phase == Stored) && (phase == Stored || phase == Admitted)
    requires t == s.(reqs := s.reqs[r := s.reqs[r].(phase := phase)], reqMap := t.reqMap)
    requires phase == Admitted ==> s.connected || s.allow
    ensures Queues(t)
  {
    ListsPhase(s, t, r, phase);
    HistoryPhase(s, t, r, phase);
    OrderPhase(s, t, r);
  }

  lemma StoreKeeps(s: Conn, r: Rid)
    requires Inv(s) && InPhase(s, r, Held)
    ensures Inv(Publish(s, r))
  {
    OwnersPublish(s, r);
    QueuesPhase(s, Publish(s, r), r, Stored);
  }

  lemma AdmitKeeps(s: Conn, r: Rid)
    requires Inv(s) && InPhase(s, r, Stored) && (s.connected || s.allow)
    ensures Inv(SetPhase(s, r, Admitted))
  {
    OwnersPhase(s, SetPhase(s, r, Admitted), r, Admitted);
    QueuesPhase(s, SetPhase(s, r, Admitted), r, Admitted);
  }

  lemma ListsQueue(s: Conn, r: Rid)
    requires ListsExact(s) && InPhase(s, r, Admitted)
    ensures ListsExact(Queue(s, r))
  {
    var t := Queue(s, r);
    assert r !in s.pending && r !in s.processing;
    assert t.processing + t.pending == (s.processing + s.pending) + [r];
  }

  lemma OrderQueue(s: Conn, r: Rid)
    requires InSubmissionOrder(s) && HistoryExact(s) && InPhase(s, r, Admitted)
    ensures InSubmissionOrder(Queue(s, r))
  {
    var t := Queue(s, r);
    OutIsIssued(s, r);
    assert Issued(t) == Issued(s);
    assert Listed(t) == Listed(s) + {r};
    KeepSame(s.queued, Listed(s), Listed(t));
    KeepConcat(s.queued, [r], Listed(t));
    assert Keep([r], Listed(t)) == [r];
    assert t.processing + t.pending == (s.processing + s.pending) + [r];
  }

  lemma QueuesQueue(s: Conn, r: Rid)
    requires Queues(s) && InPhase(s, r, Admitted)
    ensures Queues(Queue(s, r))
  {
    ListsQueue(s, r);
    HistorySame(s, Queue(s, r));
    OrderQueue(s, r);
  }

  lemma EnqueueKeeps(s: Conn, r: Rid)
    requires Inv(s) && InPhase(s, r, Admitted)
    ensures Inv(Queue(s, r))
  {
    OwnersPhase(s, Queue(s, r), r, Pending);
    QueuesQueue(s, r);
  }

  // ------------------------------------------------------------------------
  // Taking a request off its list, for good or because its reply was cut short
  // ------------------------------------------------------------------------

  lemma ListsUnlink(s: Conn, r: Rid, phase: Phase)
    requires ListsExact(s) && r in s.reqs && !OnList(phase)
    ensures ListsExact(SetPhase(Unlink(s, r), r, phase))
  {
    assert NoDup(Without(s.processing, r) + Without(s.pending, r)) by {
      WithoutConcat(s.processing, s.pending, r);
      WithoutNoDup(s.processing + s.pending, r);
    }
    var t := SetPhase(Unlink(s, r), r, phase);
    forall q ensures (q in t.pending <==> InPhase(t, q, Pending)) && (q in t.processing <==> InPhase(t, q, Processing)) {
      assert q in t.pending <==> q in s.pending && q != r;
      assert q in t.processing <==> q in s.processing && q != r;
      assert q in s.pending <==> InPhase(s, q, Pending);
      assert q in s.processing <==> InPhase(s, q, Processing);
    }
  }

  lemma QueueUnlink(s: Conn, r: Rid)
    requires s.processing + s.pending == Keep(s.queued, Listed(s))
    ensures Without(s.processing, r) + Without(s.pending, r) == Keep(s.queued, Listed(s) - {r})
  {
    WithoutConcat(s.processing, s.pending, r);
    KeepRemove(s.queued, Listed(s), r);
  }

  lemma OrderUnlink(s: Conn, r: Rid, phase: Phase)
    requires InSubmissionOrder(s) && r in s.reqs
    requires phase.Detached? || phase.Ending?
    ensures InSubmissionOrder(SetPhase(Unlink(s, r), r, phase))
  {
    var t := SetPhase(Unlink(s, r), r, phase);
    QueueUnlink(s, r);
    assert Listed(t) == Listed(s) - {r};
    assert Issued(t) == Issued(s);
  }

  lemma HistoryFinish(s: Conn, r: Rid, status: int)
    requires HistoryExact(s) && r in s.reqs && !s.reqs[r].phase.Ending?
    ensures HistoryExact(Finish(s, r, status))
  {
    var t := Finish(s, r, status);
    OutIsIssued(s, r);
    assert Issued(t) == Issued(s);
    assert !Ended(s, r);
    assert t.ended[|s.ended|].0 == r;
    forall q | q in Issued(t) ensures Ended(t, q) <==> q !in t.reqs || t.reqs[q].phase.Ending? {
      if q != r {
        assert Ended(t, q) <==> Ended(s, q) by {
          if Ended(s, q) {
            var i :| 0 <= i < |s.ended| && s.ended[i].0 == q;
            assert t.ended[i].0 == q;
          }
        }
      }
    }
  }

  lemma AbortUnlink(s: Conn, r: Rid, phase: Phase)
    requires AbortSafe(s) && r in s.reqs && phase != Admitted
    ensures AbortSafe(SetPhase(Unlink(s, r), r, phase))
  {
  }

  lemma QueuesFinish(s: Conn, r: Rid, status: int)
    requires Queues(s) && r in s.reqs && !s.reqs[r].phase.Ending?
    ensures Queues(Finish(s, r, status))
  {
    var t := Finish(s, r, status);
    var u := SetPhase(Unlink(s, r), r, Ending(status));
    ListsUnlink(s, r, Ending(status));
    HistoryFinish(s, r, status);
    AbortUnlink(s, r, Ending(status));
    OrderUnlink(s, r, Ending(status));
    assert Issued(t) == Issued(u) && Listed(t) == Listed(u);
  }

  lemma FinishKeeps(s: Conn, r: Rid, status: int)
    requires Inv(s) && r in s.reqs && !s.reqs[r].phase.Ending? && s.reqs[r].phase != Held
    ensures Inv(Finish(s, r, status))
  {
    OwnersPhase(s, Finish(s, r, status), r, Ending(status));
    QueuesFinish(s, r, status);
  }

  lemma QueuesDetach(s: Conn, r: Rid)
    requires Queues(s) && Answerable(s, r)
    ensures Queues(Detach(s, r))
  {
    ListsUnlink(s, r, Detached);
    HistorySame(s, Detach(s, r));
    AbortUnlink(s, r, Detached);
    OrderUnlink(s, r, Detached);
  }

  lemma DetachKeeps(s: Conn, r: Rid)
    requires Inv(s) && Answerable(s, r)
    ensures Inv(Detach(s, r))
  {
    OwnersPhase(s, Detach(s, r), r, Detached);
    QueuesDetach(s, r);
  }

  // ------------------------------------------------------------------------
  // Returning an id
  // ------------------------------------------------------------------------

  lemma SlotsFree(s: Conn, r: Rid, cpu: nat)
    requires SlotsPartitioned(s) && r in s.reqs && cpu < |s.pool.cpus|
    ensures SlotsPartitioned(Free(s, r, cpu))
  {
    var t := Free(s, r, cpu);
    var uid := s.reqs[r].uid;
    assert Slot(uid) in OutSlots(s);
    assert s.reqs == t.reqs[r := s.reqs[r]];
    OutSlotsAdd(t, s, r);
    assert Slot(uid) !in OutSlots(t);
    GiveAdds(s.pool, cpu, uid, 0);
    forall x | 0 <= x < MAX_IDS
      ensures PoolCount(t.pool, x) == if x in OutSlots(t) then 0 else 1
    {
      GiveAdds(s.pool, cpu, uid, x);
    }
    assert |t.reqs| == |s.reqs| - 1;
  }

  /** The late clear of `request_map` in `fuse_put_unique` hits no other request's entry. */
  lemma MapFree(s: Conn, r: Rid, cpu: nat)
    requires SlotsPartitioned(s) && MapExact(s) && r in s.reqs && cpu < |s.pool.cpus|
    ensures MapExact(Free(s, r, cpu))
  {
  }

  lemma IdsFree(s: Conn, r: Rid, cpu: nat)
    requires IdsCurrent(s) && r in s.reqs && cpu < |s.pool.cpus|
    ensures IdsCurrent(Free(s, r, cpu))
  {
    GiveEach(s.pool, cpu, s.reqs[r].uid, IsCurrent(s.issued));
  }

  lemma OwnersFree(s: Conn, r: Rid, cpu: nat)
    requires Owners(s) && r in s.reqs && cpu < |s.pool.cpus|
    ensures Owners(Free(s, r, cpu))
  {
    SlotsFree(s, r, cpu);
    MapFree(s, r, cpu);
    IdsFree(s, r, cpu);
  }

  lemma QueuesFree(s: Conn, r: Rid, cpu: nat)
    requires Queues(s) && r in s.reqs && s.reqs[r].phase.Ending? && cpu < |s.pool.cpus|
    ensures Queues(Free(s, r, cpu))
  {
    var t := Free(s, r, cpu);
    ListsSame(s, t);
    HistorySame(s, t);
    assert Issued(t) == Issued(s);
    forall r ensures r in Listed(t) <==> r in Listed(s) {
    }
    assert Listed(t) == Listed(s);
    OrderSame(s, t);
  }

  lemma PutKeeps(s: Conn, r: Rid, cpu: nat)
    requires Inv(s) && r in s.reqs && s.reqs[r].phase.Ending? && cpu < |s.pool.cpus|
    ensures Inv(Free(s, r, cpu))
  {
    OwnersFree(s, r, cpu);
    QueuesFree(s, r, cpu);
  }

  // ------------------------------------------------------------------------
  // Moving requests between the lists
  // ------------------------------------------------------------------------

  lemma ListsRead(s: Conn, n: nat)
    requires ListsExact(s) && n <= |s.pending|
    ensures ListsExact(MoveToProcessing(s, n))
    ensures var t := MoveToProcessing(s, n); t.processing + t.pending == s.processing + s.pending
  {
    var t := MoveToProcessing(s, n);
    var head, tail := s.pending[..n], s.pending[n..];
    assert s.pending == head + tail;
    assert t.processing + t.pending == s.processing + s.pending;
    forall r ensures r in t.pending <==> InPhase(t, r, Pending) {
      assert r in s.pending <==> r in head || r in tail;
      assert !(r in head && r in tail) by { NoDupSplit(s.processing, s.pending, n, r); }
    }
    forall r ensures r in t.processing <==> InPhase(t, r, Processing) {
      assert r in s.pending <==> r in head || r in tail;
    }
  }

  lemma ListsRestart(s: Conn)
    requires ListsExact(s)
    ensures ListsExact(Restart(s))
    ensures var t := Restart(s); t.processing + t.pending == s.processing + s.pending
  {
    var t := Restart(s);
    assert t.processing + t.pending == s.processing + s.pending;
    forall r ensures r in t.pending <==> InPhase(t, r, Pending) {
      assert r in t.pending <==> r in s.processing || r in s.pending;
    }
  }

  /** A change of list: the requests `moved`, all listed, get another listed phase. */
  ghost predicate Relisted(s: Conn, t: Conn, moved: seq<Rid>) {
    && (forall r :: r in moved ==> r in s.reqs && OnList(s.reqs[r].phase))
    && (t.reqs == Rephase(s.reqs, moved, Pending) || t.reqs == Rephase(s.reqs, moved, Processing))
    && t == s.(reqs := t.reqs, pending := t.pending, processing := t.processing)
  }

  lemma QueuesRelisted(s: Conn, t: Conn, moved: seq<Rid>)
    requires Queues(s) && Relisted(s, t, moved)
    requires t.processing + t.pending == s.processing + s.pending && ListsExact(t)
    requires s.abort == DrainProcessing ==> t.pending == []
    ensures Queues(t)
  {
    HistorySame(s, t);
    assert Issued(t) == Issued(s);
    forall r ensures r in Listed(t) <==> r in Listed(s) {
    }
    assert Listed(t) == Listed(s);
  }

  lemma OwnersRelisted(s: Conn, t: Conn, moved: seq<Rid>)
    requires Owners(s) && Relisted(s, t, moved)
    ensures Owners(t)
  {
    OwnersSame(s, t);
  }

  lemma RelistedKeeps(s: Conn, t: Conn, moved: seq<Rid>)
    requires Inv(s) && Relisted(s, t, moved)
    requires t.processing + t.pending == s.processing + s.pending && ListsExact(t)
    requires s.abort == DrainProcessing ==> t.pending == []
    ensures Inv(t)
  {
    OwnersRelisted(s, t, moved);
    QueuesRelisted(s, t, moved);
  }

  lemma ReadRelists(s: Conn, n: nat)
    requires ListsExact(s) && n <= |s.pending|
    ensures Relisted(s, MoveToProcessing(s, n), s.pending[..n])
  {
    forall r | r in s.pending[..n] ensures r in s.reqs && s.reqs[r].phase == Pending {
      assert r in s.pending;
    }
  }

  lemma ReadKeeps(s: Conn, n: nat)
    requires Inv(s) && n <= |s.pending|
    ensures Inv(MoveToProcessing(s, n))
  {
    ListsRead(s, n);
    ReadRelists(s, n);
    RelistedKeeps(s, MoveToProcessing(s, n), s.pending[..n]);
  }

  lemma RestartKeeps(s: Conn)
    requires Inv(s) && s.abort == Idle
    ensures Inv(Restart(s))
  {
    ListsRestart(s);
    RelistedKeeps(s, Restart(s), s.processing);
  }

  lemma FlagsKeep(s: Conn, connected: bool, allow: bool, abort: Abort)
    requires Inv(s) && AbortSafe(Flags(s, connected, allow, abort))
    ensures Inv(Flags(s, connected, allow, abort))
  {
    var t := Flags(s, connected, allow, abort);
    OwnersSame(s, t);
    ListsSame(s, t);
    HistorySame(s, t);
    assert Issued(t) == Issued(s);
    OrderSame(s, t);
  }

  // ------------------------------------------------------------------------
  // Whole runs
  // ------------------------------------------------------------------------

  lemma AnswerKeeps(s: Conn, r: Rid, status: int, cpu: nat)
    requires Inv(s) && Answerable(s, r) && cpu < |s.pool.cpus|
    ensures Inv(Free(Finish(s, r, status), r, cpu))
  {
    FinishKeeps(s, r, status);
    PutKeeps(Finish(s, r, status), r, cpu);
  }

  lemma ReplyKeeps(s: Conn, step: Step)
    requires Inv(s) && step.Reply? && Enabled(s, step)
    ensures Inv(Apply(s, step))
  {
    var found := Find(s, step.uid);
    if found.Some? {
      if step.faulted {
        if Answerable(s, found.value) {
          DetachKeeps(s, found.value);
        }
      } else {
        AnswerKeeps(s, found.value, step.status, step.cpu);
      }
    }
  }

  lemma DrainHeadListed(s: Conn)
    requires ListsExact(s) && Draining(s)
    ensures InPhase(s, DrainHead(s), Pending) || InPhase(s, DrainHead(s), Processing)
  {
    assert DrainHead(s) in s.pending || DrainHead(s) in s.processing;
  }

  lemma StepKeepsInv(s: Conn, step: Step)
    requires Inv(s) && Enabled(s, step)
    ensures Inv(Apply(s, step))
  {
    match step
    case Get(r, cpu) => GetKeeps(s, r, cpu);
    case Store(r) => StoreKeeps(s, r);
    case Admit(r) => AdmitKeeps(s, r);
    case Enqueue(r) => EnqueueKeeps(s, r);
    case Reject(r) => FinishKeeps(s, r, -ENOTCONN);
    case ReadMove(n) => ReadKeeps(s, n);
    case ReadFault(r) => FinishKeeps(s, r, -EIO);
    case Reply(uid, status, faulted, cpu) => ReplyKeeps(s, step);
    case Put(r, cpu) => PutKeeps(s, r, cpu);
    case AbortEnd => DrainHeadListed(s); FinishKeeps(s, DrainHead(s), -ECONNABORTED);
    case _ => ControlKeeps(s, step);
  }

  /** Release, open, and the abort's flags. */
  lemma ControlKeeps(s: Conn, step: Step)
    requires Inv(s) && Enabled(s, step)
    requires step.Release? || step.Open? || step.AbortClear? || step.AbortSync? || step.AbortNext? || step.AbortDone?
    ensures Inv(Apply(s, step))
  {
    match step
    case Release => FlagsKeep(s, false, s.allow, s.abort);
    case Open => RestartKeeps(s); FlagsKeep(Restart(s), true, true, s.abort);
    case AbortClear => FlagsKeep(s, s.connected, false, Cleared);
    case AbortSync => FlagsKeep(s, s.connected, s.allow, DrainPending);
    case AbortNext => FlagsKeep(s, s.connected, s.allow, DrainProcessing);
    case AbortDone => FlagsKeep(s, s.connected, s.allow, Idle);
  }

  lemma InitSlots(cpus: nat)
    ensures SlotsPartitioned(Init(cpus))
  {
    var s := Init(cpus);
    EmptyStacks(s.pool.cpus, 0);
    forall x | 0 <= x < MAX_IDS ensures PoolCount(s.pool, x) == 1 {
      EmptyStacks(s.pool.cpus, x);
      CountDown(s.pool.free, MAX_IDS, x);
    }
  }

  lemma InitIds(cpus: nat)
    ensures IdsCurrent(Init(cpus))
  {
    var s := Init(cpus);
    forall id: Id | id < MAX_IDS ensures IsCurrent(s.issued)(id) {
      assert id == IdAt(id, 0);
    }
  }

  lemma InitInv(cpus: nat)
    ensures Inv(Init(cpus))
  {
    var s := Init(cpus);
    InitSlots(cpus);
    InitIds(cpus);
    assert s.processing + s.pending == Keep(s.queued, Listed(s));
  }

  lemma {:induction false} EmptyStacks(stacks: seq<seq<Id>>, x: nat)
    requires forall c :: 0 <= c < |stacks| ==> stacks[c] == []
    ensures SumLen(stacks) == 0 && CountAll(stacks, x) == 0
  {
    if stacks != [] {
      EmptyStacks(stacks[1..], x);
    }
  }

  /** The initial stack, cut off at length n, holds the n highest slots once each. */
  lemma {:induction false} CountDown(ids: seq<Id>, n: nat, x: nat)
    requires n == |ids| <= MAX_IDS && x < MAX_IDS
    requires forall i :: 0 <= i < n ==> ids[i] == MAX_IDS - i - 1
    ensures Count(ids, x) == if x >= MAX_IDS - n then 1 else 0
  {
    if n > 0 {
      CountDown(ids[..n - 1], n - 1, x);
      assert Slot(ids[n - 1]) == MAX_IDS - n;
    }
  }

  lemma {:induction false} RunKeepsInv(s: Conn, steps: seq<Step>)
    requires Inv(s) && Legal(s, steps)
    ensures Inv(Exec(s, steps))
    decreases |steps|
  {
    if steps != [] {
      StepKeepsInv(s, steps[0]);
      RunKeepsInv(Apply(s, steps[0]), steps[1..]);
    }
  }

  /** Main safety theorem: in every run, on any number of CPUs, the whole invariant holds at the end. */
  lemma EveryRunIsSafe(cpus: nat, steps: seq<Step>)
    requires Legal(Init(cpus), steps)
    ensures Inv(Exec(Init(cpus), steps))
  {
    InitInv(cpus);
    RunKeepsInv(Init(cpus), steps);
  }

  /** The states some run of some number of CPUs gets to. */
  ghost predicate Reachable(s: Conn) {
    exists cpus: nat, steps: seq<Step> :: Legal(Init(cpus), steps) && Exec(Init(cpus), steps) == s
  }

  lemma ReachableIsSafe(s: Conn)
    requires Reachable(s)
    ensures Inv(s)
  {
    var cpus: nat, steps: seq<Step> :| Legal(Init(cpus), steps) && Exec(Init(cpus), steps) == s;
    EveryRunIsSafe(cpus, steps);
  }

  lemma {:induction false} ExecAppend(s: Conn, steps: seq<Step>, step: Step)
    requires Legal(s, steps) && Enabled(Exec(s, steps), step)
    ensures Legal(s, steps + [step]) && Exec(s, steps + [step]) == Apply(Exec(s, steps), step)
    decreases |steps|
  {
    if steps == [] {
      assert steps + [step] == [step];
      assert [step][1..] == [];
    } else {
      assert (steps + [step])[1..] == steps[1..] + [step];
      ExecAppend(Apply(s, steps[0]), steps[1..], step);
    }
  }

  lemma ReachableStep(s: Conn, step: Step)
    requires Reachable(s) && Enabled(s, step)
    ensures Reachable(Apply(s, step))
  {
    var cpus: nat, steps: seq<Step> :| Legal(Init(cpus), steps) && Exec(Init(cpus), steps) == s;
    ExecAppend(Init(cpus), steps, step);
    assert Legal(Init(cpus), steps + [step]);
  }
}
