/**
  The FUSE connection as the driver keeps it: fixed arrays of free ids, a request map
  indexed by slot, two request lists. Every method is proved to do exactly the protocol
  steps it stands for.
 */
module FuseConnection {
  import opened Errno
  import opened FuseIds
  import opened Seqs
  import opened FuseProtocol
  import opened FuseSafety
  import opened FuseTheorems
  import FuseRead

  /** `free_ids` with its fill count, and one `fuse_per_cpu_ids` row per CPU. */
  class IdPool {
    const freeIds: array<Id>
    var numFree: nat
    const cpuIds: array2<Id>
    const cpuNum: array<nat>
    ghost var stacks: seq<seq<Id>>

    ghost predicate Valid()
      reads this, freeIds, cpuIds, cpuNum
    {
      && freeIds.Length == MAX_IDS && numFree <= MAX_IDS
      && cpuIds.Length1 == MAX_PER_CPU && cpuIds.Length0 == cpuNum.Length == |stacks|
      && (forall c :: 0 <= c < |stacks| ==> |stacks[c]| == cpuNum[c] <= MAX_PER_CPU)
      && (forall c, k :: 0 <= c < |stacks| && 0 <= k < |stacks[c]| ==> stacks[c][k] == cpuIds[c, k])
    }

    ghost function View(): Pool
      requires Valid()
      reads this, freeIds, cpuIds, cpuNum
    {
      Pool(freeIds[..numFree], stacks)
    }

    /** The part of `fuse_conn_init` that fills the stacks. */
    constructor (cpus: nat)
      ensures Valid() && View() == Init(cpus).pool
      ensures fresh(freeIds) && fresh(cpuIds) && fresh(cpuNum)
    {
      freeIds := new Id[MAX_IDS];
      cpuIds := new Id[cpus, MAX_PER_CPU];
      cpuNum := new nat[cpus];
      numFree := MAX_IDS;
      stacks := seq(cpus, _ => []);
      new;
      var i := 0;
      while i < MAX_IDS
        invariant i <= MAX_IDS && numFree == MAX_IDS && |stacks| == cpus
        invariant forall j :: 0 <= j < i ==> freeIds[j] == MAX_IDS - j - 1
        invariant forall c :: 0 <= c < cpus ==> stacks[c] == []
      {
        freeIds[i] := MAX_IDS - i - 1;
        i := i + 1;
      }
      var c := 0;
      while c < cpus
        invariant c <= cpus && numFree == MAX_IDS && |stacks| == cpus
        invariant forall j :: 0 <= j < MAX_IDS ==> freeIds[j] == MAX_IDS - j - 1
        invariant forall d :: 0 <= d < cpus ==> stacks[d] == []
        invariant forall d :: 0 <= d < c ==> cpuNum[d] == 0
      {
        cpuNum[c] := 0;
        c := c + 1;
      }
      assert freeIds[..MAX_IDS] == Init(cpus).pool.free;
    }

    /** The copy from the top of the global stack to an empty CPU stack. */
    method TakeBatch(cpu: nat)
      requires Valid() && cpu < |stacks| && stacks[cpu] == []
      modifies this, cpuIds, cpuNum
      ensures Valid() && View() == Refill(old(View()), cpu)
    {
      ghost var before := View();
      var n := if numFree < HALF then numFree else HALF;
      var k := 0;
      while k < n
        modifies cpuIds
        invariant k <= n
        invariant forall i :: 0 <= i < k ==> cpuIds[cpu, i] == freeIds[numFree - n + i]
        invariant forall c, i :: 0 <= c < |stacks| && c != cpu && 0 <= i < MAX_PER_CPU ==> cpuIds[c, i] == old(cpuIds[c, i])
      {
        cpuIds[cpu, k] := freeIds[numFree - n + k];
        k := k + 1;
      }
      ghost var batch := freeIds[numFree - n..numFree];
      numFree := numFree - n;
      cpuNum[cpu] := n;
      stacks := stacks[cpu := batch];
      assert batch == before.free[|before.free| - n..];
      assert freeIds[..numFree] == before.free[..|before.free| - n];
    }

    /** `fuse_get_unique`: the caller must not find every stack empty. */
    method Get(cpu: nat) returns (uid: Id)
      requires Valid() && Available(View(), cpu)
      modifies this, cpuIds, cpuNum
      ensures Valid()
      ensures View() == Take(old(View()), cpu).0 && uid == NextId(Take(old(View()), cpu).1)
    {
      if cpuNum[cpu] == 0 {
        TakeBatch(cpu);
      }
      ghost var top := stacks[cpu];
      cpuNum[cpu] := cpuNum[cpu] - 1;
      stacks := stacks[cpu := top[..|top| - 1]];
      uid := cpuIds[cpu, cpuNum[cpu]];
      uid := (uid + MAX_IDS) % WORD;
      if uid == 0 {
        uid := uid + MAX_IDS;
      }
    }

    /** The copy of the upper half of a full CPU stack onto the global stack. */
    method GiveBatch(cpu: nat)
      requires Valid() && cpu < |stacks| && |stacks[cpu]| == MAX_PER_CPU
      requires numFree + HALF <= MAX_IDS
      modifies this, freeIds, cpuNum
      ensures Valid() && View() == Spill(old(View()), cpu)
    {
      ghost var before := View();
      var k := 0;
      while k < HALF
        modifies freeIds
        invariant k <= HALF
        invariant forall i :: 0 <= i < numFree ==> freeIds[i] == before.free[i]
        invariant forall j :: numFree <= j < numFree + k ==> freeIds[j] == before.cpus[cpu][HALF + (j - numFree)]
      {
        freeIds[numFree + k] := cpuIds[cpu, cpuNum[cpu] - HALF + k];
        k := k + 1;
      }
      numFree := numFree + HALF;
      cpuNum[cpu] := cpuNum[cpu] - HALF;
      stacks := stacks[cpu := stacks[cpu][..HALF]];
      assert freeIds[..numFree] == before.free + before.cpus[cpu][HALF..];
    }

    /** `fuse_put_unique` without the map entry: a full stack may spill only if the global one has room. */
    method Put(cpu: nat, uid: Id)
      requires Valid() && cpu < |stacks|
      requires |stacks[cpu]| == MAX_PER_CPU ==> numFree + HALF <= MAX_IDS
      modifies this, freeIds, cpuIds, cpuNum
      ensures Valid() && View() == Give(old(View()), cpu, uid)
    {
      if cpuNum[cpu] == MAX_PER_CPU {
        GiveBatch(cpu);
      }
      cpuIds[cpu, cpuNum[cpu]] := uid;
      cpuNum[cpu] := cpuNum[cpu] + 1;
      stacks := stacks[cpu := stacks[cpu] + [uid]];
    }
  }

  // ------------------------------------------------------------------------
  // The protocol steps behind each operation
  // ------------------------------------------------------------------------

  function SendSteps(s: Conn, r: Rid, cpu: nat, cpu': nat): seq<Step> {
    if s.connected || s.allow then [Get(r, cpu), Store(r), Admit(r), Enqueue(r)]
    else [Get(r, cpu), Store(r), Reject(r), Put(r, cpu')]
  }

  /** What one turn of `end_requests` finds and leaves. */
  lemma EndHeadFacts(s: Conn)
    requires Reachable(s) && Draining(s)
    ensures Enabled(s, AbortEnd)
    ensures var m := Apply(s, AbortEnd);
            && |m.pending| + |m.processing| < |s.pending| + |s.processing|
            && (s.abort == DrainProcessing ==> m.pending == [])
  {
    assert ListsExact(s) && AbortSafe(s) by { ReachableIsSafe(s); }
    DrainHeadListed(s);
    DrainStep(s, AbortEnd);
  }

  lemma UnansweredUnlisted(s: Conn, r: Rid)
    requires Reachable(s)
    ensures !Answerable(s, r) ==> r !in s.pending && r !in s.processing
  {
    ReachableIsSafe(s);
  }

  lemma TwoSteps(s: Conn, a: Step, b: Step)
    requires Enabled(s, a) && Enabled(Apply(s, a), b)
    ensures Legal(s, [a, b]) && Exec(s, [a, b]) == Apply(Apply(s, a), b)
  {
    ExecAppend(s, [], a);
    ExecAppend(s, [a], b);
    assert [] + [a] == [a] && [a] + [b] == [a, b];
  }

  /** `struct fuse_conn`. The protocol state it stands for is kept beside it. */
  class Connection {
    const pool: IdPool
    const requestMap: array<Option<Rid>>
    var unique: map<Rid, Id>
    var pending: seq<Rid>
    var processing: seq<Rid>
    var connected: bool
    var allowDisconnected: bool
    ghost var model: Conn

    ghost function Repr(): set<object> {
      {this, pool, requestMap, pool.freeIds, pool.cpuIds, pool.cpuNum}
    }

    ghost predicate Valid()
      reads Repr()
    {
      Shape() && Reachable(model)
    }

    /** The concrete fields hold what the protocol state says; in particular only live requests have an id to read. */
    ghost predicate Shape()
      reads Repr()
    {
      && pool.Valid() && pool.View() == model.pool
      && requestMap.Length == MAX_IDS
      && (forall x :: 0 <= x < MAX_IDS ==>
            requestMap[x] == if x in model.reqMap then Some(model.reqMap[x]) else None)
      && unique.Keys == model.reqs.Keys
      && (forall r :: r in unique ==> unique[r] == model.reqs[r].uid)
      && pending == model.pending && processing == model.processing
      && connected == model.connected && allowDisconnected == model.allow
    }

    /** `fuse_conn_init` for a given number of CPUs, in a new context. */
    constructor (cpus: nat)
      ensures Valid() && model == Init(cpus) && fresh(Repr())
    {
      pool := new IdPool(cpus);
      requestMap := new Option<Rid>[MAX_IDS](_ => None);
      unique := map[];
      pending, processing := [], [];
      connected, allowDisconnected := false, true;
      model := Init(cpus);
      new;
      assert Legal(Init(cpus), []) && Exec(Init(cpus), []) == model;
    }

    /** `request_find`. */
    method RequestFind(uid: Id) returns (r: Option<Rid>)
      requires Valid()
      ensures r == Find(model, uid)
    {
      assert MapExact(model) by { ReachableIsSafe(model); }
      r := requestMap[uid % MAX_IDS];
      if r.Some? && unique[r.value] != uid {
        r := None;
      }
    }

    /** The writes of `fuse_put_unique`: id onto the stack, map entry cleared. */
    method WritePut(r: Rid, uid: Id, cpu: nat)
      requires Shape() && cpu < |model.pool.cpus| && r in model.reqs && model.reqs[r].uid == uid
      requires |model.pool.cpus[cpu]| == MAX_PER_CPU ==> |model.pool.free| + HALF <= MAX_IDS
      modifies Repr()
      ensures Shape() && model == Free(old(model), r, cpu)
    {
      pool.Put(cpu, uid);
      requestMap[uid % MAX_IDS] := None;
      unique := unique - {r};
      model := Free(model, r, cpu);
    }

    /** The list removal of `request_end`, with the end callback. */
    method WriteFinish(r: Rid, ghost status: int)
      requires Shape() && r in model.reqs
      modifies this
      ensures Shape() && model == Finish(old(model), r, status)
    {
      pending := Without(pending, r);
      processing := Without(processing, r);
      model := Finish(model, r, status);
    }

    /** `fuse_put_unique`. */
    method PutUnique(r: Rid, uid: Id, cpu: nat)
      requires Valid() && cpu < |model.pool.cpus|
      requires r in model.reqs && model.reqs[r].phase.Ending? && model.reqs[r].uid == uid
      modifies Repr()
      ensures Valid() && model == Apply(old(model), Put(r, cpu))
      ensures |model.pool.cpus| == |old(model).pool.cpus|
    {
      SpillAlwaysFits(model, cpu);
      GiveAdds(model.pool, cpu, uid, 0);
      ReachableStep(model, Put(r, cpu));
      WritePut(r, uid, cpu);
    }

    /** `request_end` up to and including the end callback: only the lists change. */
    method UnlinkAndEnd(r: Rid, ghost step: Step, ghost status: int)
      requires Valid() && r in model.reqs
      requires Enabled(model, step) && Apply(model, step) == Finish(model, r, status)
      modifies this
      ensures Valid() && model == Finish(old(model), r, status)
    {
      ReachableStep(model, step);
      WriteFinish(r, status);
    }

    /** `fuse_get_unique` for a new request. */
    method GetUnique(r: Rid, cpu: nat) returns (uid: Id)
      requires Valid() && r !in Issued(model) && Available(model.pool, cpu)
      modifies Repr()
      ensures Valid() && model == Apply(old(model), Get(r, cpu)) && uid == model.reqs[r].uid
      ensures |model.pool.cpus| == |old(model).pool.cpus|
    {
      ReachableStep(model, Get(r, cpu));
      TakeRemoves(model.pool, cpu, 0);
      uid := pool.Get(cpu);
      unique := unique[r := uid];
      model := Apply(model, Get(r, cpu));
    }

    method StoreInMap(r: Rid, uid: Id)
      requires Valid() && InPhase(model, r, Held) && model.reqs[r].uid == uid
      modifies Repr()
      ensures Valid() && model == Apply(old(model), Store(r))
    {
      ReachableStep(model, Store(r));
      requestMap[uid % MAX_IDS] := Some(r);
      model := Apply(model, Store(r));
    }

    method WriteQueue(r: Rid)
      requires Shape() && r in model.reqs
      modifies this
      ensures Shape() && model == Queue(SetPhase(old(model), r, Admitted), r)
    {
      pending := pending + [r];
      model := Queue(SetPhase(model, r, Admitted), r);
    }

    /** The RCU section of a send that finds a usable connection. */
    method AdmitAndQueue(r: Rid)
      requires Valid() && InPhase(model, r, Stored) && (model.connected || model.allow)
      modifies this
      ensures Valid() && Enabled(Apply(old(model), Admit(r)), Enqueue(r))
      ensures model == Apply(Apply(old(model), Admit(r)), Enqueue(r))
    {
      ReachableStep(model, Admit(r));
      ReachableStep(SetPhase(model, r, Admitted), Enqueue(r));
      WriteQueue(r);
    }

    /** `fuse_request_send_nowait`: queue the request, or end it at once if there is no usable connection. */
    method SendNowait(r: Rid, cpu: nat, cpu': nat)
      requires Valid() && r !in Issued(model)
      requires Available(model.pool, cpu) && cpu' < |model.pool.cpus|
      modifies Repr()
      ensures Valid()
      ensures Legal(old(model), SendSteps(old(model), r, cpu, cpu'))
      ensures model == Exec(old(model), SendSteps(old(model), r, cpu, cpu'))
    {
      ghost var s0 := model;
      var uid := GetUnique(r, cpu);
      ghost var s1 := model;
      StoreInMap(r, uid);
      ghost var s2 := model;
      if connected || allowDisconnected {
        AdmitAndQueue(r);
        FourSteps(s0, s1, s2, Apply(s2, Admit(r)), Get(r, cpu), Store(r), Admit(r), Enqueue(r));
      } else {
        UnlinkAndEnd(r, Reject(r), -ENOTCONN);
        PutUnique(r, uid, cpu');
        FourSteps(s0, s1, s2, Apply(s2, Reject(r)), Get(r, cpu), Store(r), Reject(r), Put(r, cpu'));
      }
    }

    /** The `list_del_init` of a reply. */
    method WriteUnlink(r: Rid, ghost detach: bool)
      requires Shape() && r in model.reqs && (detach || (r !in pending && r !in processing))
      modifies this
      ensures Shape() && model == if detach then Detach(old(model), r) else old(model)
    {
      pending := Without(pending, r);
      processing := Without(processing, r);
      model := if detach then Detach(model, r) else model;
    }

    /** A reply whose payload cannot be copied: off the list if on one, nothing else. */
    method AnswerFaulted(r: Rid, ghost status: int, ghost cpu: nat)
      requires Valid() && r in model.reqs && cpu < |model.pool.cpus|
      modifies this
      ensures Shape() && model == Answered(old(model), r, status, true, cpu) && model.ended == old(model).ended
    {
      UnansweredUnlisted(model, r);
      WriteUnlink(r, Answerable(model, r));
    }

    /** A complete reply, whatever the phase of the request: off the list, request ended, id returned. */
    method Answer(r: Rid, uid: Id, ghost status: int, cpu: nat)
      requires Valid() && r in model.reqs && model.reqs[r].uid == uid && cpu < |model.pool.cpus|
      modifies Repr()
      ensures Shape() && model == Answered(old(model), r, status, false, cpu)
      ensures model.ended == old(model).ended + [(r, status)]
    {
      SpillAlwaysFits(model, cpu);
      WriteFinish(r, status);
      WritePut(r, uid, cpu);
    }

    /**
      `fuse_dev_do_write` for a reply header with the given id and error; `faulted` says whether copying the
      payload fails. The fields always end as `Answered` says. An orderly reply is the protocol's reply step; after
      one that is not, the connection is no longer in a state of any run.
     */
    method DoWrite(uid: Id, status: int, faulted: bool, cpu: nat, size: nat) returns (rc: int)
      requires Valid() && uid != 0 && cpu < |model.pool.cpus|
      modifies Repr()
      ensures rc == if status <= -1000 || status > 0 then -EINVAL
                    else if Find(old(model), uid) == None || !old(connected) then -ENOENT
                    else if faulted then -EFAULT else size
      ensures Shape()
      ensures var found := Find(old(model), uid);
              if -1000 < status <= 0 && old(connected) && found.Some?
              then found.value in old(model).reqs && model == Answered(old(model), found.value, status, faulted, cpu)
              else model == old(model)
      ensures var found := Find(old(model), uid);
              model.ended == old(model).ended +
                if -1000 < status <= 0 && old(connected) && found.Some? && !faulted then [(found.value, status)] else []
      ensures model == old(model) || Orderly(old(model), Find(old(model), uid).value, faulted) ==> Valid()
    {
      if status <= -1000 || status > 0 {
        return -EINVAL;
      }
      var found := RequestFind(uid);
      if found == None || !connected {
        return -ENOENT;
      }
      ghost var s := model;
      if faulted {
        AnswerFaulted(found.value, status, cpu);
        rc := -EFAULT;
      } else {
        Answer(found.value, uid, status, cpu);
        rc := size;
      }
      if Orderly(s, found.value, faulted) {
        ReachableStep(s, Reply(uid, status, faulted, cpu));
      }
    }

    /** The cut and splice of a read: the first `n` pending requests. */
    method MoveBatch(n: nat)
      requires Valid() && connected && n <= |pending|
      modifies this
      ensures Valid() && model == Apply(old(model), ReadMove(n)) && unchanged(`unique)
      ensures pending == old(pending)[n..] && processing == old(processing) + old(pending)[..n] && connected
    {
      ReachableStep(model, ReadMove(n));
      processing := processing + pending[..n];
      pending := pending[n..];
      model := Apply(model, ReadMove(n));
    }

    /** A request that could not be copied to the daemon is ended with -EIO and its id returned. */
    method EndFaulted(r: Rid, cpu: nat, ghost before: seq<Rid>, ghost after: seq<Rid>)
      requires Valid() && connected && cpu < |model.pool.cpus| && processing == before + [r] + after
      modifies Repr()
      ensures Valid() && connected && |model.pool.cpus| == |old(model).pool.cpus|
      ensures Legal(old(model), [ReadFault(r), Put(r, cpu)]) && model == Exec(old(model), [ReadFault(r), Put(r, cpu)])
      ensures processing == before + after && pending == old(pending)
    {
      ListedOnce(model, r, before, after);
      UnlinkAndEnd(r, ReadFault(r), -EIO);
      TwoSteps(old(model), ReadFault(r), Put(r, cpu));
      PutUnique(r, unique[r], cpu);
    }

    /** One turn of the copy loop. */
    method CopyOne(r: Rid, bad: bool, cpu: nat, ghost before: seq<Rid>, ghost after: seq<Rid>) returns (ghost steps: seq<Step>)
      requires Valid() && connected && cpu < |model.pool.cpus| && processing == before + [r] + after
      modifies Repr()
      ensures Valid() && connected && |model.pool.cpus| == |old(model).pool.cpus|
      ensures Legal(old(model), steps) && model == Exec(old(model), steps)
      ensures processing == (if bad then before else before + [r]) + after && pending == old(pending)
    {
      steps := [];
      if bad {
        EndFaulted(r, cpu, before, after);
        steps := [ReadFault(r), Put(r, cpu)];
      }
    }

    /** The copy loop over the batch just moved. */
    method CopyBatch(batch: seq<Rid>, faulty: Rid -> bool, cpu: nat, ghost base: seq<Rid>) returns (ghost steps: seq<Step>)
      requires Valid() && connected && cpu < |model.pool.cpus| && processing == base + batch
      modifies Repr()
      ensures Valid() && Legal(old(model), steps) && model == Exec(old(model), steps)
      ensures pending == old(pending) && processing == base + Sound(batch, |batch|, faulty)
    {
      steps := [];
      var i := 0;
      while i < |batch|
        invariant 0 <= i <= |batch| && Valid() && connected && cpu < |model.pool.cpus|
        invariant Legal(old(model), steps) && model == Exec(old(model), steps)
        invariant pending == old(pending) && processing == base + Sound(batch, i, faulty) + batch[i..]
      {
        SoundStep(base, batch, i, faulty);
        ghost var more := CopyOne(batch[i], faulty(batch[i]), cpu, base + Sound(batch, i, faulty), batch[i + 1..]);
        RunAppend(old(model), steps, more);
        steps := steps + more;
        i := i + 1;
      }
    }

    /** The scan under the lock: how many pending requests, of the given lengths, fit into `room`. */
    method ScanPending(len: Rid -> nat, room: nat) returns (n: nat)
      ensures n == FuseRead.FitCount(Sized(pending, len), room)
    {
      var remain: nat := room;
      n := 0;
      while n < |pending| && len(pending[n]) <= remain
        invariant n <= |pending| && FuseRead.SizeTo(Sized(pending, len), n) + remain == room
      {
        remain := remain - len(pending[n]);
        n := n + 1;
      }
      ghost var items := Sized(pending, len);
      assert n < |items| ==> items[n].len == len(pending[n]);
      FuseRead.FitCountExactly(items, room, n);
    }

    /** A pass that takes the first `n` pending requests. */
    method PassOf(n: nat, faulty: Rid -> bool, cpu: nat) returns (ghost steps: seq<Step>)
      requires Valid() && connected && n <= |pending| && cpu < |model.pool.cpus|
      modifies Repr()
      ensures Valid() && Legal(old(model), steps) && model == Exec(old(model), steps)
      ensures pending == old(pending)[n..] && processing == old(processing) + Sound(old(pending)[..n], n, faulty)
    {
      var batch := pending[..n];
      ghost var base := processing;
      ExecAppend(model, [], ReadMove(n));
      assert [] + [ReadMove(n)] == [ReadMove(n)];
      MoveBatch(n);
      steps := CopyBatch(batch, faulty, cpu, base);
      RunAppend(old(model), [ReadMove(n)], steps);
      steps := [ReadMove(n)] + steps;
    }

    /**
      One pass of `fuse_dev_do_read`: it takes the longest prefix of pending that fits into `room`, which is the
      protocol's move, and for each request that cannot be copied its fault and the return of its id.
     */
    method ReadPass(len: Rid -> nat, room: nat, faulty: Rid -> bool, cpu: nat) returns (n: nat, ghost steps: seq<Step>)
      requires Valid() && connected && cpu < |model.pool.cpus|
      modifies Repr()
      ensures n == FuseRead.FitCount(Sized(old(pending), len), room)
      ensures Valid() && Legal(old(model), steps) && model == Exec(old(model), steps)
      ensures pending == old(pending)[n..] && processing == old(processing) + Sound(old(pending)[..n], n, faulty)
    {
      n := ScanPending(len, room);
      steps := PassOf(n, faulty, cpu);
    }

    /** `fuse_restart_requests` with the flag writes of `pxd_control_open`. */
    method ControlOpen()
      requires Valid() && !connected && model.abort == Idle
      modifies this
      ensures Valid() && model == Apply(old(model), Open)
      ensures pending == old(processing + pending) && processing == []
    {
      ReachableStep(model, Open);
      pending := processing + pending;
      processing := [];
      connected := true;
      allowDisconnected := true;
      model := Apply(model, Open);
    }

    /** One turn of `end_requests`: end the head of a list, lock dropped, and return its id on CPU `cpu`. */
    method EndHead(r: Rid, cpu: nat)
      requires Valid() && Draining(model) && r == DrainHead(model) && cpu < |model.pool.cpus|
      modifies Repr()
      ensures Valid()
      ensures Legal(old(model), [AbortEnd, Put(r, cpu)]) && model == Exec(old(model), [AbortEnd, Put(r, cpu)])
      ensures model.abort == old(model).abort && |model.pool.cpus| == |old(model).pool.cpus|
      ensures |pending| + |processing| < |old(pending)| + |old(processing)|
      ensures model.abort == DrainProcessing ==> pending == []
      ensures OnlyRemoved(old(model), model)
    {
      EndHeadFacts(model);
      UnlinkAndEnd(r, AbortEnd, -ECONNABORTED);
      TwoSteps(old(model), AbortEnd, Put(r, cpu));
      PutUnique(r, unique[r], cpu);
    }

    /** `end_requests` on the pending or on the processing list, whichever the abort is at. */
    method EndRequests(onPending: bool, cpu: nat) returns (ghost steps: seq<Step>)
      requires Valid() && cpu < |model.pool.cpus|
      requires model.abort == if onPending then DrainPending else DrainProcessing
      modifies Repr()
      ensures Valid() && model.abort == old(model).abort && |model.pool.cpus| == |old(model).pool.cpus|
      ensures if onPending then pending == [] else processing == []
      ensures Legal(old(model), steps) && model == Exec(old(model), steps) && AbortDone !in steps
      ensures OnlyRemoved(old(model), model)
    {
      steps := [];
      while (if onPending then pending else processing) != []
        invariant Valid() && model.abort == old(model).abort && |model.pool.cpus| == |old(model).pool.cpus|
        invariant Legal(old(model), steps) && model == Exec(old(model), steps) && AbortDone !in steps
        invariant OnlyRemoved(old(model), model)
        decreases |pending| + |processing|
      {
        var r := if onPending then pending[0] else processing[0];
        EndHead(r, cpu);
        RunAppend(old(model), steps, [AbortEnd, Put(r, cpu)]);
        steps := steps + [AbortEnd, Put(r, cpu)];
      }
    }

    /** Between the two calls of `end_requests`. */
    ghost method TurnToProcessing()
      requires Valid() && model.abort == DrainPending && pending == []
      modifies this`model
      ensures Valid() && model == Apply(old(model), AbortNext)
    {
      ReachableStep(model, AbortNext);
      model := Apply(model, AbortNext);
    }

    /** `fuse_end_queued_requests` as the timeout abort calls it, from where `synchronize_rcu` returned to the end. */
    method EndQueuedRequests(cpu: nat) returns (ghost steps: seq<Step>)
      requires Valid() && model.abort == DrainPending && cpu < |model.pool.cpus|
      modifies Repr()
      ensures Valid() && pending == [] && processing == []
      ensures Legal(old(model), steps) && model == Exec(old(model), steps)
      ensures forall r: Rid :: r in old(pending) || r in old(processing) ==> (r, -ECONNABORTED) in model.ended
      ensures forall r: Rid :: r in old(pending) || r in old(processing) ==>
        r in old(unique) && r !in model.reqs && PoolCount(model.pool, Slot(old(unique)[r])) == 1
    {
      ghost var first := EndRequests(true, cpu);
      ExecAppend(old(model), first, AbortNext);
      TurnToProcessing();
      ghost var second := EndRequests(false, cpu);
      steps := first + [AbortNext] + second;
      RunAppend(old(model), first + [AbortNext], second);
      assert pending == [] by { ReachableIsSafe(model); }
      AbortDrained(old(model), steps);
      IdsBack(old(model), model);
    }
  }

  /** The requests among the first `n` that can be copied. */
  function Sound(rs: seq<Rid>, n: nat, faulty: Rid -> bool): seq<Rid>
    requires n <= |rs|
  {
    if n == 0 then []
    else if faulty(rs[n - 1]) then Sound(rs, n - 1, faulty)
    else Sound(rs, n - 1, faulty) + [rs[n - 1]]
  }

  lemma SoundStep(base: seq<Rid>, batch: seq<Rid>, i: nat, faulty: Rid -> bool)
    requires i < |batch|
    ensures var done := base + Sound(batch, i, faulty);
            && done + batch[i..] == done + [batch[i]] + batch[i + 1..]
            && (if faulty(batch[i]) then done else done + [batch[i]]) == base + Sound(batch, i + 1, faulty)
  {
  }

  /** The requests as the batched read sees them. */
  function Sized(rs: seq<Rid>, len: Rid -> nat): (items: seq<FuseRead.Item>)
    ensures |items| == |rs| && forall i :: 0 <= i < |rs| ==> items[i] == FuseRead.Item(rs[i], len(rs[i]))
  {
    seq(|rs|, i requires 0 <= i < |rs| => FuseRead.Item(rs[i], len(rs[i])))
  }

  /** What a pass keeps are the ids of what the batched read counts as copied. */
  lemma {:induction false} SoundIsCopied(items: seq<FuseRead.Item>, ids: seq<Rid>, n: nat, faulty: FuseRead.Item -> bool, bad: Rid -> bool)
    requires n <= |items| == |ids| && forall i :: 0 <= i < |items| ==> ids[i] == items[i].id && faulty(items[i]) == bad(ids[i])
    ensures var copied := FuseRead.CopiedTo(items, n, faulty);
            |Sound(ids, n, bad)| == |copied| && forall i :: 0 <= i < |copied| ==> Sound(ids, n, bad)[i] == copied[i].id
  {
    if n > 0 {
      SoundIsCopied(items, ids, n - 1, faulty, bad);
    }
  }

  lemma {:induction false} WithoutAlone(a: seq<Rid>, r: Rid, b: seq<Rid>)
    requires r !in a && r !in b
    ensures Without(a + [r] + b, r) == a + b
  {
    WithoutConcat(a + [r], b, r);
    WithoutConcat(a, [r], r);
    assert Without([r], r) == [];
  }

  lemma ListedOnce(s: Conn, r: Rid, before: seq<Rid>, after: seq<Rid>)
    requires Reachable(s) && s.connected && s.processing == before + [r] + after
    ensures Enabled(s, ReadFault(r)) && r !in s.pending && Without(s.processing, r) == before + after
  {
    assert ListsExact(s) by { ReachableIsSafe(s); }
    assert s.processing[|before|] == r;
    assert InPhase(s, r, Processing);
    AloneIn(s.processing, s.pending, |before|);
    assert s.processing[..|before|] == before && s.processing[|before| + 1..] == after;
    WithoutAlone(before, r, after);
  }

  lemma AloneIn(a: seq<Rid>, b: seq<Rid>, i: nat)
    requires NoDup(a + b) && i < |a|
    ensures a[i] !in a[..i] && a[i] !in a[i + 1..] && a[i] !in b
  {
    var all := a + b;
    assert forall k :: 0 <= k < |a| ==> all[k] == a[k];
    assert forall k :: 0 <= k < |b| ==> all[|a| + k] == b[k];
  }

  /** From `s` to `t` requests may have gone away; those left are as they were. */
  ghost predicate OnlyRemoved(s: Conn, t: Conn) {
    forall q :: q in t.reqs ==> q in s.reqs && t.reqs[q] == s.reqs[q]
  }

  /** If only removals lead to empty lists, every listed request is gone and its slot is back on one stack, once. */
  lemma IdsBack(s: Conn, t: Conn)
    requires Reachable(s) && Reachable(t) && OnlyRemoved(s, t) && t.pending == [] && t.processing == []
    ensures forall r: Rid :: r in s.pending || r in s.processing ==>
      r in s.reqs && r !in t.reqs && PoolCount(t.pool, Slot(s.reqs[r].uid)) == 1
  {
    assert ListsExact(s) && SlotsPartitioned(s) by { ReachableIsSafe(s); }
    assert ListsExact(t) && SlotsPartitioned(t) by { ReachableIsSafe(t); }
    forall r: Rid | r in s.pending || r in s.processing
      ensures r in s.reqs && r !in t.reqs && PoolCount(t.pool, Slot(s.reqs[r].uid)) == 1
    {
      assert InPhase(s, r, Pending) || InPhase(s, r, Processing);
      assert !InPhase(t, r, Pending) && !InPhase(t, r, Processing);
      assert Slot(s.reqs[r].uid) !in OutSlots(t);
    }
  }

  lemma AbortDrained(s: Conn, steps: seq<Step>)
    requires Reachable(s) && s.abort == DrainPending && Legal(s, steps) && AbortDone !in steps
    requires Enabled(Exec(s, steps), AbortDone)
    ensures forall r: Rid :: r in s.pending || r in s.processing ==> (r, -ECONNABORTED) in Exec(s, steps).ended
  {
    AbortDrains(s, steps);
    forall r: Rid | r in s.pending || r in s.processing ensures (r, -ECONNABORTED) in Exec(s, steps).ended {
      assert AbortedOrListed(s, r);
    }
  }

  lemma FourSteps(s0: Conn, s1: Conn, s2: Conn, s3: Conn, a: Step, b: Step, c: Step, d: Step)
    requires Enabled(s0, a) && s1 == Apply(s0, a)
    requires Enabled(s1, b) && s2 == Apply(s1, b)
    requires Enabled(s2, c) && s3 == Apply(s2, c)
    requires Enabled(s3, d)
    ensures Legal(s0, [a, b, c, d])
    ensures Exec(s0, [a, b, c, d]) == Apply(s3, d)
  {
    ExecAppend(s0, [], a);
    ExecAppend(s0, [a], b);
    ExecAppend(s0, [a, b], c);
    ExecAppend(s0, [a, b, c], d);
    assert [] + [a] == [a] && [a] + [b] == [a, b] && [a, b] + [c] == [a, b, c] && [a, b, c] + [d] == [a, b, c, d];
  }

  lemma {:induction false} RunAppend(s: Conn, steps: seq<Step>, more: seq<Step>)
    requires Legal(s, steps) && Legal(Exec(s, steps), more)
    ensures Legal(s, steps + more) && Exec(s, steps + more) == Exec(Exec(s, steps), more)
    decreases |steps|
  {
    if steps == [] {
      assert steps + more == more;
    } else {
      assert (steps + more)[1..] == steps[1..] + more;
      RunAppend(Apply(s, steps[0]), steps[1..], more);
    }
  }
}
