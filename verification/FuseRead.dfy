/**
  The batched read of the FUSE device (`fuse_dev_do_read`, dev.c): as many pending requests as fit
  into the daemon's buffer are moved to the processing list and copied out; while there is room,
  requests that arrive meanwhile are picked up too.
 */
module FuseRead {
  import opened Errno

  const EAGAIN: int := 11
  const ENODEV: int := 19
  const ERESTARTSYS: int := 512
  const HEADER: nat := 40

  /** A request and the size of its message, header included. */
  datatype Item = Item(id: int, len: nat)

  ghost predicate WellSized(items: seq<Item>) {
    forall i :: 0 <= i < |items| ==> items[i].len >= HEADER
  }

  function SizeTo(items: seq<Item>, n: nat): nat
    requires n <= |items|
  {
    if n == 0 then 0 else SizeTo(items, n - 1) + items[n - 1].len
  }

  function Size(items: seq<Item>): nat {
    SizeTo(items, |items|)
  }

  lemma {:induction false} SizePrefix(items: seq<Item>, more: seq<Item>, n: nat)
    requires n <= |items| && items <= more
    ensures SizeTo(more, n) == SizeTo(items, n)
  {
    if n > 0 {
      SizePrefix(items, more, n - 1);
    }
  }

  lemma {:induction false} SizeConcatTo(a: seq<Item>, b: seq<Item>, n: nat)
    requires n <= |b|
    ensures SizeTo(a + b, |a| + n) == Size(a) + SizeTo(b, n)
  {
    if n == 0 {
      SizePrefix(a, a + b, |a|);
    } else {
      SizeConcatTo(a, b, n - 1);
    }
  }

  lemma SizeConcat(a: seq<Item>, b: seq<Item>)
    ensures Size(a + b) == Size(a) + Size(b)
  {
    SizeConcatTo(a, b, |b|);
  }

  lemma SizeAppend(items: seq<Item>, x: Item)
    ensures Size(items + [x]) == Size(items) + x.len
  {
    SizePrefix(items, items + [x], |items|);
  }

  lemma SizeAtLeast(items: seq<Item>)
    requires items != [] && WellSized(items)
    ensures Size(items) >= HEADER
  {
  }

  /** How many requests from the front fit into `room` together; the first that does not fit ends the count. */
  function FitCount(items: seq<Item>, room: nat): (n: nat)
    ensures n <= |items|
  {
    if items == [] || items[0].len > room then 0 else 1 + FitCount(items[1..], room - items[0].len)
  }

  /** What the first pass of a read takes: the longest prefix that fits the buffer. */
  function FirstPass(pending: seq<Item>, count: nat): seq<Item> {
    pending[..FitCount(pending, count)]
  }

  lemma {:induction false} SizeToTail(items: seq<Item>, n: nat)
    requires 0 < n <= |items|
    ensures SizeTo(items, n) == items[0].len + SizeTo(items[1..], n - 1)
  {
    if n > 1 {
      SizeToTail(items, n - 1);
    }
  }

  /** A prefix that fits, and that the next request would not fit behind, is the first pass. */
  lemma {:induction false} FitCountExactly(items: seq<Item>, room: nat, n: nat)
    requires n <= |items| && SizeTo(items, n) <= room && (n < |items| ==> SizeTo(items, n) + items[n].len > room)
    ensures FitCount(items, room) == n
  {
    if n > 0 {
      SizeToTail(items, n);
      SizeToTail(items, 1);
      if n < |items| {
        SizeToTail(items, n + 1);
      }
      FitCountExactly(items[1..], room - items[0].len, n - 1);
    }
  }

  /** The requests whose copy to the daemon succeeds, among the first `n`. */
  function CopiedTo(items: seq<Item>, n: nat, faulty: Item -> bool): seq<Item>
    requires n <= |items|
  {
    if n == 0 then []
    else
      var rest, last := CopiedTo(items, n - 1, faulty), items[n - 1];
      if faulty(last) then rest else rest + [last]
  }

  function Copied(items: seq<Item>, faulty: Item -> bool): seq<Item> {
    CopiedTo(items, |items|, faulty)
  }

  /** The requests whose copy fails, each ended with -EIO. */
  function FailuresTo(items: seq<Item>, n: nat, faulty: Item -> bool): seq<(Item, int)>
    requires n <= |items|
  {
    if n == 0 then []
    else
      var rest, last := FailuresTo(items, n - 1, faulty), items[n - 1];
      if faulty(last) then rest + [(last, -EIO)] else rest
  }

  function Failures(items: seq<Item>, faulty: Item -> bool): seq<(Item, int)> {
    FailuresTo(items, |items|, faulty)
  }

  lemma {:induction false} OutcomePrefix(items: seq<Item>, more: seq<Item>, n: nat, faulty: Item -> bool)
    requires n <= |items| && items <= more
    ensures CopiedTo(more, n, faulty) == CopiedTo(items, n, faulty)
    ensures FailuresTo(more, n, faulty) == FailuresTo(items, n, faulty)
  {
    if n > 0 {
      OutcomePrefix(items, more, n - 1, faulty);
    }
  }

  lemma {:induction false} OutcomeConcatTo(a: seq<Item>, b: seq<Item>, n: nat, faulty: Item -> bool)
    requires n <= |b|
    ensures CopiedTo(a + b, |a| + n, faulty) == Copied(a, faulty) + CopiedTo(b, n, faulty)
    ensures FailuresTo(a + b, |a| + n, faulty) == Failures(a, faulty) + FailuresTo(b, n, faulty)
  {
    if n == 0 {
      OutcomePrefix(a, a + b, |a|, faulty);
    } else {
      OutcomeConcatTo(a, b, n - 1, faulty);
    }
  }

  lemma OutcomeConcat(a: seq<Item>, b: seq<Item>, faulty: Item -> bool)
    ensures Copied(a + b, faulty) == Copied(a, faulty) + Copied(b, faulty)
    ensures Failures(a + b, faulty) == Failures(a, faulty) + Failures(b, faulty)
  {
    OutcomeConcatTo(a, b, |b|, faulty);
  }

  lemma {:induction false} CopiedSizeTo(items: seq<Item>, n: nat, faulty: Item -> bool)
    requires n <= |items| && WellSized(items)
    ensures Size(CopiedTo(items, n, faulty)) <= SizeTo(items, n)
    ensures CopiedTo(items, n, faulty) != [] ==> Size(CopiedTo(items, n, faulty)) >= HEADER
  {
    if n > 0 {
      CopiedSizeTo(items, n - 1, faulty);
      SizeAppend(CopiedTo(items, n - 1, faulty), items[n - 1]);
    }
  }

  lemma CopiedSize(items: seq<Item>, faulty: Item -> bool)
    requires WellSized(items)
    ensures Size(Copied(items, faulty)) <= Size(items)
    ensures Copied(items, faulty) != [] ==> Size(Copied(items, faulty)) >= HEADER
  {
    CopiedSizeTo(items, |items|, faulty);
  }

  lemma {:induction false} NothingFaulty(items: seq<Item>, n: nat, faulty: Item -> bool)
    requires n <= |items| && forall x :: !faulty(x)
    ensures CopiedTo(items, n, faulty) == items[..n] && FailuresTo(items, n, faulty) == []
  {
    if n > 0 {
      NothingFaulty(items, n - 1, faulty);
    }
  }

  /**
    Each of the first `n` requests has one outcome, in list order: the `i`-th is the next to be copied, or the next to
    be ended with -EIO.
   */
  lemma {:induction false} OutcomeMeaning(items: seq<Item>, i: nat, n: nat, faulty: Item -> bool)
    requires i < n <= |items|
    ensures var copied, failed := CopiedTo(items, i, faulty), FailuresTo(items, i, faulty);
            && |CopiedTo(items, n, faulty)| + |FailuresTo(items, n, faulty)| == n && |copied| + |failed| == i
            && copied <= CopiedTo(items, n, faulty) && failed <= FailuresTo(items, n, faulty)
            && (if faulty(items[i]) then failed + [(items[i], -EIO)] <= FailuresTo(items, n, faulty)
                else copied + [items[i]] <= CopiedTo(items, n, faulty))
    decreases n
  {
    OutcomeCount(items, i, faulty);
    OutcomeCount(items, n, faulty);
    if i < n - 1 {
      OutcomeMeaning(items, i, n - 1, faulty);
    }
  }

  lemma {:induction false} OutcomeCount(items: seq<Item>, n: nat, faulty: Item -> bool)
    requires n <= |items|
    ensures |CopiedTo(items, n, faulty)| + |FailuresTo(items, n, faulty)| == n
  {
    if n > 0 {
      OutcomeCount(items, n - 1, faulty);
    }
  }

  /** The value the read returns: bytes copied, but short by 14 if the first pass got nothing across. */
  function Returned(first: seq<Item>, all: seq<Item>, faulty: Item -> bool): int {
    if Copied(all, faulty) == [] then -EFAULT
    else Size(Copied(all, faulty)) - if Copied(first, faulty) == [] then EFAULT else 0
  }

  class Queue {
    var pending: seq<Item>
    var processing: seq<Item>
    var ended: seq<(Item, int)>
    var connected: bool

    /** The scan under the lock: how many pending requests fit, and the room left (none if one did not fit). */
    method Scan(room: nat) returns (n: nat, remain: nat)
      ensures n <= |pending| && SizeTo(pending, n) <= room
      ensures n < |pending| ==> remain == 0 && SizeTo(pending, n) + pending[n].len > room
      ensures n == |pending| ==> remain == room - Size(pending)
    {
      n, remain := 0, room;
      while n < |pending|
        invariant n <= |pending| && SizeTo(pending, n) + remain == room
      {
        if pending[n].len <= remain {
          remain := remain - pending[n].len;
          n := n + 1;
        } else {
          remain := 0;
          return;
        }
      }
    }

    /** The copy loop of one pass over the batch just moved; a request that cannot be copied ends with -EIO. */
    method CopyOut(base: seq<Item>, batch: seq<Item>, faulty: Item -> bool) returns (bytes: nat)
      requires processing == base + batch
      modifies `processing, `ended
      ensures processing == base + Copied(batch, faulty)
      ensures ended == old(ended) + Failures(batch, faulty)
      ensures bytes == Size(Copied(batch, faulty))
    {
      bytes := 0;
      var i := 0;
      while i < |batch|
        invariant 0 <= i <= |batch|
        invariant processing == base + CopiedTo(batch, i, faulty) + batch[i..]
        invariant ended == old(ended) + FailuresTo(batch, i, faulty)
        invariant bytes == Size(CopiedTo(batch, i, faulty))
      {
        SizeAppend(CopiedTo(batch, i, faulty), batch[i]);
        ListStep(base, CopiedTo(batch, i, faulty), batch, i);
        if faulty(batch[i]) {
          processing := processing[..|processing| - (|batch| - i)] + batch[i + 1..];
          ended := ended + [(batch[i], -EIO)];
        } else {
          bytes := bytes + batch[i].len;
        }
        i := i + 1;
      }
    }

    /** `request_wait` and the checks around it: -EAGAIN, -ENODEV, -ERESTARTSYS, or 0 with something pending. */
    method AwaitPending(nonblock: bool, stillConnected: bool, arrived: seq<Item>) returns (err: int)
      modifies `pending, `connected
      ensures err == WaitOutcome(old(pending), old(connected), nonblock, stillConnected, arrived)
      ensures err == 0 ==> pending != []
      ensures old(pending) == [] ==>
        && (err == -EAGAIN <==> nonblock && old(connected))
        && (err != -EAGAIN ==> (err == -ENODEV <==> !stillConnected) && (err == 0 <==> stillConnected && arrived != []))
      ensures old(pending) != [] || err == -EAGAIN ==> pending == old(pending) && connected == old(connected)
      ensures old(pending) == [] && err != -EAGAIN ==> pending == arrived && connected == stillConnected
    {
      if pending == [] {
        if nonblock && connected {
          return -EAGAIN;
        }
        pending := arrived;
        connected := stillConnected;
        if !connected {
          return -ENODEV;
        }
        if pending == [] {
          return -ERESTARTSYS;
        }
      }
      err := 0;
    }

    /** One pass: scan, move, copy out. An empty batch: the first pending request does not fit. */
    method Pass(room: nat, faulty: Item -> bool) returns (batch: seq<Item>, remain: nat, bytes: nat)
      modifies `pending, `processing, `ended
      ensures batch + pending == old(pending) && Size(batch) <= room && batch == FirstPass(old(pending), room)
      ensures processing == old(processing) + Copied(batch, faulty)
      ensures ended == old(ended) + Failures(batch, faulty)
      ensures bytes == Size(Copied(batch, faulty))
      ensures pending != [] ==> remain == 0 && Size(batch) + pending[0].len > room
      ensures pending == [] ==> remain == room - Size(batch)
    {
      var n;
      n, remain := Scan(room);
      batch := pending[..n];
      FitCountExactly(pending, room, n);
      SizePrefix(batch, pending, n);
      var base := processing;
      pending := pending[n..];
      processing := processing + batch;
      bytes := CopyOut(base, batch, faulty);
    }

    /** A further pass, with `room` left after the requests in `moved`. */
    method FurtherPass(room: nat, rc: int, faulty: Item -> bool, ghost count: nat, ghost moved: seq<Item>, ghost first: seq<Item>,
                       ghost base: seq<Item>, ghost ends: seq<(Item, int)>)
      returns (batch: seq<Item>, remain: nat, rc': int, ghost moved': seq<Item>)
      requires Sent(first, moved, faulty, base, ends, processing, ended, rc)
      requires Size(moved) + room == count && WellSized(pending)
      modifies `pending, `processing, `ended
      ensures Sent(first, moved', faulty, base, ends, processing, ended, rc')
      ensures moved' + pending == moved + old(pending) && WellSized(pending)
      ensures Size(moved') <= count && Room(count, moved', remain, pending) && (batch != [] ==> remain < room)
    {
      ghost var done, over := processing, ended;
      var bytes;
      batch, remain, bytes := Pass(room, faulty);
      rc' := rc + bytes;
      moved' := moved + batch;
      assert WellSized(pending) && Size(moved') <= count && Room(count, moved', remain, pending) && (batch != [] ==> remain < room) by {
        FurtherFacts(moved, batch, pending, room, remain, count);
      }
      assert Sent(first, moved', faulty, base, ends, processing, ended, rc') by {
        FurtherFacts(moved, batch, pending, room, remain, count);
        SentMore(first, moved, batch, faulty, base, ends, done, over, rc);
      }
    }

    /**
      `fuse_dev_do_read` once something is pending. `arrivals(i)` are the requests sent while pass i copies out.
      `moved` are all requests taken from the pending list.
     */
    method DoRead(count: nat, arrivals: nat -> seq<Item>, faulty: Item -> bool)
      returns (rc: int, passes: nat, ghost moved: seq<Item>)
      requires pending != [] && WellSized(pending) && forall i :: WellSized(arrivals(i))
      modifies `pending, `processing, `ended
      ensures moved + pending == Stream(old(pending), arrivals, passes)
      ensures FirstPass(old(pending), count) <= moved && Size(moved) <= count
      ensures moved == [] <==> FirstPass(old(pending), count) == []
      ensures processing == old(processing) + Copied(moved, faulty) && ended == old(ended) + Failures(moved, faulty)
      ensures rc == if moved == [] then -EINVAL else Returned(FirstPass(old(pending), count), moved, faulty)
      ensures pending == [] || pending[0].len > count - Size(moved)
      ensures moved != [] ==> passes > 0
    {
      var batch, remain, bytes := Pass(count, faulty);
      passes := 0;
      ghost var first := batch;
      moved := first;
      if batch == [] {
        return -EINVAL, 0, [];
      }
      rc := if bytes == 0 then -EFAULT else bytes;
      assert WellSized(batch) && WellSized(pending) && Room(count, moved, remain, pending) by {
        FurtherFacts([], batch, pending, count, remain, count);
      }
      assert Sent(first, moved, faulty, old(processing), old(ended), processing, ended, rc) by {
        FirstSent(batch, faulty, old(processing), old(ended));
      }
      while true
        invariant moved + pending == Stream(old(pending), arrivals, passes) && WellSized(pending)
        invariant Size(moved) <= count && Room(count, moved, remain, pending)
        invariant Sent(first, moved, faulty, old(processing), old(ended), processing, ended, rc)
        decreases remain
      {
        StreamNext(old(pending), arrivals, passes, moved, pending);
        pending := pending + arrivals(passes);
        passes := passes + 1;
        if remain == 0 || pending == [] {
          return;
        }
        batch, remain, rc, moved := FurtherPass(remain, rc, faulty, count, moved, first, old(processing), old(ended));
        if batch == [] {
          return;
        }
      }
    }

    /** `fuse_dev_do_read`; `arrived` are the requests sent while it waits. */
    method Read(count: nat, nonblock: bool, stillConnected: bool, arrived: seq<Item>,
                arrivals: nat -> seq<Item>, faulty: Item -> bool)
      returns (rc: int, passes: nat, ghost moved: seq<Item>)
      requires WellSized(pending) && WellSized(arrived) && forall i :: WellSized(arrivals(i))
      modifies `pending, `processing, `ended, `connected
      ensures var err := WaitOutcome(old(pending), old(connected), nonblock, stillConnected, arrived);
              err != 0 ==> rc == err && moved == [] && processing == old(processing) && ended == old(ended)
      ensures WaitOutcome(old(pending), old(connected), nonblock, stillConnected, arrived) == 0 ==>
        var start := if old(pending) == [] then arrived else old(pending);
        var first := FirstPass(start, count);
        && moved + pending == Stream(start, arrivals, passes)
        && first <= moved && Size(moved) <= count && (moved == [] <==> first == [])
        && processing == old(processing) + Copied(moved, faulty) && ended == old(ended) + Failures(moved, faulty)
        && rc == (if moved == [] then -EINVAL else Returned(first, moved, faulty))
        && (pending == [] || pending[0].len > count - Size(moved))
        && (moved != [] ==> passes > 0)
    {
      var err := AwaitPending(nonblock, stillConnected, arrived);
      if err != 0 {
        return err, 0, [];
      }
      rc, passes, moved := DoRead(count, arrivals, faulty);
    }
  }

  function WaitOutcome(pending: seq<Item>, connected: bool, nonblock: bool, stillConnected: bool, arrived: seq<Item>): int {
    if pending != [] then 0
    else if nonblock && connected then -EAGAIN
    else if !stillConnected then -ENODEV
    else if arrived == [] then -ERESTARTSYS
    else 0
  }

  /** What was pending at the start, followed by everything sent during the first `passes` passes. */
  function Stream(start: seq<Item>, arrivals: nat -> seq<Item>, passes: nat): seq<Item> {
    if passes == 0 then start else Stream(start, arrivals, passes - 1) + arrivals(passes - 1)
  }

  lemma StreamNext(start: seq<Item>, arrivals: nat -> seq<Item>, passes: nat, moved: seq<Item>, pending: seq<Item>)
    requires moved + pending == Stream(start, arrivals, passes)
    requires WellSized(pending) && forall i :: WellSized(arrivals(i))
    ensures moved + (pending + arrivals(passes)) == Stream(start, arrivals, passes + 1)
    ensures WellSized(pending + arrivals(passes))
    ensures pending != [] ==> (pending + arrivals(passes))[0] == pending[0]
  {
    assert moved + (pending + arrivals(passes)) == (moved + pending) + arrivals(passes);
  }

  /** A further pass adds its bytes to what is returned. */
  lemma Extend(moved: seq<Item>, batch: seq<Item>, faulty: Item -> bool, first: seq<Item>)
    requires WellSized(batch) && moved != []
    ensures Size(moved + batch) == Size(moved) + Size(batch)
    ensures Copied(moved + batch, faulty) == Copied(moved, faulty) + Copied(batch, faulty)
    ensures Failures(moved + batch, faulty) == Failures(moved, faulty) + Failures(batch, faulty)
    ensures Size(Copied(batch, faulty)) == 0 <==> Copied(batch, faulty) == []
    ensures Copied(first, faulty) != [] && first <= moved ==> Copied(moved, faulty) != []
    ensures first <= moved ==>
      Returned(first, moved + batch, faulty) == Returned(first, moved, faulty) + Size(Copied(batch, faulty))
  {
    SizeConcat(moved, batch);
    OutcomeConcat(moved, batch, faulty);
    CopiedSize(batch, faulty);
    SizeConcat(Copied(moved, faulty), Copied(batch, faulty));
    if first <= moved {
      assert moved == first + moved[|first|..];
      OutcomeConcat(first, moved[|first|..], faulty);
    }
  }

  /** The room left after `moved`: none once a pending request did not fit. */
  ghost predicate Room(count: nat, moved: seq<Item>, remain: nat, pending: seq<Item>) {
    if pending == [] then remain == count - Size(moved) else remain == 0 && pending[0].len > count - Size(moved)
  }

  /** The list with batch[i] unlinked, and with it counted as copied. */
  lemma ListStep(base: seq<Item>, done: seq<Item>, batch: seq<Item>, i: nat)
    requires i < |batch|
    ensures var now := base + done + batch[i..];
            && now[..|now| - (|batch| - i)] + batch[i + 1..] == base + done + batch[i + 1..]
            && now == base + (done + [batch[i]]) + batch[i + 1..]
  {
    assert batch[i..] == [batch[i]] + batch[i + 1..];
  }

  /** What the read has done and would return after moving `moved`. */
  ghost predicate Sent(first: seq<Item>, moved: seq<Item>, faulty: Item -> bool, base: seq<Item>, ends: seq<(Item, int)>,
                       processing: seq<Item>, ended: seq<(Item, int)>, rc: int)
  {
    && first <= moved && moved != []
    && processing == base + Copied(moved, faulty) && ended == ends + Failures(moved, faulty)
    && rc == Returned(first, moved, faulty)
  }

  lemma FirstSent(batch: seq<Item>, faulty: Item -> bool, base: seq<Item>, ends: seq<(Item, int)>)
    requires batch != [] && WellSized(batch)
    ensures var bytes := Size(Copied(batch, faulty));
            Sent(batch, batch, faulty, base, ends, base + Copied(batch, faulty), ends + Failures(batch, faulty),
                 if bytes == 0 then -EFAULT else bytes)
  {
    CopiedSize(batch, faulty);
  }

  lemma Glue<T>(total: seq<T>, a: seq<T>, b: seq<T>, base: seq<T>, now: seq<T>)
    requires total == a + b && now == base + a
    ensures now + b == base + total
  {
  }

  lemma SentMore(first: seq<Item>, moved: seq<Item>, batch: seq<Item>, faulty: Item -> bool, base: seq<Item>,
                 ends: seq<(Item, int)>, processing: seq<Item>, ended: seq<(Item, int)>, rc: int)
    requires Sent(first, moved, faulty, base, ends, processing, ended, rc) && WellSized(batch)
    ensures Sent(first, moved + batch, faulty, base, ends, processing + Copied(batch, faulty), ended + Failures(batch, faulty),
                 rc + Size(Copied(batch, faulty)))
  {
    var total := moved + batch;
    assert total != [] && first <= total;
    assert processing + Copied(batch, faulty) == base + Copied(total, faulty) by {
      OutcomeConcat(moved, batch, faulty);
      Glue(Copied(total, faulty), Copied(moved, faulty), Copied(batch, faulty), base, processing);
    }
    assert ended + Failures(batch, faulty) == ends + Failures(total, faulty) by {
      OutcomeConcat(moved, batch, faulty);
      Glue(Failures(total, faulty), Failures(moved, faulty), Failures(batch, faulty), ends, ended);
    }
    assert Returned(first, total, faulty) == Returned(first, moved, faulty) + Size(Copied(batch, faulty)) by {
      Extend(moved, batch, faulty, first);
    }
  }

  lemma FurtherFacts(moved: seq<Item>, batch: seq<Item>, pending: seq<Item>, room: nat, remain: nat, count: nat)
    requires WellSized(batch + pending) && Size(moved) + room == count && Size(batch) <= room
    requires pending != [] ==> remain == 0 && Size(batch) + pending[0].len > room
    requires pending == [] ==> remain == room - Size(batch)
    ensures WellSized(batch) && WellSized(pending) && moved <= moved + batch
    ensures Size(moved + batch) <= count && Room(count, moved + batch, remain, pending)
    ensures batch != [] ==> remain < room
    ensures batch == [] ==> moved + batch == moved
  {
    assert forall i :: 0 <= i < |batch| ==> (batch + pending)[i] == batch[i];
    assert forall i :: 0 <= i < |pending| ==> (batch + pending)[|batch| + i] == pending[i];
    SizeConcat(moved, batch);
    if batch != [] {
      SizeAtLeast(batch);
    }
  }

  /** Without faults the value returned is exactly the bytes moved. */
  lemma ReturnsBytesMoved(first: seq<Item>, moved: seq<Item>, faulty: Item -> bool)
    requires (forall x :: !faulty(x)) && first != [] && moved != []
    ensures Returned(first, moved, faulty) == Size(moved) && Copied(moved, faulty) == moved && Failures(moved, faulty) == []
  {
    NothingFaulty(first, |first|, faulty);
    NothingFaulty(moved, |moved|, faulty);
    assert moved[..|moved|] == moved && first[..|first|] == first;
  }

  lemma {:induction false} SomeCopied(items: seq<Item>, n: nat, faulty: Item -> bool)
    requires n <= |items|
    ensures CopiedTo(items, n, faulty) != [] <==> exists i :: 0 <= i < n && !faulty(items[i])
  {
    if n > 0 {
      SomeCopied(items, n - 1, faulty);
    }
  }

  /**
    With faults, what a read returns is the bytes it copied out exactly when one of the pending requests that fit
    the buffer at the start of the read could be copied.
   */
  lemma ReturnsBytesCopiedExactly(pending: seq<Item>, count: nat, moved: seq<Item>, faulty: Item -> bool)
    requires FirstPass(pending, count) <= moved && WellSized(moved) && moved != []
    ensures Returned(FirstPass(pending, count), moved, faulty) == Size(Copied(moved, faulty)) <==>
            exists i :: 0 <= i < FitCount(pending, count) && !faulty(pending[i])
  {
    var n := FitCount(pending, count);
    var first := FirstPass(pending, count);
    CopiedSize(moved, faulty);
    assert moved == first + moved[n..];
    OutcomeConcat(first, moved[n..], faulty);
    SomeCopied(pending, n, faulty);
    OutcomePrefix(first, pending, n, faulty);
  }

  /** And otherwise: -EFAULT if nothing was copied at all, 14 less if only later passes copied something. */
  lemma ReturnsShortExactly(first: seq<Item>, moved: seq<Item>, faulty: Item -> bool)
    requires first <= moved && forall i :: 0 <= i < |first| ==> faulty(first[i])
    ensures (forall i :: 0 <= i < |moved| ==> faulty(moved[i])) ==> Returned(first, moved, faulty) == -EFAULT
    ensures (exists i :: 0 <= i < |moved| && !faulty(moved[i])) ==>
      Returned(first, moved, faulty) == Size(Copied(moved, faulty)) - EFAULT
  {
    SomeCopied(first, |first|, faulty);
    SomeCopied(moved, |moved|, faulty);
  }

  /** Requests of 40 bytes; the first cannot be copied, the second is sent during the first pass. */
  const Bad := Item(1, HEADER)
  const Good := Item(2, HEADER)

  function LateGood(pass: nat): seq<Item> {
    if pass == 0 then [Good] else []
  }

  lemma {:induction false} LateStream(passes: nat)
    requires passes > 0
    ensures Stream([Bad], LateGood, passes) == [Bad, Good]
  {
    if passes > 1 {
      LateStream(passes - 1);
    } else {
      assert Stream([Bad], LateGood, 0) == [Bad];
    }
  }

  lemma BothMoved(moved: seq<Item>, rest: seq<Item>)
    requires moved + rest == [Bad, Good] && [Bad] <= moved && (rest == [] || rest[0].len > 100 - Size(moved))
    ensures moved == [Bad, Good]
  {
    assert SizeTo([Bad], 0) == 0 && Size([Bad]) == 40;
    assert moved == (moved + rest)[..|moved|] && rest == (moved + rest)[|moved|..];
    assert moved == [Bad] ==> rest == [Good];
  }

  /** One of two requests reaches the daemon, 40 bytes; the read returns 26. */
  method ShortRead(q: Queue) returns (rc: int)
    requires q.pending == [Bad] && q.processing == []
    modifies q`pending, q`processing, q`ended
    ensures q.processing == [Good] && Size(q.processing) == 40 && rc == 26
  {
    var faulty := (x: Item) => x == Bad;
    var passes;
    ghost var moved;
    assert [Bad][1..] == [] && FirstPass([Bad], 100) == [Bad];
    rc, passes, moved := q.DoRead(100, LateGood, faulty);
    LateStream(passes);
    BothMoved(moved, q.pending);
    assert CopiedTo(moved, 0, faulty) == [] && CopiedTo(moved, 1, faulty) == [] && Copied(moved, faulty) == [Good];
    assert Copied([Bad], faulty) == CopiedTo([Bad], 0, faulty) == [];
    assert SizeTo([Good], 0) == 0 && Size([Good]) == 40;
  }
}
