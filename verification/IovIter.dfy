/**
  The scatter/gather iterator (iov_iter.c): loops that step through an array of memory
  segments, moving bytes between them and one buffer, with copies that may stop half way.

  The reference is the plain list of addresses the iterator still has to visit.
 */
module IovIter {

  type byte = bv8

  /** A run of `len` bytes from address `base`: an iovec, a kvec, or a bio_vec with its page mapped. */
  datatype Segment = Segment(base: nat, len: nat)

  /** Only user iovecs can fault. */
  datatype Kind = Iovec | Kvec | Bvec

  /** ToIter: buffer to segments. FromIter: segments to buffer. */
  datatype Dir = ToIter | FromIter

  function Min(a: nat, b: nat): nat {
    if a < b then a else b
  }

  // ------------------------------------------------------------------------
  // Addresses
  // ------------------------------------------------------------------------

  function Range(base: nat, len: nat): (r: seq<nat>)
    ensures |r| == len && forall k :: 0 <= k < len ==> r[k] == base + k
  {
    seq(len, k requires 0 <= k => base + k)
  }

  /** The bytes in the first `p` segments. */
  function Total(segs: seq<Segment>, p: nat): nat
    requires p <= |segs|
  {
    if p == 0 then 0 else Total(segs, p - 1) + segs[p - 1].len
  }

  /** The addresses of the first `p` segments, in order. */
  function AddrsTo(segs: seq<Segment>, p: nat): (addrs: seq<nat>)
    requires p <= |segs|
    ensures |addrs| == Total(segs, p)
  {
    if p == 0 then [] else AddrsTo(segs, p - 1) + Range(segs[p - 1].base, segs[p - 1].len)
  }

  /** All addresses of the segments, in order. */
  function Addrs(segs: seq<Segment>): (addrs: seq<nat>)
    ensures |addrs| == Total(segs, |segs|)
  {
    AddrsTo(segs, |segs|)
  }

  lemma {:induction false} AddrsToAt(segs: seq<Segment>, p: nat, k: nat, q: nat)
    requires p < q <= |segs| && k < segs[p].len
    ensures Total(segs, p) + k < Total(segs, q) && AddrsTo(segs, q)[Total(segs, p) + k] == segs[p].base + k
  {
    if p < q - 1 {
      AddrsToAt(segs, p, k, q - 1);
    }
  }

  lemma {:induction false} TotalGrows(segs: seq<Segment>, p: nat, q: nat)
    requires p <= q <= |segs|
    ensures Total(segs, p) <= Total(segs, q)
    decreases q
  {
    if p < q {
      TotalGrows(segs, p, q - 1);
    }
  }

  // ------------------------------------------------------------------------
  // Moving bytes
  // ------------------------------------------------------------------------

  datatype Mem = Mem(user: seq<byte>, buf: seq<byte>)

  /** One byte between address `addr` and buffer position `pos`. */
  function Move1(m: Mem, dir: Dir, addr: nat, pos: nat): Mem
    requires addr < |m.user| && pos < |m.buf|
  {
    if dir == ToIter then m.(user := m.user[addr := m.buf[pos]]) else m.(buf := m.buf[pos := m.user[addr]])
  }

  ghost predicate Fits(m: Mem, addrs: seq<nat>, pos: nat) {
    pos + |addrs| <= |m.buf| && forall k :: 0 <= k < |addrs| ==> addrs[k] < |m.user|
  }

  /** The memory after the first `n` bytes of a transfer between the addresses and the buffer from `pos` on. */
  ghost function MoveTo(m: Mem, dir: Dir, addrs: seq<nat>, n: nat, pos: nat): (r: Mem)
    requires Fits(m, addrs, pos) && n <= |addrs|
    ensures |r.user| == |m.user| && |r.buf| == |m.buf|
  {
    if n == 0 then m else Move1(MoveTo(m, dir, addrs, n - 1, pos), dir, addrs[n - 1], pos + n - 1)
  }

  ghost function Move(m: Mem, dir: Dir, addrs: seq<nat>, pos: nat): Mem
    requires Fits(m, addrs, pos)
  {
    MoveTo(m, dir, addrs, |addrs|, pos)
  }

  lemma {:induction false} MovePrefix(m: Mem, dir: Dir, addrs: seq<nat>, more: seq<nat>, n: nat, pos: nat)
    requires Fits(m, more, pos) && addrs <= more && n <= |addrs|
    ensures Fits(m, addrs, pos) && MoveTo(m, dir, more, n, pos) == MoveTo(m, dir, addrs, n, pos)
  {
    assert forall k :: 0 <= k < |addrs| ==> addrs[k] == more[k];
    if n > 0 {
      MovePrefix(m, dir, addrs, more, n - 1, pos);
    }
  }

  lemma {:induction false} GatherTo(m: Mem, addrs: seq<nat>, n: nat, pos: nat)
    requires Fits(m, addrs, pos) && n <= |addrs|
    ensures var r := MoveTo(m, FromIter, addrs, n, pos);
            && r.user == m.user
            && (forall k :: 0 <= k < n ==> r.buf[pos + k] == m.user[addrs[k]])
            && (forall j :: 0 <= j < |m.buf| && !(pos <= j < pos + n) ==> r.buf[j] == m.buf[j])
  {
    if n > 0 {
      GatherTo(m, addrs, n - 1, pos);
    }
  }

  /** What a gather means: buffer byte k is the byte at address k; nothing else changes. */
  lemma GatherMeaning(m: Mem, addrs: seq<nat>, pos: nat)
    requires Fits(m, addrs, pos)
    ensures var r := Move(m, FromIter, addrs, pos);
            && r.user == m.user
            && (forall k :: 0 <= k < |addrs| ==> r.buf[pos + k] == m.user[addrs[k]])
            && (forall j :: 0 <= j < |m.buf| && !(pos <= j < pos + |addrs|) ==> r.buf[j] == m.buf[j])
  {
    GatherTo(m, addrs, |addrs|, pos);
  }

  lemma {:induction false} ScatterTo(m: Mem, addrs: seq<nat>, n: nat, pos: nat)
    requires Fits(m, addrs, pos) && n <= |addrs|
    ensures var r := MoveTo(m, ToIter, addrs, n, pos);
            && r.buf == m.buf
            && (forall a :: 0 <= a < |m.user| && a !in addrs ==> r.user[a] == m.user[a])
            && ((forall i, j :: 0 <= i < j < |addrs| ==> addrs[i] != addrs[j]) ==>
                  forall k :: 0 <= k < n ==> r.user[addrs[k]] == m.buf[pos + k])
  {
    if n > 0 {
      ScatterTo(m, addrs, n - 1, pos);
    }
  }

  /** What a scatter means: if no address occurs twice, address k holds buffer byte k; nothing else changes. */
  lemma ScatterMeaning(m: Mem, addrs: seq<nat>, pos: nat)
    requires Fits(m, addrs, pos)
    ensures var r := Move(m, ToIter, addrs, pos);
            && r.buf == m.buf
            && (forall a :: 0 <= a < |m.user| && a !in addrs ==> r.user[a] == m.user[a])
            && ((forall i, j :: 0 <= i < j < |addrs| ==> addrs[i] != addrs[j]) ==>
                  forall k :: 0 <= k < |addrs| ==> r.user[addrs[k]] == m.buf[pos + k])
  {
    ScatterTo(m, addrs, |addrs|, pos);
  }

  method MoveByte(dir: Dir, user: array<byte>, addr: nat, buf: array<byte>, pos: nat)
    requires user != buf && addr < user.Length && pos < buf.Length
    modifies user, buf
    ensures Mem(user[..], buf[..]) == Move1(old(Mem(user[..], buf[..])), dir, addr, pos)
  {
    if dir == ToIter {
      user[addr] := buf[pos];
    } else {
      buf[pos] := user[addr];
    }
  }

  // ------------------------------------------------------------------------
  // The iterator
  // ------------------------------------------------------------------------

  class Iter {
    const kind: Kind
    const segs: seq<Segment>
    var cur: nat
    var nrSegs: nat
    var offset: nat
    var count: nat

    /** `iov_iter_init` and its kvec and bvec forms. */
    constructor (kind: Kind, segs: seq<Segment>, count: nat)
      requires count <= |Addrs(segs)|
      ensures Valid() && this.kind == kind && this.segs == segs
      ensures View() == Addrs(segs)[..count]
    {
      this.kind, this.segs := kind, segs;
      cur, nrSegs, offset, this.count := 0, |segs|, 0, count;
    }

    ghost predicate Valid()
      reads this
    {
      && cur <= |segs| && nrSegs == |segs| - cur
      && (if cur < |segs| then offset <= segs[cur].len else offset == 0)
      && At() + count <= |Addrs(segs)|
    }

    /** How many addresses lie before the current position. */
    ghost function At(): nat
      reads this
    {
      if cur <= |segs| then Total(segs, cur) + offset else 0
    }

    /** The addresses still to be visited. */
    ghost function View(): seq<nat>
      requires Valid()
      reads this
    {
      Addrs(segs)[At()..At() + count]
    }

    /** Every address still to be visited is in memory, and the buffer has room for `n` bytes from `pos`. */
    ghost predicate Reachable(user: array<byte>, buf: array<byte>, pos: nat, n: nat)
      reads this
    {
      && Valid() && user != buf && pos + n <= buf.Length && n <= count
      && forall k :: 0 <= k < count ==> View()[k] < user.Length
    }

    /** While bytes remain there is a current segment. */
    lemma Inside()
      requires Valid() && count > 0
      ensures Stands(segs, cur, offset, At())
    {
    }

    /** The end of every walk: a used-up segment is stepped over, and the position written back. */
    method Commit(p: nat, skip: nat, moved: nat)
      requires Valid() && moved <= count && cur <= p && Stands(segs, p, skip, At() + moved)
      modifies this
      ensures Valid() && View() == old(View())[moved..] && count == old(count) - moved
    {
      ghost var view := View();
      var q, at := p, skip;
      if skip == segs[p].len {
        q, at := p + 1, 0;
      }
      nrSegs := nrSegs - (q - cur);
      cur := q;
      count := count - moved;
      offset := at;
      assert View() == view[moved..];
    }

    /** `copy_to_iter` and `copy_from_iter`. */
    method CopyIter(dir: Dir, user: array<byte>, buf: array<byte>, bytes: nat, faults: nat -> nat) returns (copied: nat)
      requires Reachable(user, buf, 0, Min(bytes, count))
      modifies this, user, buf
      ensures Valid() && copied <= Min(bytes, old(count))
      ensures StopsAt(kind, segs, faults, old(At()), Min(bytes, old(count)), copied)
      ensures View() == old(View())[copied..] && count == old(count) - copied
      ensures Fits(old(Mem(user[..], buf[..])), old(View())[..copied], 0)
      ensures Mem(user[..], buf[..]) == Move(old(Mem(user[..], buf[..])), dir, old(View())[..copied], 0)
    {
      var n := Min(bytes, count);
      if n == 0 {
        copied := 0;
        NothingToStopAt(kind, segs, faults, At());
        return;
      }
      Inside();
      ghost var view := View()[..n];
      var p, skip;
      ghost var left;
      p, skip, copied, left := Iterate(kind, segs, dir, user, buf, n, faults, cur, offset, At(), view);
      assert view[..copied] == old(View())[..copied];
      MovePrefix(old(Mem(user[..], buf[..])), dir, view[..copied], view, copied, 0);
      Commit(p, skip, copied);
    }

    /** `iov_iter_advance`: the walk without a copy. */
    method Advance(size: nat)
      requires Valid() && size <= count && count > 0
      modifies this
      ensures Valid() && View() == old(View())[size..] && count == old(count) - size
    {
      Inside();
      var p, skip := Skip(segs, size, cur, offset, At());
      Commit(p, skip, size);
    }

    /**
      `copy_page_to_iter_iovec` and `copy_page_from_iter_iovec` on a page held in `buf`, from `pos` on: an attempt
      with page faults off, unless the first segment could not be faulted in, then a second one where it stopped.
     */
    method CopyPage(dir: Dir, user: array<byte>, buf: array<byte>, pos: nat, bytes: nat,
                    faultedIn: bool, atomicFaults: nat -> nat, faults: nat -> nat)
      returns (copied: nat, ghost first: nat)
      requires Reachable(user, buf, pos, Min(bytes, count))
      modifies this, user, buf
      ensures Valid() && copied <= Min(bytes, old(count))
      ensures StopsTwiceAt(kind, segs, faultedIn, atomicFaults, faults, old(At()), Min(bytes, old(count)), first, copied)
      ensures View() == old(View())[copied..] && count == old(count) - copied
      ensures Fits(old(Mem(user[..], buf[..])), old(View())[..copied], pos)
      ensures Mem(user[..], buf[..]) == Move(old(Mem(user[..], buf[..])), dir, old(View())[..copied], pos)
    {
      var n := Min(bytes, count);
      if n == 0 {
        copied, first := 0, 0;
        NothingToStopAt(kind, segs, atomicFaults, At());
        NothingToStopAt(kind, segs, faults, At());
        return;
      }
      Inside();
      ghost var view := View()[..n];
      var p, skip;
      ghost var mid, left, left';
      p, skip, copied, mid, left, left' := TwoPhases(kind, segs, dir, user, buf, pos, n, faultedIn, atomicFaults, faults, cur, offset, At(), view);
      first := mid.moved;
      assert view[..copied] == old(View())[..copied];
      MovePrefix(old(Mem(user[..], buf[..])), dir, view[..copied], view, copied, pos);
      Commit(p, skip, copied);
    }
  }

  // ------------------------------------------------------------------------
  // Walking
  // ------------------------------------------------------------------------

  /** Byte `skip` of segment `p` has `at` addresses before it. */
  ghost predicate Stands(segs: seq<Segment>, p: nat, skip: nat, at: nat) {
    p < |segs| && skip <= segs[p].len && Total(segs, p) + skip == at
  }

  /** Segment `p` ends after `at` addresses. */
  ghost predicate UsedUp(segs: seq<Segment>, p: nat, at: nat) {
    p < |segs| && Total(segs, p + 1) == at
  }

  /** Between two segments if the walk goes on, inside one if it is over. */
  ghost predicate Walked(segs: seq<Segment>, p: nat, skip: nat, at: nat, onward: bool) {
    if onward then UsedUp(segs, p, at) else Stands(segs, p, skip, at)
  }

  /** A place in the segments, and how many bytes it took to get there. */
  datatype Pos = Pos(p: nat, skip: nat, moved: nat)

  /** `view` is the run of addresses from number `start` on. */
  ghost predicate Run(segs: seq<Segment>, start: nat, view: seq<nat>) {
    start + |view| <= |Addrs(segs)| && view == Addrs(segs)[start..start + |view|]
  }

  lemma NextSegment(segs: seq<Segment>, p: nat, at: nat)
    requires UsedUp(segs, p, at) && at < |Addrs(segs)|
    ensures p + 1 < |segs| && Stands(segs, p + 1, 0, at)
    ensures segs[p + 1].len == 0 ==> UsedUp(segs, p + 1, at)
  {
  }

  /** What a copy of `k` bytes in segment `p` visits of the view. */
  lemma ViewRun(segs: seq<Segment>, start: nat, view: seq<nat>, p: nat, skip: nat, moved: nat, k: nat)
    requires Run(segs, start, view) && Stands(segs, p, skip, start + moved) && skip + k <= segs[p].len && moved + k <= |view|
    ensures forall j :: moved <= j < moved + k ==> view[j] == segs[p].base + skip + (j - moved)
  {
    forall j | moved <= j < moved + k ensures view[j] == segs[p].base + skip + (j - moved) {
      AddrsToAt(segs, p, skip + (j - moved), |segs|);
    }
  }

  /** Where a copy that starts at byte `skip0` of segment `p0` begins in segment `p`. */
  function From(p0: nat, skip0: nat, p: nat): nat {
    if p == p0 then skip0 else 0
  }

  /** Every segment before `p` was copied to its end: nothing was left over in any of them. */
  ghost predicate Clean(kind: Kind, segs: seq<Segment>, faults: nat -> nat, p0: nat, skip0: nat, p: nat)
    requires p <= |segs| && p0 < |segs| && skip0 <= segs[p0].len
  {
    forall q :: p0 <= q < p ==> Left(kind, faults, q, segs[q].len - From(p0, skip0, q)) == 0
  }

  /**
    A copy of `n` bytes that started at byte `skip0` of segment `p0` has come to byte `skip` of segment `p` and moved
    `moved` bytes; `left` bytes are left over of its last run.
   */
  ghost predicate Came(kind: Kind, segs: seq<Segment>, faults: nat -> nat, p0: nat, skip0: nat, n: nat, at: Pos, left: nat) {
    && p0 <= at.p < |segs| && skip0 <= segs[p0].len
    && Clean(kind, segs, faults, p0, skip0, at.p)
    && var begin := From(p0, skip0, at.p);
       && begin <= at.skip && at.skip - begin <= at.moved
       && at.moved - (at.skip - begin) <= n
       && var len := Min(n - (at.moved - (at.skip - begin)), segs[at.p].len - begin);
          left == Left(kind, faults, at.p, len) && at.skip == begin + len - left
  }

  /** It is over: all moved, or stopped by the first run that leaves something over. */
  ghost predicate Stops(kind: Kind, segs: seq<Segment>, faults: nat -> nat, p0: nat, skip0: nat, n: nat, at: Pos, left: nat) {
    Came(kind, segs, faults, p0, skip0, n, at, left) && at.moved <= n && (at.moved < n <==> left > 0)
  }

  lemma CameNext(kind: Kind, segs: seq<Segment>, faults: nat -> nat, p0: nat, skip0: nat, n: nat, at: Pos, to: Pos, left: nat)
    requires Came(kind, segs, faults, p0, skip0, n, at, 0) && at.skip == segs[at.p].len && at.moved < n
    requires to.p == at.p + 1 < |segs| && at.moved <= to.moved <= n && to.moved - at.moved == to.skip
    requires var len := Min(n - at.moved, segs[to.p].len); left == Left(kind, faults, to.p, len) && to.skip == len - left
    ensures Came(kind, segs, faults, p0, skip0, n, to, left)
  {
    forall q | p0 <= q < to.p ensures Left(kind, faults, q, segs[q].len - From(p0, skip0, q)) == 0 {
    }
  }

  // ------------------------------------------------------------------------
  // Where a copy stops, read off the faults
  // ------------------------------------------------------------------------

  function Max(a: nat, b: nat): nat {
    if a < b then b else a
  }

  /** A copy of `n` bytes from address number `start` on takes its bytes of segment `q` from here .. */
  function Begin(segs: seq<Segment>, start: nat, q: nat): nat
    requires q < |segs|
  {
    Max(start, Total(segs, q))
  }

  /** .. to here. */
  function Ending(segs: seq<Segment>, start: nat, n: nat, q: nat): nat
    requires q < |segs|
  {
    Min(start + n, Total(segs, q + 1))
  }

  /** It takes a byte from segment `q`. */
  predicate Takes(segs: seq<Segment>, start: nat, n: nat, q: nat) {
    q < |segs| && Begin(segs, start, q) < Ending(segs, start, n, q)
  }

  predicate FaultFree(segs: seq<Segment>, faults: nat -> nat, start: nat, n: nat) {
    forall q :: 0 <= q < |segs| && Takes(segs, start, n, q) ==> faults(q) == 0
  }

  predicate FirstFault(segs: seq<Segment>, faults: nat -> nat, start: nat, n: nat, q: nat) {
    && Takes(segs, start, n, q) && faults(q) > 0
    && forall r :: 0 <= r < q && Takes(segs, start, n, r) ==> faults(r) == 0
  }

  /** The copy stops in segment `q`, short of the end of its run there by as much as faults. */
  predicate StopsIn(segs: seq<Segment>, faults: nat -> nat, start: nat, n: nat, moved: nat, q: nat) {
    && FirstFault(segs, faults, start, n, q)
    && start + moved == Ending(segs, start, n, q) - Min(faults(q), Ending(segs, start, n, q) - Begin(segs, start, q))
  }

  /**
    Everything is moved exactly if no segment that a byte is taken from faults, or nothing can; otherwise the copy
    stops in the first one that does.
   */
  predicate StopsAt(kind: Kind, segs: seq<Segment>, faults: nat -> nat, start: nat, n: nat, moved: nat) {
    && moved <= n
    && (moved == n <==> kind != Iovec || FaultFree(segs, faults, start, n))
    && (moved < n ==> exists q :: 0 <= q < |segs| && StopsIn(segs, faults, start, n, moved, q))
  }

  /** The faults alone determine how far a copy gets. */
  lemma StopsAtOnce(kind: Kind, segs: seq<Segment>, faults: nat -> nat, start: nat, n: nat, moved: nat, moved': nat)
    requires StopsAt(kind, segs, faults, start, n, moved) && StopsAt(kind, segs, faults, start, n, moved')
    ensures moved == moved'
  {
    if moved < n {
      var q :| 0 <= q < |segs| && StopsIn(segs, faults, start, n, moved, q);
      var q' :| 0 <= q' < |segs| && StopsIn(segs, faults, start, n, moved', q');
      assert q == q';
    }
  }

  lemma NothingToStopAt(kind: Kind, segs: seq<Segment>, faults: nat -> nat, start: nat)
    ensures StopsAt(kind, segs, faults, start, 0, 0)
  {
  }

  /** Where the run of segment `q` begins, of a copy that starts at byte `skip0` of segment `p0`. */
  lemma RunBegins(segs: seq<Segment>, p0: nat, skip0: nat, start: nat, q: nat)
    requires Stands(segs, p0, skip0, start) && p0 <= q < |segs|
    ensures Begin(segs, start, q) == Total(segs, q) + From(p0, skip0, q)
  {
    if p0 < q {
      TotalGrows(segs, p0 + 1, q);
    }
  }

  lemma TakesFrom(segs: seq<Segment>, p0: nat, skip0: nat, start: nat, n: nat, q: nat)
    requires Stands(segs, p0, skip0, start) && Takes(segs, start, n, q)
    ensures p0 <= q
  {
    if q < p0 {
      TotalGrows(segs, q + 1, p0);
    }
  }

  /** No fault in the segments a walk has left behind. */
  lemma PassedFaultFree(segs: seq<Segment>, faults: nat -> nat, p0: nat, skip0: nat, start: nat, n: nat, p: nat, q: nat)
    requires Stands(segs, p0, skip0, start) && p <= |segs| && Clean(Iovec, segs, faults, p0, skip0, p)
    requires q < p && Takes(segs, start, n, q)
    ensures faults(q) == 0
  {
    TakesFrom(segs, p0, skip0, start, n, q);
    RunBegins(segs, p0, skip0, start, q);
    assert Left(Iovec, faults, q, segs[q].len - From(p0, skip0, q)) == 0;
  }

  /** The last run of a walk, seen from the faults. */
  lemma LastRun(kind: Kind, segs: seq<Segment>, faults: nat -> nat, p0: nat, skip0: nat, start: nat, n: nat, at: Pos, left: nat)
    requires Stands(segs, p0, skip0, start) && Stands(segs, at.p, at.skip, start + at.moved)
    requires Came(kind, segs, faults, p0, skip0, n, at, left)
    ensures var run := Ending(segs, start, n, at.p) - Begin(segs, start, at.p);
            run >= 0 && left == Left(kind, faults, at.p, run) && start + at.moved == Ending(segs, start, n, at.p) - left
  {
    RunBegins(segs, p0, skip0, start, at.p);
  }

  /** Past the place where everything has been moved, nothing is taken. */
  lemma TakesUpTo(segs: seq<Segment>, start: nat, n: nat, p: nat, skip: nat, q: nat)
    requires Stands(segs, p, skip, start + n) && Takes(segs, start, n, q)
    ensures q <= p
  {
    if p < q {
      TotalGrows(segs, p + 1, q);
    }
  }

  /** A copy stops where the faults say. */
  lemma StopsAsFaultsSay(kind: Kind, segs: seq<Segment>, faults: nat -> nat, p0: nat, skip0: nat, start: nat, n: nat, at: Pos, left: nat)
    requires Stands(segs, p0, skip0, start) && Stands(segs, at.p, at.skip, start + at.moved)
    requires Stops(kind, segs, faults, p0, skip0, n, at, left)
    ensures StopsAt(kind, segs, faults, start, n, at.moved)
  {
    LastRun(kind, segs, faults, p0, skip0, start, n, at, left);
    if kind == Iovec {
      forall q | 0 <= q < at.p && Takes(segs, start, n, q) ensures faults(q) == 0 {
        PassedFaultFree(segs, faults, p0, skip0, start, n, at.p, q);
      }
      LastRunDecides(segs, faults, start, n, at, left);
    }
  }

  lemma LastRunDecides(segs: seq<Segment>, faults: nat -> nat, start: nat, n: nat, at: Pos, left: nat)
    requires Stands(segs, at.p, at.skip, start + at.moved) && at.moved <= n && (at.moved < n <==> left > 0)
    requires forall q :: 0 <= q < at.p && Takes(segs, start, n, q) ==> faults(q) == 0
    requires var run := Ending(segs, start, n, at.p) - Begin(segs, start, at.p);
             run >= 0 && left == Left(Iovec, faults, at.p, run) && start + at.moved == Ending(segs, start, n, at.p) - left
    ensures StopsAt(Iovec, segs, faults, start, n, at.moved)
  {
    if left > 0 {
      assert StopsIn(segs, faults, start, n, at.moved, at.p);
    } else {
      forall q | 0 <= q < |segs| && Takes(segs, start, n, q) ensures faults(q) == 0 {
        TakesUpTo(segs, start, n, at.p, at.skip, q);
      }
    }
  }

  /** Where a copy stops is determined by the segments and the faults. */
  lemma StopsOnce(kind: Kind, segs: seq<Segment>, faults: nat -> nat, p0: nat, skip0: nat, n: nat, start: nat,
                  a: Pos, left: nat, b: Pos, left': nat)
    requires Stops(kind, segs, faults, p0, skip0, n, a, left) && Stops(kind, segs, faults, p0, skip0, n, b, left')
    requires Stands(segs, a.p, a.skip, start + a.moved) && Stands(segs, b.p, b.skip, start + b.moved)
    ensures a.moved == b.moved
  {
    if a.p < b.p {
      StopsEarlier(kind, segs, faults, p0, skip0, n, start, a, left, b, left');
    } else if b.p < a.p {
      StopsEarlier(kind, segs, faults, p0, skip0, n, start, b, left', a, left);
    }
  }

  lemma StopsEarlier(kind: Kind, segs: seq<Segment>, faults: nat -> nat, p0: nat, skip0: nat, n: nat, start: nat,
                     a: Pos, left: nat, b: Pos, left': nat)
    requires Stops(kind, segs, faults, p0, skip0, n, a, left) && Stops(kind, segs, faults, p0, skip0, n, b, left') && a.p < b.p
    requires Stands(segs, a.p, a.skip, start + a.moved) && Stands(segs, b.p, b.skip, start + b.moved)
    ensures a.moved == b.moved
  {
    TotalGrows(segs, a.p + 1, b.p);
    assert Left(kind, faults, a.p, segs[a.p].len - From(p0, skip0, a.p)) == 0;
  }

  /** One copy in segment `p`, as much as it and the request allow; returns how much was moved and left over. */
  method CopySegment(kind: Kind, segs: seq<Segment>, dir: Dir, user: array<byte>, buf: array<byte>, pos: nat, n: nat,
                     faults: nat -> nat, p: nat, skip: nat, moved: nat, ghost start: nat, ghost view: seq<nat>,
                     ghost m: Mem)
    returns (k: nat, left: nat)
    requires Stands(segs, p, skip, start + moved) && moved <= n == |view| && Run(segs, start, view)
    requires user != buf && Transferred(m, Mem(user[..], buf[..]), dir, view, moved, pos)
    modifies user, buf
    ensures moved + k <= n && Walked(segs, p, skip + k, start + moved + k, left == 0 && moved + k < n)
    ensures var len := Min(n - moved, segs[p].len - skip); left == Left(kind, faults, p, len) && k == len - left
    ensures Transferred(m, Mem(user[..], buf[..]), dir, view, moved + k, pos)
  {
    var len := Min(n - moved, segs[p].len - skip);
    left := Left(kind, faults, p, len);
    k := len - left;
    ViewRun(segs, start, view, p, skip, moved, k);
    MoveRun(dir, user, buf, pos, segs[p].base + skip, k, m, view, moved);
  }

  /** What one turn of a walk leaves: the walk goes on from the end of segment `p`, or is over. */
  ghost predicate TurnDone(kind: Kind, segs: seq<Segment>, faults: nat -> nat, n: nat, start: nat, p: nat, skip: nat, moved: nat, left: nat) {
    && moved <= n && Walked(segs, p, skip, start + moved, left == 0 && moved < n)
    && (left == 0 && moved < n ==> p < |segs| && skip == segs[p].len)
    && (left > 0 ==> moved < n)
  }

  /** The first turn, in segment `p`. */
  method FirstTurn(kind: Kind, segs: seq<Segment>, dir: Dir, user: array<byte>, buf: array<byte>, pos: nat, n: nat,
                   faults: nat -> nat, p: nat, skip: nat, moved: nat, ghost start: nat, ghost view: seq<nat>, ghost m: Mem)
    returns (skip': nat, moved': nat, left: nat, ghost to: Pos)
    requires Stands(segs, p, skip, start + moved) && moved < n == |view| && Run(segs, start, view)
    requires user != buf && Transferred(m, Mem(user[..], buf[..]), dir, view, moved, pos)
    modifies user, buf
    ensures moved <= moved' && to == Pos(p, skip', moved' - moved) && Came(kind, segs, faults, p, skip, n - moved, to, left)
    ensures TurnDone(kind, segs, faults, n, start, p, skip', moved', left)
    ensures Transferred(m, Mem(user[..], buf[..]), dir, view, moved', pos)
  {
    var k;
    k, left := CopySegment(kind, segs, dir, user, buf, pos, n, faults, p, skip, moved, start, view, m);
    skip', moved' := skip + k, moved + k;
    to := Pos(p, skip', k);
  }

  /** A further turn, in segment `p`, the one after `at`. */
  method NextTurn(kind: Kind, segs: seq<Segment>, dir: Dir, user: array<byte>, buf: array<byte>, pos: nat, n: nat,
                  faults: nat -> nat, p: nat, moved: nat, ghost start: nat, ghost view: seq<nat>, ghost m: Mem,
                  ghost p0: nat, ghost skip0: nat, ghost from: nat, ghost at: Pos)
    returns (skip': nat, moved': nat, left: nat, ghost to: Pos)
    requires from <= moved < n == |view| && Run(segs, start, view) && TurnDone(kind, segs, faults, n, start, at.p, at.skip, moved, 0)
    requires Came(kind, segs, faults, p0, skip0, n - from, at, 0) && p == at.p + 1 && at.moved == moved - from
    requires user != buf && Transferred(m, Mem(user[..], buf[..]), dir, view, moved, pos)
    modifies user, buf
    ensures p < |segs| && moved <= moved' && to == Pos(p, skip', moved' - from)
    ensures Came(kind, segs, faults, p0, skip0, n - from, to, left)
    ensures TurnDone(kind, segs, faults, n, start, p, skip', moved', left)
    ensures Transferred(m, Mem(user[..], buf[..]), dir, view, moved', pos)
  {
    NextSegment(segs, at.p, start + moved);
    skip', left := CopySegment(kind, segs, dir, user, buf, pos, n, faults, p, 0, moved, start, view, m);
    moved' := moved + skip';
    to := Pos(p, skip', moved' - from);
    assert Came(kind, segs, faults, p0, skip0, n - from, to, left) by {
      CameNext(kind, segs, faults, p0, skip0, n - from, at, to, left);
    }
  }

  /**
    The walk over the segments, from byte `skip0` of segment `p0` to the first fault or the end. `iterate_iovec`,
    `iterate_kvec` and `iterate_bvec` pass over an empty segment where the page copies copy nothing from it.
   */
  method CopyWalk(kind: Kind, segs: seq<Segment>, dir: Dir, user: array<byte>, buf: array<byte>, pos: nat, n: nat,
                  faults: nat -> nat, p0: nat, skip0: nat, moved0: nat, ghost start: nat, ghost view: seq<nat>, ghost m: Mem)
    returns (p: nat, skip: nat, moved: nat, ghost left: nat)
    requires Stands(segs, p0, skip0, start + moved0) && moved0 < n == |view| && Run(segs, start, view)
    requires user != buf && Transferred(m, Mem(user[..], buf[..]), dir, view, moved0, pos)
    modifies user, buf
    ensures moved0 <= moved <= n
    ensures p0 <= p && Stands(segs, p, skip, start + moved)
    ensures Stops(kind, segs, faults, p0, skip0, n - moved0, Pos(p, skip, moved - moved0), left)
    ensures Transferred(m, Mem(user[..], buf[..]), dir, view, moved, pos)
  {
    p := p0;
    var over;
    ghost var at;
    skip, moved, over, at := FirstTurn(kind, segs, dir, user, buf, pos, n, faults, p0, skip0, moved0, start, view, m);
    while over == 0 && moved < n
      invariant p0 <= p && moved0 <= moved && at == Pos(p, skip, moved - moved0)
      invariant TurnDone(kind, segs, faults, n, start, p, skip, moved, over)
      invariant Came(kind, segs, faults, p0, skip0, n - moved0, at, over)
      invariant Transferred(m, Mem(user[..], buf[..]), dir, view, moved, pos)
      decreases |segs| - p
    {
      p := p + 1;
      skip, moved, over, at := NextTurn(kind, segs, dir, user, buf, pos, n, faults, p, moved, start, view, m, p0, skip0, moved0, at);
    }
    left := over;
    WalkOver(kind, segs, faults, p0, skip0, n, start, moved0, moved, at, left);
  }

  lemma WalkOver(kind: Kind, segs: seq<Segment>, faults: nat -> nat, p0: nat, skip0: nat, n: nat, start: nat, moved0: nat, moved: nat,
                 at: Pos, left: nat)
    requires moved0 <= n && TurnDone(kind, segs, faults, n, start, at.p, at.skip, moved, left) && (left > 0 || moved == n)
    requires Came(kind, segs, faults, p0, skip0, n - moved0, at, left) && moved0 <= moved && at.moved == moved - moved0
    ensures Stands(segs, at.p, at.skip, start + moved) && Stops(kind, segs, faults, p0, skip0, n - moved0, at, left)
  {
  }

  /** `iterate_iovec`, `iterate_kvec`, `iterate_bvec` around a copy of `n` bytes. */
  method Iterate(kind: Kind, segs: seq<Segment>, dir: Dir, user: array<byte>, buf: array<byte>, n: nat, faults: nat -> nat,
                 cur: nat, offset: nat, ghost start: nat, ghost view: seq<nat>)
    returns (p: nat, skip: nat, moved: nat, ghost left: nat)
    requires Stands(segs, cur, offset, start) && 0 < n == |view| && Run(segs, start, view)
    requires user != buf && Fits(Mem(user[..], buf[..]), view, 0)
    modifies user, buf
    ensures moved <= n
    ensures cur <= p && Stands(segs, p, skip, start + moved)
    ensures Stops(kind, segs, faults, cur, offset, n, Pos(p, skip, moved), left)
    ensures StopsAt(kind, segs, faults, start, n, moved)
    ensures Transferred(old(Mem(user[..], buf[..])), Mem(user[..], buf[..]), dir, view, moved, 0)
  {
    p, skip, moved, left := CopyWalk(kind, segs, dir, user, buf, 0, n, faults, cur, offset, 0, start, view, Mem(user[..], buf[..]));
    StopsAsFaultsSay(kind, segs, faults, cur, offset, start, n, Pos(p, skip, moved), left);
  }

  /** The same walk with nothing to do on the way. */
  method Skip(segs: seq<Segment>, size: nat, cur: nat, offset: nat, ghost start: nat) returns (p: nat, skip: nat)
    requires Stands(segs, cur, offset, start) && start + size <= |Addrs(segs)|
    ensures cur <= p && Stands(segs, p, skip, start + size)
  {
    p, skip := cur, offset;
    var moved := Min(size, segs[p].len - skip);
    skip := skip + moved;
    while moved < size
      invariant cur <= p && 0 <= moved <= size
      invariant Walked(segs, p, skip, start + moved, moved < size)
      decreases |segs| - p
    {
      NextSegment(segs, p, start + moved);
      p := p + 1;
      var len := Min(size - moved, segs[p].len);
      if len == 0 {
        continue;
      }
      skip := len;
      moved := moved + len;
    }
  }

  /** Where a page copy stops: the first phase, if there is one, at `mid`, and the second from there, with faults of its own. */
  ghost predicate StopsTwice(kind: Kind, segs: seq<Segment>, faultedIn: bool, atomicFaults: nat -> nat, faults: nat -> nat,
                             p0: nat, skip0: nat, n: nat, mid: Pos, left: nat, at: Pos, left': nat)
  {
    && (if faultedIn then Stops(kind, segs, atomicFaults, p0, skip0, n, mid, left) else mid == Pos(p0, skip0, 0))
    && mid.moved <= at.moved
    && (if mid.moved == n then at == mid
        else mid.moved < n && Stops(kind, segs, faults, mid.p, mid.skip, n - mid.moved, at.(moved := at.moved - mid.moved), left'))
  }

  /** The same on the faults: the first phase gets `first` bytes through, both together `all`. */
  predicate StopsTwiceAt(kind: Kind, segs: seq<Segment>, faultedIn: bool, atomicFaults: nat -> nat, faults: nat -> nat,
                         start: nat, n: nat, first: nat, all: nat)
  {
    && first <= all <= n
    && (if faultedIn then StopsAt(kind, segs, atomicFaults, start, n, first) else first == 0)
    && StopsAt(kind, segs, faults, start + first, n - first, all - first)
  }

  lemma StopsFirst(kind: Kind, segs: seq<Segment>, faultedIn: bool, faults: nat -> nat,
                   p0: nat, skip0: nat, start: nat, n: nat, mid: Pos, left: nat)
    requires Stands(segs, p0, skip0, start) && Stands(segs, mid.p, mid.skip, start + mid.moved)
    requires if faultedIn then Stops(kind, segs, faults, p0, skip0, n, mid, left) else mid == Pos(p0, skip0, 0)
    ensures if faultedIn then StopsAt(kind, segs, faults, start, n, mid.moved) else mid.moved == 0
  {
    if faultedIn {
      StopsAsFaultsSay(kind, segs, faults, p0, skip0, start, n, mid, left);
    }
  }

  lemma StopsThen(kind: Kind, segs: seq<Segment>, faults: nat -> nat, start: nat, n: nat, mid: Pos, at: Pos, left: nat)
    requires Stands(segs, mid.p, mid.skip, start + mid.moved) && Stands(segs, at.p, at.skip, start + at.moved)
    requires mid.moved <= n && mid.moved <= at.moved
    requires if mid.moved == n then at == mid
             else Stops(kind, segs, faults, mid.p, mid.skip, n - mid.moved, at.(moved := at.moved - mid.moved), left)
    ensures StopsAt(kind, segs, faults, start + mid.moved, n - mid.moved, at.moved - mid.moved)
  {
    if mid.moved == n {
      NothingToStopAt(kind, segs, faults, start + n);
    } else {
      StopsAsFaultsSay(kind, segs, faults, mid.p, mid.skip, start + mid.moved, n - mid.moved, at.(moved := at.moved - mid.moved), left);
    }
  }

  lemma StopsTwiceAsFaultsSay(kind: Kind, segs: seq<Segment>, faultedIn: bool, atomicFaults: nat -> nat, faults: nat -> nat,
                              p0: nat, skip0: nat, start: nat, n: nat, mid: Pos, left: nat, at: Pos, left': nat)
    requires Stands(segs, p0, skip0, start) && Stands(segs, mid.p, mid.skip, start + mid.moved) && Stands(segs, at.p, at.skip, start + at.moved)
    requires StopsTwice(kind, segs, faultedIn, atomicFaults, faults, p0, skip0, n, mid, left, at, left') && at.moved <= n
    ensures StopsTwiceAt(kind, segs, faultedIn, atomicFaults, faults, start, n, mid.moved, at.moved)
  {
    StopsFirst(kind, segs, faultedIn, atomicFaults, p0, skip0, start, n, mid, left);
    StopsThen(kind, segs, faults, start, n, mid, at, left');
  }

  /** The attempt with page faults off. */
  method FirstPhase(kind: Kind, segs: seq<Segment>, dir: Dir, user: array<byte>, buf: array<byte>, pos: nat, n: nat,
                    faultedIn: bool, faults: nat -> nat, cur: nat, offset: nat, ghost start: nat, ghost view: seq<nat>)
    returns (p: nat, skip: nat, moved: nat, ghost left: nat)
    requires Stands(segs, cur, offset, start) && 0 < n == |view| && Run(segs, start, view)
    requires user != buf && Fits(Mem(user[..], buf[..]), view, pos)
    modifies user, buf
    ensures moved <= n && cur <= p && Stands(segs, p, skip, start + moved)
    ensures if faultedIn then Stops(kind, segs, faults, cur, offset, n, Pos(p, skip, moved), left) else Pos(p, skip, moved) == Pos(cur, offset, 0)
    ensures Transferred(old(Mem(user[..], buf[..])), Mem(user[..], buf[..]), dir, view, moved, pos)
  {
    p, skip, moved, left := cur, offset, 0, 0;
    if faultedIn {
      p, skip, moved, left := CopyWalk(kind, segs, dir, user, buf, pos, n, faults, p, skip, moved, start, view, Mem(user[..], buf[..]));
    }
  }

  /** The second attempt, from where the first stopped, if it did not get through. */
  method SecondPhase(kind: Kind, segs: seq<Segment>, dir: Dir, user: array<byte>, buf: array<byte>, pos: nat, n: nat,
                     faults: nat -> nat, p0: nat, skip0: nat, moved0: nat, ghost start: nat, ghost view: seq<nat>, ghost m: Mem)
    returns (p: nat, skip: nat, moved: nat, ghost left: nat)
    requires Stands(segs, p0, skip0, start + moved0) && moved0 <= n == |view| && Run(segs, start, view)
    requires user != buf && Transferred(m, Mem(user[..], buf[..]), dir, view, moved0, pos)
    modifies user, buf
    ensures moved0 <= moved <= n
    ensures p0 <= p && Stands(segs, p, skip, start + moved)
    ensures if moved0 == n then Pos(p, skip, moved) == Pos(p0, skip0, moved0)
            else Stops(kind, segs, faults, p0, skip0, n - moved0, Pos(p, skip, moved - moved0), left)
    ensures Transferred(m, Mem(user[..], buf[..]), dir, view, moved, pos)
  {
    p, skip, moved, left := p0, skip0, moved0, 0;
    if moved < n {
      p, skip, moved, left := CopyWalk(kind, segs, dir, user, buf, pos, n, faults, p, skip, moved, start, view, m);
    }
  }

  /**
    The two phases of `copy_page_to_iter_iovec` and `copy_page_from_iter_iovec`: the second goes on from where the
    first stopped, in the middle of a segment, if it did not get through.
   */
  method TwoPhases(kind: Kind, segs: seq<Segment>, dir: Dir, user: array<byte>, buf: array<byte>, pos: nat, n: nat,
                   faultedIn: bool, atomicFaults: nat -> nat, faults: nat -> nat, cur: nat, offset: nat,
                   ghost start: nat, ghost view: seq<nat>)
    returns (p: nat, skip: nat, moved: nat, ghost mid: Pos, ghost left: nat, ghost left': nat)
    requires Stands(segs, cur, offset, start) && 0 < n == |view| && Run(segs, start, view)
    requires user != buf && Fits(Mem(user[..], buf[..]), view, pos)
    modifies user, buf
    ensures moved <= n
    ensures cur <= p && Stands(segs, p, skip, start + moved) && Stands(segs, mid.p, mid.skip, start + mid.moved)
    ensures StopsTwice(kind, segs, faultedIn, atomicFaults, faults, cur, offset, n, mid, left, Pos(p, skip, moved), left')
    ensures StopsTwiceAt(kind, segs, faultedIn, atomicFaults, faults, start, n, mid.moved, moved)
    ensures Transferred(old(Mem(user[..], buf[..])), Mem(user[..], buf[..]), dir, view, moved, pos)
  {
    ghost var m := Mem(user[..], buf[..]);
    p, skip, moved, left := FirstPhase(kind, segs, dir, user, buf, pos, n, faultedIn, atomicFaults, cur, offset, start, view);
    mid := Pos(p, skip, moved);
    p, skip, moved, left' := SecondPhase(kind, segs, dir, user, buf, pos, n, faults, p, skip, moved, start, view, m);
    StopsTwiceAsFaultsSay(kind, segs, faultedIn, atomicFaults, faults, cur, offset, start, n, mid, left, Pos(p, skip, moved), left');
  }

  /** How many bytes of a copy of `len` are left over: only user memory can fault. */
  function Left(kind: Kind, faults: nat -> nat, p: nat, len: nat): (left: nat)
    ensures left <= len && (left > 0 ==> kind == Iovec && faults(p) > 0)
  {
    if kind == Iovec then Min(faults(p), len) else 0
  }

  /** Memory has come from `m` to `now` by the first `moved` bytes of a transfer. */
  ghost predicate Transferred(m: Mem, now: Mem, dir: Dir, view: seq<nat>, moved: nat, pos: nat) {
    Fits(m, view, pos) && moved <= |view| && now == MoveTo(m, dir, view, moved, pos)
  }

  /**
    The bytes `__copy_to_user`, `__copy_from_user` or `memcpy` gets through: `k` bytes from address `addr` on, of a
    transfer that has come to byte `moved`.
   */
  method MoveRun(dir: Dir, user: array<byte>, buf: array<byte>, pos: nat, addr: nat, k: nat,
                 ghost m: Mem, ghost view: seq<nat>, moved: nat)
    requires user != buf && Transferred(m, Mem(user[..], buf[..]), dir, view, moved, pos)
    requires moved + k <= |view| && forall j :: moved <= j < moved + k ==> view[j] == addr + (j - moved)
    modifies user, buf
    ensures Transferred(m, Mem(user[..], buf[..]), dir, view, moved + k, pos)
  {
    var i := 0;
    while i < k
      invariant 0 <= i <= k
      invariant Transferred(m, Mem(user[..], buf[..]), dir, view, moved + i, pos)
    {
      assert view[moved + i] < |m.user|;
      MoveByte(dir, user, addr + i, buf, pos + moved + i);
      i := i + 1;
    }
  }
}
