/**
  PXD_READ_DATA (dev.c): the daemon fetches the data of a write request into its own iovecs,
  which arrive in batches of at most 64.

  A byte is named by its segment and its place in it; the copies themselves are those of the
  iterator, which without faults move as many bytes as both sides allow.
 */
module ReadData {
  import opened Errno

  const IOV_BUF_SIZE: nat := 64

  /** Byte `at` of segment `seg`. A correct transfer only names bytes with `at` below the segment's length. */
  datatype Label = Label(seg: nat, at: nat)

  function Min(a: nat, b: nat): nat {
    if a < b then a else b
  }

  function Sum(xs: seq<nat>): nat {
    if xs == [] then 0 else xs[0] + Sum(xs[1..])
  }

  lemma {:induction false} SumSplit(xs: seq<nat>, k: nat)
    requires k <= |xs|
    ensures Sum(xs) == Sum(xs[..k]) + Sum(xs[k..])
  {
    if k > 0 {
      assert xs[..k][1..] == xs[1..][..k - 1];
      SumSplit(xs[1..], k - 1);
    } else {
      assert xs[..k] == [] && xs[k..] == xs;
    }
  }

  function Labels(seg: nat, at: nat, n: nat): (ls: seq<Label>)
    ensures |ls| == n && forall k :: 0 <= k < n ==> ls[k] == Label(seg, at + k)
  {
    seq(n, k requires 0 <= k => Label(seg, at + k))
  }

  /** The bytes of segments j and up, one segment after the other. */
  function Whole(segs: seq<nat>, j: nat): seq<Label>
    requires j <= |segs|
    decreases |segs| - j
  {
    if j == |segs| then [] else Labels(j, 0, segs[j]) + Whole(segs, j + 1)
  }

  /** The same with `skip` bytes skipped on the way, as the loop skips them. */
  function Wanted(segs: seq<nat>, j: nat, skip: nat): seq<Label>
    requires j <= |segs|
    decreases |segs| - j
  {
    if j == |segs| then []
    else
      var c := Min(skip, segs[j]);
      Labels(j, c, segs[j] - c) + Wanted(segs, j + 1, skip - c)
  }

  /** Skipping segment by segment is dropping from the concatenation. */
  lemma {:induction false} WantedIsDrop(segs: seq<nat>, j: nat, skip: nat)
    requires j <= |segs|
    ensures Wanted(segs, j, skip) == Whole(segs, j)[Min(skip, |Whole(segs, j)|)..]
    decreases |segs| - j
  {
    if j < |segs| {
      var c := Min(skip, segs[j]);
      WantedIsDrop(segs, j + 1, skip - c);
      assert Labels(j, 0, segs[j])[c..] == Labels(j, c, segs[j] - c);
      DropConcat(Labels(j, 0, segs[j]), Whole(segs, j + 1), skip);
    }
  }

  /** Dropping from two sequences, one after the other. */
  lemma DropConcat(a: seq<Label>, b: seq<Label>, skip: nat)
    ensures (a + b)[Min(skip, |a + b|)..] == a[Min(skip, |a|)..] + b[Min(skip - Min(skip, |a|), |b|)..]
  {
    if skip <= |a| {
      assert (a + b)[skip..] == a[skip..] + b;
    } else {
      assert a[|a|..] == [];
    }
  }

  lemma {:induction false} WantedInBounds(segs: seq<nat>, j: nat, skip: nat, i: nat)
    requires j <= |segs| && i < |Wanted(segs, j, skip)|
    ensures var l := Wanted(segs, j, skip)[i]; l.seg < |segs| && l.at < segs[l.seg]
    decreases |segs| - j
  {
    var c := Min(skip, segs[j]);
    if i >= segs[j] - c {
      WantedInBounds(segs, j + 1, skip - c, i - (segs[j] - c));
    }
  }

  /**
    Whether the batches run out only between segments: `cap` is what the present batch still holds, `iovs` the
    lengths of the iovecs still to come, `cnt` how many of them the request announced.
   */
  predicate Aligned(segs: seq<nat>, j: nat, skip: nat, cap: nat, iovs: seq<nat>, cnt: nat)
    requires j <= |segs|
    decreases |segs| - j
  {
    if j == |segs| then true
    else
      var c := Min(skip, segs[j]);
      var need := segs[j] - c;
      var k := Min(cnt, IOV_BUF_SIZE);
      if need <= cap then Aligned(segs, j + 1, skip - c, cap - need, iovs, cnt)
      else if iovs == [] || k == 0 || k > |iovs| then true
      else cap == 0 && (need > Sum(iovs[..k]) || Aligned(segs, j + 1, skip - c, Sum(iovs[..k]) - need, iovs[k..], cnt - k))
  }

  /**
    Whether the transfer succeeds: whenever a segment does not fit into the present batch, the request carries no
    further iovecs at all (then the transfer ends there), or the next batch is announced and present and can hold
    the whole wanted part of that segment.
   */
  predicate Succeeds(segs: seq<nat>, j: nat, skip: nat, cap: nat, iovs: seq<nat>, cnt: nat)
    requires j <= |segs|
    decreases |segs| - j
  {
    if j == |segs| then true
    else
      var c := Min(skip, segs[j]);
      var need := segs[j] - c;
      var k := Min(cnt, IOV_BUF_SIZE);
      if need <= cap then Succeeds(segs, j + 1, skip - c, cap - need, iovs, cnt)
      else if iovs == [] then true
      else 0 < k <= |iovs| && need <= Sum(iovs[..k]) && Succeeds(segs, j + 1, skip - c, Sum(iovs[..k]) - need, iovs[k..], cnt - k)
  }

  /** `copy_in_read_data_iovec`: the next batch, and what it can hold. */
  method CopyInIovec(iovs: seq<nat>, cnt: nat) returns (ret: int, cap: nat, iovs': seq<nat>, cnt': nat)
    ensures ret == 0 || ret == -EFAULT
    ensures var k := Min(cnt, IOV_BUF_SIZE);
            && (ret == 0 <==> 0 < k <= |iovs|)
            && (ret == 0 ==> cap == Sum(iovs[..k]) && iovs' == iovs[k..] && cnt' == cnt - k && cap + Sum(iovs') == Sum(iovs))
  {
    var k := Min(cnt, IOV_BUF_SIZE);
    if cnt == 0 || k > |iovs| {
      return -EFAULT, 0, iovs, cnt;
    }
    SumSplit(iovs, k);
    ret, cap, iovs', cnt' := 0, Sum(iovs[..k]), iovs[k..], cnt - k;
  }

  /** An overread byte: one that lies past the end of its segment. */
  ghost predicate Overread(segs: seq<nat>, out: seq<Label>) {
    exists i :: 0 <= i < |out| && out[i].seg < |segs| && out[i].at >= segs[out[i].seg]
  }

  lemma OverreadGrows(segs: seq<nat>, out: seq<Label>, more: seq<Label>)
    ensures Overread(segs, out) ==> Overread(segs, out + more)
  {
    if Overread(segs, out) {
      var i :| 0 <= i < |out| && out[i].seg < |segs| && out[i].at >= segs[out[i].seg];
      assert (out + more)[i] == out[i];
    }
  }

  lemma OverreadNotWanted(segs: seq<nat>, skip: nat, out: seq<Label>)
    requires Overread(segs, out)
    ensures !(out <= Wanted(segs, 0, skip))
  {
    var i :| 0 <= i < |out| && out[i].seg < |segs| && out[i].at >= segs[out[i].seg];
    if i < |Wanted(segs, 0, skip)| {
      WantedInBounds(segs, 0, skip, i);
    }
  }

  /** One segment's turn: the bytes copied into the present batch and, if it runs out, into the next one. */
  method CopySegment(segs: seq<nat>, j: nat, c: nat, ghost skip: nat, cap0: nat, iovs0: seq<nat>, cnt0: nat)
    returns (ret: int, stop: bool, moved: seq<Label>, cap: nat, iovs: seq<nat>, cnt: nat, clean: bool)
    requires j < |segs| && c == Min(skip, segs[j])
    ensures ret == 0 || ret == -EFAULT
    ensures ret == 0 && clean && !stop ==> moved == Labels(j, c, segs[j] - c)
    ensures ret == 0 && stop ==> clean && iovs0 == [] && cap0 < segs[j] - c && moved == Labels(j, c, cap0)
    ensures ret == 0 && !clean ==> Overread(segs, moved)
    ensures ret == 0 && !stop ==> |moved| + cap + Sum(iovs) == cap0 + Sum(iovs0)
    ensures ret == 0 && !stop ==>
      (Aligned(segs, j, skip, cap0, iovs0, cnt0) <==> clean && Aligned(segs, j + 1, skip - c, cap, iovs, cnt))
    ensures ret == 0 && stop ==> Aligned(segs, j, skip, cap0, iovs0, cnt0)
    ensures ret == 0 ==> (Succeeds(segs, j, skip, cap0, iovs0, cnt0) <==> stop || Succeeds(segs, j + 1, skip - c, cap, iovs, cnt))
    ensures ret != 0 ==> !Succeeds(segs, j, skip, cap0, iovs0, cnt0)
  {
    ret, stop, moved, cap, iovs, cnt, clean := 0, false, [], cap0, iovs0, cnt0, true;
    var len := segs[j];
    if c < len {
      var copyThis := Min(len - c, cap);
      moved := Labels(j, c, copyThis);
      cap := cap - copyThis;
      if copyThis != len - c {
        if iovs == [] {
          stop := true;
          return;
        }
        ret, cap, iovs, cnt := CopyInIovec(iovs, cnt);
        if ret != 0 {
          return;
        }
        len := len - c;
        var again := Min(len, cap);
        moved := moved + Labels(j, c + copyThis, again);
        cap := cap - again;
        clean := copyThis == 0;
        if again != len {
          ret := -EFAULT;
          return;
        }
        if copyThis > 0 {
          var last := |moved| - 1;
          assert moved[last] == Label(j, c + copyThis + (len - 1));
        } else {
          assert moved == Labels(j, c, len);
        }
      }
    }
  }

  /** Before segment `j` the bytes delivered are those wanted so far, or one of them was overread. */
  ghost predicate Delivered(segs: seq<nat>, j: nat, skip: nat, wanted: seq<Label>, out: seq<Label>, clean: bool)
    requires j <= |segs|
  {
    if clean then wanted == out + Wanted(segs, j, skip) else Overread(segs, out)
  }

  lemma CopiedOne(segs: seq<nat>, j: nat, skip: nat, wanted: seq<Label>, out: seq<Label>, moved: seq<Label>, clean: bool, ok: bool)
    requires j < |segs| && Delivered(segs, j, skip, wanted, out, clean)
    requires var c := Min(skip, segs[j]); if ok then moved == Labels(j, c, segs[j] - c) else Overread(segs, moved)
    ensures Delivered(segs, j + 1, skip - Min(skip, segs[j]), wanted, out + moved, clean && ok)
  {
    OverreadGrows(segs, out, moved);
    if !ok {
      OverreadLater(segs, out, moved);
    }
  }

  /** One turn of the loop: the bytes so far, whether they are the right ones, and what is known of the rest. */
  method DeliverOne(segs: seq<nat>, j: nat, skip: nat, cap0: nat, iovs0: seq<nat>, cnt0: nat, out0: seq<Label>,
                    ghost wanted: seq<Label>, ghost clean0: bool, ghost offset: nat, ghost total: nat)
    returns (ret: int, stop: bool, cap: nat, iovs: seq<nat>, cnt: nat, out: seq<Label>, ghost clean: bool)
    requires j < |segs| && wanted == Wanted(segs, 0, offset) && Delivered(segs, j, skip, wanted, out0, clean0)
    requires |out0| + cap0 + Sum(iovs0) == total
    ensures ret == 0 || (ret == -EFAULT && !Succeeds(segs, j, skip, cap0, iovs0, cnt0))
    ensures ret == 0 && stop ==> Succeeds(segs, j, skip, cap0, iovs0, cnt0) && Aligned(segs, j, skip, cap0, iovs0, cnt0)
    ensures ret == 0 && stop ==> (clean0 <==> out == wanted[..Min(|wanted|, total)]) && (!clean0 ==> Overread(segs, out))
    ensures ret == 0 && !stop ==>
      var skip' := skip - Min(skip, segs[j]);
      && Delivered(segs, j + 1, skip', wanted, out, clean) && |out| + cap + Sum(iovs) == total
      && (clean && Aligned(segs, j + 1, skip', cap, iovs, cnt) <==> clean0 && Aligned(segs, j, skip, cap0, iovs0, cnt0))
      && (Succeeds(segs, j + 1, skip', cap, iovs, cnt) <==> Succeeds(segs, j, skip, cap0, iovs0, cnt0))
  {
    var moved, ok;
    clean := clean0;
    ret, stop, moved, cap, iovs, cnt, ok := CopySegment(segs, j, Min(skip, segs[j]), skip, cap0, iovs0, cnt0);
    out := out0 + moved;
    if ret != 0 {
      return;
    }
    if stop {
      Stopped(segs, j, skip, wanted, out0, moved, clean0, offset);
      assert Sum([]) == 0;
      return;
    }
    CopiedOne(segs, j, skip, wanted, out0, moved, clean0, ok);
    clean := clean0 && ok;
  }

  /** The loop over the request's segments, with a first batch that can hold `cap0` bytes. */
  method Deliver(segs: seq<nat>, offset: nat, cap0: nat, iovs: seq<nat>, cnt: nat) returns (ret: int, out: seq<Label>)
    ensures ret == if Succeeds(segs, 0, offset, cap0, iovs, cnt) then 0 else -EFAULT
    ensures ret == 0 ==>
      var wanted := Wanted(segs, 0, offset);
      Aligned(segs, 0, offset, cap0, iovs, cnt) <==> out == wanted[..Min(|wanted|, cap0 + Sum(iovs))]
    ensures ret == 0 && !Aligned(segs, 0, offset, cap0, iovs, cnt) ==> Overread(segs, out)
  {
    ghost var succeeds := Succeeds(segs, 0, offset, cap0, iovs, cnt);
    ghost var wanted, aligned := Wanted(segs, 0, offset), Aligned(segs, 0, offset, cap0, iovs, cnt);
    ghost var total, clean := cap0 + Sum(iovs), true;
    var cap: nat, rest: seq<nat>, left: nat := cap0, iovs, cnt;
    var skip: nat, j: nat, stop := offset, 0, false;
    ret, out := 0, [];
    while j < |segs|
      invariant 0 <= j <= |segs| && ret == 0
      invariant |out| + cap + Sum(rest) == total && Delivered(segs, j, skip, wanted, out, clean)
      invariant aligned <==> clean && Aligned(segs, j, skip, cap, rest, left)
      invariant succeeds <==> Succeeds(segs, j, skip, cap, rest, left)
    {
      ret, stop, cap, rest, left, out, clean := DeliverOne(segs, j, skip, cap, rest, left, out, wanted, clean, offset, total);
      if ret != 0 || stop {
        return;
      }
      skip := skip - Min(skip, segs[j]);
      j := j + 1;
    }
    Finished(segs, skip, wanted, out, clean, offset, total);
  }

  /** What the daemon's iovecs can hold once the unaligned start is passed over. */
  function Capacity(iovs: seq<nat>, adv: nat): nat {
    if adv <= Sum(iovs) then Sum(iovs) - adv else 0
  }

  /**
    `__fuse_notify_read_data`, without faults: `adv` bytes of the first batch are passed over when the request is
    not block-aligned. When it returns 0, the bytes delivered are the concatenation of the segments dropped by
    `offset` and cut off at the daemon's capacity exactly when the batches run out between segments.
   */
  method NotifyReadData(segs: seq<nat>, offset: nat, iovs: seq<nat>, cnt: nat, adv: nat) returns (ret: int, out: seq<Label>)
    requires 0 < Min(cnt, IOV_BUF_SIZE) <= |iovs| ==> adv <= Sum(iovs[..Min(cnt, IOV_BUF_SIZE)])
    ensures ret == if TransferSucceeds(segs, offset, iovs, cnt, adv) then 0 else -EFAULT
    ensures ret == 0 ==>
      var wanted := Whole(segs, 0)[Min(offset, |Whole(segs, 0)|)..];
      BatchesAligned(segs, offset, iovs, cnt, adv) <==> out == wanted[..Min(|wanted|, Capacity(iovs, adv))]
    ensures ret == 0 && !BatchesAligned(segs, offset, iovs, cnt, adv) ==> Overread(segs, out)
  {
    WantedIsDrop(segs, 0, offset);
    var cap, rest, left;
    ret, cap, rest, left := CopyInIovec(iovs, cnt);
    out := [];
    if ret == 0 {
      ret, out := Deliver(segs, offset, cap - adv, rest, left);
    }
  }

  /** A first batch is announced and present, and what follows succeeds. */
  predicate TransferSucceeds(segs: seq<nat>, offset: nat, iovs: seq<nat>, cnt: nat, adv: nat) {
    var k := Min(cnt, IOV_BUF_SIZE);
    0 < k <= |iovs| && adv <= Sum(iovs[..k]) && Succeeds(segs, 0, offset, Sum(iovs[..k]) - adv, iovs[k..], cnt - k)
  }

  predicate BatchesAligned(segs: seq<nat>, offset: nat, iovs: seq<nat>, cnt: nat, adv: nat)
    requires TransferSucceeds(segs, offset, iovs, cnt, adv)
  {
    var k := Min(cnt, IOV_BUF_SIZE);
    Aligned(segs, 0, offset, Sum(iovs[..k]) - adv, iovs[k..], cnt - k)
  }

  lemma {:induction false} NoFurtherBatch(segs: seq<nat>, j: nat, skip: nat, cap: nat, cnt: nat)
    requires j <= |segs|
    ensures Succeeds(segs, j, skip, cap, [], cnt) && Aligned(segs, j, skip, cap, [], cnt)
    decreases |segs| - j
  {
    if j < |segs| {
      var c := Min(skip, segs[j]);
      if segs[j] - c <= cap {
        NoFurtherBatch(segs, j + 1, skip - c, cap - (segs[j] - c), cnt);
      }
    }
  }

  /**
    A daemon that announces exactly the iovecs it sends, at most one batch of them, is always served: the transfer
    succeeds and delivers the right bytes, cut off at its capacity, however the segments lie.
   */
  lemma OneBatchServed(segs: seq<nat>, offset: nat, iovs: seq<nat>, adv: nat)
    requires 0 < |iovs| <= IOV_BUF_SIZE && adv <= Sum(iovs)
    ensures TransferSucceeds(segs, offset, iovs, |iovs|, adv) && BatchesAligned(segs, offset, iovs, |iovs|, adv)
  {
    assert iovs[..|iovs|] == iovs && iovs[|iovs|..] == [];
    NoFurtherBatch(segs, 0, offset, Sum(iovs) - adv, 0);
  }

  /** One that announces none, or more than it sends, is refused. */
  lemma AnnouncedMustBePresent(segs: seq<nat>, offset: nat, iovs: seq<nat>, cnt: nat, adv: nat)
    requires cnt == 0 || |iovs| < Min(cnt, IOV_BUF_SIZE)
    ensures !TransferSucceeds(segs, offset, iovs, cnt, adv)
  {
  }

  /** 65 iovecs: 64 that hold two bytes together, and one of eight. */
  function SplitIovecs(): seq<nat> {
    [2] + seq(63, _ => 0) + [8]
  }

  lemma {:induction false} SumZeros(n: nat)
    ensures Sum(seq(n, _ => 0)) == 0
  {
    if n > 0 {
      var zeros: seq<nat> := seq(n, _ => 0);
      assert zeros[1..] == seq(n - 1, _ => 0);
      SumZeros(n - 1);
    }
  }

  lemma SplitSums()
    ensures var iovs := SplitIovecs(); |iovs| == 65 && Sum(iovs[..64]) == 2 && iovs[64..] == [8] && Sum([8]) == 8
  {
    var first := SplitIovecs()[..64];
    assert first[1..] == seq(63, _ => 0);
    SumZeros(63);
    assert [8][1..] == [];
  }

  /** The failing family is real: a four-byte segment, and a first batch that ends inside it. */
  lemma MisalignedBatch()
    ensures TransferSucceeds([4], 0, SplitIovecs(), 65, 0) && !BatchesAligned([4], 0, SplitIovecs(), 65, 0)
  {
    SplitSums();
    assert [8][..1] == [8] && [8][1..] == [];
    assert Succeeds([4], 1, 0, 4, [], 0);
  }

  /** The transfer returns 0, and one of the bytes it delivered lies past the segment. */
  method MisalignedTransfer() returns (ret: int, out: seq<Label>)
    ensures ret == 0 && Overread([4], out)
  {
    MisalignedBatch();
    SplitSums();
    ret, out := NotifyReadData([4], 0, SplitIovecs(), 65, 0);
  }

  lemma OverreadLater(segs: seq<nat>, out: seq<Label>, more: seq<Label>)
    requires Overread(segs, more)
    ensures Overread(segs, out + more)
  {
    var i :| 0 <= i < |more| && more[i].seg < |segs| && more[i].at >= segs[more[i].seg];
    assert (out + more)[|out| + i] == more[i];
  }

  lemma Finished(segs: seq<nat>, skip: nat, wanted: seq<Label>, out: seq<Label>, clean: bool, offset: nat, capacity: nat)
    requires wanted == Wanted(segs, 0, offset) && Delivered(segs, |segs|, skip, wanted, out, clean) && |out| <= capacity
    ensures clean <==> out == wanted[..Min(|wanted|, capacity)]
    ensures !clean ==> Overread(segs, out)
  {
    if clean {
      assert out == wanted;
    } else {
      OverreadNotWanted(segs, offset, out);
    }
  }

  lemma Stopped(segs: seq<nat>, j: nat, skip: nat, wanted: seq<Label>, before: seq<Label>, moved: seq<Label>, clean: bool, offset: nat)
    requires j < |segs| && wanted == Wanted(segs, 0, offset)
    requires Delivered(segs, j, skip, wanted, before, clean)
    requires var c := Min(skip, segs[j]); |moved| < segs[j] - c && moved == Labels(j, c, |moved|)
    ensures clean <==> before + moved == wanted[..Min(|wanted|, |before + moved|)]
    ensures !clean ==> Overread(segs, before + moved)
  {
    if clean {
      var c := Min(skip, segs[j]);
      assert Labels(j, c, segs[j] - c)[..|moved|] == moved;
    } else {
      OverreadGrows(segs, before, moved);
      OverreadNotWanted(segs, offset, before + moved);
    }
  }
}
