/**
  Zero-write detection (dev.c, pxd.c): a write whose data is all zero is turned into a discard of
  the same range. The scan reads 8-byte words and then the bytes left over.
 */
module ZeroWrites {
  const WORD: nat := 8
  const PXD_WRITE: int := 8193
  const PXD_DISCARD: int := 8195
  const PXD_FLAGS_SYNC: bv32 := 0x3

  newtype Byte = x: int | 0 <= x < 256

  /** The number a little-endian machine reads from these bytes. */
  function Value(bytes: seq<Byte>): nat {
    if bytes == [] then 0 else bytes[0] as nat + 256 * Value(bytes[1..])
  }

  predicate AllZero(bytes: seq<Byte>) {
    forall i :: 0 <= i < |bytes| ==> bytes[i] == 0
  }

  lemma {:induction false} ValueZero(bytes: seq<Byte>)
    ensures Value(bytes) == 0 <==> AllZero(bytes)
  {
    if bytes != [] {
      ValueZero(bytes[1..]);
      assert forall i :: 1 <= i < |bytes| ==> bytes[i] == bytes[1..][i - 1];
    }
  }

  /** `__check_zero_page_write`, for every length. */
  method CheckZeroPageWrite(p: seq<Byte>) returns (zero: bool)
    ensures zero <==> AllZero(p)
  {
    var i := 0;
    while i < |p| / WORD
      invariant 0 <= i <= |p| / WORD && AllZero(p[..WORD * i])
    {
      var word := p[WORD * i..WORD * i + WORD];
      ValueZero(word);
      if Value(word) != 0 {
        assert exists k :: 0 <= k < |word| && word[k] != 0;
        return false;
      }
      assert p[..WORD * (i + 1)] == p[..WORD * i] + word;
      i := i + 1;
    }
    i := |p| - |p| % WORD;
    while i < |p|
      invariant 0 <= i <= |p| && AllZero(p[..i])
    {
      if p[i] != 0 {
        return false;
      }
      i := i + 1;
    }
    assert p[..i] == p;
    zero := true;
  }

  function Data(segments: seq<seq<Byte>>): seq<Byte> {
    if segments == [] then [] else Data(segments[..|segments| - 1]) + segments[|segments| - 1]
  }

  lemma {:induction false} DataZero(segments: seq<seq<Byte>>)
    ensures AllZero(Data(segments)) <==> forall i :: 0 <= i < |segments| ==> AllZero(segments[i])
  {
    if segments != [] {
      var n := |segments| - 1;
      var front, last := Data(segments[..n]), segments[n];
      DataZero(segments[..n]);
      assert AllZero(front + last) <==> AllZero(front) && AllZero(last) by {
        assert forall i :: 0 <= i < |front| ==> (front + last)[i] == front[i];
        assert forall i :: 0 <= i < |last| ==> last[i] == (front + last)[|front| + i];
      }
      assert forall i :: 0 <= i < n ==> segments[..n][i] == segments[i];
    }
  }

  class Request {
    var opcode: int
    const offset: nat
    const flags: bv32
    const segments: seq<seq<Byte>>

    constructor (opcode: int, offset: nat, flags: bv32, segments: seq<seq<Byte>>)
      ensures this.opcode == opcode && this.offset == offset && this.flags == flags && this.segments == segments
    {
      this.opcode, this.offset, this.flags, this.segments := opcode, offset, flags, segments;
    }

    /** The `size` sent to the daemon is that of the request's data. */
    function Size(): nat {
      |Data(segments)|
    }

    /** `__fuse_convert_zero_writes`. */
    method ConvertZeroWrites()
      modifies `opcode
      ensures opcode == if AllZero(Data(segments)) then PXD_DISCARD else old(opcode)
    {
      DataZero(segments);
      var i := 0;
      while i < |segments|
        invariant 0 <= i <= |segments| && opcode == old(opcode)
        invariant forall k :: 0 <= k < i ==> AllZero(segments[k])
      {
        var zero := CheckZeroPageWrite(segments[i]);
        if !zero {
          return;
        }
        i := i + 1;
      }
      opcode := PXD_DISCARD;
    }

    /** Detection when the daemon reads the request: only plain, non-empty writes. */
    method DetectAtRead(detect: bool)
      modifies `opcode
      ensures opcode == AtRead(detect, flags, segments, old(opcode))
    {
      if detect && opcode == PXD_WRITE && Size() != 0 && flags & PXD_FLAGS_SYNC == 0 {
        ConvertZeroWrites();
      }
    }

    /** Detection when a write request is built: flags are not looked at. */
    method BuildWrite(detect: bool)
      modifies `opcode
      ensures opcode == AtBuild(detect, segments)
    {
      opcode := PXD_WRITE;
      if detect && Size() != 0 {
        ConvertZeroWrites();
      }
    }
  }

  function AtRead(detect: bool, flags: bv32, segments: seq<seq<Byte>>, opcode: int): int {
    if detect && opcode == PXD_WRITE && Data(segments) != [] && flags & PXD_FLAGS_SYNC == 0 && AllZero(Data(segments))
    then PXD_DISCARD else opcode
  }

  function AtBuild(detect: bool, segments: seq<seq<Byte>>): int {
    if detect && Data(segments) != [] && AllZero(Data(segments)) then PXD_DISCARD else PXD_WRITE
  }

  /** The disk after the daemon carries out a write or a discard that reads back zeros. */
  function Carry(opcode: int, offset: nat, data: seq<Byte>, disk: seq<Byte>): (after: seq<Byte>)
    requires offset + |data| <= |disk|
    requires opcode == PXD_WRITE || opcode == PXD_DISCARD
    ensures |after| == |disk|
  {
    var patch := if opcode == PXD_DISCARD then seq(|data|, _ => 0) else data;
    disk[..offset] + patch + disk[offset + |data|..]
  }

  /** On any disk, discarding has the effect of the write exactly when the data is all zero. */
  lemma DiscardEqualsWrite(offset: nat, data: seq<Byte>, disk: seq<Byte>)
    requires offset + |data| <= |disk|
    ensures Carry(PXD_DISCARD, offset, data, disk) == Carry(PXD_WRITE, offset, data, disk) <==> AllZero(data)
  {
    var zeros: seq<Byte> := seq(|data|, _ => 0);
    var d, w := Carry(PXD_DISCARD, offset, data, disk), Carry(PXD_WRITE, offset, data, disk);
    assert d[offset..offset + |data|] == zeros;
    assert w[offset..offset + |data|] == data;
    if AllZero(data) {
      assert zeros == data;
    }
  }

  /** Whatever the settings at the two places, the disk ends as after the plain write. */
  lemma ConversionPreservesDisk(atBuild: bool, atRead: bool, flags: bv32, offset: nat, segments: seq<seq<Byte>>, disk: seq<Byte>)
    requires offset + |Data(segments)| <= |disk|
    ensures var opcode := AtRead(atRead, flags, segments, AtBuild(atBuild, segments));
            (opcode == PXD_WRITE || opcode == PXD_DISCARD) &&
            Carry(opcode, offset, Data(segments), disk) == Carry(PXD_WRITE, offset, Data(segments), disk)
  {
    DiscardEqualsWrite(offset, Data(segments), disk);
  }

  /**
    A write ends as a discard exactly if it has data, all of it zero, and is looked at when it is built, or when it is
    read and asks for no flush or FUA; nothing but a write is ever converted.
   */
  lemma ConvertedExactly(atBuild: bool, atRead: bool, flags: bv32, segments: seq<seq<Byte>>, other: int)
    ensures var opcode := AtRead(atRead, flags, segments, AtBuild(atBuild, segments));
            && (opcode == PXD_DISCARD <==>
                  Data(segments) != [] && AllZero(Data(segments)) && (atBuild || (atRead && flags & PXD_FLAGS_SYNC == 0)))
            && (opcode == PXD_DISCARD || opcode == PXD_WRITE)
    ensures other != PXD_WRITE ==> AtRead(atRead, flags, segments, other) == other
  {
  }

  /**
    With detection on throughout, the read's exemption of flush and FUA writes spares no request:
    the build has converted it already.
   */
  lemma SyncExemptionNeverApplies(flags: bv32, segments: seq<seq<Byte>>)
    ensures AtRead(true, flags, segments, AtBuild(true, segments)) == PXD_DISCARD
            <==> Data(segments) != [] && AllZero(Data(segments))
  {
  }
}
