/** The geometry that a finished image declares about itself, read through a
    bounded reader: the ISO 9660 volume and the UDF extents. */
module Geometry {
  import opened Common
  import opened UdfTag

  const ISO_DESCRIPTOR_SECTORS: nat := 256
  const UDF_DESCRIPTOR_SECTORS: nat := 256
  const RECOGNITION_SECTORS: nat := 32
  const MAXIMUM_READS: nat := ISO_DESCRIPTOR_SECTORS + RECOGNITION_SECTORS + UDF_DESCRIPTOR_SECTORS * 2 + 8
  const EXTENT_TYPE_UNIT: nat := 1073741824

  datatype Extent = Extent(sectorCount: int, startLba: int) {
    function End(): int { startLba + sectorCount }

    predicate Inside(total: int) {
      startLba >= 0 && sectorCount > 0 && End() <= total
    }
  }

  /** Reads whole sectors of one unchanging image, and refuses what lies outside
      it or goes beyond the budget. */
  class Reader {
    const image: seq<Buffer>
    var readCount: nat
    /** Whether a request was ever refused. */
    var boundExceeded: bool
    /** Whether a read was ever cut short. */
    ghost var incomplete: bool

    constructor (image: seq<Buffer>)
      requires Sectors(image)
      ensures this.image == image && readCount == 0 && !boundExceeded && !incomplete
    {
      this.image := image;
      readCount := 0;
      boundExceeded := false;
      incomplete := false;
    }

    method ReadSector(lba: int) returns (r: Result<Buffer>)
      requires Sectors(image)
      modifies this
      ensures boundExceeded == (old(boundExceeded) || !(0 <= lba < |image| && old(readCount) < MAXIMUM_READS))
      ensures old(readCount) <= readCount <= old(readCount) + 1
      ensures r.Ok? ==> 0 <= lba < |image| && r.value == image[lba] && |r.value| == SECTOR_BYTES
      ensures r.Err? ==> r.issue.MalformedMetadata?
      ensures incomplete == (old(incomplete) || (r.Err? && 0 <= lba < |image| && old(readCount) < MAXIMUM_READS))
    {
      if !SafeInteger(lba) || lba < 0 || lba >= |image| || readCount >= MAXIMUM_READS {
        boundExceeded := true;
        return Err(MalformedMetadata);
      }
      readCount := readCount + 1;
      var complete: bool := *;
      incomplete := incomplete || !complete;
      r := if complete then Ok(image[lba]) else Err(MalformedMetadata);
    }
  }

  /** An image of whole sectors, small enough for its numbers to be exact. */
  predicate Sectors(image: seq<Buffer>) {
    |image| <= MAX_SAFE_INTEGER && forall k :: 0 <= k < |image| ==> |image[k]| == SECTOR_BYTES
  }

  function CeilSectors(byteCount: nat): (n: nat)
    ensures n * SECTOR_BYTES >= byteCount && (n > 0 ==> (n - 1) * SECTOR_BYTES < byteCount)
  {
    (byteCount + SECTOR_BYTES - 1) / SECTOR_BYTES
  }

  function SectorCountForBytes(byteCount: nat): (r: Result<nat>)
    requires byteCount < 4294967296
    ensures r.Ok? <==> byteCount > 0
    ensures r.Ok? ==> r.value == CeilSectors(byteCount) && r.value > 0
  {
    if byteCount == 0 then Err(MalformedMetadata) else Ok(CeilSectors(byteCount))
  }

  function RequireInside(e: Extent, total: nat): (r: Result<Extent>)
    requires total <= MAX_SAFE_INTEGER
    ensures r.Ok? <==> e.Inside(total)
    ensures r.Ok? ==> r.value == e
    ensures r.Err? && SafeInteger(e.End()) && SafeInteger(e.startLba) && SafeInteger(e.sectorCount) ==>
              (r.issue.DefiniteTruncation? <==> e.startLba >= 0 && e.sectorCount > 0)
  {
    if !SafeInteger(e.startLba) || e.startLba < 0 || !SafeInteger(e.sectorCount) || e.sectorCount <= 0
       || !SafeInteger(e.End())
    then Err(MalformedMetadata)
    else if e.End() > total then Err(DefiniteTruncation)
    else Ok(e)
  }

  /** The extent written at `at`: a byte length and a first sector. */
  function RawExtent(b: Buffer, at: nat): Extent
    requires at + 8 <= |b|
  {
    Extent(CeilSectors(Read32(b, at)), Read32(b, at + 4))
  }

  function ReadExtent(b: Buffer, at: nat, total: nat, allowEmpty: bool): (r: Result<Option<Extent>>)
    requires at + 8 <= |b| && total <= MAX_SAFE_INTEGER
    ensures r.Ok? && r.value.Some? ==> r.value.value == RawExtent(b, at) && r.value.value.Inside(total)
    ensures r.Ok? && r.value.None? ==> allowEmpty && Read32(b, at) == 0 && Read32(b, at + 4) == 0
    ensures r.Ok? <==>
              if Read32(b, at) == 0 then allowEmpty && Read32(b, at + 4) == 0 else RawExtent(b, at).Inside(total)
    ensures r.Ok? ==> (r.value.Some? <==> Read32(b, at) > 0)
  {
    if Read32(b, at) == 0 then
      if !allowEmpty || Read32(b, at + 4) != 0 then Err(MalformedMetadata) else Ok(None)
    else
      var e :- RequireInside(RawExtent(b, at), total);
      Ok(Some(e))
  }

  /** The number at `at` is written in both byte orders, one after the other. */
  predicate Agree16(b: Buffer, at: nat)
    requires at + 4 <= |b|
  {
    Read16(b, at) == ByteAt(b, at + 2) * 256 + ByteAt(b, at + 3)
  }

  predicate Agree32(b: Buffer, at: nat)
    requires at + 8 <= |b|
  {
    Read32(b, at)
    == ByteAt(b, at + 4) * 16777216 + ByteAt(b, at + 5) * 65536 + ByteAt(b, at + 6) * 256 + ByteAt(b, at + 7)
  }

  function BothEndian16(b: Buffer, at: nat): (r: Result<nat>)
    requires at + 4 <= |b|
    ensures r.Ok? <==> Agree16(b, at)
    ensures r.Ok? ==> r.value == Read16(b, at) < 65536
    ensures r.Err? ==> r.issue.MalformedMetadata?
  {
    if !Agree16(b, at) then Err(MalformedMetadata) else Ok(Read16(b, at))
  }

  function BothEndian32(b: Buffer, at: nat): (r: Result<nat>)
    requires at + 8 <= |b|
    ensures r.Ok? <==> Agree32(b, at)
    ensures r.Ok? ==> r.value == Read32(b, at) < 4294967296
    ensures r.Err? ==> r.issue.MalformedMetadata?
  {
    if !Agree32(b, at) then Err(MalformedMetadata) else Ok(Read32(b, at))
  }

  datatype IsoView = IsoView(blockSize: nat, sequenceNumber: nat, setSize: nat, volumeSpaceSize: nat)

  function ViewOf(b: Buffer): IsoView
    requires |b| == SECTOR_BYTES
  {
    IsoView(Read16(b, 128), Read16(b, 124), Read16(b, 120), Read32(b, 80))
  }

  predicate ViewOk(v: IsoView, total: nat) {
    0 < v.volumeSpaceSize <= total && 0 < v.sequenceNumber <= v.setSize && v.blockSize == SECTOR_BYTES
  }

  const CD001: Buffer := [0x43, 0x44, 0x30, 0x30, 0x31]
  const JOLIET: seq<Buffer> := [[0x25, 0x2f, 0x40], [0x25, 0x2f, 0x43], [0x25, 0x2f, 0x45]]

  /** All numbers agree with themselves, and the view is possible. */
  predicate ViewReadable(b: Buffer, total: nat)
    requires |b| == SECTOR_BYTES
  {
    Agree32(b, 80) && Agree16(b, 120) && Agree16(b, 124) && Agree16(b, 128) && ViewOk(ViewOf(b), total)
  }

  function ParseView(b: Buffer, total: nat): (r: Result<IsoView>)
    requires |b| == SECTOR_BYTES
    ensures r.Ok? <==> ViewReadable(b, total)
    ensures r.Ok? ==> r.value == ViewOf(b)
  {
    var volumeSpaceSize :- BothEndian32(b, 80);
    var setSize :- BothEndian16(b, 120);
    var sequenceNumber :- BothEndian16(b, 124);
    var blockSize :- BothEndian16(b, 128);
    if volumeSpaceSize <= 0 || setSize <= 0 || sequenceNumber <= 0 || sequenceNumber > setSize
       || blockSize != SECTOR_BYTES
    then Err(MalformedMetadata)
    else if volumeSpaceSize > total then Err(DefiniteTruncation)
    else Ok(IsoView(blockSize, sequenceNumber, setSize, volumeSpaceSize))
  }

  predicate IsIso(b: Buffer)
    requires |b| == SECTOR_BYTES
  {
    b[1..6] == CD001
  }

  predicate DeclaresVolume(b: Buffer)
    requires |b| == SECTOR_BYTES
  {
    b[0] == 1 || b[0] == 2
  }

  /** The `n` descriptors from sector 16 on, none of them the terminator. */
  predicate IsoRun(image: seq<Buffer>, n: nat)
    requires Sectors(image) && 16 + n <= |image|
  {
    forall k :: 16 <= k < 16 + n ==> IsIso(image[k]) && image[k][6] == 1 && image[k][0] != 255
  }

  /** A volume descriptor that can be read, of a known kind, and that declares `v`. */
  predicate VolumeOk(b: Buffer, v: IsoView, total: nat)
    requires |b| == SECTOR_BYTES
  {
    DeclaresVolume(b) ==> KindKnown(b) && ViewReadable(b, total) && ViewOf(b) == v
  }

  predicate KindKnown(b: Buffer)
    requires |b| == SECTOR_BYTES
  {
    b[0] == 2 ==> b[88..91] in JOLIET
  }

  /** The descriptor sequence ends within its bound, has one primary volume, and
      every volume it declares is `v`. */
  ghost predicate IsoDeclares(image: seq<Buffer>, v: IsoView) {
    Sectors(image) && exists n: nat :: IsoEndsAt(image, v, n)
  }

  ghost predicate IsoEndsAt(image: seq<Buffer>, v: IsoView, n: nat)
    requires Sectors(image)
  {
    && n < ISO_DESCRIPTOR_SECTORS && 16 + n < |image| && IsoRun(image, n)
    && IsIso(image[16 + n]) && image[16 + n][6] == 1 && image[16 + n][0] == 255
    && (exists k :: 16 <= k < 16 + n && image[k][0] == 1)
    && OnePrimary(image, n)
    && (forall k :: 16 <= k < 16 + n ==> VolumeOk(image[k], v, |image|))
  }

  predicate OnePrimary(image: seq<Buffer>, n: nat)
    requires Sectors(image) && 16 + n <= |image|
  {
    forall j, k :: 16 <= j < k < 16 + n && image[j][0] == 1 ==> image[k][0] != 1
  }

  predicate NotIso(image: seq<Buffer>) {
    |image| <= 16 || |image[16]| != SECTOR_BYTES || !IsIso(image[16])
  }

  /** A sequence declares one view only. */
  lemma IsoUnique(image: seq<Buffer>, v: IsoView, w: IsoView)
    requires IsoDeclares(image, v)
    ensures !NotIso(image) && ViewOk(v, |image|)
    ensures IsoDeclares(image, w) ==> v == w
  {
    hide ViewOk, ViewOf;
    var n: nat :| IsoEndsAt(image, v, n);
    var k :| 16 <= k < 16 + n && image[k][0] == 1;
    assert VolumeOk(image[k], v, |image|);
    assert IsIso(image[16]) && ViewReadable(image[k], |image|);
    if IsoDeclares(image, w) {
      var m: nat :| IsoEndsAt(image, w, m);
      assert n == m;
      assert VolumeOk(image[k], w, |image|);
    }
  }

  /** What the descriptors before `i` leave open, the one at `i` rules out. */
  ghost predicate IsoBlocked(image: seq<Buffer>, i: nat)
    requires Sectors(image)
  {
    || i >= ISO_DESCRIPTOR_SECTORS || 16 + i >= |image| || !IsIso(image[16 + i]) || image[16 + i][6] != 1
    || (image[16 + i][0] != 255 && DeclaresVolume(image[16 + i])
        && (!KindKnown(image[16 + i]) || !ViewReadable(image[16 + i], |image|)
            || exists k :: 16 <= k < 16 + i && image[k][0] == 1 && image[16 + i][0] == 1))
  }

  lemma IsoRefused(image: seq<Buffer>, i: nat, v: IsoView)
    requires Sectors(image) && 16 + i <= |image| && IsoRun(image, i) && IsoBlocked(image, i)
    ensures !IsoDeclares(image, v)
  {
    hide ViewReadable, ViewOf;
    forall n: nat | IsoEndsAt(image, v, n)
      ensures i < n && VolumeOk(image[16 + i], v, |image|)
    {
    }
  }

  /** At the terminator a primary volume is missing, or two volumes disagree. */
  lemma IsoUnfinished(image: seq<Buffer>, i: nat, v: IsoView)
    requires Sectors(image) && 16 + i < |image| && IsoRun(image, i) && image[16 + i][0] == 255
    requires
      || (forall k :: 16 <= k < 16 + i ==> image[k][0] != 1)
      || exists j, k :: 16 <= j < 16 + i && 16 <= k < 16 + i && DeclaresVolume(image[j]) && DeclaresVolume(image[k])
                        && ViewOf(image[j]) != ViewOf(image[k])
    ensures !IsoDeclares(image, v)
  {
    hide ViewReadable, ViewOf;
    forall n: nat | IsoEndsAt(image, v, n)
      ensures n == i && forall k :: 16 <= k < 16 + n ==> VolumeOk(image[k], v, |image|)
    {
    }
  }

  method ValidateIso(reader: Reader) returns (r: Result<Option<IsoView>>)
    requires Sectors(reader.image) && reader.readCount == 0 && !reader.boundExceeded && !reader.incomplete
    modifies reader
    ensures !reader.boundExceeded && reader.readCount <= ISO_DESCRIPTOR_SECTORS
    ensures r.Ok? ==> !reader.incomplete
    ensures r.Ok? && r.value.Some? ==> IsoDeclares(reader.image, r.value.value)
    ensures r.Ok? && r.value.None? ==> NotIso(reader.image)
    ensures r.Err? && !reader.incomplete ==> !NotIso(reader.image) && forall v :: !IsoDeclares(reader.image, v)
  {
    hide ViewOk, ViewOf, ParseView, ViewReadable, IsoDeclares, ViewsOf, KindKnown;
    var image := reader.image;
    if |image| <= 16 {
      return Ok(None);
    }
    var first :- reader.ReadSector(16);
    if !IsIso(first) {
      return Ok(None);
    }
    var views: seq<IsoView> := [];
    ghost var made: seq<nat> := [];
    NoViews(image);
    var primaryViews := 0;
    var sawTerminator := false;
    var index := 0;
    while index < ISO_DESCRIPTOR_SECTORS && !sawTerminator
      invariant index <= ISO_DESCRIPTOR_SECTORS && 16 + index <= |image| && IsoRun(image, index)
      invariant !reader.boundExceeded && reader.readCount <= Max(1, if sawTerminator then index + 1 else index) as int
      invariant !reader.incomplete
      invariant sawTerminator ==> index < ISO_DESCRIPTOR_SECTORS && 16 + index < |image|
      invariant sawTerminator ==>
                  IsIso(image[16 + index]) && image[16 + index][6] == 1 && image[16 + index][0] == 255
      invariant primaryViews == 0 <==> forall k :: 16 <= k < 16 + index ==> image[k][0] != 1
      invariant 0 <= primaryViews <= 1 && OnePrimary(image, index)
      invariant ViewsOf(image, index, views, made)
      decreases ISO_DESCRIPTOR_SECTORS - index, !sawTerminator
    {
      var lba := 16 + index;
      ViewsPush(image, index, views, made);
      if lba >= |image| {
        AllRefused(image, index);
        return Err(MalformedMetadata);
      }
      var descriptor := first;
      if index > 0 {
        descriptor :- reader.ReadSector(lba);
      }
      if !IsIso(descriptor) || descriptor[6] != 1 {
        AllRefused(image, index);
        return Err(MalformedMetadata);
      }
      if descriptor[0] == 255 {
        sawTerminator := true;
      } else {
        if DeclaresVolume(descriptor) {
          var view;
          view, primaryViews :- ReadVolume(image, index, primaryViews);
          views := views + [view];
          made := made + [lba];
        }
        index := index + 1;
      }
    }
    r := JudgeIso(image, index, sawTerminator, primaryViews, views, made);
  }

  /** One volume descriptor of the sequence. */
  method ReadVolume(image: seq<Buffer>, index: nat, primaryViews: nat)
    returns (r: Result<IsoView>, primary: nat)
    requires Sectors(image) && 16 + index < |image| && index < ISO_DESCRIPTOR_SECTORS && IsoRun(image, index)
    requires image[16 + index][0] != 255 && DeclaresVolume(image[16 + index])
    requires primaryViews <= 1
    requires primaryViews == 0 <==> forall k :: 16 <= k < 16 + index ==> image[k][0] != 1
    ensures r.Ok? ==>
              && KindKnown(image[16 + index]) && ViewReadable(image[16 + index], |image|)
              && r.value == ViewOf(image[16 + index])
              && primary == primaryViews + (if image[16 + index][0] == 1 then 1 else 0) && primary <= 1
    ensures r.Err? ==> forall v :: !IsoDeclares(image, v)
  {
    hide ViewOk, ViewOf, ParseView, ViewReadable, IsoDeclares;
    var descriptor := image[16 + index];
    primary := primaryViews;
    if descriptor[0] == 2 && descriptor[88..91] !in JOLIET {
      AllRefused(image, index);
      r := Err(UnsupportedLayout);
      return;
    }
    if descriptor[0] == 1 {
      primary := primary + 1;
      if primary > 1 {
        AllRefused(image, index);
        r := Err(MalformedMetadata);
        return;
      }
    }
    r := ParseView(descriptor, |image|);
    if r.Err? {
      AllRefused(image, index);
    }
  }

  lemma AllRefused(image: seq<Buffer>, i: nat)
    requires Sectors(image) && 16 + i <= |image| && IsoRun(image, i) && IsoBlocked(image, i)
    ensures forall v :: !IsoDeclares(image, v)
  {
    forall v
      ensures !IsoDeclares(image, v)
    {
      IsoRefused(image, i, v);
    }
  }

  /** The views are those of the volumes among the first `n` descriptors, each readable. */
  ghost predicate ViewsOf(image: seq<Buffer>, n: nat, views: seq<IsoView>, made: seq<nat>)
    requires Sectors(image) && 16 + n <= |image|
  {
    && |views| == |made|
    && (forall i :: 0 <= i < |made| ==>
          && 16 <= made[i] < 16 + n && DeclaresVolume(image[made[i]]) && views[i] == ViewOf(image[made[i]]))
    && (forall k: nat :: 16 <= k < 16 + n && DeclaresVolume(image[k]) ==>
          k in made && KindKnown(image[k]) && ViewReadable(image[k], |image|))
  }

  lemma NoViews(image: seq<Buffer>)
    requires Sectors(image) && 16 <= |image|
    ensures ViewsOf(image, 0, [], [])
  {
  }

  lemma ViewsPush(image: seq<Buffer>, n: nat, views: seq<IsoView>, made: seq<nat>)
    requires Sectors(image) && 16 + n <= |image| && ViewsOf(image, n, views, made)
    ensures 16 + n < |image| && !DeclaresVolume(image[16 + n]) ==> ViewsOf(image, n + 1, views, made)
    ensures 16 + n < |image| && DeclaresVolume(image[16 + n])
            && KindKnown(image[16 + n]) && ViewReadable(image[16 + n], |image|) ==>
              ViewsOf(image, n + 1, views + [ViewOf(image[16 + n])], made + [16 + n])
  {
    hide ViewReadable, ViewOf;
  }

  /** The end of the ISO check, once the sequence has been read. */
  method JudgeIso(image: seq<Buffer>, index: nat, sawTerminator: bool, primaryViews: int, views: seq<IsoView>,
                  ghost made: seq<nat>)
    returns (r: Result<Option<IsoView>>)
    requires Sectors(image) && index <= ISO_DESCRIPTOR_SECTORS && 16 + index <= |image| && IsoRun(image, index)
    requires !sawTerminator ==> index == ISO_DESCRIPTOR_SECTORS
    requires sawTerminator ==>
               && index < ISO_DESCRIPTOR_SECTORS && 16 + index < |image|
               && IsIso(image[16 + index]) && image[16 + index][6] == 1 && image[16 + index][0] == 255
    requires primaryViews == 0 <==> forall k :: 16 <= k < 16 + index ==> image[k][0] != 1
    requires 0 <= primaryViews <= 1 && OnePrimary(image, index) && ViewsOf(image, index, views, made)
    ensures r.Ok? ==> r.value.Some? && IsoDeclares(image, r.value.value)
    ensures r.Err? ==> forall v :: !IsoDeclares(image, v)
  {
    hide ViewOk, ViewOf, ViewReadable;
    if !sawTerminator {
      AllRefused(image, index);
      return Err(MalformedMetadata);
    }
    if primaryViews == 1 {
      var k: nat :| 16 <= k < 16 + index && image[k][0] == 1;
      assert k in made;
    }
    if primaryViews != 1 || |views| == 0 {
      forall v
        ensures !IsoDeclares(image, v)
      {
        IsoUnfinished(image, index, v);
      }
      return Err(MalformedMetadata);
    }
    if k :| 0 <= k < |views| && views[k] != views[0] {
      forall v
        ensures !IsoDeclares(image, v)
      {
        assert ViewOf(image[made[0]]) != ViewOf(image[made[k]]);
        IsoUnfinished(image, index, v);
      }
      return Err(MalformedMetadata);
    }
    forall k: nat | 16 <= k < 16 + index && DeclaresVolume(image[k])
      ensures ViewOf(image[k]) == views[0]
    {
      var i :| 0 <= i < |made| && made[i] == k;
      assert views[i] == ViewOf(image[k]);
    }
    assert IsoEndsAt(image, views[0], index);
    return Ok(Some(views[0]));
  }
}
