/** The whole geometry check of an opened image. */
module ImageGeometry {
  import opened Common
  import opened UdfTag
  import opened Geometry
  import opened UdfGeometry

  const BEA01: Buffer := [0x42, 0x45, 0x41, 0x30, 0x31]
  const NSR02: Buffer := [0x4e, 0x53, 0x52, 0x30, 0x32]
  const NSR03: Buffer := [0x4e, 0x53, 0x52, 0x30, 0x33]
  const TEA01: Buffer := [0x54, 0x45, 0x41, 0x30, 0x31]

  const BEGINNING: set<Buffer> := {BEA01}
  const NSR: set<Buffer> := {NSR02, NSR03}
  const TERMINATOR: set<Buffer> := {TEA01}

  /** Five bytes after the structure type name the descriptor. */
  predicate Named(b: Buffer, ids: set<Buffer>) {
    |b| == SECTOR_BYTES && b[1..6] in ids
  }

  function SevenBit(b: Buffer): Buffer {
    seq(|b|, i requires 0 <= i < |b| => b[i] & 0x7f)
  }

  predicate Fragment(b: Buffer) {
    |b| == SECTOR_BYTES
    && (b[1..6] in BEGINNING + NSR + TERMINATOR || SevenBit(b[1..6]) in BEGINNING + NSR + TERMINATOR)
  }

  predicate WellFormed(b: Buffer) {
    |b| == SECTOR_BYTES && b[0] == 0 && b[6] == 1 && forall k :: 7 <= k < |b| ==> b[k] == 0
  }

  function Where(ds: seq<Buffer>, ids: set<Buffer>): (r: seq<nat>)
    ensures forall i :: i in r <==> 0 <= i < |ds| && Named(ds[i], ids)
    ensures forall j, k :: 0 <= j < k < |r| ==> r[j] < r[k]
  {
    if ds == [] then []
    else
      var before := Where(ds[..|ds| - 1], ids);
      assert forall j :: 0 <= j < |before| ==> before[j] in before;
      before + if Named(ds[|ds| - 1], ids) then [|ds| - 1] else []
  }

  /** Beginning, NSR and terminator follow one another, well-formed, and none of
      them appears anywhere else. */
  predicate RecognizedAt(ds: seq<Buffer>, at: nat) {
    && at + 2 < |ds| && WellFormed(ds[at]) && WellFormed(ds[at + 1]) && WellFormed(ds[at + 2])
    && (forall i :: 0 <= i < |ds| ==> (Named(ds[i], BEGINNING) <==> i == at))
    && (forall i :: 0 <= i < |ds| ==> (Named(ds[i], NSR) <==> i == at + 1))
    && (forall i :: 0 <= i < |ds| ==> (Named(ds[i], TERMINATOR) <==> i == at + 2))
  }

  method CheckRecognition(ds: seq<Buffer>) returns (r: Result<()>)
    ensures r.Ok? <==> exists at: nat :: RecognizedAt(ds, at)
  {
    hide Named, WellFormed;
    var beginnings, nsrs, terminators := Where(ds, BEGINNING), Where(ds, NSR), Where(ds, TERMINATOR);
    if |beginnings| != 1 || |nsrs| != 1 || |terminators| != 1 || beginnings[0] >= nsrs[0] || nsrs[0] >= terminators[0] {
      forall at: nat
        ensures !RecognizedAt(ds, at)
      {
        if RecognizedAt(ds, at) {
          Unique(beginnings, at);
          Unique(nsrs, at + 1);
          Unique(terminators, at + 2);
        }
      }
      return Err(MalformedMetadata);
    }
    var first, middle, last := beginnings[0], nsrs[0], terminators[0];
    assert first in beginnings && middle in nsrs && last in terminators;
    if !WellFormed(ds[first]) || !WellFormed(ds[middle]) || !WellFormed(ds[last]) {
      return Err(MalformedMetadata);
    }
    if first + 1 != middle || middle + 1 != last {
      return Err(UnsupportedLayout);
    }
    assert RecognizedAt(ds, first);
    r := Ok(());
  }

  lemma Unique(indexes: seq<nat>, at: nat)
    requires forall i :: i in indexes <==> i == at
    requires |indexes| >= 2 ==> indexes[0] < indexes[1]
    ensures indexes == [at]
  {
    assert at in indexes;
    assert forall j :: 0 <= j < |indexes| ==> indexes[j] in indexes;
  }

  /** A sector there looks like an anchor. */
  predicate AnchorHint(image: seq<Buffer>, lba: int)
    requires Sectors(image)
  {
    0 <= lba < |image| && Read16(image[lba], 0) == 2
  }

  method HasValidAnchor(reader: Reader, lba: int) returns (r: Result<bool>)
    requires Sectors(reader.image) && !reader.boundExceeded && reader.readCount < MAXIMUM_READS
    modifies reader
    ensures !reader.boundExceeded && reader.readCount <= old(reader.readCount) + 1
    ensures r == Ok(true) ==> AnchorHint(reader.image, lba) && TagOk(reader.image[lba], [2], lba)
    ensures (old(reader.incomplete) ==> reader.incomplete) && (r.Ok? ==> reader.incomplete == old(reader.incomplete))
    ensures r == Ok(false) ==> !AnchorHint(reader.image, lba)
    ensures r.Err? && !reader.incomplete ==> AnchorHint(reader.image, lba)
  {
    hide TagOk;
    if lba < 0 || lba >= |reader.image| {
      return Ok(false);
    }
    var descriptor :- reader.ReadSector(lba);
    if Read16(descriptor, 0) != 2 {
      return Ok(false);
    }
    var _ :- ValidateTag(descriptor, [2], lba);
    r := Ok(true);
  }

  datatype UdfView = UdfView(maximum: int, extents: set<Extent>)

  method MaximumEnd(extents: set<Extent>) returns (m: int)
    requires extents != {}
    ensures forall e :: e in extents ==> e.End() <= m
    ensures exists e :: e in extents && e.End() == m
  {
    var first :| first in extents;
    m := first.End();
    var rest := extents;
    while rest != {}
      invariant rest <= extents
      invariant forall e :: e in extents && e !in rest ==> e.End() <= m
      invariant exists e :: e in extents && e.End() == m
      decreases |rest|
    {
      var e :| e in rest;
      if e.End() > m {
        m := e.End();
      }
      rest := rest - {e};
    }
  }

  /** The recognition sectors of the image. */
  function RecognitionArea(image: seq<Buffer>): seq<Buffer> {
    if |image| <= 16 then [] else image[16..Min(|image|, 16 + RECOGNITION_SECTORS)]
  }

  /** A further anchor at `lba`, if there is one, is well-formed and agrees with the first. */
  predicate AlternateOk(image: seq<Buffer>, lba: nat)
    requires Sectors(image) && 256 < |image| && lba < |image|
  {
    Alternate(image, lba) ==> TagOk(image[lba], [2], lba) && image[lba][16..32] == image[256][16..32]
  }

  predicate Alternate(image: seq<Buffer>, lba: nat)
    requires Sectors(image) && lba < |image|
  {
    lba != 256 && Read16(image[lba], 0) == 2
  }

  function AlternateExtent(image: seq<Buffer>, lba: nat): set<Extent>
    requires Sectors(image) && lba < |image|
  {
    if Alternate(image, lba) then {Extent(1, lba)} else {}
  }

  /** Everything that the image declares: both sequences and what they say, the file set
      and every anchor. */
  function AllExtents(image: seq<Buffer>, g: SequenceGeometry): set<Extent>
    requires Sectors(image) && 256 < |image| && FileSetOk(g, |image|)
  {
    {RawExtent(image[256], 16), RawExtent(image[256], 24), Extent(1, 256)} + Declared(g)
    + OtherAnchors(image) + {FileSetExtent(g)}
  }

  function OtherAnchors(image: seq<Buffer>): set<Extent>
    requires Sectors(image) && 256 < |image|
  {
    AlternateExtent(image, |image| - 257) + AlternateExtent(image, |image| - 1)
  }

  predicate Apart(a: Extent, b: Extent) {
    a.End() <= b.startLba || b.End() <= a.startLba
  }

  /** The anchor at sector 256 is well-formed and names two extents inside the image that
      do not overlap, and further anchors agree with it. */
  predicate AnchorOk(image: seq<Buffer>)
    requires Sectors(image)
  {
    && |image| > 256 && TagOk(image[256], [2], 256)
    && Read32(image[256], 16) > 0 && RawExtent(image[256], 16).Inside(|image|)
    && Read32(image[256], 24) > 0 && RawExtent(image[256], 24).Inside(|image|)
    && Apart(RawExtent(image[256], 16), RawExtent(image[256], 24))
  }

  /** Both sequences are complete and say the same. */
  ghost predicate BothParse(image: seq<Buffer>, g: SequenceGeometry)
    requires Sectors(image) && |image| > 256
  {
    ParsesTo(image, RawExtent(image[256], 16), g) && ParsesTo(image, RawExtent(image[256], 24), g)
  }

  /** The image has this UDF view: it is recognized, its anchors are in order, both
      sequences say the same, and `v` has exactly what is declared and its end. */
  ghost predicate UdfAccepts(image: seq<Buffer>, v: UdfView) {
    && Sectors(image) && (exists at: nat :: RecognizedAt(RecognitionArea(image), at)) && AnchorOk(image)
    && AlternateOk(image, |image| - 257) && AlternateOk(image, |image| - 1)
    && exists g :: BothParse(image, g) && ViewIs(image, v, g)
  }

  ghost predicate ViewIs(image: seq<Buffer>, v: UdfView, g: SequenceGeometry)
    requires Sectors(image) && |image| > 256
  {
    FileSetOk(g, |image|) && v.extents == AllExtents(image, g) && EndsAt(v.extents, v.maximum)
  }

  ghost predicate EndsAt(extents: set<Extent>, m: int) {
    (forall e :: e in extents ==> e.End() <= m) && exists e :: e in extents && e.End() == m
  }

  /** Nothing in the image hints at UDF. */
  predicate NoUdf(image: seq<Buffer>)
    requires Sectors(image)
  {
    && (forall k :: 0 <= k < |RecognitionArea(image)| ==>
          !Named(RecognitionArea(image)[k], NSR) && !Fragment(RecognitionArea(image)[k]))
    && !AnchorHint(image, 256) && !AnchorHint(image, |image| - 257) && !AnchorHint(image, |image| - 1)
  }

  /** An image has one UDF view at most, and none if nothing hints at UDF. */
  lemma UdfUnique(image: seq<Buffer>, v: UdfView, w: UdfView)
    requires UdfAccepts(image, v)
    ensures !NoUdf(image)
    ensures UdfAccepts(image, w) ==> v == w
  {
    hide TagOk, RawExtent, AlternateOk, AllExtents, FileSetOk, ParsesTo, Read32, RecognitionArea;
    var at: nat :| RecognizedAt(RecognitionArea(image), at);
    assert Named(RecognitionArea(image)[at + 1], NSR);
    if UdfAccepts(image, w) {
      var g :| BothParse(image, g) && ViewIs(image, v, g);
      var h :| BothParse(image, h) && ViewIs(image, w, h);
      ParsesOnce(image, RawExtent(image[256], 16), g, h);
    }
  }

  /** Every extent of an accepted view lies inside the image, and so does its end. */
  lemma ExtentsInside(image: seq<Buffer>, g: SequenceGeometry)
    requires Sectors(image) && AnchorOk(image) && FileSetOk(g, |image|)
    requires forall e :: e in Declared(g) ==> e.Inside(|image|)
    ensures forall e :: e in AllExtents(image, g) ==> e.Inside(|image|)
  {
    hide TagOk, Declared, RawExtent, Read32, Read16;
  }

  method ReadRecognition(reader: Reader) returns (r: Result<seq<Buffer>>)
    requires Sectors(reader.image) && !reader.boundExceeded
    requires reader.readCount + RECOGNITION_SECTORS <= MAXIMUM_READS
    modifies reader
    ensures !reader.boundExceeded && reader.readCount <= old(reader.readCount) + RECOGNITION_SECTORS
    ensures (old(reader.incomplete) ==> reader.incomplete) && (r.Ok? ==> reader.incomplete == old(reader.incomplete))
    ensures r.Err? ==> reader.incomplete
    ensures r.Ok? ==> r.value == RecognitionArea(reader.image)
  {
    var ds: seq<Buffer> := [];
    var end := Min(|reader.image|, 16 + RECOGNITION_SECTORS);
    var lba := 16;
    while lba < end
      invariant !reader.boundExceeded && 16 <= lba <= Max(16, end)
      invariant reader.readCount <= old(reader.readCount) + (lba - 16)
      invariant reader.incomplete == old(reader.incomplete)
      invariant end <= 16 ==> ds == []
      invariant end > 16 ==> ds == reader.image[16..lba]
    {
      var descriptor :- reader.ReadSector(lba);
      ds := ds + [descriptor];
      lba := lba + 1;
    }
    r := Ok(ds);
  }

  /** Without an NSR descriptor nothing else may hint at UDF. */
  method CheckNoUdf(reader: Reader, ds: seq<Buffer>) returns (r: Result<()>)
    requires Sectors(reader.image) && !reader.boundExceeded && reader.readCount + 3 <= MAXIMUM_READS
    requires ds == RecognitionArea(reader.image) && forall k :: 0 <= k < |ds| ==> !Named(ds[k], NSR)
    modifies reader
    ensures !reader.boundExceeded && reader.readCount <= old(reader.readCount) + 3
    ensures (old(reader.incomplete) ==> reader.incomplete) && (r.Ok? ==> reader.incomplete == old(reader.incomplete))
    ensures r.Ok? ==> NoUdf(reader.image)
    ensures r.Err? && !reader.incomplete ==> !NoUdf(reader.image)
  {
    hide Named, Fragment, RecognitionArea, TagOk, Read16;
    var total := |reader.image|;
    var found :- HasValidAnchor(reader, 256);
    if !found {
      found :- HasValidAnchor(reader, total - 257);
    }
    if !found {
      found :- HasValidAnchor(reader, total - 1);
    }
    if found || exists k :: 0 <= k < |ds| && Fragment(ds[k]) {
      return Err(MalformedMetadata);
    }
    r := Ok(());
  }

  lemma AnchorType(b: Buffer)
    requires |b| == SECTOR_BYTES && b[0] == 0 && b[1] == 0
    ensures Read16(b, 0) != 2
  {
  }

  /** A further anchor, when there is one, must agree with the first. */
  method CheckAlternate(reader: Reader, lba: nat, anchor: Buffer) returns (r: Result<bool>)
    requires Sectors(reader.image) && !reader.boundExceeded && reader.readCount < MAXIMUM_READS
    requires 256 < |reader.image| && lba < |reader.image| && anchor == reader.image[256]
    modifies reader
    ensures !reader.boundExceeded && reader.readCount <= old(reader.readCount) + 1
    ensures (old(reader.incomplete) ==> reader.incomplete) && (r.Ok? ==> reader.incomplete == old(reader.incomplete))
    ensures r.Ok? ==> AlternateOk(reader.image, lba) && r.value == Alternate(reader.image, lba)
    ensures r.Err? && !reader.incomplete ==> !AlternateOk(reader.image, lba)
  {
    hide TagOk, Read16;
    if lba == 256 {
      return Ok(false);
    }
    var alternate :- reader.ReadSector(lba);
    if forall k :: 0 <= k < |alternate| ==> alternate[k] == 0 {
      AnchorType(alternate);
      return Ok(false);
    }
    if Read16(alternate, 0) != 2 {
      return Ok(false);
    }
    var _ :- ValidateTag(alternate, [2], lba);
    if alternate[16..32] != anchor[16..32] {
      return Err(MalformedMetadata);
    }
    r := Ok(true);
  }

  /** Both sequences, parsed and found to say the same. */
  method ParseBoth(reader: Reader, main: Extent, reserve: Extent) returns (r: Result<SequenceGeometry>)
    requires Sectors(reader.image) && !reader.boundExceeded
    requires main.Inside(|reader.image|) && reserve.Inside(|reader.image|)
    requires reader.readCount + UDF_DESCRIPTOR_SECTORS * 2 <= MAXIMUM_READS
    modifies reader
    ensures !reader.boundExceeded && reader.readCount <= old(reader.readCount) + UDF_DESCRIPTOR_SECTORS * 2
    ensures (old(reader.incomplete) ==> reader.incomplete) && (r.Ok? ==> reader.incomplete == old(reader.incomplete))
    ensures r.Ok? ==>
              && ParsesTo(reader.image, main, r.value) && ParsesTo(reader.image, reserve, r.value)
              && FileSetOk(r.value, |reader.image|)
              && forall e :: e in Declared(r.value) ==> e.Inside(|reader.image|)
    ensures r.Err? && !reader.incomplete ==>
              forall g :: !(ParsesTo(reader.image, main, g) && ParsesTo(reader.image, reserve, g))
  {
    hide SequenceDeclares, Declared, FileSetOk, ParsesTo;
    var first :- ParseSequence(reader, main);
    var second :- ParseSequence(reader, reserve);
    if first != second {
      forall g | ParsesTo(reader.image, main, g) && ParsesTo(reader.image, reserve, g)
        ensures g == first && g == second
      {
        ParsesOnce(reader.image, main, g, first);
        ParsesOnce(reader.image, reserve, g, second);
      }
      return Err(MalformedMetadata);
    }
    r := Ok(first);
  }

  method ValidateUdf(reader: Reader) returns (r: Result<Option<UdfView>>)
    requires Sectors(reader.image) && !reader.boundExceeded && reader.readCount <= ISO_DESCRIPTOR_SECTORS
    modifies reader
    ensures !reader.boundExceeded
    ensures (old(reader.incomplete) ==> reader.incomplete) && (r.Ok? ==> reader.incomplete == old(reader.incomplete))
    ensures r.Ok? && r.value.Some? ==>
              && UdfAccepts(reader.image, r.value.value)
              && forall e :: e in r.value.value.extents ==> e.Inside(|reader.image|)
    ensures r.Ok? && r.value.None? ==> NoUdf(reader.image)
    ensures r.Err? && !reader.incomplete ==>
              !NoUdf(reader.image) && forall v :: !UdfAccepts(reader.image, v)
  {
    hide TagOk, AlternateOk, AnchorOk, BothParse, RecognizedAt, Fragment, RecognitionArea, NoUdf, Named;
    var ds :- ReadRecognition(reader);
    if |Where(ds, NSR)| == 0 {
      NotNamed(ds);
      var checked := CheckNoUdf(reader, ds);
      if checked.Err? {
        return Err(checked.issue);
      }
      return Ok(None);
    }
    NamedSomewhere(reader.image, ds);
    var _ :- CheckRecognition(ds);
    r := ValidateAnchored(reader);
  }

  lemma NotNamed(ds: seq<Buffer>)
    requires |Where(ds, NSR)| == 0
    ensures forall k :: 0 <= k < |ds| ==> !Named(ds[k], NSR)
    ensures forall at: nat :: !RecognizedAt(ds, at)
  {
    hide Named, WellFormed;
    forall k | 0 <= k < |ds|
      ensures !Named(ds[k], NSR)
    {
      assert k !in Where(ds, NSR);
    }
  }

  lemma NamedSomewhere(image: seq<Buffer>, ds: seq<Buffer>)
    requires Sectors(image) && ds == RecognitionArea(image) && |Where(ds, NSR)| != 0
    ensures !NoUdf(image)
  {
    hide Named, Fragment, RecognitionArea;
    assert Where(ds, NSR)[0] in Where(ds, NSR);
  }

  /** What remains once the image has been recognized. */
  method ValidateAnchored(reader: Reader) returns (r: Result<Option<UdfView>>)
    requires Sectors(reader.image) && !reader.boundExceeded
    requires reader.readCount <= ISO_DESCRIPTOR_SECTORS + RECOGNITION_SECTORS
    requires exists at: nat :: RecognizedAt(RecognitionArea(reader.image), at)
    modifies reader
    ensures !reader.boundExceeded
    ensures (old(reader.incomplete) ==> reader.incomplete) && (r.Ok? ==> reader.incomplete == old(reader.incomplete))
    ensures r.Ok? ==>
              && r.value.Some? && UdfAccepts(reader.image, r.value.value)
              && forall e :: e in r.value.value.extents ==> e.Inside(|reader.image|)
    ensures r.Err? && !reader.incomplete ==> forall v :: !UdfAccepts(reader.image, v)
  {
    hide TagOk, RecognizedAt, RecognitionArea, Read16, Read32, Declared, ParsesTo, FileSetOk;
    var image := reader.image;
    var total := |image|;
    if total <= 256 {
      return Err(MalformedMetadata);
    }
    var anchor :- reader.ReadSector(256);
    var _ :- ValidateTag(anchor, [2], 256);
    var main :- ReadExtent(anchor, 16, total, false);
    var reserve :- ReadExtent(anchor, 24, total, false);
    if main.value.startLba < reserve.value.End() && reserve.value.startLba < main.value.End() {
      return Err(MalformedMetadata);
    }
    assert AnchorOk(image);
    hide AnchorOk, RawExtent;
    r := ValidateSequences(reader, main.value, reserve.value, anchor);
  }

  /** The sequences and the further anchors. */
  method ValidateSequences(reader: Reader, main: Extent, reserve: Extent, anchor: Buffer)
    returns (r: Result<Option<UdfView>>)
    requires Sectors(reader.image) && !reader.boundExceeded && AnchorOk(reader.image)
    requires reader.readCount <= ISO_DESCRIPTOR_SECTORS + RECOGNITION_SECTORS + 1
    requires exists at: nat :: RecognizedAt(RecognitionArea(reader.image), at)
    requires anchor == reader.image[256] && main == RawExtent(anchor, 16) && reserve == RawExtent(anchor, 24)
    modifies reader
    ensures !reader.boundExceeded
    ensures (old(reader.incomplete) ==> reader.incomplete) && (r.Ok? ==> reader.incomplete == old(reader.incomplete))
    ensures r.Ok? ==>
              && r.value.Some? && UdfAccepts(reader.image, r.value.value)
              && forall e :: e in r.value.value.extents ==> e.Inside(|reader.image|)
    ensures r.Err? && !reader.incomplete ==> forall v :: !UdfAccepts(reader.image, v)
  {
    AnchorParts(reader.image);
    hide AnchorOk, UdfAccepts, RecognizedAt, RecognitionArea, RawExtent, ParsesTo, FileSetOk, Declared;
    var both := ParseBoth(reader, main, reserve);
    if both.Err? {
      if !reader.incomplete {
        NeverBoth(reader.image);
      }
      return Err(both.issue);
    }
    r := ComposeView(reader, both.value, anchor);
  }

  /** The view of two sequences that say the same. */
  method ComposeView(reader: Reader, g: SequenceGeometry, anchor: Buffer) returns (r: Result<Option<UdfView>>)
    requires Sectors(reader.image) && !reader.boundExceeded && reader.readCount + 2 <= MAXIMUM_READS
    requires |reader.image| > 256 && AnchorOk(reader.image) && anchor == reader.image[256]
    requires exists at: nat :: RecognizedAt(RecognitionArea(reader.image), at)
    requires FileSetOk(g, |reader.image|) && BothParse(reader.image, g)
    requires forall e :: e in Declared(g) ==> e.Inside(|reader.image|)
    modifies reader
    ensures !reader.boundExceeded
    ensures (old(reader.incomplete) ==> reader.incomplete) && (r.Ok? ==> reader.incomplete == old(reader.incomplete))
    ensures r.Ok? ==>
              && r.value.Some? && UdfAccepts(reader.image, r.value.value)
              && forall e :: e in r.value.value.extents ==> e.Inside(|reader.image|)
    ensures r.Err? && !reader.incomplete ==> forall v :: !UdfAccepts(reader.image, v)
  {
    hide AnchorOk, UdfAccepts, RecognizedAt, RecognitionArea, RawExtent, FileSetOk, Declared, BothParse, OtherAnchors,
         AlternateOk;
    var others := FindAnchors(reader, anchor);
    if others.Err? {
      if !reader.incomplete {
        NeverAgreed(reader.image);
      }
      return Err(others.issue);
    }
    var view := ViewOfAll(reader.image, g, anchor, others.value);
    ViewBuilt(reader.image, g, view);
    r := Ok(Some(view));
  }

  method ViewOfAll(image: seq<Buffer>, g: SequenceGeometry, anchor: Buffer, others: set<Extent>) returns (v: UdfView)
    requires Sectors(image) && |image| > 256 && anchor == image[256] && FileSetOk(g, |image|)
    requires others == OtherAnchors(image)
    ensures v.extents == AllExtents(image, g) && EndsAt(v.extents, v.maximum)
  {
    FileSetNamed(g, |image|);
    hide OtherAnchors, FileSetOk, Declared, RawExtent;
    var extents := {RawExtent(anchor, 16), RawExtent(anchor, 24), Extent(1, 256)} + Declared(g) + others
      + {FileSetExtent(g)};
    assert Extent(1, 256) in extents;
    var maximum := MaximumEnd(extents);
    v := UdfView(maximum, extents);
  }

  lemma NeverBoth(image: seq<Buffer>)
    requires Sectors(image) && |image| > 256
    requires forall g ::
               !(ParsesTo(image, RawExtent(image[256], 16), g) && ParsesTo(image, RawExtent(image[256], 24), g))
    ensures forall v :: !UdfAccepts(image, v)
  {
  }

  lemma NeverAgreed(image: seq<Buffer>)
    requires Sectors(image) && |image| > 256
    requires !AlternateOk(image, |image| - 257) || !AlternateOk(image, |image| - 1)
    ensures forall v :: !UdfAccepts(image, v)
  {
  }

  /** All that is declared, with its end, is the view of the image. */
  lemma ViewBuilt(image: seq<Buffer>, g: SequenceGeometry, v: UdfView)
    requires Sectors(image) && |image| > 256 && AnchorOk(image) && FileSetOk(g, |image|)
    requires exists at: nat :: RecognizedAt(RecognitionArea(image), at)
    requires BothParse(image, g) && AlternateOk(image, |image| - 257) && AlternateOk(image, |image| - 1)
    requires v.extents == AllExtents(image, g) && EndsAt(v.extents, v.maximum)
    requires forall e :: e in Declared(g) ==> e.Inside(|image|)
    ensures UdfAccepts(image, v) && forall e :: e in v.extents ==> e.Inside(|image|)
  {
    hide AnchorOk, RecognizedAt, RecognitionArea, BothParse, AlternateOk, Declared, FileSetOk, AllExtents, EndsAt;
    ExtentsInside(image, g);
    assert ViewIs(image, v, g);
  }

  /** The anchors besides the one at sector 256. */
  method FindAnchors(reader: Reader, anchor: Buffer) returns (r: Result<set<Extent>>)
    requires Sectors(reader.image) && !reader.boundExceeded && reader.readCount + 2 <= MAXIMUM_READS
    requires 256 < |reader.image| && anchor == reader.image[256]
    modifies reader
    ensures !reader.boundExceeded && reader.readCount <= old(reader.readCount) + 2
    ensures (old(reader.incomplete) ==> reader.incomplete) && (r.Ok? ==> reader.incomplete == old(reader.incomplete))
    ensures
      var total := |reader.image|;
      && (r.Ok? ==>
            && AlternateOk(reader.image, total - 257) && AlternateOk(reader.image, total - 1)
            && r.value == OtherAnchors(reader.image))
      && (r.Err? && !reader.incomplete ==>
            !AlternateOk(reader.image, total - 257) || !AlternateOk(reader.image, total - 1))
  {
    hide AlternateOk, Alternate;
    var total := |reader.image|;
    var found: set<Extent> := {};
    var near :- CheckAlternate(reader, total - 257, anchor);
    if near {
      found := found + {Extent(1, total - 257)};
    }
    var last :- CheckAlternate(reader, total - 1, anchor);
    if last {
      found := found + {Extent(1, total - 1)};
    }
    r := Ok(found);
  }

  lemma AnchorParts(image: seq<Buffer>)
    requires Sectors(image) && AnchorOk(image)
    ensures |image| > 256 && RawExtent(image[256], 16).Inside(|image|) && RawExtent(image[256], 24).Inside(|image|)
  {
  }

  lemma FileSetNamed(g: SequenceGeometry, total: nat)
    requires FileSetOk(g, total)
    ensures g.volume.fileSet.reference < |g.volume.partitionNumbers|
    ensures g.volume.partitionNumbers[g.volume.fileSet.reference] in g.partitions
  {
  }

  datatype Accepted = Accepted(sectors: nat, iso: Option<IsoView>, udf: Option<UdfView>)

  /** What is to be accepted: the views that the image has, at least one of them, with UDF
      ending no later than ISO when both exist. */
  ghost predicate Accepts(image: seq<Buffer>, a: Accepted)
    requires Sectors(image)
  {
    && a.sectors == |image| && (a.iso.Some? || a.udf.Some?)
    && (if a.iso.Some? then IsoDeclares(image, a.iso.value) else NotIso(image))
    && (if a.udf.Some? then UdfAccepts(image, a.udf.value) else NoUdf(image))
    && (a.iso.Some? && a.udf.Some? ==> a.udf.value.maximum <= a.iso.value.volumeSpaceSize)
  }

  /** There is at most one thing to accept, and it lies inside the image. */
  lemma AcceptsOnce(image: seq<Buffer>, a: Accepted, b: Accepted)
    requires Sectors(image) && Accepts(image, a)
    ensures Accepts(image, b) ==> a == b
    ensures a.iso.Some? ==> ViewOk(a.iso.value, |image|)
  {
    hide IsoDeclares, NotIso, UdfAccepts, NoUdf, ViewOk;
    if a.iso.Some? {
      IsoUnique(image, a.iso.value, a.iso.value);
    }
    if Accepts(image, b) {
      if a.iso.Some? && b.iso.Some? {
        IsoUnique(image, a.iso.value, b.iso.value);
      } else if b.iso.Some? {
        IsoUnique(image, b.iso.value, b.iso.value);
      }
      if a.udf.Some? {
        UdfUnique(image, a.udf.value, if b.udf.Some? then b.udf.value else a.udf.value);
      } else if b.udf.Some? {
        UdfUnique(image, b.udf.value, b.udf.value);
      }
    }
  }

  /** Whatever the image holds and however reads fail, no read is ever out of bounds or
      over budget. What is accepted is what the image declares; and unless a read was cut
      short, an image that declares something acceptable is accepted. */
  method ValidateOpenedImage(reader: Reader) returns (r: Result<Accepted>)
    requires Sectors(reader.image) && reader.readCount == 0 && !reader.boundExceeded && !reader.incomplete
    modifies reader
    ensures !reader.boundExceeded
    ensures r.Ok? ==> Accepts(reader.image, r.value)
    ensures r.Err? && !reader.incomplete ==> forall a :: !Accepts(reader.image, a)
    ensures r.Ok? && r.value.udf.Some? ==> forall e :: e in r.value.udf.value.extents ==> e.Inside(|reader.image|)
  {
    hide IsoDeclares, NotIso, UdfAccepts, NoUdf;
    var iso :- ValidateIso(reader);
    var udf :- ValidateUdf(reader);
    if iso.None? && udf.None? {
      NothingElse(reader.image, iso, udf);
      return Err(UnsupportedLayout);
    }
    if iso.Some? && udf.Some? && udf.value.maximum > iso.value.volumeSpaceSize {
      NothingElse(reader.image, iso, udf);
      return Err(MalformedMetadata);
    }
    r := Ok(Accepted(|reader.image|, iso, udf));
  }

  /** The views being what they are, nothing else could be accepted. */
  lemma NothingElse(image: seq<Buffer>, iso: Option<IsoView>, udf: Option<UdfView>)
    requires Sectors(image)
    requires if iso.Some? then IsoDeclares(image, iso.value) else NotIso(image)
    requires if udf.Some? then UdfAccepts(image, udf.value) else NoUdf(image)
    ensures forall a :: Accepts(image, a) ==> a.iso == iso && a.udf == udf
  {
    hide IsoDeclares, NotIso, UdfAccepts, NoUdf;
    forall a: Accepted | Accepts(image, a)
      ensures a.iso == iso && a.udf == udf
    {
      if iso.Some? {
        IsoUnique(image, iso.value, if a.iso.Some? then a.iso.value else iso.value);
      } else if a.iso.Some? {
        IsoUnique(image, a.iso.value, a.iso.value);
      }
      if udf.Some? {
        UdfUnique(image, udf.value, if a.udf.Some? then a.udf.value else udf.value);
      } else if a.udf.Some? {
        UdfUnique(image, a.udf.value, a.udf.value);
      }
    }
  }
}
