/** The UDF side of the geometry: recognition, anchors, the two descriptor
    sequences, and the extents they declare. */
module UdfGeometry {
  import opened Common
  import opened UdfTag
  import opened Geometry

  datatype Partition = Partition(number: nat, sectorCount: nat, startLba: nat) {
    function Span(): Extent { Extent(sectorCount, startLba) }
  }

  datatype LongAllocation = LongAllocation(length: nat, kind: nat, block: nat, reference: nat)

  datatype LogicalVolume = LogicalVolume(
    fileSet: LongAllocation, integrity: Extent, blockSize: nat, partitionNumbers: seq<nat>)

  /** Partitions are keyed by number; of the other lists only the contents matter. */
  datatype SequenceGeometry = SequenceGeometry(
    volume: LogicalVolume, partitions: map<nat, Partition>, primary: multiset<Extent>, unallocated: multiset<Extent>)

  const SEQUENCE_TYPES: seq<nat> := [1, 3, 4, 5, 6, 7, 8]

  function ReadLongAllocation(b: Buffer, at: nat): LongAllocation
    requires at + 10 <= |b|
  {
    LongAllocation(Read32(b, at) % EXTENT_TYPE_UNIT, Read32(b, at) / EXTENT_TYPE_UNIT, Read32(b, at + 4),
                   Read16(b, at + 8))
  }

  function PartitionOf(b: Buffer): Partition
    requires |b| == SECTOR_BYTES
  {
    Partition(Read16(b, 22), Read32(b, 192), Read32(b, 188))
  }

  /** The first `n` allocations of an unallocated-space descriptor. */
  function Allocations(b: Buffer, n: nat): set<Extent> {
    set k: nat | k < n && 24 + 8 * k + 8 <= |b| :: RawExtent(b, 24 + 8 * k)
  }

  lemma OneMoreAllocation(b: Buffer, n: nat)
    requires 24 + 8 * n + 8 <= |b|
    ensures Allocations(b, n + 1) == Allocations(b, n) + {RawExtent(b, 24 + 8 * n)}
  {
  }

  /** The extents that one descriptor declares, by its type. */
  function DeclaredBy(b: Buffer): set<Extent>
    requires |b| == SECTOR_BYTES
  {
    match Read16(b, 0)
    case 1 => (if Read32(b, 328) > 0 then {RawExtent(b, 328)} else {})
      + (if Read32(b, 336) > 0 then {RawExtent(b, 336)} else {})
    case 5 => {PartitionOf(b).Span()}
    case 6 => {RawExtent(b, 432)}
    case 7 => Allocations(b, Read32(b, 20))
    case _ => {}
  }

  function Spans(partitions: map<nat, Partition>): set<Extent> {
    set p | p in partitions.Values :: p.Span()
  }

  /** Everything a parsed sequence declares. */
  function Declared(g: SequenceGeometry): set<Extent> {
    Spans(g.partitions) + (set e | e in g.primary) + (set e | e in g.unallocated) + {g.volume.integrity}
  }

  /** An extent that may be left out: then both its numbers are zero. */
  predicate OptionalOk(b: Buffer, at: nat, total: nat)
    requires at + 8 <= |b|
  {
    if Read32(b, at) == 0 then Read32(b, at + 4) == 0 else RawExtent(b, at).Inside(total)
  }

  function OptionalExtent(b: Buffer, at: nat): multiset<Extent>
    requires at + 8 <= |b|
  {
    if Read32(b, at) > 0 then multiset{RawExtent(b, at)} else multiset{}
  }

  method ReadPrimary(b: Buffer, total: nat) returns (r: Result<multiset<Extent>>)
    requires |b| == SECTOR_BYTES && total <= MAX_SAFE_INTEGER && Read16(b, 0) == 1
    ensures r.Ok? <==> OptionalOk(b, 328, total) && OptionalOk(b, 336, total)
    ensures r.Ok? ==> r.value == OptionalExtent(b, 328) + OptionalExtent(b, 336)
  {
    hide Read32;
    var extents: multiset<Extent> := multiset{};
    var first :- ReadExtent(b, 328, total, true);
    if first.Some? {
      extents := extents + multiset{first.value};
    }
    var second :- ReadExtent(b, 336, total, true);
    if second.Some? {
      extents := extents + multiset{second.value};
    }
    r := Ok(extents);
  }

  /** The metadata extents of a partition stay inside it. */
  method CheckMetadata(b: Buffer, partition: Partition) returns (r: Result<()>)
    requires |b| == SECTOR_BYTES
    ensures r.Ok? <==> forall k :: 0 <= k < 5 ==> MetadataOk(b, 56 + 8 * k, partition)
    ensures r.Err? ==> r.issue.MalformedMetadata?
  {
    var k := 0;
    while k < 5
      invariant 0 <= k <= 5
      invariant forall j :: 0 <= j < k ==> MetadataOk(b, 56 + 8 * j, partition)
    {
      if !MetadataOk(b, 56 + 8 * k, partition) {
        return Err(MalformedMetadata);
      }
      k := k + 1;
    }
    r := Ok(());
  }

  predicate MetadataOk(b: Buffer, at: nat, partition: Partition)
    requires at + 8 <= |b|
  {
    var length, relative := Read32(b, at) % EXTENT_TYPE_UNIT, Read32(b, at + 4);
    if length == 0 then relative == 0
    else
      Read32(b, at) / EXTENT_TYPE_UNIT == 0 && SafeInteger(relative + CeilSectors(length))
      && relative + CeilSectors(length) <= partition.sectorCount
  }

  /** The partition numbers of a table of six-byte type 1 maps. */
  function MapNumbers(b: Buffer, n: nat): (numbers: seq<nat>)
    requires 440 + 6 * n <= |b|
    ensures |numbers| == n
  {
    if n == 0 then [] else MapNumbers(b, n - 1) + [Read16(b, 440 + 6 * (n - 1) + 4)]
  }

  predicate MapsOk(b: Buffer, n: nat)
    requires 440 + 6 * n <= |b|
  {
    forall k :: 0 <= k < n ==> b[440 + 6 * k] == 1 && b[440 + 6 * k + 1] == 6
  }

  method ReadPartitionMaps(b: Buffer, tableLength: nat) returns (r: Result<seq<nat>>)
    requires |b| == SECTOR_BYTES && 440 + tableLength <= |b|
    ensures r.Ok? <==> tableLength % 6 == 0 && MapsOk(b, tableLength / 6)
    ensures r.Ok? ==> r.value == MapNumbers(b, tableLength / 6)
    ensures r.Err? ==> r.issue.UnsupportedLayout?
  {
    var numbers: seq<nat> := [];
    var end, at := 440 + tableLength, 440;
    ghost var n := 0;
    while at < end
      invariant at == 440 + 6 * n <= end && MapsOk(b, n) && numbers == MapNumbers(b, n)
    {
      if at + 1 >= end || b[at] != 1 || b[at + 1] != 6 || at + 6 > end {
        if tableLength % 6 == 0 {
          assert 0 <= n < tableLength / 6 && 440 + 6 * n == at;
        }
        return Err(UnsupportedLayout);
      }
      numbers := numbers + [Read16(b, at + 4)];
      at := at + 6;
      n := n + 1;
    }
    assert tableLength == 6 * n;
    r := Ok(numbers);
  }

  /** A logical volume descriptor of this block size, with a full table of at most 16
      maps and an integrity sequence inside the image. */
  predicate LogicalOk(b: Buffer, total: nat)
    requires |b| == SECTOR_BYTES
  {
    var tableLength, count := Read32(b, 264), Read32(b, 268);
    && Read32(b, 212) == SECTOR_BYTES && 0 < tableLength && 440 + tableLength <= |b| && 0 < count <= 16
    && tableLength % 6 == 0 && MapsOk(b, tableLength / 6) && count == tableLength / 6
    && Read32(b, 432) > 0 && RawExtent(b, 432).Inside(total)
  }

  function LogicalIn(b: Buffer): LogicalVolume
    requires |b| == SECTOR_BYTES
  {
    LogicalVolume(ReadLongAllocation(b, 248), RawExtent(b, 432), Read32(b, 212),
                  if 440 + Read32(b, 264) <= |b| then MapNumbers(b, Read32(b, 264) / 6) else [])
  }

  method ReadLogicalVolume(b: Buffer, total: nat) returns (r: Result<LogicalVolume>)
    requires |b| == SECTOR_BYTES && total <= MAX_SAFE_INTEGER && Read16(b, 0) == 6
    ensures r.Ok? <==> LogicalOk(b, total)
    ensures r.Ok? ==> r.value == LogicalIn(b)
  {
    hide Read32, MapsOk;
    var blockSize, tableLength, count := Read32(b, 212), Read32(b, 264), Read32(b, 268);
    if blockSize != SECTOR_BYTES || tableLength <= 0 || count <= 0 || count > 16 || 440 + tableLength > |b| {
      return Err(MalformedMetadata);
    }
    var numbers :- ReadPartitionMaps(b, tableLength);
    if |numbers| != count {
      return Err(MalformedMetadata);
    }
    var integrity :- ReadExtent(b, 432, total, false);
    r := Ok(LogicalVolume(ReadLongAllocation(b, 248), integrity.value, blockSize, numbers));
  }

  /** The first `n` allocations of an unallocated-space descriptor, with repetitions. */
  function AllocationList(b: Buffer, n: nat): multiset<Extent>
    requires 24 + 8 * n <= |b|
  {
    if n == 0 then multiset{} else AllocationList(b, n - 1) + multiset{RawExtent(b, 24 + 8 * (n - 1))}
  }

  predicate AllocationsOk(b: Buffer, n: nat, total: nat)
    requires 24 + 8 * n <= |b|
  {
    forall k :: 0 <= k < n ==> Read32(b, 24 + 8 * k) > 0 && RawExtent(b, 24 + 8 * k).Inside(total)
  }

  lemma {:induction false} ListedAllocations(b: Buffer, n: nat)
    requires 24 + 8 * n <= |b|
    ensures (set e | e in AllocationList(b, n)) == Allocations(b, n)
  {
    if n > 0 {
      ListedAllocations(b, n - 1);
      OneMoreAllocation(b, n - 1);
      hide RawExtent, Allocations;
    }
  }

  lemma {:induction false} AllocationInside(b: Buffer, n: nat, total: nat, e: Extent)
    requires 24 + 8 * n <= |b| && AllocationsOk(b, n, total) && e in AllocationList(b, n)
    ensures e.Inside(total)
  {
    if e != RawExtent(b, 24 + 8 * (n - 1)) {
      AllocationInside(b, n - 1, total, e);
    }
  }

  predicate UnallocatedOk(b: Buffer, total: nat)
    requires |b| == SECTOR_BYTES
  {
    Read32(b, 20) <= 61 && AllocationsOk(b, Read32(b, 20), total)
  }

  method ReadUnallocated(b: Buffer, total: nat) returns (r: Result<multiset<Extent>>)
    requires |b| == SECTOR_BYTES && total <= MAX_SAFE_INTEGER && Read16(b, 0) == 7
    ensures r.Ok? <==> UnallocatedOk(b, total)
    ensures r.Ok? ==> r.value == AllocationList(b, Read32(b, 20))
  {
    hide Read32, RawExtent;
    var count := Read32(b, 20);
    if count > 61 || 24 + count * 8 > |b| {
      return Err(MalformedMetadata);
    }
    var extents: multiset<Extent> := multiset{};
    var allocation := 0;
    while allocation < count
      invariant 0 <= allocation <= count && AllocationsOk(b, allocation, total)
      invariant extents == AllocationList(b, allocation)
    {
      var e := ReadExtent(b, 24 + allocation * 8, total, false);
      if e.Err? {
        assert !(Read32(b, 24 + 8 * allocation) > 0 && RawExtent(b, 24 + 8 * allocation).Inside(total));
        return Err(e.issue);
      }
      extents := extents + multiset{e.value.value};
      allocation := allocation + 1;
    }
    r := Ok(extents);
  }

  /** What has been gathered from the descriptors so far. */
  datatype Gathering = Gathering(
    volume: Option<LogicalVolume>, partitions: map<nat, Partition>,
    primary: multiset<Extent>, unallocated: multiset<Extent>, sawPrimary: bool)
  {
    function Extents(): set<Extent> {
      Spans(partitions) + (set e | e in primary) + (set e | e in unallocated)
      + if volume.Some? then {volume.value.integrity} else {}
    }

    ghost predicate Inside(total: nat) {
      && (forall e :: e in Extents() ==> e.Inside(total))
      && (forall n :: n in partitions ==> partitions[n].number == n)
      && (volume.Some? ==> volume.value.blockSize == SECTOR_BYTES && volume.value.fileSet.length < EXTENT_TYPE_UNIT)
    }
  }

  lemma PartitionAdded(partitions: map<nat, Partition>, p: Partition)
    requires p.number !in partitions
    ensures Spans(partitions[p.number := p]) == Spans(partitions) + {p.Span()}
  {
    var more := partitions[p.number := p];
    assert more[p.number] == p && p in more.Values;
    forall q | q in partitions.Values
      ensures q in more.Values
    {
      var n :| n in partitions && partitions[n] == q;
      assert more[n] == q;
    }
    assert more.Values <= partitions.Values + {p};
  }

  /** What a descriptor says is possible by itself, in an image of this size. */
  predicate DescriptorOk(b: Buffer, total: nat)
    requires |b| == SECTOR_BYTES
  {
    match Read16(b, 0)
    case 1 => OptionalOk(b, 328, total) && OptionalOk(b, 336, total)
    case 3 => false
    case 5 =>
      PartitionOf(b).Span().Inside(total) && forall k :: 0 <= k < 5 ==> MetadataOk(b, 56 + 8 * k, PartitionOf(b))
    case 6 => LogicalOk(b, total)
    case 7 => UnallocatedOk(b, total)
    case _ => true
  }

  /** It is not a second primary volume, logical volume or partition of the same number. */
  predicate Unseen(g: Gathering, b: Buffer)
    requires |b| == SECTOR_BYTES
  {
    match Read16(b, 0)
    case 1 => !g.sawPrimary
    case 5 => PartitionOf(b).number !in g.partitions
    case 6 => g.volume.None?
    case _ => true
  }

  /** What has been gathered once this descriptor has been added. */
  function After(g: Gathering, b: Buffer): Gathering
    requires |b| == SECTOR_BYTES
  {
    match Read16(b, 0)
    case 1 => g.(sawPrimary := true, primary := g.primary + (OptionalExtent(b, 328) + OptionalExtent(b, 336)))
    case 5 => g.(partitions := g.partitions[PartitionOf(b).number := PartitionOf(b)])
    case 6 => g.(volume := Some(LogicalIn(b)))
    case 7 =>
      g.(unallocated := g.unallocated + (if Read32(b, 20) <= 61 then AllocationList(b, Read32(b, 20)) else multiset{}))
    case _ => g
  }

  /** Adds what one descriptor declares, and nothing else. */
  method Gather(g: Gathering, b: Buffer, total: nat) returns (r: Result<Gathering>)
    requires |b| == SECTOR_BYTES && total <= MAX_SAFE_INTEGER && g.Inside(total)
    ensures r.Ok? <==> DescriptorOk(b, total) && Unseen(g, b)
    ensures r.Ok? ==> r.value == After(g, b)
    ensures r.Ok? ==> r.value.Inside(total) && r.value.Extents() == g.Extents() + DeclaredBy(b)
  {
    hide LogicalOk, LogicalIn, UnallocatedOk, OptionalOk, OptionalExtent, AllocationList, RawExtent, Read16, MetadataOk,
         Gathering.Inside, Gathering.Extents, DeclaredBy, Read32;
    if DescriptorOk(b, total) && Unseen(g, b) {
      AfterDeclares(g, b, total);
    }
    var identifier := Read16(b, 0);
    if identifier == 3 {
      return Err(UnsupportedLayout);
    }
    if identifier == 1 {
      if g.sawPrimary {
        return Err(MalformedMetadata);
      }
      var extents :- ReadPrimary(b, total);
      r := Ok(g.(sawPrimary := true, primary := g.primary + extents));
    } else if identifier == 5 {
      var p := PartitionOf(b);
      var _ :- RequireInside(p.Span(), total);
      if p.number in g.partitions {
        return Err(MalformedMetadata);
      }
      var _ :- CheckMetadata(b, p);
      r := Ok(g.(partitions := g.partitions[p.number := p]));
    } else if identifier == 6 {
      if g.volume.Some? {
        return Err(MalformedMetadata);
      }
      var volume :- ReadLogicalVolume(b, total);
      r := Ok(g.(volume := Some(volume)));
    } else if identifier == 7 {
      var extents :- ReadUnallocated(b, total);
      AllocationCount(b, total);
      r := Ok(g.(unallocated := g.unallocated + extents));
    } else {
      r := Ok(g);
    }
  }

  lemma AllocationCount(b: Buffer, total: nat)
    requires |b| == SECTOR_BYTES && UnallocatedOk(b, total)
    ensures Read32(b, 20) <= 61
  {
  }

  /** Adding a descriptor adds exactly the extents that it declares, all inside. */
  lemma AfterDeclares(g: Gathering, b: Buffer, total: nat)
    requires |b| == SECTOR_BYTES && total <= MAX_SAFE_INTEGER && g.Inside(total)
    requires DescriptorOk(b, total) && Unseen(g, b)
    ensures After(g, b).Inside(total) && After(g, b).Extents() == g.Extents() + DeclaredBy(b)
  {
    match Read16(b, 0)
    case 1 => AfterPrimary(g, b, total);
    case 5 => AfterPartition(g, b, total);
    case 6 => AfterVolume(g, b, total);
    case 7 => AfterUnallocated(g, b, total);
    case _ =>
  }

  lemma AfterPrimary(g: Gathering, b: Buffer, total: nat)
    requires |b| == SECTOR_BYTES && g.Inside(total) && Read16(b, 0) == 1 && DescriptorOk(b, total)
    ensures After(g, b).Inside(total) && After(g, b).Extents() == g.Extents() + DeclaredBy(b)
  {
    var added := OptionalExtent(b, 328) + OptionalExtent(b, 336);
    PrimaryDeclares(b, total);
    hide Read16, Read32, RawExtent, Spans, OptionalExtent, DeclaredBy, DescriptorOk;
    assert After(g, b).Extents() == g.Extents() + set e | e in added;
  }

  lemma PrimaryDeclares(b: Buffer, total: nat)
    requires |b| == SECTOR_BYTES && Read16(b, 0) == 1 && DescriptorOk(b, total)
    ensures
      var added := OptionalExtent(b, 328) + OptionalExtent(b, 336);
      DeclaredBy(b) == (set e | e in added) && forall e :: e in added ==> e.Inside(total)
  {
    hide Read16, Read32, RawExtent;
  }

  lemma AfterPartition(g: Gathering, b: Buffer, total: nat)
    requires |b| == SECTOR_BYTES && g.Inside(total) && Read16(b, 0) == 5 && DescriptorOk(b, total) && Unseen(g, b)
    ensures After(g, b).Inside(total) && After(g, b).Extents() == g.Extents() + DeclaredBy(b)
  {
    hide Read16, Read32, RawExtent, Spans, MetadataOk;
    PartitionAdded(g.partitions, PartitionOf(b));
    assert After(g, b).Extents() == g.Extents() + {PartitionOf(b).Span()};
  }

  lemma AfterVolume(g: Gathering, b: Buffer, total: nat)
    requires |b| == SECTOR_BYTES && g.Inside(total) && Read16(b, 0) == 6 && DescriptorOk(b, total) && Unseen(g, b)
    ensures After(g, b).Inside(total) && After(g, b).Extents() == g.Extents() + DeclaredBy(b)
  {
    hide Read16, Read32, RawExtent, Spans, MapsOk, MapNumbers;
    assert After(g, b).Extents() == g.Extents() + {RawExtent(b, 432)};
  }

  lemma AfterUnallocated(g: Gathering, b: Buffer, total: nat)
    requires |b| == SECTOR_BYTES && g.Inside(total) && Read16(b, 0) == 7 && DescriptorOk(b, total)
    ensures After(g, b).Inside(total) && After(g, b).Extents() == g.Extents() + DeclaredBy(b)
  {
    hide Read16, Read32, RawExtent, Spans, Allocations, AllocationList, AllocationsOk;
    var n := Read32(b, 20);
    ListedAllocations(b, n);
    forall e | e in AllocationList(b, n)
      ensures e.Inside(total)
    {
      AllocationInside(b, n, total, e);
    }
    assert After(g, b).Extents() == g.Extents() + set e | e in AllocationList(b, n);
  }

  /** Everything that `n` descriptors from `start` on declare. */
  function DeclaredIn(image: seq<Buffer>, start: nat, n: nat): set<Extent>
    requires Sectors(image) && start + n <= |image|
  {
    if n == 0 then {} else DeclaredIn(image, start, n - 1) + DeclaredBy(image[start + n - 1])
  }

  /** `n` well-formed descriptors from `start` on, none of them the terminator. */
  predicate DescriptorsOk(image: seq<Buffer>, start: nat, n: nat)
    requires Sectors(image) && start + n <= |image|
  {
    forall k :: start <= k < start + n ==> TagOk(image[k], SEQUENCE_TYPES, k) && Read16(image[k], 0) != 8
  }

  /** The sequence ends inside `at` after `n` descriptors, which declare exactly `all`. */
  predicate SequenceEnds(image: seq<Buffer>, at: Extent, n: nat, all: set<Extent>)
    requires Sectors(image) && at.Inside(|image|)
  {
    && n < at.sectorCount && DescriptorsOk(image, at.startLba, n)
    && TagOk(image[at.startLba + n], [8], at.startLba + n)
    && all == DeclaredIn(image, at.startLba, n)
  }

  ghost predicate SequenceDeclares(image: seq<Buffer>, at: Extent, all: set<Extent>) {
    Sectors(image) && at.Inside(|image|) && exists n: nat :: SequenceEnds(image, at, n, all)
  }

  /** The partition that the file set lives in, and where. */
  predicate FileSetOk(g: SequenceGeometry, total: nat) {
    && g.volume.fileSet.reference < |g.volume.partitionNumbers|
    && (forall k :: 0 <= k < |g.volume.partitionNumbers| ==> g.volume.partitionNumbers[k] in g.partitions)
    && g.volume.fileSet.kind == 0
    && g.volume.fileSet.block + CeilSectors(g.volume.fileSet.length) <= FileSetPartition(g).sectorCount
    && FileSetExtent(g).Inside(total)
  }

  function FileSetPartition(g: SequenceGeometry): Partition
    requires g.volume.fileSet.reference < |g.volume.partitionNumbers|
    requires g.volume.partitionNumbers[g.volume.fileSet.reference] in g.partitions
  {
    g.partitions[g.volume.partitionNumbers[g.volume.fileSet.reference]]
  }

  function FileSetExtent(g: SequenceGeometry): Extent
    requires g.volume.fileSet.reference < |g.volume.partitionNumbers|
    requires g.volume.partitionNumbers[g.volume.fileSet.reference] in g.partitions
  {
    Extent(CeilSectors(g.volume.fileSet.length), FileSetPartition(g).startLba + g.volume.fileSet.block)
  }

  method ValidateReferences(g: SequenceGeometry, total: nat) returns (r: Result<()>)
    requires total <= MAX_SAFE_INTEGER && g.volume.fileSet.length < EXTENT_TYPE_UNIT
    requires g.volume.fileSet.block < 4294967296
    ensures r.Ok? <==> FileSetOk(g, total)
  {
    var numbers := g.volume.partitionNumbers;
    var k := 0;
    while k < |numbers|
      invariant 0 <= k <= |numbers|
      invariant forall j :: 0 <= j < k ==> numbers[j] in g.partitions
    {
      if numbers[k] !in g.partitions {
        return Err(MalformedMetadata);
      }
      k := k + 1;
    }
    var fileSet := g.volume.fileSet;
    var sectors :- SectorCountForBytes(fileSet.length);
    if fileSet.kind != 0 || fileSet.reference >= |numbers| || !SafeInteger(fileSet.block + sectors)
      || fileSet.block + sectors > FileSetPartition(g).sectorCount
    {
      return Err(MalformedMetadata);
    }
    var _ :- RequireInside(FileSetExtent(g), total);
    r := Ok(());
  }

  /** Everything gathered from `n` descriptors from `start` on. */
  function Gathered(image: seq<Buffer>, start: nat, n: nat): Gathering
    requires Sectors(image) && start + n <= |image|
  {
    if n == 0 then Gathering(None, map[], multiset{}, multiset{}, false)
    else After(Gathered(image, start, n - 1), image[start + n - 1])
  }

  /** Two descriptors that must not both be in one sequence. */
  predicate Clash(a: Buffer, b: Buffer)
    requires |a| == |b| == SECTOR_BYTES
  {
    && Read16(a, 0) == Read16(b, 0)
    && (Read16(a, 0) == 1 || Read16(a, 0) == 6
        || (Read16(a, 0) == 5 && PartitionOf(a).number == PartitionOf(b).number))
  }

  /** Each of the descriptors is possible, and no two of them clash. */
  predicate DescriptorsFit(image: seq<Buffer>, start: nat, n: nat)
    requires Sectors(image) && start + n <= |image|
  {
    && (forall k :: start <= k < start + n ==> DescriptorOk(image[k], |image|))
    && (forall j, k :: start <= j < k < start + n ==> !Clash(image[j], image[k]))
  }

  predicate Seen(image: seq<Buffer>, start: nat, n: nat, kind: nat)
    requires Sectors(image) && start + n <= |image|
  {
    exists k :: start <= k < start + n && Read16(image[k], 0) == kind
  }

  predicate SeenPartition(image: seq<Buffer>, start: nat, n: nat, p: Partition)
    requires Sectors(image) && start + n <= |image|
  {
    exists k :: start <= k < start + n && Read16(image[k], 0) == 5 && PartitionOf(image[k]) == p
  }

  predicate SeenVolume(image: seq<Buffer>, start: nat, n: nat, v: LogicalVolume)
    requires Sectors(image) && start + n <= |image|
  {
    exists k :: start <= k < start + n && Read16(image[k], 0) == 6 && LogicalIn(image[k]) == v
  }

  /** What has been gathered tells what has been seen. */
  lemma GatheredTells(image: seq<Buffer>, start: nat, n: nat)
    requires Sectors(image) && start + n <= |image|
    ensures
      var g := Gathered(image, start, n);
      && (g.sawPrimary <==> Seen(image, start, n, 1)) && (g.volume.Some? <==> Seen(image, start, n, 6))
      && (g.partitions != map[] <==> Seen(image, start, n, 5))
      && (g.volume.Some? ==> SeenVolume(image, start, n, g.volume.value))
      && PartitionsSeen(image, start, n, g.partitions)
  {
    GatheredVolume(image, start, n);
    GatheredPartitions(image, start, n);
    hide Gathered, Read16, PartitionOf, LogicalIn;
    var g := Gathered(image, start, n);
    if m :| m in g.partitions {
      assert SeenPartition(image, start, n, g.partitions[m]);
    }
  }

  /** The partitions are exactly those of the descriptors seen, each under its number. */
  predicate PartitionsSeen(image: seq<Buffer>, start: nat, n: nat, partitions: map<nat, Partition>)
    requires Sectors(image) && start + n <= |image|
  {
    && (forall m :: m in partitions ==> partitions[m].number == m && SeenPartition(image, start, n, partitions[m]))
    && (forall k :: start <= k < start + n && Read16(image[k], 0) == 5 ==> PartitionOf(image[k]).number in partitions)
  }

  lemma {:induction false} GatheredVolume(image: seq<Buffer>, start: nat, n: nat)
    requires Sectors(image) && start + n <= |image|
    ensures
      var g := Gathered(image, start, n);
      && (g.sawPrimary <==> Seen(image, start, n, 1)) && (g.volume.Some? <==> Seen(image, start, n, 6))
      && (g.volume.Some? ==> SeenVolume(image, start, n, g.volume.value))
  {
    if n > 0 {
      GatheredVolume(image, start, n - 1);
      hide Read16, LogicalIn, OptionalExtent, AllocationList, PartitionOf;
    }
  }

  lemma {:induction false} GatheredPartitions(image: seq<Buffer>, start: nat, n: nat)
    requires Sectors(image) && start + n <= |image|
    ensures PartitionsSeen(image, start, n, Gathered(image, start, n).partitions)
  {
    hide Read16, PartitionOf, After, PartitionsSeen;
    if n > 0 {
      GatheredPartitions(image, start, n - 1);
      PartitionsPush(image, start, n, Gathered(image, start, n - 1).partitions);
      AfterPartitions(Gathered(image, start, n - 1), image[start + n - 1]);
    } else {
      NoPartitions(image, start);
    }
  }

  lemma NoPartitions(image: seq<Buffer>, start: nat)
    requires Sectors(image) && start <= |image|
    ensures PartitionsSeen(image, start, 0, map[])
  {
  }

  lemma AfterPartitions(g: Gathering, b: Buffer)
    requires |b| == SECTOR_BYTES
    ensures After(g, b).partitions
            == if Read16(b, 0) == 5 then g.partitions[PartitionOf(b).number := PartitionOf(b)] else g.partitions
  {
    hide Read16, PartitionOf, LogicalIn, OptionalExtent, AllocationList;
  }

  lemma PartitionsPush(image: seq<Buffer>, start: nat, n: nat, before: map<nat, Partition>)
    requires Sectors(image) && 0 < n && start + n <= |image| && PartitionsSeen(image, start, n - 1, before)
    ensures
      var b := image[start + n - 1];
      PartitionsSeen(image, start, n,
                     if Read16(b, 0) == 5 then before[PartitionOf(b).number := PartitionOf(b)] else before)
  {
    hide Read16, PartitionOf;
    forall m | m in before
      ensures SeenPartition(image, start, n, before[m])
    {
      var k :| start <= k < start + n - 1 && Read16(image[k], 0) == 5 && PartitionOf(image[k]) == before[m];
    }
  }

  /** A descriptor is new to what has been gathered if it clashes with none before it. */
  lemma UnseenIs(image: seq<Buffer>, start: nat, n: nat)
    requires Sectors(image) && start + n < |image|
    ensures Unseen(Gathered(image, start, n), image[start + n]) <==>
              forall j :: start <= j < start + n ==> !Clash(image[j], image[start + n])
  {
    hide Gathered, LogicalIn, Read16, PartitionOf, SeenVolume;
    GatheredTells(image, start, n);
    var g, b := Gathered(image, start, n), image[start + n];
    if Read16(b, 0) == 5 && PartitionOf(b).number in g.partitions {
      assert SeenPartition(image, start, n, g.partitions[PartitionOf(b).number]);
      var k :| start <= k < start + n && Read16(image[k], 0) == 5
               && PartitionOf(image[k]) == g.partitions[PartitionOf(b).number];
      assert Clash(image[k], b);
    }
  }

  /** `n` descriptors and then the terminator lie in `at`: well-formed, possible, without
      clashes, with a primary volume, a logical volume and a partition among them. */
  predicate SequenceOk(image: seq<Buffer>, at: Extent, n: nat)
    requires Sectors(image) && at.Inside(|image|)
  {
    && n < at.sectorCount <= UDF_DESCRIPTOR_SECTORS && DescriptorsOk(image, at.startLba, n)
    && TagOk(image[at.startLba + n], [8], at.startLba + n) && DescriptorsFit(image, at.startLba, n)
    && Seen(image, at.startLba, n, 1) && Seen(image, at.startLba, n, 5) && Seen(image, at.startLba, n, 6)
  }

  function GeometryIn(g: Gathering): SequenceGeometry
    requires g.volume.Some?
  {
    SequenceGeometry(g.volume.value, g.partitions, g.primary, g.unallocated)
  }

  /** The sequence is complete, and this is what it says. */
  ghost predicate ParsesTo(image: seq<Buffer>, at: Extent, g: SequenceGeometry) {
    && Sectors(image) && at.Inside(|image|) && FileSetOk(g, |image|)
    && exists n: nat :: SequenceOk(image, at, n) && GatheredAs(image, at, n, g)
  }

  predicate GatheredAs(image: seq<Buffer>, at: Extent, n: nat, g: SequenceGeometry)
    requires Sectors(image) && at.Inside(|image|) && n <= at.sectorCount
  {
    var all := Gathered(image, at.startLba, n);
    all.volume.Some? && g == GeometryIn(all)
  }

  /** It says one thing only. */
  lemma ParsesOnce(image: seq<Buffer>, at: Extent, g: SequenceGeometry, h: SequenceGeometry)
    requires ParsesTo(image, at, g) && ParsesTo(image, at, h)
    ensures g == h
  {
    hide TagOk, DescriptorOk, Clash, FileSetOk, Seen, Gathered;
    var n: nat :| SequenceOk(image, at, n) && GatheredAs(image, at, n, g);
    var m: nat :| SequenceOk(image, at, m) && GatheredAs(image, at, m, h);
    Terminates(image[at.startLba + n], at.startLba + n);
    Terminates(image[at.startLba + m], at.startLba + m);
  }

  /** One more sector of the sequence: nothing if it is the terminator. */
  method TakeDescriptor(reader: Reader, lba: nat, g: Gathering) returns (r: Result<Option<Gathering>>)
    requires Sectors(reader.image) && lba < |reader.image| && g.Inside(|reader.image|)
    requires !reader.boundExceeded && reader.readCount < MAXIMUM_READS
    modifies reader
    ensures !reader.boundExceeded && reader.readCount <= old(reader.readCount) + 1
    ensures (old(reader.incomplete) ==> reader.incomplete) && (r.Ok? ==> reader.incomplete == old(reader.incomplete))
    ensures r.Ok? && r.value.None? ==> TagOk(reader.image[lba], [8], lba)
    ensures r.Ok? && r.value.Some? ==>
              && Taken(reader.image[lba], lba, |reader.image|, g) && r.value.value == After(g, reader.image[lba])
              && r.value.value.Inside(|reader.image|)
              && r.value.value.Extents() == g.Extents() + DeclaredBy(reader.image[lba])
    ensures r.Err? && !reader.incomplete ==>
              !TagOk(reader.image[lba], [8], lba) && !Taken(reader.image[lba], lba, |reader.image|, g)
  {
    hide TagOk, DeclaredBy, Gathering.Extents, Gathering.Inside, Read16, After, DescriptorOk, Unseen;
    var descriptor :- reader.ReadSector(lba);
    Terminates(descriptor, lba);
    var identifier :- ValidateTag(descriptor, SEQUENCE_TYPES, lba);
    if identifier == 8 {
      return Ok(None);
    }
    var more :- Gather(g, descriptor, |reader.image|);
    r := Ok(Some(more));
  }

  /** The descriptor is well-formed, not the terminator, and can be added to `g`. */
  predicate Taken(b: Buffer, lba: nat, total: nat, g: Gathering) {
    |b| == SECTOR_BYTES && TagOk(b, SEQUENCE_TYPES, lba) && Read16(b, 0) != 8 && DescriptorOk(b, total) && Unseen(g, b)
  }

  method GatherSequence(reader: Reader, at: Extent) returns (r: Result<Gathering>, ghost n: nat)
    requires Sectors(reader.image) && at.Inside(|reader.image|)
    requires !reader.boundExceeded && reader.readCount + UDF_DESCRIPTOR_SECTORS <= MAXIMUM_READS
    modifies reader
    ensures !reader.boundExceeded && reader.readCount <= old(reader.readCount) + UDF_DESCRIPTOR_SECTORS
    ensures (old(reader.incomplete) ==> reader.incomplete) && (r.Ok? ==> reader.incomplete == old(reader.incomplete))
    ensures r.Ok? ==> Ended(reader.image, at, n, r.value)
    ensures r.Err? && !reader.incomplete ==> forall m: nat :: !SequenceOk(reader.image, at, m)
  {
    hide TagOk, Reached, SequenceOk, Taken, After, Gathering.Extents, Gathering.Inside, DeclaredBy, Ended;
    n := 0;
    if at.sectorCount > UDF_DESCRIPTOR_SECTORS {
      TooLong(reader.image, at);
      r := Err(MalformedMetadata);
      return;
    }
    var g := Gathering(None, map[], multiset{}, multiset{}, false);
    ReachedFirst(reader.image, at);
    var index := 0;
    while index < at.sectorCount
      invariant 0 <= index <= at.sectorCount && !reader.boundExceeded
      invariant reader.readCount <= old(reader.readCount) + index && reader.incomplete == old(reader.incomplete)
      invariant Reached(reader.image, at, index, g)
    {
      ReachedInside(reader.image, at, index, g);
      var next := TakeDescriptor(reader, at.startLba + index, g);
      if next.Err? {
        if !reader.incomplete {
          ReachedStuck(reader.image, at, index, g);
        }
        r := Err(next.issue);
        return;
      }
      if next.value.None? {
        ReachedEnd(reader.image, at, index, g);
        n := index;
        r := Ok(g);
        return;
      }
      ReachedNext(reader.image, at, index, g);
      g := next.value.value;
      index := index + 1;
    }
    ReachedOut(reader.image, at, g);
    r := Err(MalformedMetadata);
  }

  /** The first `n` descriptors are well-formed and fit, and `g` is what they declare. */
  ghost predicate Reached(image: seq<Buffer>, at: Extent, n: nat, g: Gathering) {
    && Sectors(image) && at.Inside(|image|) && n <= at.sectorCount <= UDF_DESCRIPTOR_SECTORS && g.Inside(|image|)
    && g == Gathered(image, at.startLba, n) && g.Extents() == DeclaredIn(image, at.startLba, n)
    && DescriptorsOk(image, at.startLba, n) && DescriptorsFit(image, at.startLba, n)
  }

  /** The terminator follows. */
  ghost predicate Ended(image: seq<Buffer>, at: Extent, n: nat, g: Gathering) {
    Reached(image, at, n, g) && n < at.sectorCount && TagOk(image[at.startLba + n], [8], at.startLba + n)
  }

  lemma TooLong(image: seq<Buffer>, at: Extent)
    requires Sectors(image) && at.Inside(|image|) && at.sectorCount > UDF_DESCRIPTOR_SECTORS
    ensures forall m: nat :: !SequenceOk(image, at, m)
  {
  }

  lemma ReachedFirst(image: seq<Buffer>, at: Extent)
    requires Sectors(image) && at.Inside(|image|) && at.sectorCount <= UDF_DESCRIPTOR_SECTORS
    ensures Reached(image, at, 0, Gathering(None, map[], multiset{}, multiset{}, false))
  {
    var g := Gathering(None, map[], multiset{}, multiset{}, false);
    assert g.Extents() == {};
  }

  lemma ReachedInside(image: seq<Buffer>, at: Extent, n: nat, g: Gathering)
    requires Reached(image, at, n, g)
    ensures g.Inside(|image|)
  {
  }

  lemma ReachedNext(image: seq<Buffer>, at: Extent, n: nat, g: Gathering)
    requires Reached(image, at, n, g) && n < at.sectorCount
    requires Taken(image[at.startLba + n], at.startLba + n, |image|, g)
    ensures Reached(image, at, n + 1, After(g, image[at.startLba + n]))
  {
    hide TagOk, Gathering.Extents, Gathering.Inside, DeclaredBy, Read16, After, DescriptorOk, Clash, Unseen, Gathered;
    UnseenIs(image, at.startLba, n);
    AfterDeclares(g, image[at.startLba + n], |image|);
    GatheredOne(image, at.startLba, n);
  }

  lemma GatheredOne(image: seq<Buffer>, start: nat, n: nat)
    requires Sectors(image) && start + n < |image|
    ensures Gathered(image, start, n + 1) == After(Gathered(image, start, n), image[start + n])
  {
  }

  lemma ReachedEnd(image: seq<Buffer>, at: Extent, n: nat, g: Gathering)
    requires Reached(image, at, n, g) && n < at.sectorCount && TagOk(image[at.startLba + n], [8], at.startLba + n)
    ensures Ended(image, at, n, g)
  {
  }

  /** A sector that neither ends the sequence nor can be added to it. */
  lemma ReachedStuck(image: seq<Buffer>, at: Extent, n: nat, g: Gathering)
    requires Reached(image, at, n, g) && n < at.sectorCount
    requires !TagOk(image[at.startLba + n], [8], at.startLba + n)
    requires !Taken(image[at.startLba + n], at.startLba + n, |image|, g)
    ensures forall m: nat :: !SequenceOk(image, at, m)
  {
    hide TagOk, Gathering.Extents, Gathering.Inside, DeclaredBy, Read16, DescriptorOk, Clash, Unseen, Seen, Gathered,
         DeclaredIn;
    UnseenIs(image, at.startLba, n);
    forall m: nat | SequenceOk(image, at, m)
      ensures n < m
    {
      Terminates(image[at.startLba + m], at.startLba + m);
    }
  }

  lemma ReachedOut(image: seq<Buffer>, at: Extent, g: Gathering)
    requires Sectors(image) && at.Inside(|image|) && Reached(image, at, at.sectorCount, g)
    ensures forall m: nat :: !SequenceOk(image, at, m)
  {
    hide TagOk, Gathering.Extents, Gathering.Inside, DeclaredBy, DescriptorOk, Clash, Seen, Gathered, DeclaredIn;
    forall k: nat | at.startLba <= k < at.End()
      ensures !TagOk(image[k], [8], k)
    {
      Terminates(image[k], k);
    }
  }

  /** Volume and partitions are those of descriptors in the sequence. */
  ghost predicate Backed(image: seq<Buffer>, at: Extent, volume: Option<LogicalVolume>,
                         partitions: map<nat, Partition>) {
    && Sectors(image) && at.Inside(|image|)
    && (volume.Some? ==> SeenVolume(image, at.startLba, at.sectorCount, volume.value))
    && (forall m :: m in partitions ==> SeenPartition(image, at.startLba, at.sectorCount, partitions[m]))
  }

  /** What a sequence says is exactly what its descriptors declare, all inside the image. */
  lemma ParsesDeclares(image: seq<Buffer>, at: Extent, n: nat, all: Gathering)
    requires Sectors(image) && at.Inside(|image|) && Ended(image, at, n, all) && all.volume.Some?
    ensures SequenceDeclares(image, at, Declared(GeometryIn(all)))
    ensures forall e :: e in Declared(GeometryIn(all)) ==> e.Inside(|image|)
    ensures Backed(image, at, all.volume, all.partitions)
  {
    hide TagOk, DeclaredBy, Read16, Spans, Gathered, LogicalIn, DescriptorOk, Clash, PartitionOf, DeclaredIn;
    GatheredTells(image, at.startLba, n);
    assert Declared(GeometryIn(all)) == all.Extents();
    assert SequenceEnds(image, at, n, all.Extents());
  }

  method ParseSequence(reader: Reader, at: Extent) returns (r: Result<SequenceGeometry>)
    requires Sectors(reader.image) && at.Inside(|reader.image|)
    requires !reader.boundExceeded && reader.readCount + UDF_DESCRIPTOR_SECTORS <= MAXIMUM_READS
    modifies reader
    ensures !reader.boundExceeded && reader.readCount <= old(reader.readCount) + UDF_DESCRIPTOR_SECTORS
    ensures (old(reader.incomplete) ==> reader.incomplete) && (r.Ok? ==> reader.incomplete == old(reader.incomplete))
    ensures r.Ok? ==> ParsesTo(reader.image, at, r.value)
    ensures r.Err? && !reader.incomplete ==> forall g :: !ParsesTo(reader.image, at, g)
    ensures r.Ok? ==> SequenceDeclares(reader.image, at, Declared(r.value)) && FileSetOk(r.value, |reader.image|)
    ensures r.Ok? ==> forall e :: e in Declared(r.value) ==> e.Inside(|reader.image|)
    ensures r.Ok? ==> Backed(reader.image, at, Some(r.value.volume), r.value.partitions)
  {
    hide Spans, FileSetOk, SequenceDeclares, Backed, Ended, SequenceOk, Declared;
    var gathered, n := GatherSequence(reader, at);
    if gathered.Err? {
      return Err(gathered.issue);
    }
    var all := gathered.value;
    EndedTells(reader.image, at, n, all);
    if !all.sawPrimary || all.volume.None? || all.partitions == map[] {
      return Err(MalformedMetadata);
    }
    var geometry := GeometryIn(all);
    ParsesDeclares(reader.image, at, n, all);
    var checked := ValidateReferences(geometry, |reader.image|);
    if checked.Err? {
      return Err(checked.issue);
    }
    assert GatheredAs(reader.image, at, n, geometry);
    r := Ok(geometry);
  }

  /** Where a sequence ends is decided, so only completeness and references are open. */
  lemma EndedTells(image: seq<Buffer>, at: Extent, n: nat, all: Gathering)
    requires Sectors(image) && at.Inside(|image|) && Ended(image, at, n, all)
    ensures n < at.sectorCount
    ensures SequenceOk(image, at, n) <==> all.sawPrimary && all.volume.Some? && all.partitions != map[]
    ensures forall m: nat :: SequenceOk(image, at, m) ==> m == n
    ensures all == Gathered(image, at.startLba, n)
    ensures all.volume.Some? ==>
              all.volume.value.fileSet.length < EXTENT_TYPE_UNIT && all.volume.value.fileSet.block < 4294967296
  {
    hide TagOk, Gathered, Gathering.Extents, DeclaredIn, DescriptorOk, Clash, Seen;
    GatheredTells(image, at.startLba, n);
    Terminates(image[at.startLba + n], at.startLba + n);
    forall m: nat | SequenceOk(image, at, m)
      ensures m == n
    {
      Terminates(image[at.startLba + m], at.startLba + m);
    }
  }

  /** The terminator is a descriptor of the sequence's types, and the only one of its type. */
  lemma Terminates(b: Buffer, lba: nat)
    ensures TagOk(b, [8], lba) <==> TagOk(b, SEQUENCE_TYPES, lba) && Read16(b, 0) == 8
  {
  }
}
