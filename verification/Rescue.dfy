/** The mutable state of one copy: the output image, the damage map with its
    running counters, and the evidence kept while one request is recovered. */
module Rescue {
  import opened Common
  import opened Bits
  import opened Sense
  import opened Drive

  const READ_BLOCKS: nat := 31

  /** The exit status of a run: 0, 1 and the reserved read-failure status. */
  datatype Status = Done | Broke | ReadFailed

  /** A `uint64_t` handed around by reference. Two parameters may name the same one. */
  class Counter {
    var value: nat

    constructor (v: nat)
      ensures value == v
    {
      value := v;
    }
  }

  /** Some sectors, of which nothing is promised. */
  method TornTail() returns (s: seq<Sector>) {
    s := [];
  }

  method TornSector() returns (s: Sector) {
    s := ZERO_SECTOR;
  }

  /** The output file, in sectors. A write that fails may leave a torn tail. */
  class Image {
    var sectors: seq<Sector>
    var offset: nat

    constructor (initial: seq<Sector>, at: nat)
      requires at <= |initial|
      ensures sectors == initial && offset == at
    {
      sectors, offset := initial, at;
    }

    method Write(data: seq<Sector>) returns (ok: bool)
      requires offset <= |sectors|
      modifies this
      ensures offset <= |sectors| && old(sectors)[..old(offset)] <= sectors
      ensures ok ==> offset == old(offset) + |data|
      ensures ok ==> sectors == old(sectors)[..old(offset)] + data + old(sectors)[Min(offset, |old(sectors)|)..]
    {
      ok := *;
      var next := offset + |data|;
      if ok {
        sectors := sectors[..offset] + data + sectors[Min(next, |sectors|)..];
        offset := next;
      } else {
        var torn := TornTail();
        sectors := sectors[..offset] + torn;
      }
    }

    /** Positioned write of one sector; a failed one may leave that sector torn. */
    method WriteAt(data: Sector, lba: nat) returns (ok: bool)
      requires lba < |sectors|
      modifies this`sectors
      ensures |sectors| == |old(sectors)|
      ensures forall i :: 0 <= i < |sectors| && i != lba ==> sectors[i] == old(sectors)[i]
      ensures ok ==> sectors[lba] == data
    {
      ok := *;
      var torn := TornSector();
      sectors := sectors[lba := if ok then data else torn];
    }

    method ReadAll(lba: nat) returns (ok: bool, s: Sector)
      requires lba < |sectors|
      ensures ok ==> s == sectors[lba]
    {
      ok := *;
      s := sectors[lba];
    }

    /** Truncation may fail, which the source only reports. */
    method Truncate(length: nat) returns (ok: bool)
      requires length <= |sectors|
      modifies this`sectors
      ensures sectors == if ok then old(sectors)[..length] else old(sectors)
    {
      ok := *;
      if ok {
        sectors := sectors[..length];
      }
    }
  }

  function AllClear(total: nat): seq<bool> {
    seq(total, i => false)
  }

  predicate ClearFrom(bits: seq<bool>, lba: nat) {
    forall i :: lba <= i < |bits| ==> !bits[i]
  }

  predicate ClearBelow(bits: seq<bool>, lba: nat) {
    forall i :: 0 <= i < lba && i < |bits| ==> !bits[i]
  }

  /** `kept` is the first flag set below `count`, or `count` if there is none. */
  predicate CutAt(bits: seq<bool>, kept: nat, count: nat) {
    kept <= count <= |bits| && ClearBelow(bits, kept) && (kept < count ==> bits[kept])
  }

  class RecoveryState {
    const total: nat
    const bitmap: array<bv8>
    /** Every command of the helper sets it. */
    const allowBoundaryProof: bool := true
    var badSectorCount: nat
    var badAreaCount: nat
    var boundaryFailure: bool
    var boundaryProven: bool
    /** Where the reported boundary leaves the image, in sectors. */
    var boundaryRetained: nat

    ghost function Bits(): seq<bool>
      reads this, bitmap
    {
      Unpack(bitmap[..], total)
    }

    /** The counters are those of the map. */
    ghost predicate Counted()
      reads this, bitmap
    {
      badSectorCount == Count(Bits()) && badAreaCount == |Runs(Bits())|
    }

    constructor (total: nat, bytes: nat)
      ensures this.total == total && fresh(bitmap) && bitmap.Length == bytes
      ensures Bits() == AllClear(total) && Counted()
      ensures !boundaryFailure && !boundaryProven && boundaryRetained == 0
    {
      this.total := total;
      bitmap := new bv8[bytes](i => 0);
      badSectorCount, badAreaCount := 0, 0;
      boundaryFailure, boundaryProven, boundaryRetained := false, false, 0;
      new;
      ClearBitmap(bitmap[..], total);
    }

    /** Marks happen in rising order, so looking one sector back is enough to
        keep the number of maximal runs. */
    method MarkBadSector(lba: nat)
      requires lba < total && lba / 8 < bitmap.Length
      requires Counted() && ClearFrom(Bits(), lba)
      modifies this`badSectorCount, this`badAreaCount, bitmap
      ensures Bits() == old(Bits())[lba := true] && Counted()
    {
      hide Unpack, Count, Runs;
      ghost var before := bitmap[..];
      MarkFacts(before, total, lba);
      bitmap[lba / 8] := bitmap[lba / 8] | Mask(lba % 8);
      assert bitmap[..] == before[lba / 8 := before[lba / 8] | Mask(lba % 8)];
      badSectorCount := badSectorCount + 1;
      if lba == 0 || !SectorIsBad(lba - 1) {
        badAreaCount := badAreaCount + 1;
      }
    }

    predicate SectorIsBad(lba: nat): (r: bool)
      requires lba / 8 < bitmap.Length
      reads this, bitmap
      ensures lba < total ==> r == Bits()[lba]
    {
      bitmap[lba / 8] & Mask(lba % 8) != 0
    }

    /** How much of the image may stay when a boundary is not proved: all that
        was processed, up to the first placeholder. */
    method BoundaryRetained(processed: nat) returns (retained: nat)
      requires processed <= total && Counted()
      ensures CutAt(Bits(), retained, processed)
    {
      hide Unpack, Count, Runs, Mask;
      CountBound(Bits());
      if badSectorCount == 0 {
        return processed;
      }
      ghost var bytes := bitmap[..];
      for index := 0 to bitmap.Length
        invariant ClearBelow(Unpack(bytes, total), 8 * index)
      {
        var byte := bitmap[index];
        if byte == 0 {
          ZeroByte(bytes, total, index);
        } else {
          for bit := 0 to 8
            invariant ClearBelow(Unpack(bytes, total), 8 * index + bit)
          {
            NextBit(bytes, total, index, bit);
            if byte & Mask(bit) != 0 {
              var first := 8 * index + bit;
              return if first < processed then first else processed;
            }
          }
        }
      }
      ClearPastEnd(bytes, total);
      return processed;
    }
  }

  lemma ClearPastEnd(bytes: seq<bv8>, total: nat)
    requires ClearBelow(Unpack(bytes, total), 8 * |bytes|)
    ensures ClearBelow(Unpack(bytes, total), total)
  {
  }

  /** What one mark does to the flags, their number and their runs. */
  lemma MarkFacts(bytes: seq<bv8>, total: nat, lba: nat)
    requires lba < total && lba / 8 < |bytes| && ClearFrom(Unpack(bytes, total), lba)
    ensures
      var after := bytes[lba / 8 := bytes[lba / 8] | Mask(lba % 8)];
      var bits := Unpack(bytes, total);
      && Unpack(after, total) == bits[lba := true]
      && Count(bits[lba := true]) == Count(bits) + 1
      && |Runs(bits[lba := true])|
         == |Runs(bits)| + (if lba == 0 || !bits[lba - 1] then 1 else 0)
  {
    var after := bytes[lba / 8 := bytes[lba / 8] | Mask(lba % 8)];
    SetBit(bytes, total, lba);
    CountSet(Unpack(bytes, total), lba);
    RunsSetAbove(Unpack(bytes, total), lba);
  }

  lemma NextBit(bytes: seq<bv8>, total: nat, index: nat, bit: nat)
    requires index < |bytes| && bit < 8 && ClearBelow(Unpack(bytes, total), 8 * index + bit)
    ensures bytes[index] & Mask(bit) == 0 ==> ClearBelow(Unpack(bytes, total), 8 * index + bit + 1)
    ensures bytes[index] & Mask(bit) != 0 && 8 * index + bit < total ==> Unpack(bytes, total)[8 * index + bit]
  {
    assert (8 * index + bit) / 8 == index && (8 * index + bit) % 8 == bit;
  }

  lemma ClearBitmap(bitmap: seq<bv8>, total: nat)
    requires forall i :: 0 <= i < |bitmap| ==> bitmap[i] == 0
    ensures Unpack(bitmap, total) == AllClear(total)
    ensures Count(AllClear(total)) == 0 && Runs(AllClear(total)) == []
  {
    CountClear(AllClear(total));
  }

  lemma ZeroByte(bitmap: seq<bv8>, total: nat, index: nat)
    requires index < |bitmap| && bitmap[index] == 0 && ClearBelow(Unpack(bitmap, total), 8 * index)
    ensures ClearBelow(Unpack(bitmap, total), 8 * index + 8)
  {
  }

  /** Addresses of the medium errors met while one request is recovered. */
  class ConflictEvidence {
    const lbas: array<nat>
    var count: nat
    var unlocated: bool

    constructor ()
      ensures fresh(lbas) && lbas.Length == READ_BLOCKS && count == 0 && !unlocated
    {
      lbas := new nat[READ_BLOCKS];
      count, unlocated := 0, false;
    }

    /** All addresses lie in the request that starts at `lo`, without repeats. */
    ghost predicate Within(lo: nat)
      reads this, lbas
    {
      && lbas.Length == READ_BLOCKS && count <= READ_BLOCKS
      && (forall k :: 0 <= k < count ==> lo <= lbas[k] < lo + READ_BLOCKS)
      && (forall j, k :: 0 <= j < k < count ==> lbas[j] != lbas[k])
    }

    /** The evidence says exactly what the medium errors among `events` said. */
    ghost predicate Tracks(events: seq<ReadEvent>)
      reads this, lbas
    {
      && count <= lbas.Length
      && (unlocated <==> HasUnlocated(events))
      && (forall lba: nat :: lba in lbas[..count] <==> lba in MediumNames(events))
    }

    /** Records one medium error. The branch for a full table cannot be taken:
        a request has no more addresses than the table has rows. */
    method Record(f: ReadFailure, ghost lo: nat, ghost events: seq<ReadEvent>, ghost e: ReadEvent)
      requires Within(lo) && Tracks(events) && IsMedium(e) && e.outcome.failure == f
      requires f.sense.informationLba.Some? ==> lo <= f.sense.informationLba.value < lo + READ_BLOCKS
      modifies this, lbas
      ensures Within(lo) && Tracks(events + [e])
    {
      MediumNamesPush(events, e);
      if f.sense.informationLba.None? {
        unlocated := true;
        return;
      }
      var lba := f.sense.informationLba.value;
      for index := 0 to count
        invariant lba !in lbas[..index]
      {
        if lbas[index] == lba {
          return;
        }
        assert lbas[..index + 1] == lbas[..index] + [lbas[index]];
      }
      DistinctInRange(lbas[..count] + [lba], lo, lo + READ_BLOCKS);
      if count >= READ_BLOCKS {
        // the source would give up on naming addresses here
        assert false;
      }
      ghost var before := lbas[..count];
      lbas[count] := lba;
      count := count + 1;
      assert lbas[..count] == before + [lba];
    }

    method ConflictsWith(f: ReadFailure) returns (conflict: bool)
      requires count <= lbas.Length
      ensures conflict <==> unlocated || f.sense.informationLba.None?
                            || f.sense.informationLba.value in lbas[..count]
    {
      if unlocated || f.sense.informationLba.None? {
        return true;
      }
      for index := 0 to count
        invariant f.sense.informationLba.value !in lbas[..index]
      {
        if lbas[index] == f.sense.informationLba.value {
          return true;
        }
        assert lbas[..index + 1] == lbas[..index] + [lbas[index]];
      }
      return false;
    }
  }
}
