/** Descriptor tags of section 7.2 of part 3 of ECMA-167: the tag checksum, the
    covered length and the descriptor CRC of section 7.2.6. */
module UdfTag {
  import opened Common

  datatype Issue = DefiniteTruncation | MalformedMetadata | UnsupportedLayout

  datatype Result<+T> = Ok(value: T) | Err(issue: Issue) {
    predicate IsFailure() { Err? }
    function PropagateFailure<U>(): Result<U> requires Err? { Err(issue) }
    function Extract(): T requires Ok? { value }
  }

  type Buffer = seq<bv8>

  function ByteAt(b: Buffer, at: nat): (v: Byte)
    requires at < |b|
  {
    b[at] as int
  }

  function Read16(b: Buffer, at: nat): (v: nat)
    requires at + 2 <= |b|
    ensures v < 65536
  {
    ByteAt(b, at) + 256 * ByteAt(b, at + 1)
  }

  function Read32(b: Buffer, at: nat): (v: nat)
    requires at + 4 <= |b|
    ensures v < 4294967296
  {
    Read16(b, at) + 65536 * Read16(b, at + 2)
  }

  function Xor(a: bv16, b: bv16): bv16 {
    a ^ b
  }

  function Xor8(a: bv8, b: bv8): bv8 {
    a ^ b
  }

  predicate Top(crc: bv16) {
    crc & 0x8000 != 0
  }

  function Shift(crc: bv16): bv16 {
    crc << 1
  }

  function High(b: bv8): bv16 {
    (b as bv16) << 8
  }

  const POLYNOMIAL: bv16 := 0x1021

  /** One bit of the CRC: shift out the top bit and fold it back in. */
  function StepBit(crc: bv16): bv16 {
    if Top(crc) then Xor(Shift(crc), POLYNOMIAL) else Shift(crc)
  }

  function StepByte(crc: bv16): bv16 {
    StepBit(StepBit(StepBit(StepBit(StepBit(StepBit(StepBit(StepBit(crc))))))))
  }

  function Feed(crc: bv16, b: bv8): bv16 {
    StepByte(Xor(crc, High(b)))
  }

  function Crc(crc: bv16, bytes: Buffer): bv16 {
    if bytes == [] then crc else Feed(Crc(crc, bytes[..|bytes| - 1]), bytes[|bytes| - 1])
  }

  lemma TopXor(a: bv16, b: bv16)
    ensures Top(Xor(a, b)) <==> Top(a) != Top(b)
  {
  }

  lemma ShiftXor(a: bv16, b: bv16)
    ensures Shift(Xor(a, b)) == Xor(Shift(a), Shift(b))
  {
  }

  lemma XorAssociates(s: bv16, t: bv16, p: bv16)
    ensures Xor(s, Xor(t, p)) == Xor(Xor(s, t), p)
  {
  }

  lemma XorCommutes(s: bv16, t: bv16)
    ensures Xor(s, t) == Xor(t, s)
  {
  }

  lemma XorSelf(s: bv16)
    ensures Xor(s, s) == 0 && Xor(s, 0) == s
  {
  }

  lemma HighXor(x: bv8, y: bv8)
    ensures Xor(High(x), High(y)) == High(Xor8(x, y))
  {
  }

  lemma XorLaws(s: bv16, t: bv16, p: bv16)
    ensures Xor(Xor(s, p), Xor(t, p)) == Xor(s, t)
    ensures Xor(Xor(s, p), t) == Xor(Xor(s, t), p)
    ensures Xor(s, Xor(t, p)) == Xor(Xor(s, t), p)
  {
    hide Xor;
    XorAssociates(s, t, p);
    XorAssociates(s, p, t);
    XorCommutes(p, t);
    XorAssociates(Xor(s, p), t, p);
    XorAssociates(Xor(s, t), p, p);
    XorSelf(p);
    XorSelf(Xor(s, t));
  }

  lemma XorCancel(s: bv16, t: bv16, p: bv16)
    requires Xor(s, p) == Xor(t, p)
    ensures s == t
  {
    hide Xor;
    XorAssociates(s, p, p);
    XorAssociates(t, p, p);
    XorSelf(p);
    XorSelf(s);
    XorSelf(t);
  }

  lemma XorSwap(c: bv16, d: bv16, x: bv8, y: bv8)
    ensures Xor(Xor(c, High(x)), Xor(d, High(y))) == Xor(Xor(c, d), High(Xor8(x, y)))
  {
    hide Xor, High, Xor8;
    var p, q := High(x), High(y);
    XorAssociates(Xor(c, p), d, q);
    XorLaws(c, d, p);
    XorAssociates(Xor(c, d), p, q);
    HighXor(x, y);
  }

  lemma StepLinear(a: bv16, b: bv16)
    ensures StepBit(Xor(a, b)) == Xor(StepBit(a), StepBit(b))
  {
    TopXor(a, b);
    ShiftXor(a, b);
    XorLaws(Shift(a), Shift(b), POLYNOMIAL);
    hide Xor, Top, Shift;
  }

  lemma LowBit(a: bv16)
    ensures Shift(a) & 1 == 0 && Xor(Shift(a), POLYNOMIAL) & 1 == 1
  {
  }

  lemma ShiftInjective(a: bv16, b: bv16)
    requires Shift(a) == Shift(b) && (Top(a) <==> Top(b))
    ensures a == b
  {
  }

  lemma StepInjective(a: bv16, b: bv16)
    requires StepBit(a) == StepBit(b)
    ensures a == b
  {
    LowBit(a);
    LowBit(b);
    hide Xor, Top, Shift;
    assert Top(a) <==> Top(b);
    if Top(a) {
      XorCancel(Shift(a), Shift(b), POLYNOMIAL);
    }
    ShiftInjective(a, b);
  }

  lemma StepByteLinear(a: bv16, b: bv16)
    ensures StepByte(Xor(a, b)) == Xor(StepByte(a), StepByte(b))
  {
    hide Xor, StepBit;
    StepLinear(a, b);
    var a1, b1 := StepBit(a), StepBit(b);
    StepLinear(a1, b1);
    var a2, b2 := StepBit(a1), StepBit(b1);
    StepLinear(a2, b2);
    var a3, b3 := StepBit(a2), StepBit(b2);
    StepLinear(a3, b3);
    var a4, b4 := StepBit(a3), StepBit(b3);
    StepLinear(a4, b4);
    var a5, b5 := StepBit(a4), StepBit(b4);
    StepLinear(a5, b5);
    var a6, b6 := StepBit(a5), StepBit(b5);
    StepLinear(a6, b6);
    StepLinear(StepBit(a6), StepBit(b6));
  }

  lemma StepByteInjective(a: bv16, b: bv16)
    requires StepByte(a) == StepByte(b)
    ensures a == b
  {
    hide StepBit;
    var a1, b1 := StepBit(a), StepBit(b);
    var a2, b2 := StepBit(a1), StepBit(b1);
    var a3, b3 := StepBit(a2), StepBit(b2);
    var a4, b4 := StepBit(a3), StepBit(b3);
    var a5, b5 := StepBit(a4), StepBit(b4);
    var a6, b6 := StepBit(a5), StepBit(b5);
    StepInjective(StepBit(a6), StepBit(b6));
    StepInjective(a6, b6);
    StepInjective(a5, b5);
    StepInjective(a4, b4);
    StepInjective(a3, b3);
    StepInjective(a2, b2);
    StepInjective(a1, b1);
    StepInjective(a, b);
  }

  /** A difference travels on by itself: what both sides share does not matter. */
  lemma FeedDifference(c: bv16, d: bv16, x: bv8, y: bv8)
    ensures Xor(Feed(c, x), Feed(d, y)) == Feed(Xor(c, d), Xor8(x, y))
  {
    hide Xor, High, StepByte, Xor8;
    StepByteLinear(Xor(c, High(x)), Xor(d, High(y)));
    XorSwap(c, d, x, y);
  }

  /** Bytes that both sides share never make a difference disappear. */
  lemma {:induction false} SharedTail(c: bv16, d: bv16, bytes: Buffer)
    ensures Crc(c, bytes) == Crc(d, bytes) <==> c == d
  {
    hide Xor, High, StepByte;
    if bytes != [] {
      var init, last := bytes[..|bytes| - 1], bytes[|bytes| - 1];
      SharedTail(c, d, init);
      if Crc(c, bytes) == Crc(d, bytes) {
        StepByteInjective(Xor(Crc(c, init), High(last)), Xor(Crc(d, init), High(last)));
        XorCancel(Crc(c, init), Crc(d, init), High(last));
      }
    }
  }

  lemma {:induction false} CrcConcat(c: bv16, a: Buffer, b: Buffer)
    ensures Crc(c, a + b) == Crc(Crc(c, a), b)
  {
    hide Feed;
    if b == [] {
      assert a + b == a;
    } else {
      var init := b[..|b| - 1];
      CrcConcat(c, a, init);
      assert (a + b)[..|a + b| - 1] == a + init;
    }
  }

  /** A 16-bit pattern that starts `k` bits above the end of a three-byte window. */
  function Wide(p: bv16, k: bv4): bv24 {
    (p as bv24) << k
  }

  function Difference(w: bv24, i: nat): bv8
    requires i < 3
  {
    if i == 0 then ((w >> 16) & 0xff) as bv8 else if i == 1 then ((w >> 8) & 0xff) as bv8 else (w & 0xff) as bv8
  }

  /** No nonempty burst of at most 16 bits leaves the CRC alone. */
  lemma BurstSeen(p: bv16, k: bv4)
    requires k <= 8 && p != 0
    ensures
      var w := Wide(p, k);
      Feed(Feed(Feed(0, Difference(w, 0)), Difference(w, 1)), Difference(w, 2)) != 0
  {
  }

  /** `x` and `y` differ, and only within 16 consecutive bits. */
  ghost predicate ShortBurst(x: Buffer, y: Buffer) {
    |x| == |y| && exists at: nat, p: bv16, k: bv4 :: BurstAt(x, y, at, p, k)
  }

  ghost predicate BurstAt(x: Buffer, y: Buffer, at: nat, p: bv16, k: bv4)
    requires |x| == |y|
  {
    && k <= 8 && p != 0 && at + 3 <= |x|
    && (forall j :: 0 <= j < |x| && (j < at || at + 3 <= j) ==> x[j] == y[j])
    && (forall i :: 0 <= i < 3 ==> Xor8(x[at + i], y[at + i]) == Difference(Wide(p, k), i))
  }

  lemma FeedThree(c: bv16, x: Buffer, y: Buffer)
    requires |x| == |y| == 3
    ensures Xor(Crc(c, x), Crc(c, y)) == Feed(Feed(Feed(0, Xor8(x[0], y[0])), Xor8(x[1], y[1])), Xor8(x[2], y[2]))
  {
    hide Xor, Feed, Xor8;
    CrcThree(c, x);
    CrcThree(c, y);
    XorSelf(c);
    FeedDifference(c, c, x[0], y[0]);
    var cx, cy := Feed(c, x[0]), Feed(c, y[0]);
    FeedDifference(cx, cy, x[1], y[1]);
    FeedDifference(Feed(cx, x[1]), Feed(cy, y[1]), x[2], y[2]);
  }

  lemma CrcThree(c: bv16, x: Buffer)
    requires |x| == 3
    ensures Crc(c, x) == Feed(Feed(Feed(c, x[0]), x[1]), x[2])
  {
    hide Feed;
    assert x[..2][..1] == [x[0]] && [x[0]][..0] == [];
    assert Crc(c, [x[0]]) == Feed(c, x[0]);
  }

  /** The CRC tells any two covers apart that differ in a short burst. */
  lemma BurstChangesCrc(x: Buffer, y: Buffer)
    requires ShortBurst(x, y)
    ensures Crc(0, x) != Crc(0, y)
  {
    hide Xor, Feed, Wide, Difference, Xor8;
    var at: nat, p: bv16, k: bv4 :| BurstAt(x, y, at, p, k);
    var head, a, b, tail := x[..at], x[at..at + 3], y[at..at + 3], x[at + 3..];
    assert y[..at] == head && y[at + 3..] == tail;
    var c := Crc(0, head);
    FeedThree(c, a, b);
    BurstFed(p, k, a, b);
    assert Crc(c, a) != Crc(c, b) by {
      if Crc(c, a) == Crc(c, b) {
        XorSelf(Crc(c, a));
      }
    }
    assert x == head + (a + tail) && y == head + (b + tail);
    CrcConcat(0, head, a + tail);
    CrcConcat(0, head, b + tail);
    CrcConcat(c, a, tail);
    CrcConcat(c, b, tail);
    SharedTail(Crc(c, a), Crc(c, b), tail);
  }

  lemma BurstFed(p: bv16, k: bv4, a: Buffer, b: Buffer)
    requires k <= 8 && p != 0 && |a| == |b| == 3
    requires forall i :: 0 <= i < 3 ==> Xor8(a[i], b[i]) == Difference(Wide(p, k), i)
    ensures Feed(Feed(Feed(0, Xor8(a[0], b[0])), Xor8(a[1], b[1])), Xor8(a[2], b[2])) != 0
  {
    BurstSeen(p, k);
    hide Feed, Wide, Difference, Xor8;
    assert Xor8(a[0], b[0]) == Difference(Wide(p, k), 0);
    assert Xor8(a[1], b[1]) == Difference(Wide(p, k), 1);
    assert Xor8(a[2], b[2]) == Difference(Wide(p, k), 2);
  }

  /** Two buffers that differ in two neighbouring bytes at most differ in a short burst. */
  lemma AdjacentIsBurst(x: Buffer, y: Buffer, at: nat)
    requires |x| == |y| >= 3 && at + 2 <= |x| && x != y
    requires forall j :: 0 <= j < |x| && j != at && j != at + 1 ==> x[j] == y[j]
    ensures ShortBurst(x, y)
  {
    var d0, d1 := Xor8(x[at], y[at]), Xor8(x[at + 1], y[at + 1]);
    var p := Pair(d0, d1);
    PairWide(d0, d1);
    forall j | 0 <= j < |x|
      ensures Xor8(x[j], y[j]) == 0 <==> x[j] == y[j]
    {
      SameBytes(x[j], y[j]);
    }
    hide Wide, Difference, Pair, Xor8;
    var j :| 0 <= j < |x| && x[j] != y[j];
    assert d0 != 0 || d1 != 0;
    if at == 0 {
      assert BurstAt(x, y, 0, p, 8);
    } else {
      assert BurstAt(x, y, at - 1, p, 0);
    }
  }

  function Pair(d0: bv8, d1: bv8): bv16 {
    Xor(High(d0), d1 as bv16)
  }

  lemma SameBytes(a: bv8, b: bv8)
    ensures Xor8(a, b) == 0 <==> a == b
  {
  }

  lemma PairWide(d0: bv8, d1: bv8)
    ensures Difference(Wide(Pair(d0, d1), 8), 0) == d0 == Difference(Wide(Pair(d0, d1), 0), 1)
    ensures Difference(Wide(Pair(d0, d1), 8), 1) == d1 == Difference(Wide(Pair(d0, d1), 0), 2)
    ensures Difference(Wide(Pair(d0, d1), 8), 2) == 0 == Difference(Wide(Pair(d0, d1), 0), 0)
    ensures Pair(d0, d1) == 0 ==> d0 == 0 && d1 == 0
  {
  }

  const TAG_BYTES: nat := 16

  /** The checksum of the first `n` tag bytes; byte 4 holds the checksum itself. */
  function Checksum(b: Buffer, n: nat): Byte
    requires n <= |b|
  {
    if n == 0 then 0 else if n - 1 == 4 then Checksum(b, n - 1) else (Checksum(b, n - 1) + ByteAt(b, n - 1)) % 256
  }

  /** The number of bytes a descriptor of this type must cover. */
  function CoveredLength(b: Buffer, identifier: nat): Option<nat>
    requires |b| == SECTOR_BYTES
  {
    if identifier in {1, 2, 3, 4, 5, 8} then Some(496)
    else if identifier == 6 then Some(424 + Read32(b, 264))
    else if identifier == 7 then Some(8 + Read32(b, 20) * 8)
    else None
  }

  function StoredCrc(b: Buffer): bv16
    requires |b| >= TAG_BYTES
  {
    Pair(b[9], b[8])
  }

  predicate TagFieldsOk(b: Buffer, expected: seq<nat>, location: nat)
    requires |b| == SECTOR_BYTES
  {
    && Read16(b, 0) in expected && Read16(b, 2) in {2, 3} && b[5] == 0 && Read32(b, 12) == location
    && Checksum(b, TAG_BYTES) == ByteAt(b, 4)
  }

  /** A well-formed descriptor of an expected type, written for this very sector. */
  predicate TagOk(b: Buffer, expected: seq<nat>, location: nat) {
    && |b| == SECTOR_BYTES && TagFieldsOk(b, expected, location)
    && CoveredLength(b, Read16(b, 0)) == Some(Read16(b, 10))
    && TAG_BYTES + Read16(b, 10) <= |b|
    && Crc(0, b[TAG_BYTES..TAG_BYTES + Read16(b, 10)]) == StoredCrc(b)
  }

  function Steps(crc: bv16, n: nat): bv16 {
    if n == 0 then crc else StepBit(Steps(crc, n - 1))
  }

  lemma EightSteps(crc: bv16)
    ensures Steps(crc, 8) == StepByte(crc)
  {
    hide StepBit;
    assert Steps(crc, 1) == StepBit(Steps(crc, 0));
    assert Steps(crc, 2) == StepBit(StepBit(crc));
    assert Steps(crc, 4) == StepBit(StepBit(Steps(crc, 2)));
    assert Steps(crc, 6) == StepBit(StepBit(Steps(crc, 4)));
    assert Steps(crc, 8) == StepBit(StepBit(Steps(crc, 6)));
  }

  method ComputeCrc(b: Buffer, from: nat, to: nat) returns (crc: bv16)
    requires from <= to <= |b|
    ensures crc == Crc(0, b[from..to])
  {
    hide StepByte, Xor, High, StepBit;
    crc := 0;
    var index := from;
    while index < to
      invariant from <= index <= to
      invariant crc == Crc(0, b[from..index])
    {
      var fed := Xor(crc, High(b[index]));
      crc := fed;
      var bit := 0;
      while bit < 8
        invariant 0 <= bit <= 8 && crc == Steps(fed, bit)
      {
        crc := StepBit(crc);
        bit := bit + 1;
      }
      EightSteps(fed);
      assert b[from..index + 1][..index - from] == b[from..index];
      index := index + 1;
    }
  }

  method ComputeChecksum(b: Buffer) returns (checksum: Byte)
    requires |b| == SECTOR_BYTES
    ensures checksum == Checksum(b, TAG_BYTES)
  {
    checksum := 0;
    var index := 0;
    while index < TAG_BYTES
      invariant 0 <= index <= TAG_BYTES && checksum == Checksum(b, index)
    {
      if index != 4 {
        checksum := (checksum + ByteAt(b, index)) % 256;
      }
      index := index + 1;
    }
  }

  /** Accepts exactly the well-formed descriptors and returns their type. */
  method ValidateTag(b: Buffer, expected: seq<nat>, location: nat) returns (r: Result<nat>)
    ensures r.Ok? <==> TagOk(b, expected, location)
    ensures r.Ok? ==> r.value == Read16(b, 0)
    ensures r.Err? ==>
              (r.issue.UnsupportedLayout? <==>
                 |b| == SECTOR_BYTES && TagFieldsOk(b, expected, location) && CoveredLength(b, Read16(b, 0)).None?)
    ensures r.Err? ==> !r.issue.DefiniteTruncation?
  {
    hide Crc, Checksum, Pair;
    if |b| != SECTOR_BYTES {
      return Err(MalformedMetadata);
    }
    var identifier := Read16(b, 0);
    if identifier !in expected {
      return Err(MalformedMetadata);
    }
    if Read16(b, 2) !in {2, 3} || b[5] != 0 || Read32(b, 12) != location {
      return Err(MalformedMetadata);
    }
    var checksum := ComputeChecksum(b);
    if checksum != ByteAt(b, 4) {
      return Err(MalformedMetadata);
    }
    var length := Read16(b, 10);
    var required := CoveredLength(b, identifier);
    if required.None? {
      return Err(UnsupportedLayout);
    }
    if length != required.value || required.value > |b| - TAG_BYTES {
      return Err(MalformedMetadata);
    }
    var crc := ComputeCrc(b, TAG_BYTES, TAG_BYTES + length);
    if crc != StoredCrc(b) {
      return Err(MalformedMetadata);
    }
    return Ok(identifier);
  }

  /** Whatever sector and types are then asked for, a descriptor that was accepted
      is rejected after any burst of at most 16 bits in what its CRC covers: a
      change that moves the covered length fails that check instead. */
  lemma BurstRejected(b: Buffer, c: Buffer, expected: seq<nat>, location: nat, others: seq<nat>, elsewhere: nat)
    requires TagOk(b, expected, location) && |c| == |b| && c[..TAG_BYTES] == b[..TAG_BYTES]
    requires ShortBurst(b[TAG_BYTES..TAG_BYTES + Read16(b, 10)], c[TAG_BYTES..TAG_BYTES + Read16(b, 10)])
    ensures !TagOk(c, others, elsewhere)
  {
    hide Crc, Pair, ShortBurst;
    TagBytesSame(b, c);
    BurstChangesCrc(b[TAG_BYTES..TAG_BYTES + Read16(b, 10)], c[TAG_BYTES..TAG_BYTES + Read16(b, 10)]);
  }

  lemma TagBytesSame(b: Buffer, c: Buffer)
    requires |b| == |c| >= TAG_BYTES && c[..TAG_BYTES] == b[..TAG_BYTES]
    ensures forall j :: 0 <= j < TAG_BYTES ==> c[j] == b[j]
  {
    forall j | 0 <= j < TAG_BYTES
      ensures c[j] == b[j]
    {
      assert c[..TAG_BYTES][j] == b[..TAG_BYTES][j];
    }
  }

  /** In particular after any change confined to two neighbouring covered bytes. */
  lemma AdjacentChangeRejected(b: Buffer, c: Buffer, expected: seq<nat>, location: nat, at: nat)
    requires TagOk(b, expected, location) && |c| == |b| && c != b
    requires TAG_BYTES <= at && at + 2 <= TAG_BYTES + Read16(b, 10)
    requires forall j :: 0 <= j < |b| && j != at && j != at + 1 ==> c[j] == b[j]
    ensures !TagOk(c, expected, location)
  {
    hide Crc, Pair, Checksum, ShortBurst;
    var to := TAG_BYTES + Read16(b, 10);
    assert c[..TAG_BYTES] == b[..TAG_BYTES];
    var x, y := b[TAG_BYTES..to], c[TAG_BYTES..to];
    var j :| 0 <= j < |b| && c[j] != b[j];
    assert x[j - TAG_BYTES] != y[j - TAG_BYTES];
    AdjacentIsBurst(x, y, at - TAG_BYTES);
    BurstRejected(b, c, expected, location, expected, location);
  }

  /** No single tag byte can be altered either: the checksum is off. */
  lemma TagChangeRejected(b: Buffer, at: nat, v: bv8, expected: seq<nat>, location: nat, others: seq<nat>,
                          elsewhere: nat)
    requires TagOk(b, expected, location) && at < TAG_BYTES && v != b[at]
    ensures !TagOk(b[at := v], others, elsewhere)
  {
    hide Crc, Pair, ByteAt;
    ChecksumMoves(b, at, v, TAG_BYTES);
    ByteUpdated(b, at, v, 4);
  }

  lemma ByteUpdated(b: Buffer, at: nat, v: bv8, j: nat)
    requires at < |b| && j < |b| && v != b[at]
    ensures ByteAt(b[at := v], j) != ByteAt(b, j) <==> j == at
  {
  }

  lemma {:induction false} ChecksumMoves(b: Buffer, at: nat, v: bv8, n: nat)
    requires at < |b| && n <= |b|
    requires v != b[at]
    ensures Checksum(b[at := v], n) != Checksum(b, n) <==> at < n && at != 4
  {
    hide ByteAt;
    if n > 0 {
      ChecksumMoves(b, at, v, n - 1);
      ByteUpdated(b, at, v, n - 1);
      SumsDiffer(Checksum(b, n - 1), ByteAt(b, n - 1), ByteAt(b[at := v], n - 1));
      SumsDiffer(ByteAt(b, n - 1), Checksum(b, n - 1), Checksum(b[at := v], n - 1));
    }
  }

  lemma SumsDiffer(s: Byte, x: Byte, y: Byte)
    ensures (s + x) % 256 == (s + y) % 256 <==> x == y
  {
  }
}
