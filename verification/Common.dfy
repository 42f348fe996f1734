/** Values shared by several components. */
module Common {

  datatype Option<+T> = None | Some(value: T)

  /** An unsigned eight-bit value on which the source does arithmetic. */
  type Byte = x: nat | x < 256

  /** An unsigned sixteen-bit value. */
  type Word = x: nat | x < 65536

  const SECTOR_BYTES: nat := 2048

  /** Largest integer that `Number.isSafeInteger` accepts. */
  const MAX_SAFE_INTEGER: int := 9007199254740991

  predicate SafeInteger(x: int) {
    -MAX_SAFE_INTEGER <= x <= MAX_SAFE_INTEGER
  }

  function Min(a: int, b: int): int {
    if a <= b then a else b
  }

  function Max(a: int, b: int): int {
    if a >= b then a else b
  }

  /** A half-open run of sectors. */
  datatype Run = Run(start: nat, count: nat) {
    function End(): nat { start + count }
    predicate Covers(i: int) { start <= i < End() }
  }

  /** Pigeonhole: distinct values from an interval are no more than its length. */
  lemma {:induction false} DistinctInRange(s: seq<nat>, lo: nat, hi: nat)
    requires lo <= hi
    requires forall k :: 0 <= k < |s| ==> lo <= s[k] < hi
    requires forall j, k :: 0 <= j < k < |s| ==> s[j] != s[k]
    ensures |s| <= hi - lo
    decreases hi - lo
  {
    if s != [] {
      assert lo <= s[0] < hi;
      if hi - 1 in s {
        var k :| 0 <= k < |s| && s[k] == hi - 1;
        var rest := s[..k] + s[k + 1..];
        assert forall m :: 0 <= m < |rest| ==> rest[m] == if m < k then s[m] else s[m + 1];
        DistinctInRange(rest, lo, hi - 1);
      } else {
        DistinctInRange(s, lo, hi - 1);
      }
    }
  }
}
