/**
 * The relation-vector decoder of package friendupdate: one status per peer id,
 * read from the vector by a most-significant-first scan.
 */
module FriendUpdate {
  import opened RelationBits

  /** Bit `7 - n` of `x`: the `n`-th bit counted from the top, found by shifting left. */
  function TopBit(x: bv8, n: nat): bool
    requires n < 8
    decreases n
  {
    if n == 0 then x & 0x80 != 0 else TopBit(x << 1, n - 1)
  }

  /** Scan position `p` of a vector: byte by byte from the head, each from its top bit down. */
  function BitOf(v: seq<bv8>, p: nat): bool
    requires p < 8 * |v|
  {
    if p < 8 then TopBit(v[0], p) else BitOf(v[1..], p - 8)
  }

  lemma ShiftedBit(x: bv8, n: int)
    requires 0 < n < 8
    ensures ((x << 1) >> (7 - (n - 1))) & 1 == (x >> (7 - n)) & 1
  {
    if n == 1 {
    } else if n == 2 {
    } else if n == 3 {
    } else if n == 4 {
    } else if n == 5 {
    } else if n == 6 {
    } else {
    }
  }

  lemma {:induction false} TopBitAt(x: bv8, n: int)
    requires 0 <= n < 8
    ensures TopBit(x, n) <==> (x >> (7 - n)) & 1 == 1
    decreases n
  {
    if n > 0 {
      TopBitAt(x << 1, n - 1);
      ShiftedBit(x, n);
    }
  }

  /** Scan position `p` is bit `7 - p % 8` of byte `p / 8`. */
  lemma {:induction false} BitOfAt(v: seq<bv8>, p: int)
    requires 0 <= p < 8 * |v|
    ensures BitOf(v, p) <==> (v[p / 8] >> (7 - p % 8)) & 1 == 1
  {
    if p < 8 {
      TopBitAt(v[0], p);
    } else {
      BitOfAt(v[1..], p - 8);
      assert (p - 8) / 8 == p / 8 - 1 && (p - 8) % 8 == p % 8;
    }
  }

  /** The pair the scan reads at position `i`: the bit there is worth 2, the next one 1. */
  function ScanPair(v: seq<bv8>, i: int): int
    requires 0 <= i < 8 * |v| - 1
  {
    (if BitOf(v, i) then 2 else 0) + (if BitOf(v, i + 1) then 1 else 0)
  }

  lemma DivMod8(i: int, q: int, r: int)
    requires i == 8 * q + r && 0 <= r < 8
    ensures i / 8 == q && i % 8 == r
  {
  }

  /** One past a field offset, as a shift count. */
  lemma NextOffset(n: int)
    requires n == 0 || n == 2 || n == 4 || n == 6
    ensures (n + 1) as bv4 == n as bv4 + 1
  {
  }

  /**
   * The scan reaches peer `k` at position `8 * |v| - 2 * k`, and the pair it reads
   * there is the state `PeerState` gives peer `k`.
   */
  lemma ScanPairIsPeerState(v: seq<bv8>, k: int)
    requires 1 <= k <= 4 * |v|
    ensures ScanPair(v, 8 * |v| - 2 * k) == PeerState(v, k)
  {
    var q, r := (k - 1) / 4, (k - 1) % 4;
    var i := 8 * |v| - 2 * k;
    DivMod8(i, |v| - 1 - q, 6 - 2 * r);
    DivMod8(i + 1, |v| - 1 - q, 7 - 2 * r);
    BitOfAt(v, i);
    BitOfAt(v, i + 1);
    FieldShiftIsOffset(k);
    NextOffset(FieldShift(k));
    FieldOfBits(v[FieldByte(|v|, k)], FieldShift(k) as bv4);
  }

  /**
   * Reversing entries 1 .. n-1 of the scan's output puts the pair read for peer `k`
   * at index `k` and the zero padding above the peers.
   */
  lemma ReversedScanIsDecoded(v: seq<bv8>, scanned: seq<int>, friends: seq<int>)
    requires |scanned| == |friends| == 8 * |v| + 2
    requires forall p :: 0 <= p < 4 * |v| + 2 ==> scanned[p] == 0
    requires forall j :: 0 <= j < 4 * |v| ==> scanned[4 * |v| + 2 + j] == ScanPair(v, 2 * j)
    requires friends[0] == scanned[0]
    requires forall k :: 1 <= k < |friends| ==> friends[k] == scanned[|friends| - k]
    ensures friends[0] == NoRelation
    ensures forall k :: 1 <= k <= 4 * |v| ==> friends[k] == PeerState(v, k)
    ensures forall k :: 4 * |v| < k < |friends| ==> friends[k] == NoRelation
  {
    forall k | 1 <= k <= 4 * |v|
      ensures friends[k] == PeerState(v, k)
    {
      var j := 4 * |v| - k;
      assert friends[k] == scanned[4 * |v| + 2 + j];
      assert 0 <= j < 4 * |v|;
      assert scanned[4 * |v| + 2 + j] == ScanPair(v, 2 * j);
      ScanPairIsPeerState(v, k);
      assert 2 * j == 8 * |v| - 2 * k;
    }
  }

  /**
   * One bit read of the decoder's scan: bit `bitIndex` of byte `byteIndex`, which
   * is scan position `p`.
   */
  method ReadBit(relation: seq<bv8>, byteIndex: int, bitIndex: int, ghost p: int) returns (b: bv8)
    requires 0 <= p < 8 * |relation| && byteIndex == p / 8 && bitIndex == 7 - p % 8
    ensures b == 0 <==> !BitOf(relation, p)
    ensures b == 1 <==> BitOf(relation, p)
    ensures b == 0 || b == 1
  {
    b := (relation[byteIndex] >> bitIndex) & 1;
    BitOfAt(relation, p);
  }

  /**
   * The scan phase of `AnalyzeRelationByte`: a zero-filled slice of `maxUserID + 1`
   * entries, one more zero appended, then one entry appended per bit pair of a
   * most-significant-first scan from the vector's head.
   */
  method ScanRelation(relation: seq<bv8>) returns (friends: seq<int>)
    ensures |friends| == 8 * |relation| + 2
    ensures forall p :: 0 <= p < 4 * |relation| + 2 ==> friends[p] == 0
    ensures forall j :: 0 <= j < 4 * |relation| ==> friends[4 * |relation| + 2 + j] == ScanPair(relation, 2 * j)
  {
    var totalBits := |relation| * 8;
    var maxUserID := totalBits / 2;
    friends := seq(maxUserID + 1, _ => 0);
    friends := friends + [0];

    var i := 0;
    ghost var pairs := 0;
    while i < totalBits
      invariant 0 <= i <= totalBits && i == 2 * pairs
      invariant |friends| == 4 * |relation| + 2 + pairs
      invariant forall p :: 0 <= p < 4 * |relation| + 2 ==> friends[p] == 0
      invariant forall j :: 0 <= j < pairs ==> friends[4 * |relation| + 2 + j] == ScanPair(relation, 2 * j)
    {
      var byteIndex1 := i / 8;
      var bitIndex1 := 7 - i % 8;
      var b1 := ReadBit(relation, byteIndex1, bitIndex1, i);
      var byteIndex2 := (i + 1) / 8;
      var bitIndex2 := 7 - (i + 1) % 8;
      var b2 := ReadBit(relation, byteIndex2, bitIndex2, i + 1);
      var userID := i / 2 + 1;
      // The source skips a pair when `userID >= len(friends)`; the slice is
      // already longer than every peer id, so the guard never fires.
      assert userID < |friends|;

      ghost var before := friends;
      if b1 == 0 && b2 == 0 {
        friends := friends + [0];
      } else if b1 == 0 && b2 == 1 {
        friends := friends + [1];
      } else if b1 == 1 && b2 == 0 {
        friends := friends + [2];
      } else if b1 == 1 && b2 == 1 {
        friends := friends + [3];
      }
      assert friends == before + [ScanPair(relation, i)];
      i := i + 2;
      pairs := pairs + 1;
    }
  }

  /** The reversal phase of `AnalyzeRelationByte`: entries 1 .. n-1 swapped end for end, entry 0 kept. */
  method ReverseTail(scanned: seq<int>) returns (friends: seq<int>)
    requires |scanned| >= 1
    ensures |friends| == |scanned| && friends[0] == scanned[0]
    ensures forall k :: 1 <= k < |friends| ==> friends[k] == scanned[|friends| - k]
  {
    friends := scanned;
    var n := |friends|;
    var start := 1;
    var end := n - 1;
    while start < end
      invariant 1 <= start <= end + 1 && start + end == n
      invariant |friends| == n && friends[0] == scanned[0]
      invariant forall k :: 1 <= k < start ==> friends[k] == scanned[n - k] && friends[n - k] == scanned[k]
      invariant forall k :: start <= k <= end ==> friends[k] == scanned[k]
    {
      friends := friends[start := friends[end]][end := friends[start]];
      start := start + 1;
      end := end - 1;
    }
  }

  /** The decoder's output in closed form: peer states at 1 .. 4|relation|, zero at 0 and past the peers. */
  function Decoded(relation: seq<bv8>): (s: seq<int>)
    ensures |s| == 8 * |relation| + 2
  {
    seq(8 * |relation| + 2, k requires 0 <= k => if 1 <= k <= 4 * |relation| then PeerState(relation, k) else NoRelation)
  }

  /**
   * `AnalyzeRelationByte`: decodes a relation vector into a status per peer id.
   * The result has `8 * |relation| + 2` entries; entry `k` for 1 <= k <= 4 * |relation|
   * is peer k's state, entry 0 and every entry past the peers is padding (0).
   */
  method AnalyzeRelationByte(relation: seq<bv8>) returns (friends: seq<int>)
    ensures |friends| == 8 * |relation| + 2
    ensures friends[0] == NoRelation
    ensures forall k :: 1 <= k <= 4 * |relation| ==> friends[k] == PeerState(relation, k)
    ensures forall k :: 4 * |relation| < k < |friends| ==> friends[k] == NoRelation
    ensures friends == Decoded(relation)
  {
    var scanned := ScanRelation(relation);
    friends := ReverseTail(scanned);
    ReversedScanIsDecoded(relation, scanned, friends);
  }
}
