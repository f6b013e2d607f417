/**
 * The layout of a relation vector, shared by its encoder and its decoder.
 *
 * A relation vector is a byte string; every byte holds four 2-bit fields, one per
 * peer id. Peer ids are counted two bits at a time from the RIGHT end of the
 * vector: peer 1 is the low pair of the last byte, peer 4 its high pair, peer 5
 * the low pair of the byte before it, and so on.
 */
module RelationBits {

  /** The four relationship states of a 2-bit field. */
  const NoRelation := 0
  const Friend := 1
  const Requested := 2
  const Blocked := 3

  /** The index of the byte that holds peer `g`'s field. */
  function FieldByte(len: nat, g: int): int { len - 1 - (g - 1) / 4 }

  /** The bit offset of peer `g`'s field inside its byte: 0, 2, 4 or 6. */
  function FieldShift(g: int): int { ((g - 1) % 4) * 2 }

  /** A field offset, as the 4-bit shift count a shift of a byte uses. */
  predicate IsOffset(a: bv4) { a == 0 || a == 2 || a == 4 || a == 6 }

  /** The two bits of `x` at offset `a`. */
  function Field(x: bv8, a: bv4): bv8
    requires IsOffset(a)
  {
    (x >> a) & 3
  }

  /** `x` with the two bits at offset `a` replaced by `value`. */
  function Write(x: bv8, a: bv4, value: bv8): bv8
    requires IsOffset(a)
  {
    (x & !(3 << a)) | (value << a)
  }

  /** Peer `g`'s field offset is one of the four. */
  lemma FieldShiftIsOffset(g: int)
    requires 1 <= g
    ensures IsOffset(FieldShift(g) as bv4)
  {
  }

  /** The state of peer `k` (1 <= k <= 4 * |v|), read from its field in place. */
  function PeerState(v: seq<bv8>, k: int): (s: int)
    requires 1 <= k <= 4 * |v|
    ensures NoRelation <= s <= Blocked
  {
    FieldShiftIsOffset(k);
    Field(v[FieldByte(|v|, k)], FieldShift(k) as bv4) as int
  }

  /** Reading the field at `b` after writing the one at `a`: the new value there, the old bits elsewhere. */
  lemma WriteRead(x: bv8, a: bv4, value: bv8, b: bv4)
    requires IsOffset(a) && IsOffset(b) && value <= 3
    ensures Field(Write(x, a, value), b) == if a == b then value else Field(x, b)
  {
  }

  /** Writing a field twice keeps only the second value. */
  lemma WriteWrite(x: bv8, a: bv4, u: bv8, w: bv8)
    requires IsOffset(a) && u <= 3 && w <= 3
    ensures Write(Write(x, a, u), a, w) == Write(x, a, w)
  {
  }

  /** Writing a field's current bits gives back the byte. */
  lemma WriteCurrent(x: bv8, a: bv4)
    requires IsOffset(a)
    ensures Write(x, a, Field(x, a)) == x
  {
  }

  /** A field is its high bit, worth 2, plus its low bit, worth 1. */
  lemma FieldOfBits(x: bv8, a: bv4)
    requires IsOffset(a)
    ensures Field(x, a) as int ==
      (if (x >> (a + 1)) & 1 == 1 then 2 else 0) + (if (x >> a) & 1 == 1 then 1 else 0)
  {
  }

  /** A field read out as an integer converts back to the same bits. */
  lemma FieldRoundTrip(x: bv8, a: bv4)
    requires IsOffset(a)
    ensures (Field(x, a) as int) as bv8 == Field(x, a)
  {
  }

  /** Two peers that share a byte sit at different offsets in it. */
  lemma SameByteOtherOffset(k: int, g: int)
    requires 1 <= k && 1 <= g && k != g && (k - 1) / 4 == (g - 1) / 4
    ensures FieldShift(k) as bv4 != FieldShift(g) as bv4
  {
    assert k - 1 == 4 * ((k - 1) / 4) + (k - 1) % 4;
    assert g - 1 == 4 * ((g - 1) / 4) + (g - 1) % 4;
    assert FieldShift(k) != FieldShift(g);
  }
}
