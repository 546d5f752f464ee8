/** Single bits of bytes, the most significant first (crates/ultrasql-core/src/bit_string.rs). */
module BitBytes {

  type u8 = bv8

  /** Bit `k` of a byte, counted from the left. */
  predicate BitAt(b: u8, k: nat)
    requires k < 8
  {
    (b >> (7 - k)) & 1 == 1
  }

  function Mask(k: nat): u8
    requires k < 8
  {
    1 << (7 - k)
  }

  function WithBit(b: u8, k: nat, bit: bool): u8
    requires k < 8
  {
    if bit then b | Mask(k) else b & !Mask(k)
  }

  lemma ClearAt(b: u8, m: u8, k: nat)
    requires k < 8
    ensures BitAt(b & !m, k) == (BitAt(b, k) && !BitAt(m, k))
  {
  }

  lemma OrAt(a: u8, b: u8, k: nat)
    requires k < 8
    ensures BitAt(a | b, k) == (BitAt(a, k) || BitAt(b, k))
  {
  }

  lemma NotAt(b: u8, k: nat)
    requires k < 8
    ensures BitAt(!b, k) == !BitAt(b, k)
  {
  }

  lemma MaskAt(k: nat, j: nat)
    requires k < 8 && j < 8
    ensures BitAt(Mask(k), j) == (j == k)
  {
  }

  lemma WithBitAt(b: u8, k: nat, bit: bool, j: nat)
    requires k < 8 && j < 8
    ensures BitAt(WithBit(b, k, bit), j) == if j == k then bit else BitAt(b, j)
  {
    MaskAt(k, j);
    if bit {
      OrAt(b, Mask(k), j);
    } else {
      ClearAt(b, Mask(k), j);
    }
  }

  lemma SameBits(a: u8, b: u8)
    requires forall k: nat :: k < 8 ==> BitAt(a, k) == BitAt(b, k)
    ensures a == b
  {
    assert BitAt(a, 0) == BitAt(b, 0) && BitAt(a, 1) == BitAt(b, 1);
    assert BitAt(a, 2) == BitAt(b, 2) && BitAt(a, 3) == BitAt(b, 3);
    assert BitAt(a, 4) == BitAt(b, 4) && BitAt(a, 5) == BitAt(b, 5);
    assert BitAt(a, 6) == BitAt(b, 6) && BitAt(a, 7) == BitAt(b, 7);
  }

  lemma AndAt(a: u8, b: u8, k: nat)
    requires k < 8
    ensures BitAt(a & b, k) == (BitAt(a, k) && BitAt(b, k))
  {
  }

  /** The byte whose first `n` bits are set. */
  function HighMask(n: nat): u8
    requires n < 8
  {
    0xFF << (8 - n)
  }

  lemma HighMaskAt(n: nat, k: nat)
    requires n < 8 && k < 8
    ensures BitAt(HighMask(n), k) == (k < n)
  {
  }

  /** Keeping the first `n` bits. */
  function Keep(b: u8, n: nat): u8
    requires n < 8
  {
    b & HighMask(n)
  }

  lemma KeepAt(b: u8, n: nat, k: nat)
    requires n < 8 && k < 8
    ensures BitAt(Keep(b, n), k) == (k < n && BitAt(b, k))
  {
    AndAt(b, HighMask(n), k);
    HighMaskAt(n, k);
  }

  lemma ZeroAt(k: nat)
    requires k < 8
    ensures !BitAt(0, k)
  {
  }

  // ----- Bits of byte strings -----

  predicate RawBit(bytes: seq<u8>, i: nat)
    requires i < 8 * |bytes|
  {
    BitAt(bytes[i / 8], i % 8)
  }

  lemma SameRawBits(a: seq<u8>, b: seq<u8>)
    requires |a| == |b| && forall i: nat :: i < 8 * |a| ==> RawBit(a, i) == RawBit(b, i)
    ensures a == b
  {
    forall i: nat | i < |a| ensures a[i] == b[i] {
      forall k: nat | k < 8 ensures BitAt(a[i], k) == BitAt(b[i], k) {
        assert RawBit(a, 8 * i + k) == RawBit(b, 8 * i + k);
      }
      SameBits(a[i], b[i]);
    }
  }

  /** Writes one bit in place; fails beyond the end. */
  method SetRawBit(bytes: array<u8>, idx: nat, bit: bool) returns (ok: bool)
    modifies bytes
    ensures ok <==> idx < 8 * bytes.Length
    ensures !ok ==> bytes[..] == old(bytes[..])
    ensures ok ==> forall j: nat :: j < 8 * bytes.Length ==>
                                      RawBit(bytes[..], j) == if j == idx then bit else RawBit(old(bytes[..]), j)
  {
    if idx / 8 >= bytes.Length {
      return false;
    }
    bytes[idx / 8] := WithBit(bytes[idx / 8], idx % 8, bit);
    forall j: nat | j < 8 * bytes.Length
      ensures RawBit(bytes[..], j) == if j == idx then bit else RawBit(old(bytes[..]), j)
    {
      if j / 8 == idx / 8 {
        WithBitAt(old(bytes[idx / 8]), idx % 8, bit, j % 8);
      }
    }
    return true;
  }
}
