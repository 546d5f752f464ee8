/** Packed bit strings (crates/ultrasql-core/src/bit_string.rs) against plain sequences of booleans. */
module BitStrings {
  import opened Wrappers
  import opened Text
  import opened BitBytes

  function ByteLen(len: nat): (n: nat)
    ensures len <= 8 * n < len + 8
  {
    (len + 7) / 8
  }

  datatype BitString = BitString(len: u32, bytes: seq<u8>) {
    /** The payload has the length the bits need, and its unused bits are zero. */
    ghost predicate Valid() {
      |bytes| == ByteLen(len) && Padded(bytes, len)
    }

    /** The bits, leftmost first. */
    ghost function Bits(): seq<bool>
      requires Valid()
    {
      RawBits(bytes, len)
    }
  }

  ghost predicate Padded(bytes: seq<u8>, len: nat) {
    forall i: nat :: len <= i < 8 * |bytes| ==> !RawBit(bytes, i)
  }

  function RawBits(bytes: seq<u8>, len: nat): (bits: seq<bool>)
    requires len <= 8 * |bytes|
    ensures |bits| == len
  {
    seq(len, i requires 0 <= i < len => RawBit(bytes, i))
  }

  type Bools = s: seq<bool> | |s| < 0x1_0000_0000 witness []

  // ----- Packing -----

  /** The byte whose first `k` bits are those of `bits` from `from` on; missing bits are zero. */
  function PackByte(bits: seq<bool>, from: nat, k: nat): u8
    requires k <= 8
  {
    if k == 0 then 0
    else WithBit(PackByte(bits, from, k - 1), k - 1, from + k - 1 < |bits| && bits[from + k - 1])
  }

  function Pack(bits: Bools): BitString {
    BitString(|bits|, seq(ByteLen(|bits|), i requires 0 <= i < ByteLen(|bits|) => PackByte(bits, 8 * i, 8)))
  }

  lemma {:induction false} PackByteAt(bits: seq<bool>, from: nat, k: nat, j: nat)
    requires k <= 8 && j < 8
    ensures BitAt(PackByte(bits, from, k), j) == (j < k && from + j < |bits| && bits[from + j])
  {
    if k == 0 {
      ZeroAt(j);
    } else {
      PackByteAt(bits, from, k - 1, j);
      WithBitAt(PackByte(bits, from, k - 1), k - 1, from + k - 1 < |bits| && bits[from + k - 1], j);
    }
  }

  lemma PackAt(bits: Bools, i: nat)
    requires i < 8 * ByteLen(|bits|)
    ensures RawBit(Pack(bits).bytes, i) == (i < |bits| && bits[i])
  {
    PackByteAt(bits, 8 * (i / 8), 8, i % 8);
  }

  /** Every sequence of booleans is the bits of a valid bit string. */
  lemma BitsOfPack(bits: Bools)
    ensures Pack(bits).Valid() && Pack(bits).Bits() == bits
  {
    forall i: nat | i < 8 * ByteLen(|bits|) ensures RawBit(Pack(bits).bytes, i) == (i < |bits| && bits[i]) {
      PackAt(bits, i);
    }
  }

  /** And of no other: structural equality of valid bit strings is equality of their bits. */
  lemma EqualIffSameBits(a: BitString, b: BitString)
    requires a.Valid() && b.Valid()
    ensures a == b <==> a.Bits() == b.Bits()
  {
    if a.Bits() == b.Bits() {
      forall i: nat | i < 8 * |a.bytes| ensures RawBit(a.bytes, i) == RawBit(b.bytes, i) {
        assert i < a.len ==> a.Bits()[i] == b.Bits()[i];
      }
      SameRawBits(a.bytes, b.bytes);
    }
  }

  lemma PackOfBits(b: BitString)
    requires b.Valid()
    ensures Pack(b.Bits()) == b
  {
    BitsOfPack(b.Bits());
    EqualIffSameBits(Pack(b.Bits()), b);
  }

  // ----- Building a bit string in place -----

  /** The first `n` of `bits` are in place and nothing else is set. */
  ghost predicate Holds(bytes: seq<u8>, bits: seq<bool>, n: nat)
    requires n <= |bits|
  {
    forall j: nat :: j < 8 * |bytes| ==> RawBit(bytes, j) == (j < n && bits[j])
  }

  method Zeros(n: nat) returns (bytes: array<u8>)
    ensures fresh(bytes) && bytes.Length == n
    ensures forall bits :: Holds(bytes[..], bits, 0)
  {
    bytes := new u8[n](_ => 0);
    forall j: nat | j < 8 * n ensures !RawBit(bytes[..], j) {
      ZeroAt(j % 8);
    }
  }

  /** Clears the bits after the last logical one. */
  method MaskUnusedBits(len: u32, bytes: array<u8>)
    requires bytes.Length == ByteLen(len)
    modifies bytes
    ensures forall j: nat :: j < 8 * bytes.Length ==> RawBit(bytes[..], j) == (j < len && RawBit(old(bytes[..]), j))
  {
    var rem := len % 8;
    if rem == 0 || bytes.Length == 0 {
      return;
    }
    var last := bytes.Length - 1;
    bytes[last] := Keep(bytes[last], rem);
    forall j: nat | j < 8 * bytes.Length
      ensures RawBit(bytes[..], j) == (j < len && RawBit(old(bytes[..]), j))
    {
      MaskedBit(old(bytes[..]), bytes[..], len, j);
    }
  }

  lemma MaskedBit(before: seq<u8>, after: seq<u8>, len: nat, j: nat)
    requires |before| == ByteLen(len) && len % 8 != 0 && j < 8 * |before|
    requires after == before[|before| - 1 := Keep(before[|before| - 1], len % 8)]
    ensures RawBit(after, j) == (j < len && RawBit(before, j))
  {
    LastByte(len, j);
    if j / 8 == |before| - 1 {
      KeepAt(before[|before| - 1], len % 8, j % 8);
    }
  }

  /** Positions in the last, partly used byte compare as their offsets in it; earlier ones are all used. */
  lemma LastByte(len: nat, j: nat)
    requires len % 8 != 0 && j < 8 * ByteLen(len)
    ensures j / 8 == ByteLen(len) - 1 ==> (j < len <==> j % 8 < len % 8)
    ensures j / 8 < ByteLen(len) - 1 ==> j < len
  {
  }

  /** Accepts a payload of the right length, whatever its unused bits. */
  method New(len: u32, bytes: array<u8>) returns (r: Option<BitString>)
    modifies bytes
    ensures r.Some? <==> bytes.Length == ByteLen(len)
    ensures r.Some? ==> r.value.Valid() && r.value == Pack(RawBits(old(bytes[..]), len))
  {
    if bytes.Length != ByteLen(len) {
      return None;
    }
    MaskUnusedBits(len, bytes);
    r := Some(BitString(len, bytes[..]));
    assert r.value.Bits() == RawBits(old(bytes[..]), len);
    PackOfBits(r.value);
  }

  /** Finishes a payload that holds `bits`. */
  method Build(bytes: array<u8>, ghost bits: Bools, len: u32) returns (r: Option<BitString>)
    requires len == |bits| && bytes.Length == ByteLen(len) && Holds(bytes[..], bits, len)
    modifies bytes
    ensures r == Some(Pack(bits))
  {
    assert RawBits(bytes[..], len) == bits;
    r := New(len, bytes);
  }
}
