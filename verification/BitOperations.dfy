/** The operations on packed bit strings, each proved equal to an operation on sequences of booleans. */
module BitOperations {
  import opened Wrappers
  import opened Text
  import opened BitBytes
  import opened BitStrings
  import DataTypes

  // ----- The operations on sequences -----

  function Falses(n: nat): (s: seq<bool>)
    ensures |s| == n
  {
    seq(n, _ => false)
  }

  function Not(s: seq<bool>): (r: seq<bool>)
    ensures |r| == |s|
  {
    seq(|s|, i requires 0 <= i < |s| => !s[i])
  }

  function Zip(op: (bool, bool) -> bool, s: seq<bool>, t: seq<bool>): (r: seq<bool>)
    requires |s| == |t|
    ensures |r| == |s|
  {
    seq(|s|, i requires 0 <= i < |s| => op(s[i], t[i]))
  }

  function ShiftLeft(s: seq<bool>, n: nat): (r: seq<bool>)
    ensures |r| == |s|
  {
    if n >= |s| then Falses(|s|) else s[n..] + Falses(n)
  }

  function ShiftRight(s: seq<bool>, n: nat): (r: seq<bool>)
    ensures |r| == |s|
  {
    if n >= |s| then Falses(|s|) else Falses(n) + s[..|s| - n]
  }

  lemma ShiftedLeft(s: seq<bool>, n: nat, i: nat)
    requires i < |s|
    ensures ShiftLeft(s, n)[i] == (i + n < |s| && s[i + n])
  {
  }

  lemma ShiftedRight(s: seq<bool>, n: nat, i: nat)
    requires i < |s|
    ensures ShiftRight(s, n)[i] == (i >= n && s[i - n])
  {
  }

  function Resize(s: seq<bool>, n: nat): (r: seq<bool>)
    ensures |r| == n
  {
    if n <= |s| then s[..n] else s + Falses(n - |s|)
  }

  function CharOf(bit: bool): char {
    if bit then '1' else '0'
  }

  function BitText(s: seq<bool>): (t: string)
    ensures |t| == |s|
  {
    seq(|s|, i requires 0 <= i < |s| => CharOf(s[i]))
  }

  predicate IsBitText(t: string) {
    forall i :: 0 <= i < |t| ==> t[i] == '0' || t[i] == '1'
  }

  function TextBits(t: string): (s: seq<bool>)
    ensures |s| == |t|
  {
    seq(|t|, i requires 0 <= i < |t| => t[i] == '1')
  }

  // ----- Reading -----

  /** The bit at an index, or nothing beyond the end. */
  function Bit(b: BitString, idx: nat): (r: Option<bool>)
    ensures b.Valid() ==> r == if idx < b.len then Some(b.Bits()[idx]) else None
  {
    if idx >= b.len || idx / 8 >= |b.bytes| then None else Some(RawBit(b.bytes, idx))
  }

  predicate IsSet(b: BitString, idx: nat) {
    Bit(b, idx) == Some(true)
  }

  method ToBitText(b: BitString) returns (t: string)
    requires b.Valid()
    ensures t == BitText(b.Bits())
  {
    t := "";
    for i := 0 to b.len
      invariant t == BitText(b.Bits())[..i]
    {
      t := t + [CharOf(IsSet(b, i))];
    }
  }

  function CountFrom(b: BitString, i: nat): nat
    requires i <= b.len
    decreases b.len - i
  {
    if i == b.len then 0 else (if IsSet(b, i) then 1 else 0) + CountFrom(b, i + 1)
  }

  /** How many bits are set. */
  function BitCount(b: BitString): nat {
    var n := CountFrom(b, 0);
    if n > U32_MAX then U32_MAX else n
  }

  function Ones(s: seq<bool>): nat {
    if s == [] then 0 else (if s[0] then 1 else 0) + Ones(s[1..])
  }

  lemma {:induction false} OnesCounts(s: seq<bool>)
    ensures Ones(s) == multiset(s)[true] <= |s|
  {
    if s != [] {
      OnesCounts(s[1..]);
      assert s == [s[0]] + s[1..];
    }
  }

  lemma {:induction false} CountFromCounts(b: BitString, bits: seq<bool>, i: nat)
    requires |bits| == b.len && i <= b.len && forall j: nat :: j < b.len ==> IsSet(b, j) == bits[j]
    ensures CountFrom(b, i) == Ones(bits[i..])
    decreases b.len - i
  {
    if i < b.len {
      CountFromCounts(b, bits, i + 1);
      assert bits[i..][1..] == bits[i + 1..];
    }
  }

  lemma BitCountCounts(b: BitString)
    requires b.Valid()
    ensures BitCount(b) == multiset(b.Bits())[true]
  {
    CountFromCounts(b, b.Bits(), 0);
    assert b.Bits()[0..] == b.Bits();
    OnesCounts(b.Bits());
  }

  // ----- Bitwise operations -----

  method SetBit(b: BitString, idx: nat, bit: bool) returns (r: Option<BitString>)
    requires b.Valid()
    ensures r == if idx < b.len then Some(Pack(b.Bits()[idx := bit])) else None
  {
    if idx >= b.len {
      return None;
    }
    var bytes := new u8[|b.bytes|](i requires 0 <= i < |b.bytes| => b.bytes[i]);
    assert bytes[..] == b.bytes;
    var _ := SetRawBit(bytes, idx, bit);
    r := Build(bytes, b.Bits()[idx := bit], b.len);
  }

  /** Complements whole bytes and clears the unused bits. */
  method BitNot(b: BitString) returns (r: BitString)
    requires b.Valid()
    ensures r == Pack(Not(b.Bits()))
  {
    var bytes := new u8[|b.bytes|](i requires 0 <= i < |b.bytes| => !b.bytes[i]);
    forall j: nat | j < 8 * |b.bytes| ensures RawBit(bytes[..], j) == !RawBit(b.bytes, j) {
      NotAt(b.bytes[j / 8], j % 8);
    }
    MaskUnusedBits(b.len, bytes);
    r := BitString(b.len, bytes[..]);
    assert r.Bits() == Not(b.Bits());
    PackOfBits(r);
  }

  method ZipBits(b: BitString, other: BitString, op: (bool, bool) -> bool) returns (r: Option<BitString>)
    requires b.Valid() && other.Valid()
    ensures r == if b.len == other.len then Some(Pack(Zip(op, b.Bits(), other.Bits()))) else None
  {
    if b.len != other.len {
      return None;
    }
    ghost var bits := Zip(op, b.Bits(), other.Bits());
    var bytes := Zeros(ByteLen(b.len));
    for i := 0 to b.len
      invariant Holds(bytes[..], bits, i)
    {
      if op(IsSet(b, i), IsSet(other, i)) {
        var _ := SetRawBit(bytes, i, true);
      }
    }
    r := Build(bytes, bits, b.len);
  }

  method BitAnd(b: BitString, other: BitString) returns (r: Option<BitString>)
    requires b.Valid() && other.Valid()
    ensures r == if b.len == other.len then Some(Pack(Zip((x, y) => x && y, b.Bits(), other.Bits()))) else None
  {
    r := ZipBits(b, other, (x, y) => x && y);
  }

  method BitOr(b: BitString, other: BitString) returns (r: Option<BitString>)
    requires b.Valid() && other.Valid()
    ensures r == if b.len == other.len then Some(Pack(Zip((x, y) => x || y, b.Bits(), other.Bits()))) else None
  {
    r := ZipBits(b, other, (x, y) => x || y);
  }

  method BitXor(b: BitString, other: BitString) returns (r: Option<BitString>)
    requires b.Valid() && other.Valid()
    ensures r == if b.len == other.len then Some(Pack(Zip((x, y) => x != y, b.Bits(), other.Bits()))) else None
  {
    r := ZipBits(b, other, (x, y) => x != y);
  }

  // ----- Moving bits -----

  method BitShiftLeft(b: BitString, amount: nat) returns (r: Option<BitString>)
    requires b.Valid()
    ensures r == Some(Pack(ShiftLeft(b.Bits(), amount)))
  {
    ghost var bits := ShiftLeft(b.Bits(), amount);
    var bytes := Zeros(ByteLen(b.len));
    for i := 0 to b.len
      invariant Holds(bytes[..], bits, i)
    {
      ShiftedLeft(b.Bits(), amount, i);
      var source := i + amount;
      if source < b.len && IsSet(b, source) {
        var _ := SetRawBit(bytes, i, true);
      }
    }
    r := Build(bytes, bits, b.len);
  }

  method BitShiftRight(b: BitString, amount: nat) returns (r: Option<BitString>)
    requires b.Valid()
    ensures r == Some(Pack(ShiftRight(b.Bits(), amount)))
  {
    ghost var bits := ShiftRight(b.Bits(), amount);
    var bytes := Zeros(ByteLen(b.len));
    for i := 0 to b.len
      invariant Holds(bytes[..], bits, i)
    {
      ShiftedRight(b.Bits(), amount, i);
      if i >= amount && IsSet(b, i - amount) {
        var _ := SetRawBit(bytes, i, true);
      }
    }
    r := Build(bytes, bits, b.len);
  }

  /** Copies the first `n` bits of `b` to position `at`. */
  method CopyBits(b: BitString, n: nat, bytes: array<u8>, at: nat, ghost bits: seq<bool>)
    requires b.Valid() && n <= b.len && at + n <= |bits| <= 8 * bytes.Length
    requires bits[at..at + n] == b.Bits()[..n] && Holds(bytes[..], bits, at)
    modifies bytes
    ensures Holds(bytes[..], bits, at + n)
  {
    for i := 0 to n
      invariant Holds(bytes[..], bits, at + i)
    {
      assert bits[at + i] == b.Bits()[i];
      if IsSet(b, i) {
        var _ := SetRawBit(bytes, at + i, true);
      }
    }
  }

  method Concat(b: BitString, other: BitString) returns (r: Option<BitString>)
    requires b.Valid() && other.Valid()
    ensures r == if b.len + other.len <= U32_MAX then Some(Pack(b.Bits() + other.Bits())) else None
  {
    var len := b.len + other.len;
    if len > U32_MAX {
      return None;
    }
    ghost var bits := b.Bits() + other.Bits();
    var bytes := Zeros(ByteLen(len));
    CopyBits(b, b.len, bytes, 0, bits);
    CopyBits(other, other.len, bytes, b.len, bits);
    r := Build(bytes, bits, len);
  }

  /** Cuts at the right, or pads there with zeros. */
  method ResizeFixed(b: BitString, len: u32) returns (r: Option<BitString>)
    requires b.Valid()
    ensures r == Some(Pack(Resize(b.Bits(), len)))
  {
    ghost var bits := Resize(b.Bits(), len);
    var bytes := Zeros(ByteLen(len));
    CopyBits(b, if b.len < len then b.len else len, bytes, 0, bits);
    r := Build(bytes, bits, len);
  }

  /** What storing a value in a column of a type gives; only an explicit cast cuts or pads. */
  ghost function Coerced(bits: seq<bool>, target: DataTypes.DataType, explicitCast: bool): Option<seq<bool>> {
    match target
    case Sized(Bit, Some(n)) =>
      if |bits| == n then Some(bits) else if explicitCast then Some(Resize(bits, n)) else None
    case Sized(VarBit, Some(n)) =>
      if |bits| <= n then Some(bits) else if explicitCast then Some(bits[..n]) else None
    case Sized(Bit, None) => Some(bits)
    case Sized(VarBit, None) => Some(bits)
    case _ => None
  }

  method CoerceTo(b: BitString, target: DataTypes.DataType, explicitCast: bool) returns (r: Option<BitString>)
    requires b.Valid()
    ensures r.Some? <==> Coerced(b.Bits(), target, explicitCast).Some?
    ensures r.Some? ==> r.value.Valid() && r.value.Bits() == Coerced(b.Bits(), target, explicitCast).value
  {
    match target {
      case Sized(Bit, Some(n)) =>
        if b.len == n {
          r := Some(b);
        } else if explicitCast {
          r := ResizeFixed(b, n);
          BitsOfPack(Resize(b.Bits(), n));
        } else {
          r := None;
        }
      case Sized(VarBit, Some(n)) =>
        if b.len <= n {
          r := Some(b);
        } else if explicitCast {
          r := ResizeFixed(b, n);
          BitsOfPack(Resize(b.Bits(), n));
        } else {
          r := None;
        }
      case Sized(Bit, None) => r := Some(b);
      case Sized(VarBit, None) => r := Some(b);
      case _ => r := None;
    }
  }

  /** A coerced value fits its type, and coercing it again changes nothing. */
  lemma CoercionSettles(bits: seq<bool>, target: DataTypes.DataType, explicitCast: bool, again: bool)
    requires Coerced(bits, target, explicitCast).Some?
    ensures var r := Coerced(bits, target, explicitCast).value; Coerced(r, target, again) == Some(r)
  {
  }

  // ----- Text -----

  /** Reads text of zeros and ones, after trimming. */
  ghost function ParseText(trim: string -> string, text: string): Option<BitString> {
    var t := trim(text);
    if |t| <= U32_MAX && IsBitText(t) then Some(Pack(TextBits(t))) else None
  }

  method Parse(trim: string -> string, text: string) returns (r: Option<BitString>)
    ensures r == ParseText(trim, text)
  {
    var t := trim(text);
    if |t| > U32_MAX {
      return None;
    }
    ghost var bits := TextBits(t);
    var bytes := Zeros(ByteLen(|t|));
    for i := 0 to |t|
      invariant IsBitText(t[..i]) && Holds(bytes[..], bits, i)
    {
      if t[i] == '1' {
        var _ := SetRawBit(bytes, i, true);
      } else if t[i] != '0' {
        return None;
      }
    }
    r := Build(bytes, bits, |t|);
  }

  /** The text of a value reads back as that value, and what reads as a value is its text. */
  lemma TextRoundTrip(trim: string -> string, b: BitString, text: string)
    requires b.Valid() && forall t :: IsBitText(t) ==> trim(t) == t
    ensures ParseText(trim, BitText(b.Bits())) == Some(b)
    ensures ParseText(trim, text) == Some(b) <==> trim(text) == BitText(b.Bits())
  {
    var t := BitText(b.Bits());
    assert IsBitText(t) && trim(t) == t;
    assert TextBits(t) == b.Bits();
    PackOfBits(b);
    if ParseText(trim, text) == Some(b) {
      BitsOfPack(TextBits(trim(text)));
      assert BitText(TextBits(trim(text))) == trim(text);
    }
  }

  // ----- Laws -----

  ghost function NotOf(b: BitString): (r: BitString)
    requires b.Valid()
    ensures r.Valid() && r.Bits() == Not(b.Bits())
  {
    BitsOfPack(Not(b.Bits()));
    Pack(Not(b.Bits()))
  }

  ghost function ZipOf(op: (bool, bool) -> bool, a: BitString, b: BitString): (r: BitString)
    requires a.Valid() && b.Valid() && a.len == b.len
    ensures r.Valid() && r.Bits() == Zip(op, a.Bits(), b.Bits())
  {
    BitsOfPack(Zip(op, a.Bits(), b.Bits()));
    Pack(Zip(op, a.Bits(), b.Bits()))
  }

  /** De Morgan's laws, as structural equalities of packed values. */
  lemma DeMorgan(a: BitString, b: BitString)
    requires a.Valid() && b.Valid() && a.len == b.len
    ensures NotOf(ZipOf((x, y) => x && y, a, b)) == ZipOf((x, y) => x || y, NotOf(a), NotOf(b))
    ensures NotOf(ZipOf((x, y) => x || y, a, b)) == ZipOf((x, y) => x && y, NotOf(a), NotOf(b))
    ensures NotOf(NotOf(a)) == a
  {
    assert Not(Zip((x, y) => x && y, a.Bits(), b.Bits())) == Zip((x, y) => x || y, Not(a.Bits()), Not(b.Bits()));
    assert Not(Zip((x, y) => x || y, a.Bits(), b.Bits())) == Zip((x, y) => x && y, Not(a.Bits()), Not(b.Bits()));
    assert Not(Not(a.Bits())) == a.Bits();
    PackOfBits(a);
  }

  lemma ShiftsCompose(s: seq<bool>, m: nat, n: nat)
    ensures ShiftLeft(ShiftLeft(s, m), n) == ShiftLeft(s, m + n)
    ensures ShiftRight(ShiftRight(s, m), n) == ShiftRight(s, m + n)
  {
  }

  /** Shifting there and back clears the bits that left. */
  lemma ShiftsClear(s: seq<bool>, n: nat)
    ensures var k := if n < |s| then n else |s|;
            && ShiftRight(ShiftLeft(s, n), n) == Falses(k) + s[k..]
            && ShiftLeft(ShiftRight(s, n), n) == s[..|s| - k] + Falses(k)
  {
  }
}
