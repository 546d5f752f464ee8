/** The UTF-8 check on decoded text, against the encoding of section 3 of RFC 3629. */
module Utf8Scalars {
  import opened Text
  import opened DataTypes

  /** A Unicode scalar value: any code point but a surrogate. */
  predicate IsScalarValue(cp: int) {
    0 <= cp < 0xD800 || 0xE000 <= cp < 0x11_0000
  }

  /** The UTF-8 form of a scalar value. */
  function EncodeScalar(cp: int): (s: seq<byte>)
    requires IsScalarValue(cp)
  {
    if cp < 0x80 then [cp as char]
    else if cp < 0x800 then [(0xC0 + cp / 64) as char, (0x80 + cp % 64) as char]
    else if cp < 0x1_0000 then [(0xE0 + cp / 4096) as char, (0x80 + cp / 64 % 64) as char, (0x80 + cp % 64) as char]
    else
      [(0xF0 + cp / 262144) as char, (0x80 + cp / 4096 % 64) as char, (0x80 + cp / 64 % 64) as char,
       (0x80 + cp % 64) as char]
  }

  lemma ThreeByteDigits(cp: int)
    requires 0x800 <= cp < 0x1_0000 && IsScalarValue(cp)
    ensures 0 <= cp / 4096 < 16 && (cp / 4096 == 0 ==> cp / 64 % 64 >= 32) && (cp / 4096 == 13 ==> cp / 64 % 64 < 32)
  {
    assert cp / 64 == cp / 4096 * 64 + cp / 64 % 64;
  }

  lemma FourByteDigits(cp: int)
    requires 0x1_0000 <= cp < 0x11_0000
    ensures 0 <= cp / 262144 < 5
    ensures (cp / 262144 == 0 ==> cp / 4096 % 64 >= 16) && (cp / 262144 == 4 ==> cp / 4096 % 64 < 16)
  {
    assert cp / 4096 == cp / 262144 * 64 + cp / 4096 % 64;
  }

  /** A sequence and what follows it are told apart. */
  lemma EncodedIsScalar(cp: int, rest: seq<byte>)
    requires IsScalarValue(cp)
    ensures ScalarLength(EncodeScalar(cp) + rest) == |EncodeScalar(cp)| > 0
  {
    var e := EncodeScalar(cp);
    assert forall i :: 0 <= i < |e| ==> (e + rest)[i] == e[i];
    if 0x800 <= cp < 0x1_0000 {
      ThreeByteDigits(cp);
    } else if 0x1_0000 <= cp {
      FourByteDigits(cp);
    }
  }

  /** The scalar value of one UTF-8 sequence. */
  function DecodeScalar(s: seq<byte>): int
    requires IsScalar(s)
  {
    match |s|
    case 1 => s[0] as int
    case 2 => (s[0] as int - 0xC0) * 64 + (s[1] as int - 0x80)
    case 3 => (s[0] as int - 0xE0) * 4096 + (s[1] as int - 0x80) * 64 + (s[2] as int - 0x80)
    case _ =>
      (s[0] as int - 0xF0) * 262144 + (s[1] as int - 0x80) * 4096 + (s[2] as int - 0x80) * 64 + (s[3] as int - 0x80)
  }

  lemma Digits(a: nat, b: nat, c: nat, d: nat)
    requires b < 64 && c < 64 && d < 64
    ensures var cp := a * 262144 + b * 4096 + c * 64 + d;
            cp / 262144 == a && cp / 4096 % 64 == b && cp / 64 % 64 == c && cp % 64 == d
  {
    var cp := a * 262144 + b * 4096 + c * 64 + d;
    assert cp / 64 == a * 4096 + b * 64 + c;
    assert cp / 4096 == a * 64 + b;
  }

  lemma TwoBytes(s: seq<byte>)
    requires IsScalar(s) && |s| == 2
    ensures 0x80 <= DecodeScalar(s) < 0x800 && EncodeScalar(DecodeScalar(s)) == s
  {
    Digits(0, 0, s[0] as int - 0xC0, s[1] as int - 0x80);
  }

  lemma ThreeBytes(s: seq<byte>)
    requires IsScalar(s) && |s| == 3
    ensures var cp := DecodeScalar(s); 0x800 <= cp < 0x1_0000 && IsScalarValue(cp) && EncodeScalar(cp) == s
  {
    Digits(0, s[0] as int - 0xE0, s[1] as int - 0x80, s[2] as int - 0x80);
  }

  lemma FourBytes(s: seq<byte>)
    requires IsScalar(s) && |s| == 4
    ensures 0x1_0000 <= DecodeScalar(s) < 0x11_0000 && EncodeScalar(DecodeScalar(s)) == s
  {
    Digits(s[0] as int - 0xF0, s[1] as int - 0x80, s[2] as int - 0x80, s[3] as int - 0x80);
  }

  lemma EncodeUndoesDecode(s: seq<byte>)
    requires IsScalar(s)
    ensures IsScalarValue(DecodeScalar(s)) && EncodeScalar(DecodeScalar(s)) == s
  {
    match |s|
    case 2 => TwoBytes(s);
    case 3 => ThreeBytes(s);
    case 4 => FourBytes(s);
    case _ =>
  }

  /** What passes for one character is the encoding of a scalar value, and of one only. */
  lemma ScalarIff(s: seq<byte>)
    ensures IsScalar(s) <==> exists cp :: IsScalarValue(cp) && s == EncodeScalar(cp)
  {
    if IsScalar(s) {
      EncodeUndoesDecode(s);
    }
    forall cp | IsScalarValue(cp) && s == EncodeScalar(cp) ensures IsScalar(s) {
      EncodedIsScalar(cp, []);
      assert s + [] == s;
    }
  }

  predicate AllScalarValues(cps: seq<int>) {
    forall i :: 0 <= i < |cps| ==> IsScalarValue(cps[i])
  }

  function EncodeScalars(cps: seq<int>): seq<byte>
    requires AllScalarValues(cps)
  {
    if cps == [] then [] else EncodeScalar(cps[0]) + EncodeScalars(cps[1..])
  }

  lemma {:induction false} EncodedIsValid(cps: seq<int>)
    requires AllScalarValues(cps)
    ensures ValidUtf8(EncodeScalars(cps))
  {
    if cps != [] {
      var head, tail := EncodeScalar(cps[0]), EncodeScalars(cps[1..]);
      EncodedIsScalar(cps[0], tail);
      assert (head + tail)[|head|..] == tail;
      EncodedIsValid(cps[1..]);
    }
  }

  lemma {:induction false} ValidIsEncoded(s: seq<byte>) returns (cps: seq<int>)
    requires ValidUtf8(s)
    ensures AllScalarValues(cps) && EncodeScalars(cps) == s
  {
    if s == [] {
      cps := [];
    } else {
      var n := ScalarLength(s);
      assert IsScalar(s[..n]);
      EncodeUndoesDecode(s[..n]);
      var tail := ValidIsEncoded(s[n..]);
      cps := [DecodeScalar(s[..n])] + tail;
      assert cps[1..] == tail && s == s[..n] + s[n..];
    }
  }

  /** Text is accepted exactly when it is the encoding of a sequence of scalar values. */
  lemma Utf8Iff(s: seq<byte>)
    ensures ValidUtf8(s) <==> exists cps :: AllScalarValues(cps) && s == EncodeScalars(cps)
  {
    if ValidUtf8(s) {
      var cps := ValidIsEncoded(s);
    }
    forall cps | AllScalarValues(cps) && s == EncodeScalars(cps) ensures ValidUtf8(s) {
      EncodedIsValid(cps);
    }
  }
}
