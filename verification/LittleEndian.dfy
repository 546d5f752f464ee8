/** Little-endian integers of any width. */
module LittleEndian {
  import opened Text

  function Pow256(w: nat): (p: nat)
    ensures p > 0
  {
    if w == 0 then 1 else 256 * Pow256(w - 1)
  }

  /** The `w` low bytes of `n`, least significant first. */
  function ToLE(n: nat, w: nat): (b: seq<byte>)
    ensures |b| == w
  {
    if w == 0 then [] else [(n % 256) as char] + ToLE(n / 256, w - 1)
  }

  function FromLE(b: seq<byte>): (n: nat)
    ensures n < Pow256(|b|)
  {
    if b == [] then 0 else b[0] as int + 256 * FromLE(b[1..])
  }

  lemma {:induction false} FromLEUndoes(n: nat, w: nat)
    requires n < Pow256(w)
    ensures FromLE(ToLE(n, w)) == n
  {
    if w > 0 {
      FromLEUndoes(n / 256, w - 1);
      assert ToLE(n, w)[1..] == ToLE(n / 256, w - 1);
    }
  }

  lemma {:induction false} ToLEUndoes(b: seq<byte>)
    ensures ToLE(FromLE(b), |b|) == b
  {
    if b != [] {
      ToLEUndoes(b[1..]);
      assert FromLE(b) % 256 == b[0] as int && FromLE(b) / 256 == FromLE(b[1..]);
    }
  }

  /** The two's-complement reading of an unsigned number of `w` bytes, and back. */
  function Signed(n: nat, w: nat): int
    requires n < Pow256(w)
  {
    if 2 * n < Pow256(w) then n else n - Pow256(w)
  }

  function Unsigned(n: int, w: nat): nat
    requires 0 - Pow256(w) <= 2 * n < Pow256(w)
  {
    if n >= 0 then n else n + Pow256(w)
  }

  lemma SignedUndoes(n: int, w: nat)
    requires 0 - Pow256(w) <= 2 * n < Pow256(w)
    ensures Unsigned(n, w) < Pow256(w) && Signed(Unsigned(n, w), w) == n
  {
  }

  lemma UnsignedUndoes(n: nat, w: nat)
    requires n < Pow256(w)
    ensures 0 - Pow256(w) <= 2 * Signed(n, w) < Pow256(w) && Unsigned(Signed(n, w), w) == n
  {
  }

  lemma PowerValues()
    ensures Pow256(1) == 0x100 && Pow256(2) == 0x1_0000 && Pow256(4) == 0x1_0000_0000
    ensures Pow256(8) == 0x1_0000_0000_0000_0000
  {
    assert Pow256(3) == 0x100_0000;
    assert Pow256(6) == 256 * (256 * (256 * Pow256(3)));
    assert Pow256(7) == 256 * Pow256(6);
  }
}
