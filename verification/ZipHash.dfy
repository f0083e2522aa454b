/** Addresses, and the hash of an address that gives an element its rank. */
module ZipHash {
  import opened Powers
  import opened Words

  type Addr = nat

  const NULL: Addr := 0

  /** One step of the sdbm hash, in 32-bit unsigned arithmetic. */
  function HashStep(h: nat, byte: nat): (r: nat)
    ensures r < W32
  {
    (byte + h * 0x40 + h * 0x1_0000 - h) % W32
  }

  /** Hashes the `n` low bytes of an address, least significant byte first. */
  function HashBytes(h: nat, p: nat, n: nat): (r: nat)
    requires h < W32
    ensures r < W32
    decreases p, n
  {
    if n == 0 then h else HashBytes(HashStep(h, p % 256), p / 256, n - 1)
  }

  function PtrHash(p: Addr): nat {
    HashBytes(0, p, 8)
  }

  /** The two shifts drop their upper bits, which the sum does not miss. */
  lemma Shifts(octet: nat, h: nat)
    ensures (octet + h * 0x40 % W32 + h * 0x1_0000 % W32 - h) % W32 == HashStep(h, octet)
  {
    var p, q := h * 0x40 / W32, h * 0x1_0000 / W32;
    Whole(octet + h * 0x40 % W32 + h * 0x1_0000 % W32 - h, p + q);
  }

  /** The hash of an address, as the loop over its octets computes it. */
  method HashPointer(p: Addr) returns (h: nat)
    ensures h == PtrHash(p)
  {
    h := 0;
    var rest := p;
    for i := 0 to 8
      invariant h < W32 && HashBytes(h, rest, 8 - i) == PtrHash(p)
    {
      var octet := rest % 256;
      Shifts(octet, h);
      h := (octet + h * 0x40 % W32 + h * 0x1_0000 % W32 - h) % W32;
      rest := rest / 256;
    }
  }

  /** The octets of an address as the digits of a polynomial, the least significant one first. */
  function Polynomial(p: nat, n: nat): nat {
    if n == 0 then 0 else p % 256 * Pow(65599, n - 1) + Polynomial(p / 256, n - 1)
  }

  lemma Whole(x: int, q: int)
    ensures (x + W32 * q) % W32 == x % W32
  {
  }

  lemma ModMulAdd(x: nat, k: nat, c: nat)
    ensures (x % W32 * k + c) % W32 == (x * k + c) % W32
  {
    var q := x / W32;
    assert x * k == x % W32 * k + W32 * (q * k);
    Whole(x % W32 * k + c, q * k);
  }

  /** The hash is the value of this polynomial at 65599, modulo 2^32. */
  lemma {:induction false} HashIsPolynomial(h: nat, p: nat, n: nat)
    requires h < W32
    ensures HashBytes(h, p, n) == (h * Pow(65599, n) + Polynomial(p, n)) % W32
    decreases n
  {
    if n > 0 {
      var b, k, rest := p % 256, Pow(65599, n - 1), Polynomial(p / 256, n - 1);
      HashIsPolynomial(HashStep(h, b), p / 256, n - 1);
      hide Pow, Polynomial, HashBytes;
      StepIs(h, b);
      ModMulAdd(b + 65599 * h, k, rest);
      Expand(b, h, k);
      Unfold(h, p, n);
    }
  }

  lemma StepIs(h: nat, b: nat)
    ensures HashStep(h, b) == (b + 65599 * h) % W32
  {
    assert b + h * 0x40 + h * 0x1_0000 - h == b + 65599 * h;
  }

  lemma Expand(b: nat, h: nat, k: nat)
    ensures (b + 65599 * h) * k == b * k + h * (65599 * k)
  {
  }

  lemma Unfold(h: nat, p: nat, n: nat)
    requires n > 0 && h < W32
    ensures HashBytes(h, p, n) == HashBytes(HashStep(h, p % 256), p / 256, n - 1)
    ensures Pow(65599, n) == 65599 * Pow(65599, n - 1)
    ensures Polynomial(p, n) == p % 256 * Pow(65599, n - 1) + Polynomial(p / 256, n - 1)
  {
  }
}
