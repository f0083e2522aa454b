/** The zip tree in numbers: which element stands above, and in which order elements are listed. */
module ZipRanks {
  import opened Powers
  import opened ZipHash
  import opened ZipTree

  /// The hash of an address

  /** An octet of a 64-bit address, from the least significant one on. */
  function Octet(p: Addr, k: nat): nat {
    p / Pow(256, k) % 256
  }

  function Digit(p: Addr, k: nat): nat
    requires k < 8
  {
    Octet(p, k) * Pow(65599, 7 - k)
  }

  /** The address as a number in base 65599, its least significant octet the most significant digit. */
  function Digits(p: Addr): nat {
    Digit(p, 0) + Digit(p, 1) + Digit(p, 2) + Digit(p, 3) + Digit(p, 4) + Digit(p, 5) + Digit(p, 6) + Digit(p, 7)
  }

  /** The sum of the octets from `k` on, as the hash takes them. */
  function DigitsFrom(p: Addr, k: nat): nat
    requires k <= 8
    decreases 8 - k
  {
    if k == 8 then 0 else Digit(p, k) + DigitsFrom(p, k + 1)
  }

  lemma NextOctet(p: Addr, k: nat)
    ensures p / Pow(256, k + 1) == p / Pow(256, k) / 256
  {
    var q := Pow(256, k);
    assert Pow(256, k + 1) == 256 * q;
    hide Pow;
    Quotients(p, q);
  }

  lemma Quotients(p: nat, q: nat)
    requires q > 0
    ensures p / (256 * q) == p / q / 256
  {
    var x, r := p / q, p % q;
    var y, z := x / 256, x % 256;
    assert p == q * x + r && x == 256 * y + z;
    Distribute(q, y, z);
    MulMono(q, q, z, 255);
    Unique(p, 256 * q, y, q * z + r);
  }

  lemma Distribute(q: nat, y: nat, z: nat)
    ensures q * (256 * y + z) == 256 * q * y + q * z
  {
  }

  lemma Unique(p: nat, m: nat, y: nat, r: nat)
    requires m > 0 && p == m * y + r && r < m
    ensures p / m == y
  {
    var z := p / m;
    assert p == m * z + p % m;
    if z > y {
      MulMono(m, m, y + 1, z);
    } else if z < y {
      MulMono(m, m, z + 1, y);
    }
  }

  lemma {:induction false} PolynomialIs(p: Addr, k: nat)
    requires k <= 8
    ensures Polynomial(p / Pow(256, k), 8 - k) == DigitsFrom(p, k)
    decreases 8 - k
  {
    hide Pow;
    if k < 8 {
      NextOctet(p, k);
      PolynomialIs(p, k + 1);
    }
  }

  lemma DigitsIs(p: Addr)
    ensures DigitsFrom(p, 0) == Digits(p)
  {
    hide Digit;
    assert DigitsFrom(p, 7) == Digit(p, 7);
    assert DigitsFrom(p, 6) == Digit(p, 6) + DigitsFrom(p, 7);
    assert DigitsFrom(p, 5) == Digit(p, 5) + DigitsFrom(p, 6);
    assert DigitsFrom(p, 4) == Digit(p, 4) + DigitsFrom(p, 5);
    assert DigitsFrom(p, 3) == Digit(p, 3) + DigitsFrom(p, 4);
    assert DigitsFrom(p, 2) == Digit(p, 2) + DigitsFrom(p, 3);
    assert DigitsFrom(p, 1) == Digit(p, 1) + DigitsFrom(p, 2);
  }

  /** The hash of an address: its eight octets as a number in base 65599, modulo 2^32. */
  lemma PtrHashIs(p: Addr)
    ensures PtrHash(p) == Digits(p) % 0x1_0000_0000
  {
    hide Digits, DigitsFrom, Polynomial, HashBytes;
    HashIsPolynomial(0, p, 8);
    PolynomialIs(p, 0);
    DigitsIs(p);
    assert Pow(256, 0) == 1;
  }

  /// Ranks

  function Rank(p: Addr): nat {
    Digits(p) % 0x1_0000_0000
  }

  /** In every node the hash is at least that of the elements below it; among equal hashes the larger address
      stands above. */
  ghost predicate LargerAbove<K>(t: Tree<K>) {
    match t
    case Leaf => true
    case Node(l, e, r) =>
      && LargerAbove(l) && LargerAbove(r)
      && forall x <- Elems(l) + Elems(r) ::
           Rank(x.addr) < Rank(e.addr) || (Rank(x.addr) == Rank(e.addr) && x.addr < e.addr)
  }

  lemma {:induction false} ValidIsRanked<K(!new)>(cmp: (K, K) -> Cmp, t: Tree<K>)
    requires Valid(cmp, t)
    ensures LargerAbove(t)
    decreases t
  {
    hide PtrHash, Digits, AllLess, AllMore;
    if t.Node? {
      ValidIsRanked(cmp, t.left);
      ValidIsRanked(cmp, t.right);
      forall x <- Elems(t.left) + Elems(t.right)
        ensures Rank(x.addr) < Rank(t.elem.addr) || (Rank(x.addr) == Rank(t.elem.addr) && x.addr < t.elem.addr)
      {
        assert RankLess(x, t.elem);
        PtrHashIs(x.addr);
        PtrHashIs(t.elem.addr);
      }
    }
  }

  /** After every run of inserts and removes the larger hashes stand above, and the listing goes from smaller to
      larger keys, among equal keys from smaller to larger addresses. */
  lemma RunsInNumbers<K(!new)>(cmp: (K, K) -> Cmp, ops: seq<Op<K>>)
    requires IsOrder(cmp) && Legal(ops)
    ensures LargerAbove(Run(cmp, ops))
    ensures var l := InOrder(Run(cmp, ops));
            forall i, j :: 0 <= i < j < |l| ==>
              cmp(l[i].key, l[j].key) == LESS || (cmp(l[i].key, l[j].key) == EQ && l[i].addr < l[j].addr)
  {
    hide Run, Valid, Elems, LargerAbove, InOrder, IsOrder;
    RunIsValid(cmp, ops);
    ValidIsRanked(cmp, Run(cmp, ops));
    InOrderIsSorted(cmp, Run(cmp, ops));
  }
}
