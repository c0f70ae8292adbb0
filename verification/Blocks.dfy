/** CIDR networks as aligned power-of-two blocks of an integer address space. */
module Blocks {

  function Pow2(n: nat): (r: nat)
    ensures r > 0
  {
    if n == 0 then 1 else 2 * Pow2(n - 1)
  }

  lemma {:induction false} Pow2Add(m: nat, n: nat)
    ensures Pow2(m + n) == Pow2(m) * Pow2(n)
  {
    if n > 0 {
      Pow2Add(m, n - 1);
      assert Pow2(m + n) == 2 * Pow2(m + (n - 1));
      assert Pow2(m) * (2 * Pow2(n - 1)) == 2 * (Pow2(m) * Pow2(n - 1));
    }
  }

  /** A network: `base` is its network address, `bits` the number of host bits. */
  datatype Block = Block(base: nat, bits: nat) {

    function Size(): nat {
      Pow2(bits)
    }

    function Last(): int {
      base + Size() - 1
    }

    predicate Valid(width: nat) {
      bits <= width && base % Size() == 0 && base + Size() <= Pow2(width)
    }

    predicate Has(a: int) {
      base <= a <= Last()
    }
  }

  predicate Overlaps(a: Block, b: Block) {
    a.base <= b.Last() && b.base <= a.Last()
  }

  predicate Inside(a: Block, b: Block) {
    b.base <= a.base && a.Last() <= b.Last()
  }

  lemma MultiplesApart(x: int, y: int, p: int)
    requires p > 0 && x % p == 0 && y % p == 0 && x < y
    ensures x + p <= y
  {
    var d := y / p - x / p;
    assert y - x == p * d;
    assert d <= 0 ==> p * d <= 0;
    assert d >= 1 ==> p * d >= p;
  }

  lemma MultipleMod(x: int, p: int, k: int)
    requires p > 0 && x == p * k
    ensures x % p == 0
  {
    var d := k - x / p;
    assert x % p == p * d;
    assert d <= -1 ==> p * d < 0;
    assert d >= 1 ==> p * d >= p;
  }

  lemma MultipleOfProduct(x: int, p: int, q: int)
    requires p > 0 && q > 0 && p * q > 0 && x % (p * q) == 0
    ensures x % p == 0
  {
    var n := p * q;
    var k := x / n;
    assert x == n * k;
    assert n * k == p * (q * k);
    MultipleMod(x, p, q * k);
  }

  lemma CoarserIsMultiple(x: int, m: nat, n: nat)
    requires m <= n && x % Pow2(n) == 0
    ensures x % Pow2(m) == 0
  {
    hide Pow2;
    Pow2Add(m, n - m);
    MultipleOfProduct(x, Pow2(m), Pow2(n - m));
  }

  /** Networks that share an address are nested: the one with fewer host bits
      lies inside the other. */
  lemma Nesting(a: Block, b: Block, width: nat)
    requires a.Valid(width) && b.Valid(width)
    requires Overlaps(a, b) && a.bits <= b.bits
    ensures Inside(a, b)
  {
    hide Pow2;
    var p := a.Size();
    CoarserIsMultiple(b.base, a.bits, b.bits);
    Pow2Add(a.bits, b.bits - a.bits);
    var end := b.base + b.Size();
    assert b.base == p * (b.base / p);
    assert end == p * (b.base / p + Pow2(b.bits - a.bits)) by {
      assert p * (b.base / p + Pow2(b.bits - a.bits)) == p * (b.base / p) + p * Pow2(b.bits - a.bits);
    }
    MultipleMod(end, p, b.base / p + Pow2(b.bits - a.bits));
    if a.base < b.base {
      MultiplesApart(a.base, b.base, p);
    }
    if a.base < end {
      MultiplesApart(a.base, end, p);
    }
  }

  /** Two networks of the same length that share an address are equal. */
  lemma SameLengthEqual(a: Block, b: Block, width: nat)
    requires a.Valid(width) && b.Valid(width)
    requires Overlaps(a, b) && a.bits == b.bits
    ensures a == b
  {
    Nesting(a, b, width);
    Nesting(b, a, width);
  }

  lemma Pow2Injective(m: nat, n: nat)
    requires Pow2(m) == Pow2(n)
    ensures m == n
  {
    if m < n {
    } else if n < m {
    }
  }

  /** A network is determined by its first and last address. */
  lemma EndsDetermine(a: Block, b: Block)
    requires a.base == b.base && a.Last() == b.Last()
    ensures a == b
  {
    Pow2Injective(a.bits, b.bits);
  }
}
