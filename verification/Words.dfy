/** Bytes, 32-bit words and the shifts of unsigned C arithmetic, written out over `int`. */
module Words {
  datatype Option<T> = None | Some(value: T)

  const TWO32: int := 0x1_0000_0000

  type byte = b: int | 0 <= b < 256
  type u32 = w: int | 0 <= w < TWO32

  /** `v + 1` on uint32_t. */
  function Inc(v: u32): u32 {
    if v + 1 < TWO32 then v + 1 else 0
  }

  function Pow2(k: nat): (p: nat)
    ensures p > 0
  {
    if k == 0 then 1 else 2 * Pow2(k - 1)
  }

  function Pow256(n: nat): nat {
    if n == 0 then 1 else 256 * Pow256(n - 1)
  }

  /** `a << k` on uint32_t: bits shifted past bit 31 are lost. */
  function Shl(a: nat, k: nat): u32 {
    (a * Pow2(k)) % TWO32
  }

  /** `a >> k` on an unsigned value: k times a halving. */
  function Shr(a: nat, k: nat): (r: nat)
    ensures r <= a
  {
    if k == 0 then a else Shr(a / 2, k - 1)
  }

  /** Shifting back what was shifted in. */
  lemma ShrMultiple(t: nat, k: nat)
    ensures Shr(t * Pow2(k), k) == t
  {
    if k > 0 {
      var n := t * Pow2(k - 1);
      assert t * Pow2(k) == 2 * n;
      ShrMultiple(t, k - 1);
    }
  }

  /** Quotient and remainder are unique. */
  lemma DivMod(q: nat, d: nat, r: nat)
    requires r < d
    ensures (q * d + r) / d == q && (q * d + r) % d == r
  {
    var n := q * d + r;
    var e := q - n / d;
    assert e * d == n % d - r;
  }

  lemma Euclid(a: nat, d: nat)
    requires d > 0
    ensures a == a / d * d + a % d
  {
  }

  lemma MulLe(a: nat, b: nat, c: nat)
    requires a <= b
    ensures a * c <= b * c
  {
    assert (b - a) * c >= 0;
  }

  lemma DivBound(a: nat, d: nat, k: nat)
    requires d > 0 && a < k * d
    ensures a / d < k
  {
    Euclid(a, d);
    if a / d >= k {
      MulLe(k, a / d, d);
    }
  }

  lemma Halving(a: nat, d: nat)
    requires d > 0
    ensures a / 2 / d == a / (2 * d)
  {
    var q := a / 2 / d;
    Euclid(a / 2, d);
    Euclid(a, 2);
    var r := a / 2 % d * 2 + a % 2;
    assert q * (2 * d) == 2 * (q * d);
    DivMod(q, 2 * d, r);
  }

  /** Adding multiples does not change a remainder. */
  lemma ModAdd(q: nat, e: nat, c: nat)
    requires e > 0
    ensures (q * e + c) % e == c % e
  {
    Euclid(c, e);
    assert (q + c / e) * e + c % e == q * e + c;
    DivMod(q + c / e, e, c % e);
  }

  lemma Assoc<T>(a: seq<T>, b: seq<T>, c: seq<T>)
    ensures (a + b) + c == a + (b + c)
  {
  }
}
