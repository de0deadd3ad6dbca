/** Machine words: wrap-around arithmetic on `usize` positions, the power-of-two
    bit mask the ring uses in place of a modulus, and the unsigned bytes that
    everything else is made of. */
module Words {

  type byte = n: int | 0 <= n < 256

  function Pow2(k: nat): (p: nat)
    ensures p >= 1
  {
    if k == 0 then 1 else 2 * Pow2(k - 1)
  }

  lemma {:induction false} Pow2Add(a: nat, b: nat)
    ensures Pow2(a + b) == Pow2(a) * Pow2(b)
  {
    if a == 0 {
    } else {
      Pow2Add(a - 1, b);
      assert Pow2(a + b) == 2 * Pow2(a - 1 + b);
      assert 2 * (Pow2(a - 1) * Pow2(b)) == (2 * Pow2(a - 1)) * Pow2(b);
    }
  }

  lemma {:induction false} Pow2Grows(a: nat, b: nat)
    requires a < b
    ensures 2 * Pow2(a) <= Pow2(b)
  {
    if a + 1 < b {
      Pow2Grows(a, b - 1);
    }
  }

  /** `a.wrapping_sub(b)` on words of modulus `m`. */
  function WrapSub(a: nat, b: nat, m: nat): (r: nat)
    requires a < m && b < m
    ensures r < m
    ensures b + r == a || b + r == a + m
  {
    if a >= b then a - b else a + m - b
  }

  /** `a.wrapping_add(b)` on words of modulus `m`. */
  function WrapAdd(a: nat, b: nat, m: nat): nat
    requires m > 0
  {
    (a + b) % m
  }

  lemma MultipleBounds(d: int, m: int)
    requires m > 0
    ensures d >= 1 ==> d * m >= m
    ensures d <= -1 ==> d * m <= -m
  {
  }

  lemma ModUnique(x: int, q: int, r: int, m: int)
    requires 0 <= r < m && x == q * m + r
    ensures x % m == r && x / m == q
  {
    var d := q - x / m;
    assert d * m == q * m - (x / m) * m;
    MultipleBounds(d, m);
  }

  /** Stepping a position by less than one modulus wraps at most once. */
  lemma ModStep(y: nat, d: nat, m: nat)
    requires 0 <= d < m
    ensures (y + d) % m == if y % m + d < m then y % m + d else y % m + d - m
  {
    var q := y / m;
    assert y == q * m + y % m;
    if y % m + d < m {
      ModUnique(y + d, q, y % m + d, m);
    } else {
      assert (q + 1) * m == q * m + m;
      ModUnique(y + d, q + 1, y % m + d - m, m);
    }
  }

  /** Wrapped subtraction recovers the true distance whenever it is below the modulus. */
  lemma WrapSubExact(x: nat, y: nat, m: nat)
    requires 0 < m && y <= x < y + m
    ensures WrapSub(x % m, y % m, m) == x - y
  {
    ModStep(y, x - y, m);
  }

  /** Wrapped addition commutes with reduction. */
  lemma WrapAddExact(x: nat, d: nat, m: nat)
    requires 0 < m
    ensures WrapAdd(x % m, d, m) == (x + d) % m
  {
    var q := x / m;
    assert x == q * m + x % m;
    var e := (x % m + d) / m;
    assert x % m + d == e * m + (x % m + d) % m;
    assert (q + e) * m == q * m + e * m;
    ModUnique(x + d, q + e, (x % m + d) % m, m);
  }

  /** Reducing modulo a multiple of `c` first does not change the residue modulo `c`. */
  lemma ModOfMod(x: nat, c: nat, k: nat)
    requires c > 0 && k > 0
    ensures c * k > 0
    ensures (x % (c * k)) % c == x % c
  {
    assert c * k >= c by { assert c * (k - 1) >= 0; }
    var m := c * k;
    var q := x / m;
    var y := x % m;
    assert x == q * m + y;
    assert y == (y / c) * c + y % c;
    assert q * m == (q * k) * c;
    assert (q * k + y / c) * c == (q * k) * c + (y / c) * c;
    ModUnique(x, q * k + y / c, y % c, c);
  }

  /** Bitwise conjunction of two unsigned words. */
  function BitAnd(x: nat, y: nat): (r: nat)
    decreases x
  {
    if x == 0 || y == 0 then 0
    else 2 * BitAnd(x / 2, y / 2) + (if x % 2 == 1 && y % 2 == 1 then 1 else 0)
  }

  lemma ModDouble(x: nat, p: nat)
    requires p > 0
    ensures x % (2 * p) == 2 * ((x / 2) % p) + x % 2
  {
    var h := x / 2;
    assert h == (h / p) * p + h % p;
    assert 2 * ((h / p) * p) == (h / p) * (2 * p);
    ModUnique(x, h / p, 2 * (h % p) + x % 2, 2 * p);
  }

  /** One bit of a mask of ones. */
  lemma BitAndOnes(x: nat, p: nat)
    requires p > 0
    ensures BitAnd(x, 2 * p - 1) == 2 * BitAnd(x / 2, p - 1) + x % 2
  {
    assert (2 * p - 1) / 2 == p - 1 && (2 * p - 1) % 2 == 1;
  }

  lemma MaskStep(x: nat, p: nat)
    requires p > 0 && BitAnd(x / 2, p - 1) == (x / 2) % p
    ensures BitAnd(x, 2 * p - 1) == x % (2 * p)
  {
    BitAndOnes(x, p);
    ModDouble(x, p);
  }

  /** `pos & (2^k - 1)` is `pos mod 2^k`. */
  lemma {:induction false} MaskIsMod(x: nat, k: nat)
    ensures BitAnd(x, Pow2(k) - 1) == x % Pow2(k)
  {
    if k == 0 {
      ModUnique(x, x, 0, 1);
    } else {
      var p := Pow2(k - 1);
      assert Pow2(k) == 2 * p;
      MaskIsMod(x / 2, k - 1);
      MaskStep(x, p);
    }
  }
}
