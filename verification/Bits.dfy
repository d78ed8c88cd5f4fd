/** Integer arithmetic of fixed-width unsigned words: powers of two, remainders,
    bit-and, and the bit length the constructor computes. */
module Bits {

  function Pow2(k: nat): (p: nat)
    ensures p >= 1
  {
    if k == 0 then 1 else 2 * Pow2(k - 1)
  }

  lemma {:induction false} Pow2Sum(a: nat, b: nat)
    ensures Pow2(a + b) == Pow2(a) * Pow2(b)
  {
    if a == 0 {
    } else {
      Pow2Sum(a - 1, b);
      assert Pow2(a + b) == 2 * Pow2(a - 1 + b);
    }
  }

  lemma {:induction false} Pow2Monotonic(a: nat, b: nat)
    requires a < b
    ensures 2 * Pow2(a) <= Pow2(b)
  {
    Pow2Sum(a + 1, b - a - 1);
    assert Pow2(b) == Pow2(a + 1) * Pow2(b - a - 1);
    MulAtLeast(Pow2(a + 1), Pow2(b - a - 1), 1);
  }

  // ---------- remainders ----------

  lemma MulAtLeast(n: nat, q: int, b: int)
    ensures q >= b ==> q * n >= b * n
    ensures q <= b ==> q * n <= b * n
  {
    if q >= b {
      assert (q - b) * n == q * n - b * n;
    } else {
      assert (b - q) * n == b * n - q * n;
    }
  }

  /** A multiple of n strictly between -n and n is zero. */
  lemma MulSmall(n: nat, q: int)
    requires -(n as int) < q * n < n
    ensures q == 0
  {
    MulAtLeast(n, q, 1);
    MulAtLeast(n, q, -1);
  }

  /** Quotient and remainder are unique. */
  lemma ModUnique(x: int, q: int, r: int, n: nat)
    requires n > 0 && 0 <= r < n && x == q * n + r
    ensures x % n == r && x / n == q
  {
    var p := x / n;
    assert x == p * n + x % n;
    assert (q - p) * n == q * n - p * n;
    MulSmall(n, q - p);
  }

  lemma ModMultiple(n: nat, q: nat)
    requires n > 0
    ensures (n * q) % n == 0
  {
    ModUnique(n * q, q, 0, n);
  }

  /** Adding whole turns does not change a remainder. */
  lemma ModTurns(x: int, k: int, n: nat)
    requires n > 0
    ensures (x + k * n) % n == x % n
  {
    var q := x / n;
    assert (q + k) * n == q * n + k * n;
    ModUnique(x + k * n, q + k, x % n, n);
  }

  /** Taking the remainder early is harmless under addition. */
  lemma ModAdd(x: int, y: int, n: nat)
    requires n > 0
    ensures (x % n + y) % n == (x + y) % n
  {
    var q := x / n;
    assert x == q * n + x % n;
    ModTurns(x % n + y, q, n);
  }

  /** ... and under doubling (a left shift by one). */
  lemma ModDouble(x: int, n: nat)
    requires n > 0
    ensures (2 * (x % n)) % n == (2 * x) % n
  {
    ModAdd(x, x % n, n);
    ModAdd(x, x, n);
    assert x % n + x % n == 2 * (x % n) && x % n + x == x + x % n;
  }

  /** A remainder modulo a multiple of n still knows the remainder modulo n. */
  lemma ModMod(x: int, n: nat, c: nat)
    requires n > 0 && c > 0
    ensures n * c > 0 && (x % (n * c)) % n == x % n
  {
    MulAtLeast(n, c, 1);
    var q := x / (n * c);
    assert x == q * (n * c) + x % (n * c);
    assert q * (n * c) == (q * c) * n;
    ModTurns(x % (n * c), q * c, n);
  }

  /** Numbers with the same remainder differ by whole turns. */
  lemma ModApart(x: int, y: int, n: nat) returns (k: int)
    requires n > 0 && x % n == y % n
    ensures x - y == k * n
  {
    k := x / n - y / n;
    assert x == x / n * n + x % n && y == y / n * n + y % n;
    assert k * n == x / n * n - y / n * n;
  }

  /** Two numbers less than n apart with the same remainder are equal. */
  lemma ModNear(x: int, y: int, n: nat)
    requires n > 0 && x % n == y % n && -(n as int) < x - y < n
    ensures x == y
  {
    var k := ModApart(x, y, n);
    MulSmall(n, k);
  }

  /** Numbers with the same remainder are equal, one turn apart, or at least two turns apart. */
  lemma ModSteps(x: int, y: int, n: nat)
    requires n > 0 && x % n == y % n
    ensures x == y || x == y + n || x >= y + 2 * n || x == y - n || x <= y - 2 * n
  {
    var k := ModApart(x, y, n);
    if k >= 2 {
      MulAtLeast(n, k, 2);
    } else if k <= -2 {
      MulAtLeast(n, k, -2);
    }
  }

  // ---------- bit-and ----------

  /** The bitwise conjunction of two unsigned words. */
  function BitAnd(a: nat, b: nat): (c: nat)
    decreases a + b
  {
    if a == 0 || b == 0 then 0 else 2 * BitAnd(a / 2, b / 2) + if a % 2 == 1 && b % 2 == 1 then 1 else 0
  }

  lemma {:induction false} BitAndSelf(a: nat)
    ensures BitAnd(a, a) == a
  {
    if a == 0 {
    } else {
      BitAndSelf(a / 2);
    }
  }

  lemma HalveMod(x: nat, n: nat)
    requires n > 0
    ensures x % (2 * n) == 2 * (x / 2 % n) + x % 2
  {
    var y := x / 2;
    var q, r := y / n, y % n;
    assert y == q * n + r;
    assert q * (2 * n) == 2 * (q * n);
    ModUnique(x, q, 2 * r + x % 2, 2 * n);
  }

  /** Masking with 2^k - 1 keeps exactly the remainder modulo 2^k. */
  lemma {:induction false} MaskIsMod(x: nat, k: nat)
    ensures BitAnd(x, Pow2(k) - 1) == x % Pow2(k)
  {
    if k == 0 {
      assert x % 1 == 0;
    } else if x == 0 {
      ModUnique(0, 0, 0, Pow2(k));
    } else {
      var n := Pow2(k - 1);
      assert Pow2(k) == 2 * n;
      MaskIsMod(x / 2, k - 1);
      assert (2 * n - 1) / 2 == n - 1 && (2 * n - 1) % 2 == 1;
      HalveMod(x, n);
    }
  }

  ghost predicate IsPow2(n: nat) { exists k: nat :: n == Pow2(k) }

  /** n & (n - 1) is zero exactly for zero and the powers of two. */
  lemma {:induction false} PowerTest(n: nat)
    requires n > 0
    ensures BitAnd(n, n - 1) == 0 <==> IsPow2(n)
  {
    if n == 1 {
      assert n == Pow2(0);
    } else if n % 2 == 1 {
      assert (n - 1) / 2 == n / 2 && (n - 1) % 2 == 0;
      BitAndSelf(n / 2);
      assert BitAnd(n, n - 1) == 2 * (n / 2);
      forall k: nat ensures n != Pow2(k) {
        if k > 0 { assert Pow2(k) == 2 * Pow2(k - 1); }
      }
    } else {
      var h := n / 2;
      PowerTest(h);
      assert (n - 1) / 2 == h - 1 && n % 2 == 0;
      assert BitAnd(n, n - 1) == 2 * BitAnd(h, h - 1);
      if IsPow2(h) {
        var k: nat :| h == Pow2(k);
        assert n == Pow2(k + 1);
      }
      if IsPow2(n) {
        var k: nat :| n == Pow2(k);
        assert k > 0 && h == Pow2(k - 1);
      }
    }
  }

  // ---------- bit length ----------

  /** Number of bits of n: the unique b with 2^(b-1) <= n < 2^b, and 0 for 0. */
  ghost predicate IsBitLength(n: nat, b: nat) {
    n < Pow2(b) && (b > 0 ==> Pow2(b - 1) <= n)
  }

  lemma {:induction false} BitLengthOfPower(k: nat, b: nat)
    requires IsBitLength(Pow2(k), b)
    ensures b == k + 1
  {
    if b <= k {
      if b < k { Pow2Monotonic(b, k); }
    } else if b > k + 1 {
      Pow2Monotonic(k, b - 1);
    }
  }

  /** m is n shifted right by b. */
  ghost predicate IsShifted(n: nat, b: nat, m: nat) {
    m * Pow2(b) <= n < (m + 1) * Pow2(b)
  }

  lemma ShiftOnce(n: nat, b: nat, m: nat)
    requires IsShifted(n, b, m) && m > 0
    ensures IsShifted(n, b + 1, m / 2)
    ensures Pow2(b) <= n
  {
    var p, q, e := Pow2(b), m / 2, m % 2;
    Distribute(2 * q, e, p);
    Distribute(2 * q, e + 1, p);
    Distribute(2 * q, 2, p);
    Distribute(m - 1, 1, p);
    MulAtLeast(p, m - 1, 0);
    Double(q, p);
    Double(q + 1, p);
    assert e * p == if e == 0 then 0 else p;
    assert (e + 1) * p == if e == 0 then p else 2 * p;
  }

  lemma Distribute(a: int, b: int, n: int)
    ensures (a + b) * n == a * n + b * n
  {
  }

  lemma Double(a: int, n: int)
    ensures a * (2 * n) == (2 * a) * n
  {
  }

  /** The loop of bits_for_value. */
  method BitsForValue(n: nat) returns (b: nat)
    ensures IsBitLength(n, b)
  {
    b := 0;
    var m := n;
    assert IsShifted(n, 0, n) by { assert Pow2(0) == 1; }
    while m != 0
      invariant IsShifted(n, b, m)
      invariant m == 0 && b > 0 ==> Pow2(b - 1) <= n
    {
      ShiftOnce(n, b, m);
      b := b + 1;
      m := m / 2;
    }
    assert IsBitLength(n, b) by { assert (0 + 1) * Pow2(b) == Pow2(b); }
  }
}
