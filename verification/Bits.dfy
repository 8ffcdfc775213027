/** Powers of two, bit reversal and little-endian bit streams. */
module Bits {

  type byte = x: int | 0 <= x < 256

  /** The power of two `1 << n`. */
  function Pow(n: nat): (r: nat)
    ensures r > 0
  {
    if n == 0 then 1 else 2 * Pow(n - 1)
  }

  lemma PowTable()
    ensures Pow(0) == 1 && Pow(1) == 2 && Pow(2) == 4 && Pow(3) == 8 && Pow(4) == 16 && Pow(5) == 32 && Pow(6) == 64
    ensures Pow(7) == 128 && Pow(8) == 256 && Pow(14) == 0x4000 && Pow(15) == 0x8000 && Pow(16) == 0x1_0000
  {
  }

  /** Logical right shift, `x >> n`. */
  function Shr(x: nat, n: nat): nat {
    DivNonNeg(x, Pow(n));
    x / Pow(n)
  }

  lemma DivNonNeg(x: nat, d: nat)
    requires d > 0
    ensures x / d >= 0
  {
  }

  lemma MulAssoc(a: int, b: int, c: int)
    ensures a * (b * c) == (a * b) * c
  {
  }

  lemma MulDistr(a: int, b: int, c: int)
    ensures (a + b) * c == a * c + b * c
  {
  }

  lemma MulMono(a: int, b: int, c: int)
    requires a <= b && 0 <= c
    ensures a * c <= b * c
  {
  }

  lemma {:induction false} PowAdd(a: nat, b: nat)
    ensures Pow(a + b) == Pow(a) * Pow(b)
  {
    if a > 0 {
      PowAdd(a - 1, b);
      MulAssoc(2, Pow(a - 1), Pow(b));
      assert a + b - 1 == a - 1 + b;
    }
  }

  lemma {:induction false} PowMono(a: nat, b: nat)
    requires a <= b
    ensures Pow(a) <= Pow(b)
    decreases b
  {
    if a < b {
      PowMono(a, b - 1);
    }
  }

  lemma DivModUnique(x: int, q: int, r: int, d: int)
    requires d > 0 && x == q * d + r && 0 <= r < d
    ensures x / d == q && x % d == r
  {
    var q' := x / d;
    assert x == q' * d + x % d;
    MulMono(q + 1, if q < q' then q' else q + 1, d);
    MulMono(q' + 1, if q' < q then q else q' + 1, d);
    MulDistr(q, 1, d);
    MulDistr(q', 1, d);
  }

  /** A remainder is not changed by reducing first modulo a multiple of the divisor. */
  lemma ModMod(x: nat, a: nat, b: nat)
    requires a > 0 && b > 0
    ensures x % (a * b) % a == x % a
  {
    var q, r := x / (a * b), x % (a * b);
    assert x == q * (a * b) + r;
    assert x == (q * b + r / a) * a + r % a by {
      assert r == (r / a) * a + r % a;
      assert q * (a * b) == (q * b) * a;
      assert (q * b + r / a) * a == (q * b) * a + (r / a) * a;
    }
    DivModUnique(x, q * b + r / a, r % a, a);
  }

  lemma ModModPow(x: nat, m: nat, n: nat)
    requires m <= n
    ensures x % Pow(n) % Pow(m) == x % Pow(m)
  {
    PowAdd(m, n - m);
    ModMod(x, Pow(m), Pow(n - m));
  }

  lemma DivDiv(x: nat, a: nat, b: nat)
    requires a > 0 && b > 0
    ensures a * b > 0 && x / a / b == x / (a * b)
  {
    var q, r := x / a, x % a;
    var q2, r2 := q / b, q % b;
    assert x == q * a + r && q == q2 * b + r2;
    assert q * a == (q2 * b) * a + r2 * a;
    assert (q2 * b) * a == q2 * (a * b);
    assert r2 * a + r < a * b by {
      assert r2 + 1 <= b;
      assert (r2 + 1) * a <= b * a;
    }
    assert r2 * a >= 0;
    DivModUnique(x, q2, r2 * a + r, a * b);
  }

  lemma DivLess(x: nat, a: nat, b: nat)
    requires a > 0 && b > 0 && x < a * b
    ensures x / a < b
  {
    assert x == (x / a) * a + x % a;
    MulMono(b, if x / a < b then b else x / a, a);
  }

  lemma ModAdd(x: nat, q: nat, d: nat)
    requires d > 0
    ensures (q * d + x) % d == x % d && (q * d + x) / d == q + x / d
  {
    MulDistr(q, x / d, d);
    DivModUnique(q * d + x, q + x / d, x % d, d);
  }

  lemma ModAddMul(x: nat, q: nat, a: nat, b: nat)
    requires a > 0 && b > 0
    ensures (q * (a * b) + x) % a == x % a && (q * (a * b) + x) / a == q * b + x / a
  {
    assert q * (a * b) == (q * b) * a;
    ModAdd(x, q * b, a);
  }

  /** The `n`-bit number `x` with its bits in the opposite order. */
  function Rev(n: nat, x: nat): (r: nat)
    ensures r < Pow(n)
  {
    if n == 0 then 0 else (if x % 2 == 1 then Pow(n - 1) else 0) + Rev(n - 1, x / 2)
  }

  lemma Halve(b: nat, h: nat, r: nat)
    ensures (b * (2 * h) + r) % 2 == r % 2 && (b * (2 * h) + r) / 2 == b * h + r / 2
  {
    MulAssoc(b, 2, h);
    MulAssoc(2, b, h);
    HalveSum(b * h, r);
  }

  lemma HalveSum(x: int, r: int)
    ensures (2 * x + r) % 2 == r % 2 && (2 * x + r) / 2 == x + r / 2
  {
  }

  /** Only the low `n` bits of the argument of `Rev` matter. */
  lemma {:induction false} RevIgnoresHigh(n: nat, x: nat, q: nat)
    ensures Rev(n, q * Pow(n) + x) == Rev(n, x)
    decreases n
  {
    hide Rev;
    if n > 0 {
      Halve(q, Pow(n - 1), x);
      RevIgnoresHigh(n - 1, x / 2, q);
      RevByHalf(n, q * Pow(n) + x, x);
    }
    NoBits(q * Pow(n) + x, x);
  }

  lemma NoBits(x: nat, y: nat)
    ensures Rev(0, x) == Rev(0, y)
  {
  }

  lemma RevByHalf(n: nat, x: nat, y: nat)
    requires n > 0 && x % 2 == y % 2 && Rev(n - 1, x / 2) == Rev(n - 1, y / 2)
    ensures Rev(n, x) == Rev(n, y)
  {
  }

  /** The low `m` bits of a reversal are the reversal of the top `m` bits. */
  lemma {:induction false} RevLow(n: nat, m: nat, x: nat)
    requires m <= n && x < Pow(n)
    ensures Rev(n, x) % Pow(m) == Rev(m, Shr(x, n - m))
    decreases n
  {
    if m == n {
      DivModUnique(Rev(n, x), 0, Rev(n, x), Pow(n));
      assert Shr(x, 0) == x;
    } else {
      var k := n - 1 - m;
      PowAdd(m, k);
      var p, q, r := Pow(m), Pow(k), Rev(n - 1, x / 2);
      assert Pow(n - 1) == p * q;
      assert Rev(n, x) % p == r % p by {
        ModAddMul(r, x % 2, p, q);
      }
      assert Shr(x / 2, k) == Shr(x, n - m) by {
        DivDiv(x, 2, q);
      }
      assert r % p == Rev(m, Shr(x / 2, k)) by {
        RevLow(n - 1, m, x / 2);
      }
    }
  }

  lemma HalfMod(x: nat, h: nat)
    requires h > 0
    ensures x % (2 * h) % 2 == x % 2 && x % (2 * h) / 2 == x / 2 % h && x / 2 / h == x / (2 * h)
  {
    var q, r := x / (2 * h), x % (2 * h);
    assert x == q * (2 * h) + r;
    assert q * (2 * h) == 2 * (q * h);
    DivModUnique(x / 2, q, r / 2, h);
  }

  /** Peels the low bit of a reversal instead of its high bit. */
  lemma {:induction false} RevTop(n: nat, x: nat)
    requires n > 0 && x < Pow(n)
    ensures Rev(n, x) % 2 == Shr(x, n - 1)
    ensures Rev(n, x) / 2 == Rev(n - 1, x % Pow(n - 1))
    decreases n
  {
    if n > 1 {
      var h, b, r := Pow(n - 2), x % 2, Rev(n - 1, x / 2);
      RevTop(n - 1, x / 2);
      assert Shr(x / 2, n - 2) == x / 2 / h;
      HalfMod(x, h);
      Halve(b, h, r);
      assert Pow(n - 1) == 2 * h;
    }
  }

  lemma DivModFacts(x: nat, d: nat)
    requires d > 0
    ensures x == (x / d) * d + x % d && 0 <= x % d < d && 0 <= x / d
  {
  }

  lemma {:induction false} RevInvolution(n: nat, x: nat)
    requires x < Pow(n)
    ensures Rev(n, Rev(n, x)) == x
    decreases n
  {
    if n > 0 {
      var p, r := Pow(n - 1), Rev(n, x);
      DivModFacts(x, p);
      var lo: nat, hi: nat := x % p, x / p;
      assert r % 2 == hi && r / 2 == Rev(n - 1, lo) by {
        RevTop(n, x);
      }
      assert Rev(n - 1, Rev(n - 1, lo)) == lo by {
        RevInvolution(n - 1, lo);
      }
      assert Rev(n, r) == (r % 2) * p + Rev(n - 1, r / 2);
    }
  }

  lemma RevInjective(n: nat, x: nat, y: nat)
    requires x < Pow(n) && y < Pow(n) && Rev(n, x) == Rev(n, y)
    ensures x == y
  {
    RevInvolution(n, x);
    RevInvolution(n, y);
  }

  /** Bit `k` of a number. */
  function BitOf(x: nat, k: nat): (b: nat)
    ensures b < 2
  {
    if k == 0 then x % 2 else BitOf(x / 2, k - 1)
  }

  lemma {:induction false} BitOfShift(x: nat, k: nat)
    ensures BitOf(x, k) == Shr(x, k) % 2
    decreases k
  {
    if k == 0 {
      assert Shr(x, 0) == x;
    } else {
      BitOfShift(x / 2, k - 1);
      DivDiv(x, 2, Pow(k - 1));
    }
  }

  /** Bit `i` of a byte sequence read least significant bit first (section 3.1.1 of RFC 1951). */
  function Bit(s: seq<byte>, i: nat): (b: nat)
    requires i < 8 * |s|
    ensures b < 2
    decreases i
  {
    if i < 8 then BitOf(s[0], i) else Bit(s[1..], i - 8)
  }

  lemma {:induction false} BitInByte(s: seq<byte>, i: nat, k: nat)
    requires i < |s| && k < 8
    ensures Bit(s, 8 * i + k) == BitOf(s[i], k)
    decreases i
  {
    if i > 0 {
      BitInByte(s[1..], i - 1, k);
    }
  }

  /** The `n` bits from bit `p`, as a number whose least significant bit came first. */
  function BitsAt(s: seq<byte>, p: nat, n: nat): (v: nat)
    requires p + n <= 8 * |s|
    ensures v < Pow(n)
  {
    if n == 0 then 0
    else BitsAt(s, p, n - 1) + (if Bit(s, p + n - 1) == 1 then Pow(n - 1) else 0)
  }

  lemma {:induction false} BitsAtSum(s: seq<byte>, p: nat, k: nat, n: nat)
    requires k <= n && p + n <= 8 * |s|
    ensures BitsAt(s, p, n) == BitsAt(s, p + k, n - k) * Pow(k) + BitsAt(s, p, k)
    decreases n
  {
    hide Bit, Pow;
    if k < n {
      BitsAtSum(s, p, k, n - 1);
      PowAdd(k, n - 1 - k);
      var b, u := Bit(s, p + n - 1), BitsAt(s, p + k, n - 1 - k);
      assert p + k + (n - k) - 1 == p + n - 1 && k + (n - 1 - k) == n - 1;
      SplitStep(u, b, Pow(k), Pow(n - 1 - k));
    } else {
      assert Pow(k) * 0 == 0;
    }
  }

  lemma BitsAtSplit(s: seq<byte>, p: nat, k: nat, n: nat)
    requires k <= n && p + n <= 8 * |s|
    ensures BitsAt(s, p, n) == BitsAt(s, p + k, n - k) * Pow(k) + BitsAt(s, p, k)
    ensures BitsAt(s, p, n) % Pow(k) == BitsAt(s, p, k)
    ensures BitsAt(s, p, n) / Pow(k) == BitsAt(s, p + k, n - k)
  {
    hide BitsAt, Pow;
    BitsAtSum(s, p, k, n);
    DivModUnique(BitsAt(s, p, n), BitsAt(s, p + k, n - k), BitsAt(s, p, k), Pow(k));
  }

  lemma SplitStep(u: int, b: int, x: int, y: int)
    ensures u * x + b * (x * y) == (u + b * y) * x
  {
  }

  lemma {:induction false} BitsOfByte(s: seq<byte>, i: nat, n: nat)
    requires i < |s| && n <= 8
    ensures BitsAt(s, 8 * i, n) == s[i] % Pow(n)
  {
    if n > 0 {
      var h := Pow(n - 1);
      assert BitsAt(s, 8 * i, n - 1) == s[i] % h by {
        BitsOfByte(s, i, n - 1);
      }
      assert Bit(s, 8 * i + (n - 1)) == s[i] / h % 2 by {
        BitInByte(s, i, n - 1);
        BitOfShift(s[i], n - 1);
      }
      assert s[i] % Pow(n) == s[i] % h + (s[i] / h % 2) * h by {
        ByteStep(s[i], h);
      }
    }
  }

  lemma ByteStep(x: nat, h: nat)
    requires h > 0
    ensures x % (2 * h) == x % h + (x / h % 2) * h
  {
    var q, b := x / h / 2, x / h % 2;
    assert x == (2 * q + b) * h + x % h;
    MulDistr(2 * q, b, h);
    assert (2 * q) * h == q * (2 * h);
    MulMono(b, 1, h);
    DivModUnique(x, q, b * h + x % h, 2 * h);
  }

  /** A whole byte, read as bits. */
  lemma ByteBits(s: seq<byte>, i: nat)
    requires i < |s|
    ensures BitsAt(s, 8 * i, 8) == s[i]
  {
    BitsOfByte(s, i, 8);
    assert Pow(8) == 256;
  }
}
