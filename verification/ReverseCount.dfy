/** Counting with the bits reversed, as the Huffman table builder does. */
module ReverseCount {
  import opened Bits

  /** Adds one at the top of an `n`-bit number, carrying towards the low bits. */
  ghost function Carry(n: nat, code: int): int {
    if n == 0 then code
    else if code / Pow(n - 1) % 2 == 0 then code + Pow(n - 1)
    else Carry(n - 1, code - Pow(n - 1))
  }

  /** Reads off the digit of weight `p` below a high part `a * 2p`. */
  lemma Digit(h: int, a: int, b: int, r: int, p: int)
    requires p > 0 && 0 <= b < 2 && 0 <= r < p && h == a * (2 * p)
    ensures (h + b * p + r) / p % 2 == b
    ensures (h + b * p + r) % p == r
    ensures h + b * p == (2 * a + b) * p
  {
    assert a * (2 * p) + b * p == (2 * a + b) * p;
    DivModUnique(a * (2 * p) + b * p + r, 2 * a + b, r, p);
  }

  lemma Odd(n: nat, c: nat)
    requires n > 0
    ensures Rev(n, c) == (c % 2) * Pow(n - 1) + Rev(n - 1, c / 2)
    ensures c % 2 == 1 ==> Rev(n, c + 1) == Rev(n - 1, c / 2 + 1)
    ensures c % 2 == 0 ==> Rev(n, c + 1) == Pow(n - 1) + Rev(n - 1, c / 2)
  {
    hide Pow;
    Parity(c);
    assert (if c % 2 == 1 then Pow(n - 1) else 0) == (c % 2) * Pow(n - 1) by {
      assert 1 * Pow(n - 1) == Pow(n - 1) && 0 * Pow(n - 1) == 0;
    }
  }

  lemma Parity(c: nat)
    ensures c % 2 == 1 ==> (c + 1) % 2 == 0 && (c + 1) / 2 == c / 2 + 1
    ensures c % 2 != 1 ==> c % 2 == 0 && (c + 1) % 2 == 1 && (c + 1) / 2 == c / 2
  {
  }

  /** Below any high part `h`, carrying is the reversal of adding one. */
  lemma {:induction false} CarryIsReversed(n: nat, h: int, a: int, d: nat)
    requires h == a * Pow(n)
    ensures Carry(n, h + Rev(n, d)) == h + Rev(n, d + 1)
    decreases n
  {
    if n > 0 {
      var p, b, r := Pow(n - 1), d % 2, Rev(n - 1, d / 2);
      Odd(n, d);
      Digit(h, a, b, r, p);
      if b == 1 {
        assert h == (2 * a) * p;
        CarryIsReversed(n - 1, h, 2 * a, d / 2);
      }
    }
  }

  lemma SplitProduct(b: int, p: int, q: int, r: int)
    ensures (b * p + r) * q == b * (p * q) + r * q
  {
  }

  /** The reversal of the low bits stands above the reversal of the high bits. */
  lemma {:induction false} RevSplit(k: nat, n: nat, c: nat)
    ensures Rev(k + n, c) == Rev(k, c) * Pow(n) + Rev(n, Shr(c, k))
    decreases k
  {
    if k == 0 {
      assert Shr(c, 0) == c;
    } else {
      var b, p, q, r := c % 2, Pow(k - 1), Pow(n), Rev(k - 1, c / 2);
      assert Rev(k + n - 1, c / 2) == r * q + Rev(n, Shr(c, k)) by {
        RevSplit(k - 1, n, c / 2);
        HalfMod(c, p);
        assert Pow(k) == 2 * p;
        assert Shr(c / 2, k - 1) == Shr(c, k);
      }
      assert Pow(k + n - 1) == p * q by {
        PowAdd(k - 1, n);
        assert k - 1 + n == k + n - 1;
      }
      SplitProduct(b, p, q, r);
      assert Rev(k, c) == b * p + r;
    }
  }

  /** Adding `2^k` changes only the bits from bit `k` on. */
  lemma AddAbove(k: nat, c: nat)
    ensures Rev(k, c + Pow(k)) == Rev(k, c) && Shr(c + Pow(k), k) == Shr(c, k) + 1
  {
    hide Rev, Pow;
    RevIgnoresHigh(k, c, 1);
    ModAdd(c, 1, Pow(k));
  }

  /** Reverse-adding `2^k` to a `j`-bit reversed counter. */
  lemma ReverseAddBit(j: nat, k: nat, c: nat)
    requires k <= j
    ensures Carry(j - k, Rev(j, c)) == Rev(j, c + Pow(k))
  {
    hide Rev, Pow, Carry, Shr;
    var n: nat := j - k;
    RevSplit(k, n, c);
    RevSplit(k, n, c + Pow(k));
    AddAbove(k, c);
    CarryIsReversed(n, Rev(k, c) * Pow(n), Rev(k, c), Shr(c, k));
  }

  /** Is the single bit `bit` set in `code`?  Testing against zero is never true, as in C. */
  predicate BitSet(code: nat, bit: nat) {
    bit != 0 && code / bit % 2 == 1
  }

  /** The bits of `code` below position `n`, after a masked reverse increment. */
  ghost function Increment(n: nat, code: nat): nat {
    if n == 0 then 0
    else if code / Pow(n - 1) % 2 == 0 then code % Pow(n - 1) + Pow(n - 1)
    else Increment(n - 1, code)
  }

  lemma {:induction false} IncrementIsReversed(n: nat, h: nat, a: nat, c: nat)
    requires h == a * Pow(n)
    ensures Increment(n, h + Rev(n, c)) == Rev(n, c + 1)
    decreases n
  {
    if n > 0 {
      var p, b, r := Pow(n - 1), c % 2, Rev(n - 1, c / 2);
      Odd(n, c);
      Digit(h, a, b, r, p);
      if b == 1 {
        IncrementIsReversed(n - 1, h + p, 2 * a + 1, c / 2);
      }
    }
  }

  /** The next `j`-bit code in reversed order; wraps to zero after the last one. */
  method ReverseIncrement(code: nat, j: nat, ghost c: nat) returns (r: nat)
    requires 1 <= j && code == Rev(j, c)
    ensures r == Rev(j, c + 1)
  {
    ghost var target := Rev(j, c + 1);
    assert Increment(j, code) == target by {
      IncrementIsReversed(j, 0, 0, c);
    }
    var incr := Pow(j - 1);
    ghost var k: nat := j;
    while BitSet(code, incr)
      invariant k <= j && incr == if k == 0 then 0 else Pow(k - 1)
      invariant Increment(k, code) == target
      decreases k
    {
      incr := incr / 2;
      k := k - 1;
    }
    if incr == 0 {
      r := 0;
    } else {
      r := code % incr + incr;
    }
  }

  /** Adds `2^k` to a reversed `j`-bit counter, modulo `2^j`. */
  method ReverseAddPower(code0: nat, j: nat, k: nat, ghost c: nat) returns (code: int)
    requires k < j && code0 == Rev(j, c)
    ensures code == Rev(j, c + Pow(k))
  {
    ReverseAddBit(j, k, c);
    code := code0;
    var bit := Pow(j - k - 1);
    var m := 0;
    while m < j - k
      invariant m <= j - k && (m < j - k ==> bit == Pow(j - k - m - 1))
      invariant Carry(j - k - m, code) == Rev(j, c + Pow(k))
    {
      if code / bit % 2 == 0 {
        code := code + bit;
        return;
      }
      code := code - bit;
      m := m + 1;
      bit := bit / 2;
    }
  }

  /** The next bit of `x` above its low part `x % p`. */
  lemma NextBit(x: nat, p: nat)
    requires p > 0
    ensures (x - x % p) / p == x / p
    ensures x % (2 * p) == if x / p % 2 == 1 then x % p + p else x % p
    ensures x / p % 2 == 1 ==> p <= x - x % p
  {
    MulMono(1, if x / p >= 1 then x / p else 1, p);
    ByteStep(x, p);
    DivModFacts(x, p);
    ModAdd(0, x / p, p);
  }

  /** Reverse-adds a whole count; refuses a count that does not fit in `j` bits. */
  method ReverseAdd(code0: nat, j: nat, jcnt0: nat, ghost c: nat) returns (ok: bool, code: nat)
    requires 1 <= j && code0 == Rev(j, c)
    ensures ok <==> jcnt0 < Pow(j)
    ensures ok ==> code == Rev(j, c + jcnt0)
  {
    code := code0;
    var jcnt := jcnt0;
    var k: nat := 0;
    while k < j
      invariant k <= j
      invariant jcnt == jcnt0 - jcnt0 % Pow(k)
      invariant code == Rev(j, c + jcnt0 % Pow(k))
    {
      var bit := Pow(k);
      NextBit(jcnt0, bit);
      if BitSet(jcnt, bit) {
        code := ReverseAddPower(code, j, k, c + jcnt0 % bit);
        jcnt := jcnt - bit;
      }
      assert Pow(k + 1) == 2 * bit;
      k := k + 1;
    }
    DivModFacts(jcnt0, Pow(j));
    if jcnt0 < Pow(j) {
      DivModUnique(jcnt0, 0, jcnt0, Pow(j));
    }
    ok := jcnt == 0;
  }
}
