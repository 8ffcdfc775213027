/** The Adler-32 checksum of RFC 1950, with the modulo operations delayed. */
module Adler {
  import opened Bits

  type u32 = x: int | 0 <= x < 0x1_0000_0000

  const BASE := 65521

  /** Section 8.2 of RFC 1950: both sums reduced after every byte. */
  function Sums(data: seq<byte>, n: nat): (r: (nat, nat))
    requires n <= |data|
    ensures r.0 < BASE && r.1 < BASE
  {
    if n == 0 then (1, 0)
    else
      var (a, b) := Sums(data, n - 1);
      var a' := (a + data[n - 1]) % BASE;
      (a', (b + a') % BASE)
  }

  /** The checksum as section 2.2 of RFC 1950 stores it. */
  function Checksum(data: seq<byte>): nat {
    var (a, b) := Sums(data, |data|);
    b * 0x1_0000 + a
  }

  /** The largest value `s2` can have `n` bytes after a reduction. */
  function MaxS2(n: nat): nat {
    if n == 0 then BASE - 1 else MaxS2(n - 1) + (BASE - 1) + 255 * n
  }

  lemma {:induction false} MaxS2Closed(n: nat)
    ensures 2 * MaxS2(n) == 2 * (BASE - 1) * (n + 1) + 255 * (n * (n + 1))
  {
    if n > 0 {
      MaxS2Closed(n - 1);
      assert n * (n + 1) == (n - 1) * n + 2 * n;
    }
  }

  lemma {:induction false} MaxS2Mono(m: nat, n: nat)
    requires m <= n
    ensures MaxS2(m) <= MaxS2(n)
    decreases n
  {
    if m < n {
      MaxS2Mono(m, n - 1);
    }
  }

  /** 5552 bytes are few enough to add up without a reduction. */
  lemma BlockFits(n: nat)
    requires n <= 5552
    ensures MaxS2(n) < 0x1_0000_0000
  {
    MaxS2Mono(n, 5552);
    MaxS2Closed(5552);
  }

  /** The running sums after byte `i`, not reduced for the last `n` bytes. */
  ghost predicate Running(data: seq<byte>, i: nat, n: nat, s1: u32, s2: u32) {
    && i <= |data| && n <= i
    && s1 % BASE == Sums(data, i).0 && s2 % BASE == Sums(data, i).1
    && s1 <= BASE - 1 + 255 * n && s2 <= MaxS2(n)
  }

  lemma AddMod(x: nat, y: nat, m: nat)
    requires m > 0
    ensures (x + y) % m == (x % m + y % m) % m
  {
    DivModFacts(x, m);
    DivModFacts(y, m);
    var q := x / m + y / m;
    MulDistr(x / m, y / m, m);
    ModAdd(x % m + y % m, q, m);
  }

  /** A sum may be reduced before the next number is added. */
  lemma AddReduced(x: nat, y: nat, m: nat)
    requires m > 0
    ensures (x + y) % m == (x % m + y) % m
  {
    DivModFacts(x, m);
    ModAdd(x % m + y, x / m, m);
  }

  lemma SumsStep(data: seq<byte>, i: nat, s1: nat, s2: nat)
    requires i < |data| && s1 % BASE == Sums(data, i).0 && s2 % BASE == Sums(data, i).1
    ensures (s1 + data[i]) % BASE == Sums(data, i + 1).0 && (s2 + (s1 + data[i])) % BASE == Sums(data, i + 1).1
  {
    AddReduced(s1, data[i], BASE);
    var t: nat := s1 + data[i];
    AddMod(s2, t, BASE);
    AddReduced(t, s2 % BASE, BASE);
  }

  /** Adding one byte without reducing. */
  method AddByte(data: seq<byte>, i: nat, ghost n: nat, s1: u32, s2: u32) returns (s1': u32, s2': u32)
    requires i < |data| && n < 5552 && Running(data, i, n, s1, s2)
    ensures Running(data, i + 1, n + 1, s1', s2')
  {
    BlockFits(n + 1);
    SumsStep(data, i, s1, s2);
    s1' := s1 + data[i];
    s2' := s2 + s1';
  }

  /** The unrolled sixteen additions of the source. */
  method AddSixteen(data: seq<byte>, i: nat, ghost n: nat, s1: u32, s2: u32) returns (s1': u32, s2': u32)
    requires i + 16 <= |data| && n + 16 <= 5552 && Running(data, i, n, s1, s2)
    ensures Running(data, i + 16, n + 16, s1', s2')
  {
    s1', s2' := s1, s2;
    var k: nat := 0;
    while k < 16
      invariant 0 <= k <= 16 && Running(data, i + k, n + k, s1', s2')
    {
      s1', s2' := AddByte(data, i + k, n + k, s1', s2');
      k := k + 1;
    }
  }

  /** The sum of the first `n` bytes. */
  function ByteSum(data: seq<byte>, n: nat): nat
    requires n <= |data|
  {
    if n == 0 then 0 else ByteSum(data, n - 1) + data[n - 1]
  }

  /** The sum of the first `k` bytes, byte `i` of `n` taken `n - i` times. */
  function WeightedSum(data: seq<byte>, n: nat, k: nat): nat
    requires k <= n <= |data|
  {
    if k == 0 then 0 else WeightedSum(data, n, k - 1) + (n + 1 - k) * data[k - 1]
  }

  /** The four bytes that end a zlib stream with this data: both sums in closed form, the second one first. */
  function Trailer(data: seq<byte>): seq<byte> {
    var s1, s2 := (1 + ByteSum(data, |data|)) % 65521, (|data| + WeightedSum(data, |data|, |data|)) % 65521;
    [s2 / 256, s2 % 256, s1 / 256, s1 % 256]
  }

  lemma {:induction false} WeightedStep(data: seq<byte>, n: nat, k: nat)
    requires k <= n < |data|
    ensures WeightedSum(data, n + 1, k) == WeightedSum(data, n, k) + ByteSum(data, k)
  {
    if k > 0 {
      WeightedStep(data, n, k - 1);
      MulDistr(n + 1 - k, 1, data[k - 1]);
    }
  }

  /** Reducing after every byte gives the sums in closed form, reduced once. */
  lemma {:induction false} ClosedSums(data: seq<byte>, n: nat)
    requires n <= |data|
    ensures Sums(data, n) == ((1 + ByteSum(data, n)) % 65521, (n + WeightedSum(data, n, n)) % 65521)
  {
    hide ByteSum, WeightedSum, Sums;
    if n == 0 {
      NoSums(data);
    } else {
      ClosedSums(data, n - 1);
      NextSums(data, n);
      ClosedStep(data, n);
      ghost var next := Sums(data, n);
      AddedMod(1 + ByteSum(data, n - 1), data[n - 1], 1 + ByteSum(data, n), next.0);
      AddedMod(n - 1 + WeightedSum(data, n - 1, n - 1), 1 + ByteSum(data, n), n + WeightedSum(data, n, n), next.1);
    }
  }

  lemma NoSums(data: seq<byte>)
    ensures ByteSum(data, 0) == 0 && WeightedSum(data, 0, 0) == 0 && Sums(data, 0) == (1, 0)
  {
  }

  lemma NextSums(data: seq<byte>, n: nat)
    requires 0 < n <= |data|
    ensures Sums(data, n).0 == (Sums(data, n - 1).0 + data[n - 1]) % 65521
    ensures Sums(data, n).1 == (Sums(data, n - 1).1 + Sums(data, n).0) % 65521
  {
  }

  lemma ClosedStep(data: seq<byte>, n: nat)
    requires 0 < n <= |data|
    ensures ByteSum(data, n) == ByteSum(data, n - 1) + data[n - 1]
    ensures WeightedSum(data, n, n) == WeightedSum(data, n - 1, n - 1) + ByteSum(data, n - 1) + data[n - 1]
  {
    WeightedStep(data, n - 1, n - 1);
  }

  /** The sum of two numbers, reduced before or after. */
  lemma AddedMod(x: nat, y: nat, sum: nat, r: nat)
    requires sum == x + y && (r == (x % 65521 + y) % 65521 || r == (x % 65521 + y % 65521) % 65521)
    ensures r == sum % 65521
  {
    AddReduced(x, y, 65521);
    AddMod(x, y, 65521);
  }

  lemma TrailerIff(checkbytes: seq<byte>, data: seq<byte>)
    requires |checkbytes| == 4
    ensures BigEndian(checkbytes) == Checksum(data) <==> checkbytes == Trailer(data)
  {
    hide ByteSum, WeightedSum, Sums;
    ClosedSums(data, |data|);
    var s1, s2 := Sums(data, |data|).0, Sums(data, |data|).1;
    FourDigits(checkbytes[0], checkbytes[1], checkbytes[2], checkbytes[3], s1, s2);
    assert checkbytes == [checkbytes[0], checkbytes[1], checkbytes[2], checkbytes[3]];
  }

  lemma FourDigits(a: byte, b: byte, c: byte, d: byte, s1: nat, s2: nat)
    requires s1 < 0x1_0000 && s2 < 0x1_0000
    ensures ((a * 0x100 + b as int) * 0x100 + c as int) * 0x100 + d as int == s2 * 0x1_0000 + s1 <==>
      a as int == s2 / 256 && b as int == s2 % 256 && c as int == s1 / 256 && d as int == s1 % 256
  {
  }

  /** elf_zlib_verify_checksum: compares the checksum of the output with the four stored bytes. */
  method VerifyChecksum(checkbytes: seq<byte>, data: seq<byte>) returns (ok: bool)
    requires |checkbytes| == 4
    ensures ok <==> checkbytes == Trailer(data)
    ensures ok <==> BigEndian(checkbytes) == Checksum(data)
  {
    hide Sums, Trailer;
    TrailerIff(checkbytes, data);
    var b0: nat, b1: nat, b2: nat, b3: nat := checkbytes[0], checkbytes[1], checkbytes[2], checkbytes[3];
    var cksum := ((b0 * 0x100 + b1) * 0x100 + b2) * 0x100 + b3;
    var s1: u32, s2: u32 := 1, 0;
    var p: nat, hsz: nat := 0, |data|;
    Start(data);
    while hsz >= 5552
      invariant p + hsz == |data| && Running(data, p, 0, s1, s2)
      decreases hsz
    {
      var i: nat := 0;
      ghost var p0 := p;
      while i < 5552
        invariant 0 <= i <= 5552 && i % 16 == 0 && p == p0 + i && p0 + hsz == |data|
        invariant Running(data, p, i, s1, s2)
      {
        s1, s2 := AddSixteen(data, p, i, s1, s2);
        p := p + 16;
        i := i + 16;
      }
      hsz := hsz - 5552;
      Reduce(data, p, i, s1, s2);
      s1, s2 := s1 % BASE, s2 % BASE;
    }
    ghost var n: nat := 0;
    while hsz >= 16
      invariant p + hsz == |data| && n + hsz < 5552 && Running(data, p, n, s1, s2)
      decreases hsz
    {
      s1, s2 := AddSixteen(data, p, n, s1, s2);
      p, n := p + 16, n + 16;
      hsz := hsz - 16;
    }
    var i: nat := 0;
    while i < hsz
      invariant 0 <= i <= hsz && p + hsz - i == |data| && n + hsz - i < 5552 && Running(data, p, n, s1, s2)
    {
      s1, s2 := AddByte(data, p, n, s1, s2);
      p, n := p + 1, n + 1;
      i := i + 1;
    }
    s1, s2 := s1 % BASE, s2 % BASE;
    ok := s2 * 0x1_0000 + s1 == cksum;
  }

  lemma Start(data: seq<byte>)
    ensures Running(data, 0, 0, 1, 0)
  {
  }

  lemma Reduce(data: seq<byte>, i: nat, n: nat, s1: u32, s2: u32)
    requires Running(data, i, n, s1, s2)
    ensures Running(data, i, 0, s1 % BASE, s2 % BASE)
  {
  }

  /** The four checksum bytes, most significant first. */
  function BigEndian(b: seq<byte>): nat
    requires |b| == 4
  {
    ((b[0] * 0x100 + b[1] as int) * 0x100 + b[2] as int) * 0x100 + b[3] as int
  }
}
