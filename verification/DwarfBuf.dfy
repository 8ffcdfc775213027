/** The reader of a DWARF section: it never reads past its end, and reports running out only once. */
module DwarfBuf {
  import opened Bits

  datatype Report = Underflow | UlebOverflow | SlebOverflow | BadAddressSize | BadFileNumber | BadDirectory

  /** The number whose bytes these are, the least significant byte first or last. */
  function FromBytes(bytes: seq<byte>, bigEndian: bool): (v: nat)
  {
    if bytes == [] then 0
    else if bigEndian then FromBytes(bytes[..|bytes| - 1], true) * 256 + bytes[|bytes| - 1]
    else FromBytes(bytes[1..], false) * 256 + bytes[0]
  }

  /** Byte `i` of a number, counted from the least significant one, is at that place from the end or the start. */
  lemma {:induction false} ByteOfNumber(bytes: seq<byte>, bigEndian: bool, i: nat)
    requires i < |bytes|
    ensures FromBytes(bytes, bigEndian) / Pow(8 * i) % 256 == bytes[if bigEndian then |bytes| - 1 - i else i]
    decreases |bytes|
  {
    hide Pow, FromBytes;
    var v, low, rest := FromBytes(bytes, bigEndian), LowByte(bytes, bigEndian), HighBytes(bytes, bigEndian);
    OneByteMore(bytes, bigEndian);
    DivModUnique(v, FromBytes(rest, bigEndian), low, 256);
    if i == 0 {
      PowTable();
    } else {
      ByteOfNumber(rest, bigEndian, i - 1);
      PowAdd(8, 8 * (i - 1));
      PowTable();
      assert 8 + 8 * (i - 1) == 8 * i;
      DivDiv(v, 256, Pow(8 * (i - 1)));
    }
  }

  function LowByte(bytes: seq<byte>, bigEndian: bool): byte
    requires bytes != []
  {
    if bigEndian then bytes[|bytes| - 1] else bytes[0]
  }

  function HighBytes(bytes: seq<byte>, bigEndian: bool): (r: seq<byte>)
    requires bytes != []
    ensures |r| == |bytes| - 1
  {
    if bigEndian then bytes[..|bytes| - 1] else bytes[1..]
  }

  lemma OneByteMore(bytes: seq<byte>, bigEndian: bool)
    requires bytes != []
    ensures FromBytes(bytes, bigEndian) == FromBytes(HighBytes(bytes, bigEndian), bigEndian) * 256 + LowByte(bytes, bigEndian)
  {
  }

  /** The `n` low bytes of a number, by division. */
  function ToBytes(v: nat, n: nat, bigEndian: bool): (r: seq<byte>)
    ensures |r| == n
    decreases n
  {
    if n == 0 then []
    else if bigEndian then ToBytes(v / 256, n - 1, true) + [v % 256]
    else [v % 256] + ToBytes(v / 256, n - 1, false)
  }

  /** A number that fits is read back from its bytes. */
  lemma {:induction false} FromToBytes(v: nat, n: nat, bigEndian: bool)
    requires v < Pow(8 * n)
    ensures FromBytes(ToBytes(v, n, bigEndian), bigEndian) == v
    decreases n
  {
    hide Pow, FromBytes, ToBytes;
    if n == 0 {
      PowTable();
      NoBytes(v, bigEndian);
    } else {
      PowAdd(8, 8 * (n - 1));
      PowTable();
      assert 8 + 8 * (n - 1) == 8 * n;
      DivLess(v, 256, Pow(8 * (n - 1)));
      FromToBytes(v / 256, n - 1, bigEndian);
      OneByteMore(ToBytes(v, n, bigEndian), bigEndian);
      OneByteFirst(v, n, bigEndian);
    }
  }

  lemma NoBytes(v: nat, bigEndian: bool)
    ensures FromBytes(ToBytes(v, 0, bigEndian), bigEndian) == 0
  {
  }

  lemma OneByteFirst(v: nat, n: nat, bigEndian: bool)
    requires n > 0
    ensures var s := ToBytes(v, n, bigEndian);
            LowByte(s, bigEndian) == v % 256 && HighBytes(s, bigEndian) == ToBytes(v / 256, n - 1, bigEndian)
  {
  }

  /** 0x1234 in both byte orders. */
  lemma TwoByteNumber()
    ensures FromBytes([0x12, 0x34], true) == 0x1234 && FromBytes([0x34, 0x12], false) == 0x1234
    ensures ToBytes(0x1234, 2, true) == [0x12, 0x34] && ToBytes(0x1234, 2, false) == [0x34, 0x12]
  {
    assert [0x12, 0x34][..1] == [0x12] && [0x34, 0x12][1..] == [0x12];
    assert ToBytes(0x12, 1, true) == [0x12] && ToBytes(0x12, 1, false) == [0x12];
  }

  class Buf {
    const data: seq<byte>
    const bigEndian: bool
    var pos: nat
    var left: nat
    var reportedUnderflow: bool
    var reports: seq<Report>

    ghost predicate Valid()
      reads this
    {
      pos + left <= |data|
    }

    function Rest(): (s: seq<byte>)
      requires Valid()
      reads this
      ensures |s| == left
    {
      data[pos..pos + left]
    }

    constructor (data: seq<byte>, bigEndian: bool, pos: nat, left: nat)
      requires pos + left <= |data|
      ensures Valid() && Rest() == data[pos..pos + left] && this.bigEndian == bigEndian
      ensures !reportedUnderflow && reports == []
    {
      this.data, this.bigEndian, this.pos, this.left := data, bigEndian, pos, left;
      reportedUnderflow, reports := false, [];
    }

    method Report(r: Report)
      modifies `reports
      ensures reports == old(reports) + [r]
    {
      reports := reports + [r];
    }

    /** What is reported when there is not enough left. */
    function AfterUnderflow(): seq<Report>
      reads this
    {
      if reportedUnderflow then reports else reports + [Underflow]
    }

    method Require(count: nat) returns (ok: bool)
      requires Valid()
      modifies `reportedUnderflow, `reports
      ensures ok <==> count <= left
      ensures reportedUnderflow == (old(reportedUnderflow) || !ok)
      ensures reports == if ok then old(reports) else old(AfterUnderflow())
    {
      if left >= count {
        return true;
      }
      if !reportedUnderflow {
        Report(Underflow);
        reportedUnderflow := true;
      }
      ok := false;
    }

    method Advance(count: nat) returns (ok: bool)
      requires Valid()
      modifies `pos, `left, `reportedUnderflow, `reports
      ensures Valid() && (ok <==> count <= old(left))
      ensures if ok then Rest() == old(Rest())[count..] && pos == old(pos) + count else Rest() == old(Rest()) && pos == old(pos)
      ensures reportedUnderflow == (old(reportedUnderflow) || !ok)
      ensures reports == if ok then old(reports) else old(AfterUnderflow())
    {
      ok := Require(count);
      if ok {
        pos := pos + count;
        left := left - count;
      }
    }

    /** `read_byte`: zero at the end. */
    method ReadByte() returns (b: byte)
      requires Valid()
      modifies `pos, `left, `reportedUnderflow, `reports
      ensures Valid()
      ensures if old(left) > 0 then b == old(Rest())[0] && Rest() == old(Rest())[1..] && pos == old(pos) + 1
              else b == 0 && Rest() == old(Rest()) && pos == old(pos)
      ensures reportedUnderflow == (old(reportedUnderflow) || old(left) == 0)
    {
      var at := pos;
      var ok := Advance(1);
      b := if ok then data[at] else 0;
    }

    /** `read_uint16`, `read_uint32` and `read_uint64`: `n` bytes, most or least significant first. */
    method ReadUint(n: nat) returns (v: nat)
      requires Valid()
      modifies `pos, `left, `reportedUnderflow, `reports
      ensures Valid()
      ensures if n <= old(left) then
                v == FromBytes(old(Rest())[..n], bigEndian) && Rest() == old(Rest())[n..] && pos == old(pos) + n
              else v == 0 && Rest() == old(Rest()) && pos == old(pos)
      ensures reportedUnderflow == (old(reportedUnderflow) || n > old(left))
    {
      var at := pos;
      var ok := Advance(n);
      if !ok {
        return 0;
      }
      assert data[at..at + n] == old(Rest())[..n];
      v := 0;
      if bigEndian {
        for k := 0 to n
          invariant v == FromBytes(data[at..at + k], true)
        {
          assert data[at..at + k + 1][..k] == data[at..at + k];
          v := v * 256 + data[at + k];
        }
      } else {
        var k := n;
        while k > 0
          invariant 0 <= k <= n && v == FromBytes(data[at + k..at + n], false)
        {
          k := k - 1;
          assert data[at + k..at + n][1..] == data[at + k + 1..at + n];
          v := v * 256 + data[at + k];
        }
      }
    }

    /** `read_address`: only sizes of 1, 2, 4 and 8 bytes are known. */
    method ReadAddress(size: nat) returns (v: nat)
      requires Valid()
      modifies `pos, `left, `reportedUnderflow, `reports
      ensures Valid()
      ensures if size in {1, 2, 4, 8} && size <= old(left) then
                v == FromBytes(old(Rest())[..size], bigEndian) && Rest() == old(Rest())[size..] && pos == old(pos) + size
              else v == 0 && Rest() == old(Rest()) && pos == old(pos)
      ensures reportedUnderflow == (old(reportedUnderflow) || (size in {1, 2, 4, 8} && size > old(left)))
    {
      if size == 1 || size == 2 || size == 4 || size == 8 {
        v := ReadUint(size);
      } else {
        Report(BadAddressSize);
        v := 0;
      }
    }
  }
}
