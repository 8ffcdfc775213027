/** Inflating a zlib stream and verifying its checksum. */
module Zlib {
  import opened Bits
  import opened Deflate
  import opened Wrappers
  import Adler
  import Inflate

  /** elf_zlib_inflate_and_verify */
  method InflateAndVerify(input: seq<byte>, sin: nat, align: nat, w: Inflate.Work, out: array<byte>, ghost bs: seq<Block>)
    returns (ok: bool)
    requires 4 <= sin && sin + 3 <= |input| && w.Valid() && w.Apart(out)
    modifies out, w.Scratch()
    ensures w.Valid()
    ensures ok ==> input[sin - 4..sin] == Adler.Trailer(out[..])
    ensures Inflate.ZlibStream(input, sin, bs) && OffBoundary(16, bs) ==>
      (ok <==> && Inflate.FitsExactly(bs, out.Length) && !Inflate.AnyRefused(bs) && Inflate.RefillInside(bs, align)
               && input[sin - 4..sin] == Adler.Trailer(Expand([], bs).value))
    ensures ok && Inflate.ZlibStream(input, sin, bs) && OffBoundary(16, bs) ==> Expand([], bs) == Some(out[..])
  {
    ok := Inflate.InflateStream(input, sin, align, w, out, bs);
    if ok {
      ok := Adler.VerifyChecksum(input[sin - 4..sin], out[..]);
    }
  }
}
