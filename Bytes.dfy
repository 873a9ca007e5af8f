/** Bytes and the fixed-width big-endian integers that Java's `DataOutput`/`DataInput` and
    Go's `binary.BigEndian` read and write. */
module Bytes {

  newtype Byte = x: int | 0 <= x < 256

  function Pow256(n: nat): (r: nat)
    ensures r >= 1
  {
    if n == 0 then 1 else 256 * Pow256(n - 1)
  }

  /** The low `width` bytes of `n`, most significant first. */
  function ToBE(n: nat, width: nat): (s: seq<Byte>)
    ensures |s| == width
  {
    if width == 0 then [] else ToBE(n / 256, width - 1) + [(n % 256) as Byte]
  }

  /** The unsigned value of a big-endian byte string. */
  function FromBE(s: seq<Byte>): (n: nat)
    ensures n < Pow256(|s|)
  {
    if s == [] then 0
    else
      var hi := FromBE(s[..|s| - 1]);
      assert hi * 256 + s[|s| - 1] as int < Pow256(|s|) by {
        assert hi <= Pow256(|s| - 1) - 1;
        assert hi * 256 <= Pow256(|s| - 1) * 256 - 256;
      }
      hi * 256 + s[|s| - 1] as int
  }

  lemma {:induction false} FromBEOfToBE(n: nat, width: nat)
    requires n < Pow256(width)
    ensures FromBE(ToBE(n, width)) == n
  {
    if width > 0 {
      var s := ToBE(n, width);
      assert s[..width - 1] == ToBE(n / 256, width - 1);
      assert n / 256 < Pow256(width - 1);
      FromBEOfToBE(n / 256, width - 1);
    }
  }

  lemma {:induction false} ToBEOfFromBE(s: seq<Byte>)
    ensures ToBE(FromBE(s), |s|) == s
  {
    if s != [] {
      var pre := s[..|s| - 1];
      var n := FromBE(s);
      assert n / 256 == FromBE(pre) && n % 256 == s[|s| - 1] as int;
      ToBEOfFromBE(pre);
      assert s == pre + [s[|s| - 1]];
    }
  }

  /** Half the range of a `width`-byte pattern: the bound of its signed values. */
  function Half(width: nat): (h: int)
    requires width > 0
    ensures h > 0 && 2 * h == Pow256(width)
  {
    128 * Pow256(width - 1)
  }

  /** Two's-complement bit pattern of `v` in `width` bytes (Go `uint16(v)` and friends, Java's
      sign extension when an `int` is written as a long). */
  function Unsigned(v: int, width: nat): (u: nat)
    requires width > 0 && -Half(width) <= v < Pow256(width)
    ensures u < Pow256(width)
    ensures v >= 0 ==> u == v
  {
    if v < 0 then v + Pow256(width) else v
  }

  /** The signed integer a `width`-byte two's-complement pattern stands for. */
  function Signed(u: nat, width: nat): (v: int)
    requires width > 0 && u < Pow256(width)
    ensures -Half(width) <= v < Half(width)
    ensures Unsigned(v, width) == u
  {
    if u >= Half(width) then u - Pow256(width) else u
  }

  lemma SignedOfUnsigned(v: int, width: nat)
    requires width > 0 && -Half(width) <= v < Half(width)
    ensures Signed(Unsigned(v, width), width) == v
  {
  }

  /** Encoding and decoding a `width`-byte signed integer gives it back. */
  lemma SignedRoundTrip(v: int, width: nat)
    requires width > 0 && -Half(width) <= v < Half(width)
    ensures Signed(FromBE(ToBE(Unsigned(v, width), width)), width) == v
  {
    FromBEOfToBE(Unsigned(v, width), width);
  }

  function Zeros(n: nat): (s: seq<Byte>)
    ensures |s| == n && forall i :: 0 <= i < n ==> s[i] == 0
  {
    seq(n, _ => 0)
  }
}
