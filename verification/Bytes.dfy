/** Fixed-width integers in byte strings, as Python's `struct` packs and unpacks them. */
module Bytes {

  type byte = b: int | 0 <= b < 256

  /** The bytes of a text in ASCII. */
  function Ascii(s: string): (bs: seq<byte>)
    ensures |bs| == |s|
  {
    seq(|s|, i requires 0 <= i < |s| => (s[i] as int) % 256)
  }

  datatype Endian = Little | Big

  function Pow256(w: nat): (p: nat)
    ensures p > 0
  {
    if w == 0 then 1 else 256 * Pow256(w - 1)
  }

  /** The value of the bytes from `i` on with the least significant one first. */
  function DecodeFrom(bs: seq<byte>, i: nat): nat
    decreases |bs| - i
  {
    if i >= |bs| then 0 else bs[i] + 256 * DecodeFrom(bs, i + 1)
  }

  function DecodeLittle(bs: seq<byte>): nat {
    DecodeFrom(bs, 0)
  }

  function Reverse(bs: seq<byte>): (r: seq<byte>)
    ensures |r| == |bs|
  {
    if bs == [] then [] else Reverse(bs[1..]) + [bs[0]]
  }

  function Decode(e: Endian, bs: seq<byte>): nat {
    if e.Little? then DecodeLittle(bs) else DecodeLittle(Reverse(bs))
  }

  function EncodeLittle(n: nat, w: nat): (bs: seq<byte>)
    ensures |bs| == w
  {
    if w == 0 then [] else [n % 256] + EncodeLittle(n / 256, w - 1)
  }

  function Encode(e: Endian, n: nat, w: nat): (bs: seq<byte>)
    ensures |bs| == w
  {
    if e.Little? then EncodeLittle(n, w) else Reverse(EncodeLittle(n, w))
  }

  lemma {:induction false} DecodeShift(b: byte, bs: seq<byte>, i: nat)
    ensures DecodeFrom([b] + bs, i + 1) == DecodeFrom(bs, i)
    decreases |bs| - i
  {
    if i < |bs| {
      DecodeShift(b, bs, i + 1);
    }
  }

  lemma {:induction false} DecodeEncodeLittle(n: nat, w: nat)
    requires n < Pow256(w)
    ensures DecodeLittle(EncodeLittle(n, w)) == n
  {
    if w > 0 {
      DecodeEncodeLittle(n / 256, w - 1);
      DecodeShift(n % 256, EncodeLittle(n / 256, w - 1), 0);
    }
  }

  lemma {:induction false} ReverseAppend(a: seq<byte>, b: byte)
    ensures Reverse(a + [b]) == [b] + Reverse(a)
  {
    if a == [] {
      assert (a + [b])[1..] == [];
    } else {
      assert (a + [b])[1..] == a[1..] + [b];
      ReverseAppend(a[1..], b);
    }
  }

  lemma {:induction false} ReverseTwice(a: seq<byte>)
    ensures Reverse(Reverse(a)) == a
  {
    if a != [] {
      ReverseAppend(Reverse(a[1..]), a[0]);
      ReverseTwice(a[1..]);
    }
  }

  /** Packing and unpacking an integer that fits gives the integer back. */
  lemma DecodeEncode(e: Endian, n: nat, w: nat)
    requires n < Pow256(w)
    ensures Decode(e, Encode(e, n, w)) == n
  {
    DecodeEncodeLittle(n, w);
    ReverseTwice(EncodeLittle(n, w));
  }

  /** In little-endian order the first byte counts once and the others 256 times as much. */
  lemma DecodeLittleFirst(b: byte, bs: seq<byte>)
    ensures Decode(Little, []) == 0 && Decode(Little, [b] + bs) == b + 256 * Decode(Little, bs)
  {
    DecodeShift(b, bs, 0);
  }

  /** In big-endian order the last byte counts once and the others 256 times as much. */
  lemma DecodeBigLast(bs: seq<byte>, b: byte)
    ensures Decode(Big, []) == 0 && Decode(Big, bs + [b]) == 256 * Decode(Big, bs) + b
  {
    ReverseAppend(bs, b);
    DecodeShift(b, Reverse(bs), 0);
  }

  lemma EncodeNext(b: byte, n: nat, w: nat)
    ensures EncodeLittle(b + 256 * n, w + 1) == [b] + EncodeLittle(n, w)
    ensures n < Pow256(w) ==> b + 256 * n < Pow256(w + 1)
  {
    assert (b + 256 * n) % 256 == b && (b + 256 * n) / 256 == n;
  }

  lemma {:induction false} EncodeDecodeLittle(bs: seq<byte>)
    ensures EncodeLittle(DecodeLittle(bs), |bs|) == bs && DecodeLittle(bs) < Pow256(|bs|)
  {
    if bs != [] {
      assert bs == [bs[0]] + bs[1..];
      DecodeShift(bs[0], bs[1..], 0);
      EncodeDecodeLittle(bs[1..]);
      EncodeNext(bs[0], DecodeLittle(bs[1..]), |bs| - 1);
    }
  }

  /** Unpacking and packing gives the bytes back. */
  lemma EncodeDecode(e: Endian, bs: seq<byte>)
    ensures Encode(e, Decode(e, bs), |bs|) == bs && Decode(e, bs) < Pow256(|bs|)
  {
    EncodeDecodeLittle(bs);
    EncodeDecodeLittle(Reverse(bs));
    ReverseTwice(bs);
  }

  lemma PowerValues()
    ensures Pow256(1) == 0x100 && Pow256(2) == 0x1_0000 && Pow256(4) == 0x1_0000_0000
    ensures Pow256(8) == 0x1_0000_0000_0000_0000
  {
    assert Pow256(2) == 256 * Pow256(1);
    assert Pow256(3) == 256 * Pow256(2);
    assert Pow256(4) == 256 * Pow256(3);
    assert Pow256(5) == 256 * Pow256(4);
    assert Pow256(6) == 256 * Pow256(5);
    assert Pow256(7) == 256 * Pow256(6);
  }

  /** A signed integer of `w` bytes, in two's complement. */
  function Signed(n: nat, w: nat): int {
    if 2 * n < Pow256(w) then n else n - Pow256(w)
  }

  /** The one number in the range of `w` signed bytes that agrees with `n` up to multiples of the range. */
  lemma SignedMeaning(n: nat, w: nat)
    requires n < Pow256(w) && w > 0
    ensures 0 <= 2 * Signed(n, w) + Pow256(w) && 2 * Signed(n, w) < Pow256(w) && Unsigned(Signed(n, w), w) == n
    ensures Signed(n, w) == n || Signed(n, w) + Pow256(w) == n
  {
  }

  function Unsigned(i: int, w: nat): int {
    if i >= 0 then i else i + Pow256(w)
  }

  function Zeros(n: nat): (bs: seq<byte>)
    ensures |bs| == n && forall i | 0 <= i < n :: bs[i] == 0
  {
    seq(n, _ => 0)
  }

  /** How many of the first `n` bytes are left when NULs at the end are dropped. */
  function StrippedLength(bs: seq<byte>, n: nat): (k: nat)
    requires n <= |bs|
    ensures k <= n && (k > 0 ==> bs[k - 1] != 0)
    ensures forall i | k <= i < n :: bs[i] == 0
  {
    if n > 0 && bs[n - 1] == 0 then StrippedLength(bs, n - 1) else n
  }

  /** `bs.rstrip(b"\0")` */
  function StripNuls(bs: seq<byte>): (r: seq<byte>)
    ensures |r| <= |bs|
  {
    bs[..StrippedLength(bs, |bs|)]
  }

  lemma {:induction false} StrippedPadded(bs: seq<byte>, k: nat, n: nat)
    requires k <= n <= |bs| && (k > 0 ==> bs[k - 1] != 0) && forall i | k <= i < n :: bs[i] == 0
    ensures StrippedLength(bs, n) == k
  {
    if k < n {
      StrippedPadded(bs, k, n - 1);
    }
  }

  /** Padding with NULs is undone by stripping, for strings that do not end with one. */
  lemma StripPadded(bs: seq<byte>, n: nat)
    requires bs == [] || bs[|bs| - 1] != 0
    ensures StripNuls(bs + Zeros(n)) == bs
  {
    StrippedPadded(bs + Zeros(n), |bs|, |bs| + n);
  }

  /** Stripping drops NULs at the end, and all of them. */
  lemma StripMeaning(bs: seq<byte>)
    ensures bs == StripNuls(bs) + Zeros(|bs| - |StripNuls(bs)|)
    ensures StripNuls(bs) == [] || StripNuls(bs)[|StripNuls(bs)| - 1] != 0
  {
  }
}
