/**
  Serialisation of one accumulated word into a raw PCM record, as the
  decoder's `save_data` does with `struct.pack("H" | "I", value)`: an
  unsigned integer of 2 or 4 bytes in little-endian order, or an error when
  the value does not fit.
 */
module Pcm {

  import opened Wrappers
  import opened I2sTypes

  type Byte = b: nat | b < 256

  /** 256 to the power n: one more than the largest value n bytes hold. */
  function Pow256(n: nat): (r: nat)
    ensures r >= 1
  {
    if n == 0 then 1 else 256 * Pow256(n - 1)
  }

  /** The unsigned little-endian value of a byte sequence. */
  function DecodeLE(bs: seq<Byte>): (r: nat)
    ensures r < Pow256(|bs|)
  {
    if |bs| == 0 then 0 else bs[0] + 256 * DecodeLE(bs[1..])
  }

  /** The `width`-byte little-endian encoding of `v`. */
  function EncodeLE(v: nat, width: nat): (r: seq<Byte>)
    requires v < Pow256(width)
    ensures |r| == width
    ensures DecodeLE(r) == v
  {
    if width == 0 then []
    else
      assert v / 256 < Pow256(width - 1);
      [v % 256] + EncodeLE(v / 256, width - 1)
  }

  /** Every byte string is the encoding of its own decoded value at its own length. */
  lemma {:induction false} DecodeEncode(bs: seq<Byte>)
    ensures EncodeLE(DecodeLE(bs), |bs|) == bs
  {
    if |bs| > 0 {
      var rest := DecodeLE(bs[1..]);
      DecodeEncode(bs[1..]);
      ByteSplit(bs[0], rest);
      assert bs == [bs[0]] + bs[1..];
    }
  }

  /** The low byte and the rest of `b + 256 * rest` are `b` and `rest`. */
  lemma ByteSplit(b: Byte, rest: nat)
    ensures (b + 256 * rest) % 256 == b
    ensures (b + 256 * rest) / 256 == rest
  {
  }

  /** Two words of the same width encode to the same bytes only if they are equal. */
  lemma EncodeInjective(u: nat, v: nat, width: nat)
    requires u < Pow256(width) && v < Pow256(width)
    requires EncodeLE(u, width) == EncodeLE(v, width)
    ensures u == v
  {
    assert DecodeLE(EncodeLE(u, width)) == u;
  }

  /**
    The record width `save_data` picks for a word length: format "H" for 12
    and 16 bits, "I" for 20, 24 and 32 bits.
   */
  function PackWidth(wl: WordLength): (w: nat)
    ensures w == 2 || w == 4
    ensures wl <= 8 * w
    ensures w == 2 <==> wl <= 16
  {
    if wl == 12 then 2
    else if wl == 16 then 2
    else if wl == 20 then 4
    else if wl == 24 then 4
    else 4
  }

  /** 2 to the power 8n is 256 to the power n. */
  lemma {:induction false} Pow2Bytes(n: nat)
    ensures Pow2(8 * n) == Pow256(n)
  {
    if n > 0 {
      Pow2Bytes(n - 1);
      Pow2Add(8, 8 * (n - 1));
      assert Pow2(8) == 256;
      assert 8 * n == 8 + 8 * (n - 1);
    }
  }

  /**
    `struct.pack` with the format chosen for `wl`: the record bytes, or None
    where the value is out of range for the format and Python raises.
   */
  function Pack(v: nat, wl: WordLength): (r: Option<seq<Byte>>)
    ensures r.Some? <==> v < Pow256(PackWidth(wl))
    ensures r.Some? ==> |r.value| == PackWidth(wl) && DecodeLE(r.value) == v
  {
    var w := PackWidth(wl);
    if v < Pow256(w) then Some(EncodeLE(v, w)) else None
  }

  /** Every word of at most `wl` significant bits packs without error. */
  lemma InRangeWordPacks(v: nat, wl: WordLength)
    requires v < Pow2(wl)
    ensures Pack(v, wl).Some?
  {
    var w := PackWidth(wl);
    Pow2Monotone(wl, 8 * w);
    Pow2Bytes(w);
  }
}
