/** Byte-level helpers: the XOR fold used for the frame checksum and the
    split/join of 16-bit values into the little-endian byte pairs the radio
    exchanges. */
module Bytes {

  /** XOR of every byte of `s`, folded left to right like the checksum loops
      of `send` and `parsePacket`. */
  function XorAll(s: seq<bv8>): bv8
  {
    if |s| == 0 then 0 else XorAll(s[..|s| - 1]) ^ s[|s| - 1]
  }

  /** The XOR of a concatenation is the XOR of its parts. */
  lemma {:induction false} XorAllAppend(a: seq<bv8>, b: seq<bv8>)
    ensures XorAll(a + b) == XorAll(a) ^ XorAll(b)
    decreases |b|
  {
    if |b| == 0 {
      assert a + b == a;
    } else {
      var b' := b[..|b| - 1];
      assert (a + b)[..|a + b| - 1] == a + b';
      XorAllAppend(a, b');
    }
  }

  /** An unsigned 8-bit value used as a number rather than as wire bits. */
  type uint8 = x: int | 0 <= x < 0x100

  /** Replacing one byte changes the XOR by exactly the old byte XOR the new one. */
  lemma XorAllUpdate(s: seq<bv8>, i: nat, b: bv8)
    requires i < |s|
    ensures XorAll(s[i := b]) == XorAll(s) ^ s[i] ^ b
  {
    var pre, post := s[..i], s[i + 1..];
    assert s == (pre + [s[i]]) + post;
    assert s[i := b] == (pre + [b]) + post;
    XorSplit(pre, s[i], post);
    XorSplit(pre, b, post);
  }

  /** The XOR of `pre + [x] + post` separates into its three parts. */
  lemma XorSplit(pre: seq<bv8>, x: bv8, post: seq<bv8>)
    ensures XorAll((pre + [x]) + post) == XorAll(pre) ^ x ^ XorAll(post)
  {
    XorAllAppend(pre + [x], post);
    assert (pre + [x])[..|pre|] == pre;
  }

  /** A 16-bit value from its low and high bytes, `lo | hi << 8`. */
  function Join16(lo: bv8, hi: bv8): bv16
  {
    (lo as bv16) | ((hi as bv16) << 8)
  }

  /** Low byte of a 16-bit value, `byte(w & 0xFF)`. */
  function Low(w: bv16): bv8
  {
    (w & 0xFF) as bv8
  }

  /** High byte of a 16-bit value, `byte((w & 0xFF00) >> 8)`. */
  function High(w: bv16): bv8
  {
    ((w & 0xFF00) >> 8) as bv8
  }

  /** Joining two bytes is the little-endian number `lo + 256 * hi`, and
      splitting the result gives the two bytes back. */
  lemma JoinValue(lo: bv8, hi: bv8)
    ensures Join16(lo, hi) == (lo as bv16) + (hi as bv16) * 256
    ensures Low(Join16(lo, hi)) == lo && High(Join16(lo, hi)) == hi
  {
  }

  /** Sending a 16-bit value low byte first and recombining the two bytes gives
      it back. */
  lemma JoinSplit(w: bv16)
    ensures Join16(Low(w), High(w)) == w
  {
  }
}
