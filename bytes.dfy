/** Byte strings and byte buffers: XOR of two strings, and a buffer with a
    stretch of it overwritten. */
module Bytes {

  /** Byte-wise XOR of two strings of one length. */
  function Xor(a: seq<bv8>, b: seq<bv8>): (r: seq<bv8>)
    requires |a| == |b|
    ensures |r| == |a|
  {
    seq(|a|, k requires 0 <= k < |a| => a[k] ^ b[k])
  }

  /** XOR of two concatenations is the concatenation of the XORs. */
  lemma XorAppend(a1: seq<bv8>, b1: seq<bv8>, a2: seq<bv8>, b2: seq<bv8>)
    requires |a1| == |b1| && |a2| == |b2|
    ensures Xor(a1 + a2, b1 + b2) == Xor(a1, b1) + Xor(a2, b2)
  {
  }

  /** The buffer s with piece written over it from offset off on. */
  function Patch(s: seq<bv8>, off: nat, piece: seq<bv8>): (r: seq<bv8>)
    requires off + |piece| <= |s|
    ensures |r| == |s|
  {
    s[..off] + piece + s[off + |piece|..]
  }

  /** A buffer that holds piece at off and agrees with s everywhere else is
      s patched with piece at off. */
  lemma PatchByBytes(s: seq<bv8>, t: seq<bv8>, off: nat, piece: seq<bv8>)
    requires off + |piece| <= |s| == |t|
    requires forall k :: 0 <= k < |t| && !(off <= k < off + |piece|) ==> t[k] == s[k]
    requires forall k :: off <= k < off + |piece| ==> t[k] == piece[k - off]
    ensures t == Patch(s, off, piece)
  {
    var r := Patch(s, off, piece);
    forall k | 0 <= k < |t|
      ensures t[k] == r[k]
    {
      if k < off {
        assert r[k] == s[k];
      } else if k < off + |piece| {
        assert r[k] == piece[k - off];
      } else {
        assert r[k] == s[k];
      }
    }
  }

  /** Writing p1 at off and then p2 right after it is writing p1 + p2 at off. */
  lemma PatchPatch(s: seq<bv8>, off: nat, p1: seq<bv8>, p2: seq<bv8>)
    requires off + |p1| + |p2| <= |s|
    ensures Patch(Patch(s, off, p1), off + |p1|, p2) == Patch(s, off, p1 + p2)
  {
    var t := Patch(s, off, p1);
    assert t[..off + |p1|] == s[..off] + p1;
    assert t[off + |p1| + |p2|..] == s[off + |p1| + |p2|..];
  }

  /** The whole buffer patched with a piece of its own length is the piece. */
  lemma PatchWhole(s: seq<bv8>, p: seq<bv8>)
    requires |p| == |s|
    ensures Patch(s, 0, p) == p
  {
    assert s[..0] + p + s[|p|..] == p;
  }

  /** Patching nothing leaves the buffer as it was. */
  lemma PatchEmpty(s: seq<bv8>, off: nat)
    requires off <= |s|
    ensures Patch(s, off, []) == s
  {
    assert s[..off] + [] + s[off..] == s;
  }
}
