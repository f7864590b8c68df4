/** The keystream as the Rabbit crypt step sees it.

    The Rabbit generator (its next-state and extraction functions, key and IV
    setup) is not part of this model.  All the crypt step needs of it is that
    its n-th call yields a 16-byte block, so the generator is a function from
    the call number to that block.  This module defines the byte-level
    keystream that sequence of blocks spells out, the crypt operation of
    Rabbit (RFC 4503) over it, ciphertext being plaintext XOR keystream,
    and the bookkeeping of how many blocks have been generated and how many
    bytes of the last one are still unused.
 */
module Keystream {
  import opened Bytes

  /** One output block of the generator: 16 bytes. */
  type Block = s: seq<bv8> | |s| == 16 witness seq(16, _ => 0)

  /** A keystream generator: gen(n) is the block its n-th call (counting from 0) yields. */
  type Generator = nat -> Block

  /** Byte p of the keystream, counting from the first byte of block 0. */
  function KeystreamByte(gen: Generator, p: nat): bv8
  {
    gen(p / 16)[p % 16]
  }

  /** Byte k of block n sits at stream position 16 * n + k. */
  lemma KeystreamByteInBlock(gen: Generator, n: nat, k: nat)
    requires k < 16
    ensures KeystreamByte(gen, 16 * n + k) == gen(n)[k]
  {
    var p := 16 * n + k;
    assert p / 16 == n && p % 16 == k;
  }

  /** The reference definition of crypting: data XOR the keystream that
      starts at stream position pos. */
  function Crypt(gen: Generator, pos: nat, data: seq<bv8>): (r: seq<bv8>)
    ensures |r| == |data|
    decreases |data|
  {
    if data == [] then [] else [data[0] ^ KeystreamByte(gen, pos)] + Crypt(gen, pos + 1, data[1..])
  }

  /** Output byte k is input byte k XOR keystream byte pos + k. */
  lemma {:induction false} CryptAt(gen: Generator, pos: nat, data: seq<bv8>, k: nat)
    requires k < |data|
    ensures Crypt(gen, pos, data)[k] == data[k] ^ KeystreamByte(gen, pos + k)
    decreases |data|
  {
    if k > 0 {
      CryptAt(gen, pos + 1, data[1..], k - 1);
    }
  }

  /** The n keystream bytes from stream position pos on. */
  function KeystreamBytes(gen: Generator, pos: nat, n: nat): seq<bv8>
  {
    seq(n, k requires 0 <= k < n => KeystreamByte(gen, pos + k))
  }

  /** data XOR the keystream bytes from pos on, computed all at once. */
  function KeystreamXor(gen: Generator, pos: nat, data: seq<bv8>): (r: seq<bv8>)
    ensures |r| == |data|
  {
    Xor(data, KeystreamBytes(gen, pos, |data|))
  }

  /** Crypting is XOR with the keystream bytes from pos on. */
  lemma CryptIsXor(gen: Generator, pos: nat, data: seq<bv8>)
    ensures Crypt(gen, pos, data) == KeystreamXor(gen, pos, data)
  {
    forall k | 0 <= k < |data|
      ensures Crypt(gen, pos, data)[k] == Xor(data, KeystreamBytes(gen, pos, |data|))[k]
    {
      CryptAt(gen, pos, data, k);
    }
  }

  /** The keystream bytes of two adjacent stretches are the bytes of the
      two stretches together. */
  lemma KeystreamBytesAppend(gen: Generator, pos: nat, m: nat, n: nat)
    ensures KeystreamBytes(gen, pos, m + n) == KeystreamBytes(gen, pos, m) + KeystreamBytes(gen, pos + m, n)
  {
    var both := KeystreamBytes(gen, pos, m) + KeystreamBytes(gen, pos + m, n);
    forall k | 0 <= k < m + n
      ensures KeystreamBytes(gen, pos, m + n)[k] == both[k]
    {
      if k >= m {
        assert both[k] == KeystreamBytes(gen, pos + m, n)[k - m];
      }
    }
  }

  /** XOR-ing data with the keystream from pos is XOR-ing its first j bytes
      from pos and the rest from pos + j. */
  lemma KeystreamXorSplit(gen: Generator, pos: nat, data: seq<bv8>, j: nat)
    requires j <= |data|
    ensures KeystreamXor(gen, pos, data) == KeystreamXor(gen, pos, data[..j]) + KeystreamXor(gen, pos + j, data[j..])
  {
    var a, b := data[..j], data[j..];
    assert a + b == data;
    KeystreamBytesAppend(gen, pos, j, |data| - j);
    XorAppend(a, KeystreamBytes(gen, pos, j), b, KeystreamBytes(gen, pos + j, |data| - j));
  }

  /** The keystream bytes of one block are the block: taking up to 16 of
      them from the start of block n gives the front of gen(n). */
  lemma KeystreamBytesOfBlock(gen: Generator, n: nat, len: nat)
    requires len <= 16
    ensures KeystreamBytes(gen, 16 * n, len) == gen(n)[..len]
  {
    forall k | 0 <= k < len
      ensures KeystreamBytes(gen, 16 * n, len)[k] == gen(n)[k]
    {
      KeystreamByteInBlock(gen, n, k);
    }
  }

  /** Any stretch of a crypt output is the crypt of the same stretch of the
      input, at the keystream position where that stretch starts. */
  lemma CryptSlice(gen: Generator, pos: nat, data: seq<bv8>, i: nat, j: nat)
    requires i <= j <= |data|
    ensures Crypt(gen, pos, data)[i..j] == Crypt(gen, pos + i, data[i..j])
  {
    var whole, part := Crypt(gen, pos, data), Crypt(gen, pos + i, data[i..j]);
    forall k | 0 <= k < j - i
      ensures whole[i + k] == part[k]
    {
      CryptAt(gen, pos, data, i + k);
      CryptAt(gen, pos + i, data[i..j], k);
      assert pos + i + k == pos + (i + k);
    }
    assert whole[i..j] == part;
  }

  /** Chunking: crypting a ++ b is crypting a, then b from where a ended. */
  lemma CryptAppend(gen: Generator, pos: nat, a: seq<bv8>, b: seq<bv8>)
    ensures Crypt(gen, pos, a + b) == Crypt(gen, pos, a) + Crypt(gen, pos + |a|, b)
  {
    var whole, parts := Crypt(gen, pos, a + b), Crypt(gen, pos, a) + Crypt(gen, pos + |a|, b);
    forall k | 0 <= k < |a| + |b|
      ensures whole[k] == parts[k]
    {
      CryptAt(gen, pos, a + b, k);
      if k < |a| {
        CryptAt(gen, pos, a, k);
      } else {
        CryptAt(gen, pos + |a|, b, k - |a|);
        assert pos + |a| + (k - |a|) == pos + k;
      }
    }
  }

  /** Decrypting with the same keystream position gives the plaintext back. */
  lemma {:induction false} CryptInvolution(gen: Generator, pos: nat, data: seq<bv8>)
    ensures Crypt(gen, pos, Crypt(gen, pos, data)) == data
    decreases |data|
  {
    if data != [] {
      CryptInvolution(gen, pos + 1, data[1..]);
    }
  }

  /** The part of the crypt state a keystream position depends on: how many
      blocks the generator has produced, and how many bytes at the end of the
      last one have not been consumed yet. */
  datatype Cursor = Cursor(blocks: nat, unused: nat)
  {
    /** At most one block is held back, and nothing is held back before the
        first block is generated. */
    predicate Valid()
    {
      unused <= 16 && (blocks == 0 ==> unused == 0)
    }

    /** The stream position of the next keystream byte to use. */
    function Position(): nat
      requires Valid()
    {
      16 * blocks - unused
    }

    /** The cursor after crypting n bytes: the unused bytes are drained first;
        if they do not cover the input, one block is generated for every 16
        bytes still to do (the last one possibly partial) and what the last
        block does not cover is kept. */
    function Advance(n: nat): (c: Cursor)
      requires Valid()
      ensures c.Valid()
    {
      if n <= unused then Cursor(blocks, unused - n)
      else
        var calls := BlocksFor(n - unused);
        Cursor(blocks + calls, 16 * calls - (n - unused))
    }
  }

  /** How many 16-byte blocks it takes to cover m bytes: ceil(m / 16). */
  function BlocksFor(m: nat): (calls: nat)
    ensures 16 * calls < m + 16 && m <= 16 * calls
  {
    if m == 0 then 0 else if m <= 16 then 1 else 1 + BlocksFor(m - 16)
  }

  /** Crypting n bytes moves the stream position forward by exactly n,
      whether the bytes come from the held-back part or from new blocks. */
  lemma AdvancePosition(c: Cursor, n: nat)
    requires c.Valid()
    ensures c.Advance(n).Position() == c.Position() + n
  {
  }

  /** A call that generates a block leaves between 0 and 15 bytes of it
      unused: a whole unused block is never kept. */
  lemma AdvanceLeftover(c: Cursor, n: nat)
    requires c.Valid() && n > c.unused
    ensures c.Advance(n).blocks > c.blocks
    ensures c.Advance(n).unused < 16
    ensures 16 * (c.Advance(n).blocks - c.blocks) - 16 < n - c.unused <= 16 * (c.Advance(n).blocks - c.blocks)
  {
  }

  /** Crypting n bytes from a block boundary takes ceil(n / 16) new blocks:
      with n in the last of `calls` blocks, the cursor moves on by `calls`
      blocks and keeps what the last block does not cover. */
  lemma AdvanceFromBoundary(c: Cursor, n: nat, calls: nat)
    requires c.Valid() && c.unused == 0 && 16 * calls < n + 16 && n <= 16 * calls
    ensures c.Advance(n) == Cursor(c.blocks + calls, 16 * calls - n)
  {
  }

  /** Chunking for the bookkeeping: crypting a bytes and then b bytes leaves
      the same cursor as crypting a + b bytes in one go. */
  lemma AdvanceCompose(c: Cursor, a: nat, b: nat)
    requires c.Valid()
    ensures c.Advance(a).Advance(b) == c.Advance(a + b)
  {
    var c1 := c.Advance(a);
    if a <= c.unused {
      if b > c1.unused {
        assert b - c1.unused == a + b - c.unused;
      }
    } else {
      AdvanceLeftover(c, a);
      if b > c1.unused {
        var calls1 := c1.blocks - c.blocks;
        assert a + b - c.unused == 16 * calls1 + (b - c1.unused);
      }
    }
  }

  /** The bookkeeping of two successive calls, named: c1 after the first a
      of n bytes from c0 and c2 after the other n - a is the bookkeeping
      after all n. */
  lemma AdvanceTwice(c0: Cursor, c1: Cursor, c2: Cursor, a: nat, n: nat)
    requires c0.Valid() && a <= n && c1 == c0.Advance(a) && c2 == c1.Advance(n - a)
    ensures c2 == c0.Advance(n)
  {
    AdvanceCompose(c0, a, n - a);
  }
}
