/** The buffered crypt step of the Rabbit stream cipher: rabbit_crypt.

    A RabbitState holds the generator (abstracted by Keystream.Generator and
    the number of blocks it has produced) and a 16-byte block whose last
    `unused` bytes are keystream generated by an earlier call but not yet
    used.  RabbitCrypt XORs any number of input bytes with the keystream that
    continues from where the previous call stopped.
 */
module Rabbit {
  import opened Bytes
  import opened Keystream

  /** The two results rabbit_crypt can give: CRYPT_OK, or the failure of an
      argument check. */
  datatype Status = CryptOk | InvalidArg

  class RabbitState {
    /** The keystream blocks the generator produces, in order. */
    const gen: Generator
    /** How many blocks the generator has produced; it stands for the
        generator's internal registers, which are not modelled. */
    var blocksGenerated: nat
    /** st->block: the last generated block; only its last `unused` bytes are live. */
    const block: array<bv8>
    /** st->unused: how many bytes at the end of `block` are still unused. */
    var unused: nat

    /** The state invariant: `unused` is at most 16, and the live tail of
        `block` is the tail of the last block the generator produced. */
    ghost predicate Valid()
      reads this, block
    {
      block.Length == 16 &&
      At().Valid() &&
      (unused > 0 ==> forall k :: 16 - unused <= k < 16 ==> block[k] == gen(blocksGenerated - 1)[k])
    }

    /** The bookkeeping part of the state. */
    ghost function At(): Cursor
      reads this
    {
      Cursor(blocksGenerated, unused)
    }

    /** The stream position of the next keystream byte a crypt call uses. */
    ghost function Position(): nat
      reads this, block
      requires Valid()
    {
      At().Position()
    }

    /** The keystream bytes held back for the next call: exactly the next
        `unused` bytes of the keystream. */
    function Leftover(): (r: seq<bv8>)
      reads this, block
      requires Valid()
      ensures r == KeystreamBytes(gen, Position(), unused)
    {
      var r := block[16 - unused..];
      forall k | 0 <= k < unused
        ensures r[k] == KeystreamBytes(gen, Position(), unused)[k]
      {
        KeystreamByteInBlock(gen, blocksGenerated - 1, 16 - unused + k);
      }
      r
    }

    /** A state as key and IV setup leave it: no block generated, nothing held back. */
    constructor (gen: Generator)
      ensures Valid() && fresh(block)
      ensures this.gen == gen && blocksGenerated == 0 && unused == 0
    {
      this.gen := gen;
      block := new bv8[16];
      blocksGenerated := 0;
      unused := 0;
    }

    /** _rabbit_gen_1_block: write the next keystream block into buf and
        advance the generator. */
    method GenBlock(buf: array<bv8>)
      requires buf.Length == 16
      modifies this`blocksGenerated, buf
      ensures blocksGenerated == old(blocksGenerated) + 1
      ensures buf[..] == gen(old(blocksGenerated))
    {
      var b := gen(blocksGenerated);
      forall k | 0 <= k < 16 {
        buf[k] := b[k];
      }
      blocksGenerated := blocksGenerated + 1;
    }

    /** The leftover drain of rabbit_crypt: crypt the first j bytes of input
        (whose bytes data names) with the held-back keystream, one byte at a
        time, decrementing `unused` as each byte is used. */
    method Drain(input: array<bv8>, inOff: nat, out: array<bv8>, outOff: nat, j: nat, ghost data: seq<bv8>)
      requires Valid() && j <= unused
      requires inOff + j <= input.Length && outOff + j <= out.Length
      requires |data| == j && forall i :: 0 <= i < j ==> input[inOff + i] == data[i]
      requires out != block
      requires input == out ==> inOff == outOff
      modifies this`unused, out
      ensures Valid() && unused == old(unused) - j
      ensures out[..] == Patch(old(out[..]), outOff, KeystreamXor(gen, old(Position()), data))
      ensures forall k :: 0 <= k < out.Length && !(outOff <= k < outOff + j) ==> out[k] == old(out[k])
    {
      ghost var key := KeystreamBytes(gen, Position(), j);
      assert forall k :: 0 <= k < j ==> block[16 - unused + k] == key[k] by {
        assert Leftover()[..j] == key;
      }
      ghost var out0 := out[..];
      DrainLoop(input, inOff, out, outOff, j, data, key);
      PatchByBytes(out0, out[..], outOff, Xor(data, key));
    }

    /** The drain loop itself: XOR input byte i with block[16 - unused] and
        decrement `unused`, j times; key names the bytes it reads. */
    method DrainLoop(input: array<bv8>, inOff: nat, out: array<bv8>, outOff: nat, j: nat,
                     ghost data: seq<bv8>, ghost key: seq<bv8>)
      requires block.Length == 16 && j <= unused <= 16
      requires inOff + j <= input.Length && outOff + j <= out.Length
      requires |data| == j == |key|
      requires forall i :: 0 <= i < j ==> input[inOff + i] == data[i]
      requires forall k :: 0 <= k < j ==> block[16 - unused + k] == key[k]
      requires out != block
      requires input == out ==> inOff == outOff
      modifies this`unused, out
      ensures unused == old(unused) - j
      ensures forall k :: outOff <= k < outOff + j ==> out[k] == data[k - outOff] ^ key[k - outOff]
      ensures forall k :: 0 <= k < out.Length && !(outOff <= k < outOff + j) ==> out[k] == old(out[k])
    {
      ghost var u0 := unused;
      ghost var out0 := out[..];
      var i := 0;
      while i < j
        modifies this`unused, out
        invariant 0 <= i <= j
        invariant unused == u0 - i
        invariant forall k :: i <= k < j ==> input[inOff + k] == data[k]
        invariant forall k :: outOff <= k < outOff + i ==> out[k] == data[k - outOff] ^ key[k - outOff]
        invariant forall k :: 0 <= k < out.Length && !(outOff <= k < outOff + i) ==> out[k] == out0[k]
      {
        assert block[16 - unused] == key[i] && input[inOff + i] == data[i];
        out[outOff + i] := input[inOff + i] ^ block[16 - unused];
        i := i + 1;
        unused := unused - 1;
      }
    }

    /** The last branch of rabbit_crypt's loop: keep buf[rem..16] as the
        held-back keystream, leaving block[0..rem] as it was. */
    method KeepTail(buf: array<bv8>, rem: nat)
      requires buf.Length == 16 && block.Length == 16 && buf != block
      requires 1 <= rem <= 16 && blocksGenerated > 0
      requires buf[..] == gen(blocksGenerated - 1)
      modifies this`unused, block
      ensures Valid() && unused == 16 - rem
      ensures block[..rem] == old(block[..rem])
      ensures forall k :: rem <= k < 16 ==> block[k] == buf[k]
    {
      unused := 16 - rem;
      for i := rem to 16
        modifies block
        invariant forall k :: 0 <= k < rem ==> block[k] == old(block[k])
        invariant forall k :: rem <= k < i ==> block[k] == buf[k]
      {
        block[i] := buf[i];
      }
    }

    /** One pass of rabbit_crypt's loop: generate the next block into buf and
        XOR the next n input bytes with its first n bytes.  With `done` bytes
        crypted before, `done + n` are crypted after. */
    method CryptNextBlock(input: array<bv8>, inOff: nat, inlen: nat, out: array<bv8>, outOff: nat,
                          buf: array<bv8>, done: nat, n: nat,
                          ghost pos0: nat, ghost data: seq<bv8>, ghost out0: seq<bv8>)
      requires buf.Length == 16 && buf != input && buf != out
      requires n <= 16 && done + n <= inlen == |data|
      requires inOff + inlen <= input.Length && outOff + inlen <= out.Length == |out0|
      requires input == out ==> inOff == outOff
      requires pos0 + done == 16 * blocksGenerated
      requires out[..] == Patch(out0, outOff, KeystreamXor(gen, pos0, data[..done]))
      requires forall i :: done <= i < inlen ==> input[inOff + i] == data[i]
      modifies this`blocksGenerated, buf, out
      ensures blocksGenerated == old(blocksGenerated) + 1
      ensures buf[..] == gen(old(blocksGenerated))
      ensures out[..] == Patch(out0, outOff, KeystreamXor(gen, pos0, data[..done + n]))
      ensures forall i :: done + n <= i < inlen ==> input[inOff + i] == data[i]
    {
      ghost var before := out[..];
      ghost var b := blocksGenerated;
      GenBlock(buf);
      assert out[..] == before;
      XorInto(input, inOff + done, buf, out, outOff + done, n, data[done..done + n], gen(b)[..n]);
      BlockStep(gen, pos0, data, done, n, b, out0, before, out[..], outOff);
    }

    /** The passes of rabbit_crypt's loop that use a whole block: while more
        than 16 bytes are left, generate a block into buf and crypt 16 bytes
        with it.  Entered at a block boundary; returns how many bytes were
        crypted, leaving between 1 and 16. */
    method CryptWholeBlocks(input: array<bv8>, inOff: nat, inlen: nat, out: array<bv8>, outOff: nat,
                            buf: array<bv8>, ghost data: seq<bv8>) returns (done: nat)
      requires buf.Length == 16 && buf != input && buf != out && inlen > 0
      requires inOff + inlen <= input.Length && outOff + inlen <= out.Length
      requires |data| == inlen && forall i :: 0 <= i < inlen ==> input[inOff + i] == data[i]
      requires input == out ==> inOff == outOff
      modifies this`blocksGenerated, buf, out
      ensures done < inlen <= done + 16
      ensures done == 16 * (blocksGenerated - old(blocksGenerated))
      ensures out[..] == Patch(old(out[..]), outOff, KeystreamXor(gen, 16 * old(blocksGenerated), data[..done]))
      ensures forall i :: done <= i < inlen ==> input[inOff + i] == data[i]
    {
      ghost var pos0 := 16 * blocksGenerated;
      ghost var out0 := out[..];
      // `done` is how far `in` and `out` have advanced, `rem` is what is left of inlen
      done := 0;
      var rem := inlen;
      assert Patch(out0, outOff, KeystreamXor(gen, pos0, data[..0])) == out0;
      while rem > 16
        invariant done + rem == inlen && rem > 0
        invariant done == 16 * (blocksGenerated - old(blocksGenerated))
        invariant pos0 + done == 16 * blocksGenerated
        invariant out[..] == Patch(out0, outOff, KeystreamXor(gen, pos0, data[..done]))
        invariant forall i :: done <= i < inlen ==> input[inOff + i] == data[i]
      {
        CryptNextBlock(input, inOff, inlen, out, outOff, buf, done, 16, pos0, data, out0);
        rem := rem - 16;
        done := done + 16;
      }
    }

    /** The loop of rabbit_crypt, entered with no keystream held back: one
        block per 16 bytes of input (whose bytes data names), the last one
        possibly partial, whose unused tail is kept for the next call. */
    method CryptBlocks(input: array<bv8>, inOff: nat, inlen: nat, out: array<bv8>, outOff: nat, ghost data: seq<bv8>)
      requires Valid() && unused == 0 && inlen > 0
      requires inOff + inlen <= input.Length && outOff + inlen <= out.Length
      requires |data| == inlen && forall i :: 0 <= i < inlen ==> input[inOff + i] == data[i]
      requires input != block && out != block
      requires input == out ==> inOff == outOff
      modifies this`blocksGenerated, this`unused, block, out
      ensures Valid()
      ensures At() == old(At()).Advance(inlen)
      ensures out[..] == Patch(old(out[..]), outOff, KeystreamXor(gen, old(Position()), data))
    {
      ghost var c0 := At();
      ghost var pos0 := Position();
      ghost var out0 := out[..];
      var buf := new bv8[16];
      var done := CryptWholeBlocks(input, inOff, inlen, out, outOff, buf, data);
      ghost var calls := blocksGenerated - c0.blocks + 1;
      CryptLastBlock(input, inOff, inlen, out, outOff, buf, done, pos0, data, out0);
      AdvanceFromBoundary(c0, inlen, calls);
    }

    /** The last pass of rabbit_crypt's loop, with between 1 and 16 bytes
        left: generate a block, crypt the rest of the input with its front
        and keep its tail as the held-back keystream. */
    method CryptLastBlock(input: array<bv8>, inOff: nat, inlen: nat, out: array<bv8>, outOff: nat,
                          buf: array<bv8>, done: nat,
                          ghost pos0: nat, ghost data: seq<bv8>, ghost out0: seq<bv8>)
      requires block.Length == 16 && buf.Length == 16 && buf != input && buf != out && buf != block
      requires done < inlen <= done + 16 && inlen == |data|
      requires inOff + inlen <= input.Length && outOff + inlen <= out.Length == |out0|
      requires input == out ==> inOff == outOff
      requires out != block
      requires pos0 + done == 16 * blocksGenerated
      requires out[..] == Patch(out0, outOff, KeystreamXor(gen, pos0, data[..done]))
      requires forall i :: done <= i < inlen ==> input[inOff + i] == data[i]
      modifies this`blocksGenerated, this`unused, buf, block, out
      ensures Valid()
      ensures blocksGenerated == old(blocksGenerated) + 1 && unused == 16 - (inlen - done)
      ensures out[..] == Patch(out0, outOff, KeystreamXor(gen, pos0, data))
    {
      CryptNextBlock(input, inOff, inlen, out, outOff, buf, done, inlen - done, pos0, data, out0);
      assert data[..inlen] == data;
      assert buf[..] == gen(blocksGenerated - 1);
      KeepTail(buf, inlen - done);
    }

    /** The body of rabbit_crypt once its arguments are checked: crypt the
        inlen bytes of input from inOff into out from outOff.  The input
        may be the output buffer itself, at the same offset. */
    method CryptBytes(input: array<bv8>, inOff: nat, inlen: nat, out: array<bv8>, outOff: nat)
      requires Valid() && inlen > 0
      requires inOff + inlen <= input.Length && outOff + inlen <= out.Length
      requires input != block && out != block
      requires input == out ==> inOff == outOff
      modifies this, block, out
      ensures Valid()
      ensures At() == old(At()).Advance(inlen)
      ensures out[..] == Patch(old(out[..]), outOff, KeystreamXor(gen, old(Position()), old(input[inOff..inOff + inlen])))
      ensures inlen <= old(unused) ==> unchanged(block)
    {
      ghost var data := input[inOff..inOff + inlen];
      if unused == 0 {
        CryptBlocks(input, inOff, inlen, out, outOff, data);
      } else if inlen <= unused {
        Drain(input, inOff, out, outOff, inlen, data);
      } else {
        DrainThenCrypt(input, inOff, inlen, out, outOff, data);
      }
    }

    /** rabbit_crypt when the held-back keystream does not cover the input:
        drain it all, then go on with new blocks. */
    method DrainThenCrypt(input: array<bv8>, inOff: nat, inlen: nat, out: array<bv8>, outOff: nat, ghost data: seq<bv8>)
      requires Valid() && 0 < unused < inlen
      requires inOff + inlen <= input.Length && outOff + inlen <= out.Length
      requires |data| == inlen && forall i :: 0 <= i < inlen ==> input[inOff + i] == data[i]
      requires input != block && out != block
      requires input == out ==> inOff == outOff
      modifies this`blocksGenerated, this`unused, block, out
      ensures Valid()
      ensures At() == old(At()).Advance(inlen)
      ensures out[..] == Patch(old(out[..]), outOff, KeystreamXor(gen, old(Position()), data))
    {
      ghost var pos0 := Position();
      ghost var out0 := out[..];
      ghost var c0 := At();
      var j := DrainLeftover(input, inOff, inlen, out, outOff, data);
      CryptRest(input, inOff, inlen, out, outOff, j, data, c0, pos0, out0);
    }

    /** rabbit_crypt's loop after a drain of j bytes: crypting the rest of
        the input from the position the drain reached completes the crypt
        of the whole input, from where the call started. */
    method CryptRest(input: array<bv8>, inOff: nat, inlen: nat, out: array<bv8>, outOff: nat, j: nat,
                     ghost data: seq<bv8>, ghost c0: Cursor, ghost pos0: nat, ghost out0: seq<bv8>)
      requires Valid() && unused == 0 && j < inlen
      requires c0.Valid() && At() == c0.Advance(j) && pos0 + j == Position()
      requires inOff + inlen <= input.Length && outOff + inlen <= out.Length == |out0|
      requires |data| == inlen && forall i :: 0 <= i < inlen - j ==> input[inOff + j + i] == data[j..][i]
      requires input != block && out != block
      requires input == out ==> inOff == outOff
      requires out[..] == Patch(out0, outOff, KeystreamXor(gen, pos0, data[..j]))
      modifies this`blocksGenerated, this`unused, block, out
      ensures Valid()
      ensures At() == c0.Advance(inlen)
      ensures out[..] == Patch(out0, outOff, KeystreamXor(gen, pos0, data))
    {
      ghost var c1 := At();
      ghost var out1 := out[..];
      ghost var pos1 := Position();
      CryptBlocks(input, inOff + j, inlen - j, out, outOff + j, data[j..]);
      AdvanceTwice(c0, c1, At(), j, inlen);
      DrainThenBlocks(gen, pos0, pos1, data, j, out0, out1, out[..], outOff);
    }

    /** The drain when the held-back keystream does not cover the input: use
        all of it, leaving the rest of the input in place for the loop. */
    method DrainLeftover(input: array<bv8>, inOff: nat, inlen: nat, out: array<bv8>, outOff: nat, ghost data: seq<bv8>)
      returns (j: nat)
      requires Valid() && 0 < unused < inlen
      requires inOff + inlen <= input.Length && outOff + inlen <= out.Length
      requires |data| == inlen && forall i :: 0 <= i < inlen ==> input[inOff + i] == data[i]
      requires out != block
      requires input == out ==> inOff == outOff
      modifies this`unused, out
      ensures j == old(unused) && unused == 0 && Valid()
      ensures At() == old(At()).Advance(j)
      ensures Position() == old(Position()) + j
      ensures out[..] == Patch(old(out[..]), outOff, KeystreamXor(gen, old(Position()), data[..j]))
      ensures forall i :: 0 <= i < inlen - j ==> input[inOff + j + i] == data[j..][i]
    {
      j := unused;
      Drain(input, inOff, out, outOff, j, data[..j]);
      assert forall i :: 0 <= i < inlen - j ==> input[inOff + j + i] == data[j..][i];
    }
  }

  /** XOR n bytes of input from inStart with key[0..n], into out from
      outStart; input and out may be one buffer at one offset.  data and pad
      name the input bytes and the key bytes. */
  method XorInto(input: array<bv8>, inStart: nat, key: array<bv8>, out: array<bv8>, outStart: nat, n: nat,
                 ghost data: seq<bv8>, ghost pad: seq<bv8>)
    requires n <= key.Length && inStart + n <= input.Length && outStart + n <= out.Length
    requires |data| == n == |pad|
    requires forall i :: 0 <= i < n ==> input[inStart + i] == data[i]
    requires forall i :: 0 <= i < n ==> key[i] == pad[i]
    requires key != out
    requires input == out ==> inStart == outStart
    modifies out
    ensures out[..] == Patch(old(out[..]), outStart, Xor(data, pad))
    ensures forall k :: 0 <= k < out.Length && !(outStart <= k < outStart + n) ==> out[k] == old(out[k])
  {
    ghost var out0 := out[..];
    for i := 0 to n
      invariant forall j :: i <= j < n ==> input[inStart + j] == data[j]
      invariant forall k :: outStart <= k < outStart + i ==> out[k] == data[k - outStart] ^ pad[k - outStart]
      invariant forall k :: 0 <= k < out.Length && !(outStart <= k < outStart + i) ==> out[k] == out0[k]
    {
      out[outStart + i] := input[inStart + i] ^ key[i];
    }
    PatchByBytes(out0, out[..], outStart, Xor(data, pad));
  }

  /** One step of the loop of rabbit_crypt, on the buffer's contents: with
      the first `done` bytes crypted, XOR-ing the next n bytes with block b
      (which starts at the stream position reached) crypts `done + n` bytes. */
  lemma BlockStep(gen: Generator, pos0: nat, data: seq<bv8>, done: nat, n: nat, b: nat,
                  out0: seq<bv8>, before: seq<bv8>, after: seq<bv8>, off: nat)
    requires pos0 + done == 16 * b && n <= 16 && done + n <= |data|
    requires off + |data| <= |out0|
    requires before == Patch(out0, off, KeystreamXor(gen, pos0, data[..done]))
    requires after == Patch(before, off + done, Xor(data[done..done + n], gen(b)[..n]))
    ensures after == Patch(out0, off, KeystreamXor(gen, pos0, data[..done + n]))
  {
    var piece := data[done..done + n];
    var p1 := KeystreamXor(gen, pos0, data[..done]);
    var p2 := Xor(piece, gen(b)[..n]);
    assert p2 == KeystreamXor(gen, pos0 + done, piece) by {
      KeystreamBytesOfBlock(gen, b, n);
    }
    assert KeystreamXor(gen, pos0, data[..done + n]) == p1 + p2 by {
      assert data[..done + n][..done] == data[..done] && data[..done + n][done..] == piece;
      KeystreamXorSplit(gen, pos0, data[..done + n], done);
    }
    PatchPatch(out0, off, p1, p2);
  }

  /** The two phases of rabbit_crypt, on the buffer's contents: draining j
      bytes and then crypting the rest from the position reached crypts the
      whole input. */
  lemma DrainThenBlocks(gen: Generator, pos0: nat, pos1: nat, data: seq<bv8>, j: nat,
                        out0: seq<bv8>, out1: seq<bv8>, out2: seq<bv8>, off: nat)
    requires j <= |data| && off + |data| <= |out0| && pos1 == pos0 + j
    requires out1 == Patch(out0, off, KeystreamXor(gen, pos0, data[..j]))
    requires out2 == Patch(out1, off + j, KeystreamXor(gen, pos1, data[j..]))
    ensures out2 == Patch(out0, off, KeystreamXor(gen, pos0, data))
  {
    KeystreamXorSplit(gen, pos0, data, j);
    PatchPatch(out0, off, KeystreamXor(gen, pos0, data[..j]), KeystreamXor(gen, pos1, data[j..]));
  }

  /** rabbit_crypt: crypt inlen bytes of input, from offset inOff, into out
      from offset outOff, continuing the keystream of st.  An empty input
      succeeds at once, before any argument is looked at; otherwise a
      missing state or buffer is an invalid argument and nothing changes. */
  method RabbitCrypt(st: RabbitState?, input: array?<bv8>, inOff: nat, inlen: nat, out: array?<bv8>, outOff: nat)
    returns (status: Status)
    requires st != null ==> st.Valid()
    requires input != null ==> inOff + inlen <= input.Length
    requires out != null ==> outOff + inlen <= out.Length
    requires st != null && input != null ==> input != st.block
    requires st != null && out != null ==> out != st.block
    requires input != null && input == out ==> inOff == outOff
    modifies st, (if st != null then {st.block} else {}), out
    ensures status == CryptOk <==> inlen == 0 || (st != null && input != null && out != null)
    ensures (inlen == 0 || status == InvalidArg) && st != null ==>
              unchanged(st) && unchanged(st.block)
    ensures (inlen == 0 || status == InvalidArg) && out != null ==> unchanged(out)
    ensures inlen > 0 && status == CryptOk ==>
              st != null && input != null && out != null &&
              st.Valid() &&
              st.At() == old(st.At()).Advance(inlen) &&
              out[..] == Patch(old(out[..]), outOff, Crypt(st.gen, old(st.Position()), old(input[inOff..inOff + inlen])))
  {
    if inlen == 0 {
      return CryptOk;
    }
    if st == null || input == null || out == null {
      return InvalidArg;
    }
    ghost var pos := st.Position();
    ghost var data := input[inOff..inOff + inlen];
    st.CryptBytes(input, inOff, inlen, out, outOff);
    CryptIsXor(st.gen, pos, data);
    status := CryptOk;
  }
}
