/** Two uses of RabbitCrypt that the model's lemmas predict: crypting a
    message in two calls gives what one call gives, and crypting twice from
    the same setup gives the message back. */
module RabbitUsage {
  import opened Bytes
  import opened Keystream
  import opened Rabbit

  /** A fresh array holding data. */
  method FromSeq(data: seq<bv8>) returns (a: array<bv8>)
    ensures fresh(a) && a[..] == data
  {
    a := new bv8[|data|](i requires 0 <= i < |data| => data[i]);
  }

  /** A successful RabbitCrypt call on a valid state, with the empty call
      folded into the general case: piece names the input bytes and pos the
      stream position before the call. */
  method CryptPart(st: RabbitState, input: array<bv8>, off: nat, len: nat, out: array<bv8>,
                   ghost piece: seq<bv8>, ghost pos: nat)
    requires st.Valid() && input != st.block && out != st.block && input != out
    requires off + len <= input.Length && off + len <= out.Length && input[off..off + len] == piece
    requires st.Position() == pos
    modifies st, st.block, out
    ensures st.Valid()
    ensures st.At() == old(st.At()).Advance(len)
    ensures st.Position() == pos + len
    ensures out[..] == Patch(old(out[..]), off, KeystreamXor(st.gen, pos, piece))
  {
    ghost var out0 := out[..];
    var status := RabbitCrypt(st, input, off, len, out, off);
    AdvancePosition(old(st.At()), len);
    if len == 0 {
      PatchEmpty(out0, off);
    } else {
      CryptIsXor(st.gen, pos, piece);
    }
  }

  /** Crypt data with a fresh state in one call. */
  method CryptOnce(gen: Generator, data: seq<bv8>) returns (r: seq<bv8>, at: Cursor)
    ensures r == Crypt(gen, 0, data)
    ensures at == Cursor(0, 0).Advance(|data|)
  {
    var st := new RabbitState(gen);
    var input := FromSeq(data);
    var out := new bv8[|data|];
    ghost var out0 := out[..];
    assert input[0..|data|] == data;
    CryptPart(st, input, 0, |data|, out, data, 0);
    PatchWhole(out0, KeystreamXor(gen, 0, data));
    CryptIsXor(gen, 0, data);
    r := out[..];
    at := Cursor(st.blocksGenerated, st.unused);
  }

  /** Crypt data with a fresh state in two calls, split at `split`. */
  method CryptTwice(gen: Generator, data: seq<bv8>, split: nat) returns (r: seq<bv8>, at: Cursor)
    requires split <= |data|
    ensures r == Crypt(gen, 0, data)
    ensures at == Cursor(0, 0).Advance(|data|)
  {
    var st := new RabbitState(gen);
    var input := FromSeq(data);
    var out := new bv8[|data|];
    ghost var out0 := out[..];
    assert input[0..split] == data[..split];
    assert input[split..split + (|data| - split)] == data[split..];
    CryptPart(st, input, 0, split, out, data[..split], 0);
    ghost var mid := out[..];
    ghost var c1 := st.At();
    CryptPart(st, input, split, |data| - split, out, data[split..], split);
    r := out[..];
    at := Cursor(st.blocksGenerated, st.unused);
    AdvanceTwice(Cursor(0, 0), c1, at, split, |data|);
    SplitPatches(gen, data, split, out0, mid, r);
    CryptIsXor(gen, 0, data);
  }

  /** The buffer contents after two calls, split at `split`, are the whole
      message XOR the keystream. */
  lemma SplitPatches(gen: Generator, data: seq<bv8>, split: nat, out0: seq<bv8>, mid: seq<bv8>, r: seq<bv8>)
    requires split <= |data| == |out0|
    requires mid == Patch(out0, 0, KeystreamXor(gen, 0, data[..split]))
    requires r == Patch(mid, split, KeystreamXor(gen, split, data[split..]))
    ensures r == KeystreamXor(gen, 0, data)
  {
    var p1 := KeystreamXor(gen, 0, data[..split]);
    var p2 := KeystreamXor(gen, split, data[split..]);
    KeystreamXorSplit(gen, 0, data, split);
    PatchPatch(out0, 0, p1, p2);
    PatchWhole(out0, p1 + p2);
  }

  /** Chunking: one call or two give the same bytes and the same state. */
  method OneCallOrTwo(gen: Generator, data: seq<bv8>, split: nat)
    returns (whole: seq<bv8>, chunked: seq<bv8>, atWhole: Cursor, atChunked: Cursor)
    requires split <= |data|
    ensures whole == chunked && atWhole == atChunked
  {
    whole, atWhole := CryptOnce(gen, data);
    chunked, atChunked := CryptTwice(gen, data, split);
  }

  /** Encrypting with one fresh state and decrypting with another gives the
      message back. */
  method RoundTrip(gen: Generator, data: seq<bv8>) returns (back: seq<bv8>)
    ensures back == data
  {
    var ciphertext, at1 := CryptOnce(gen, data);
    var at2;
    back, at2 := CryptOnce(gen, ciphertext);
    CryptInvolution(gen, 0, data);
  }
}
