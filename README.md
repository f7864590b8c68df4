# The Rabbit crypt step of LibTomCrypt, in Dafny

This project models `rabbit_crypt`, the encrypt/decrypt entry point of LibTomCrypt's Rabbit stream cipher, and proves what it computes. Rabbit (RFC 4503) encrypts by XORing the plaintext with a keystream, and decrypts the same way. The keystream comes from a generator in 16-byte blocks. `rabbit_crypt` may be called any number of times, on any number of bytes each time. To make that work it keeps the unused tail of the last block in `st->block`, with `st->unused` counting those bytes, and uses them first on the next call.

The model has four modules:

- `Bytes`: byte-wise XOR, and `Patch(s, off, piece)`, a buffer `s` with `piece` written over it from `off` on. Every contract about an output buffer says that the new buffer is the old one patched, so it also says that no byte outside the written range changes.
- `Keystream`: the generator as a function `gen: nat -> Block`, where `gen(n)` is the block of the n-th call. It defines stream byte `p` as byte `p % 16` of block `p / 16`. It gives the reference definition `Crypt(gen, pos, data)`: data XOR the keystream from stream position `pos`, byte by byte, by recursion. `Cursor(blocks, unused)` is the state's bookkeeping, and `Cursor.Advance(n)` says what happens to it when `n` bytes are crypted.
- `Rabbit`: the class `RabbitState`, which holds `gen`, the number of blocks generated so far, `block` (an `array<bv8>` of 16) and `unused`. Its invariant `Valid()` says that the live tail `block[16-unused..16]` is the tail of the last generated block. `RabbitCrypt` is the function itself. `in` and `out` are nullable arrays with offsets, and the loops are methods with loop invariants.
- `RabbitUsage`: two clients that crypt with fresh states. One checks that one call and two calls agree; the other decrypts to get the message back.

The source's `for (;;)` loop generates a block and then tests `inlen <= 16`. The model puts the passes that use a whole block in a `while rem > 16` loop (`CryptWholeBlocks`), followed by one last pass (`CryptLastBlock`: `CryptNextBlock` and then `KeepTail`). Both run the same steps in the same order.

## Model

| member | source | states |
|---|---|---|
| Rabbit.RabbitCrypt | src/stream/rabbit/rabbit_crypt.c:74-110 | On an empty input, returns OK and changes nothing, before any argument is checked. On a non-empty input, a null state, input or output is an invalid argument and changes nothing. Otherwise it returns OK, the state stays valid, its bookkeeping is `Advance(inlen)` of the old one, and `out[outOff..outOff+inlen]` becomes `Crypt` of the input from the old stream position, with every other byte of `out` unchanged. |
| Rabbit.RabbitState.CryptBytes | src/stream/rabbit/rabbit_crypt.c:85-109 | The body after the argument checks: the same output and bookkeeping as RabbitCrypt, with input and output allowed to be one buffer at one offset. When the leftover covers the input, `block` is untouched and no block is generated. |
| Rabbit.RabbitState.Drain | src/stream/rabbit/rabbit_crypt.c:85-88 | The first `j` output bytes become the input XOR the held-back keystream, and `unused` drops by exactly `j`. No generator call is made and the state stays valid. |
| Rabbit.RabbitState.DrainLoop | src/stream/rabbit/rabbit_crypt.c:87 | The loop itself. Each of the j steps XORs one input byte with `block[16 - unused]` and decrements `unused`. So output byte i is input byte i XOR the i-th byte of `block[16-unused..]`, `unused` ends j lower, and no byte of `out` outside the j written is touched. |
| Rabbit.RabbitState.DrainLeftover | src/stream/rabbit/rabbit_crypt.c:85-91 | When the input is longer than the leftover: all of the leftover is used, `unused` becomes 0, and the position moves on by exactly the old `unused` bytes. The input bytes past the drained ones are left in place for the loop, even when input and output are one buffer. |
| Rabbit.RabbitState.Leftover | src/stream/rabbit/rabbit_crypt.c:87 | The bytes the drain reads, `block[16-unused..16]`, are exactly the next `unused` keystream bytes from the current stream position. |
| Rabbit.RabbitState.DrainThenCrypt | src/stream/rabbit/rabbit_crypt.c:85-109 | When the leftover does not cover the input: draining it and then crypting the rest from the position reached crypts the whole input, and the bookkeeping composes to `Advance(inlen)`. |
| Rabbit.RabbitState.CryptRest | src/stream/rabbit/rabbit_crypt.c:90-109 | After a drain of j bytes, the loop on the remaining `inlen - j` bytes, with `in` and `out` advanced by j. It completes the crypt of the whole input from the position where the call started, and the bookkeeping `Advance(j)` then `Advance(inlen - j)` is `Advance(inlen)`. |
| Rabbit.RabbitState.CryptBlocks | src/stream/rabbit/rabbit_crypt.c:93-109 | Entered with nothing held back: the output is the crypt of the whole input, `ceil(inlen/16)` blocks are generated (`Advance` from a block boundary), and the state is valid again. |
| Rabbit.RabbitState.CryptWholeBlocks | src/stream/rabbit/rabbit_crypt.c:93-108 | While more than 16 bytes are left, one generator call and 16 crypted bytes per pass. It stops with between 1 and 16 bytes left, after exactly `done/16` generator calls. |
| Rabbit.RabbitState.CryptLastBlock | src/stream/rabbit/rabbit_crypt.c:95-102 | The pass with 1 to 16 bytes left makes one generator call. It crypts those bytes with the front of the block, completing the crypt of the input, and keeps `16 - inlen` bytes of the block as the valid leftover. |
| Rabbit.RabbitState.CryptNextBlock | src/stream/rabbit/rabbit_crypt.c:95-105 | Exactly one generator call. The next `n` output bytes become the input XOR that block's first `n` bytes, which carries the crypted prefix from `done` to `done + n` bytes. |
| Rabbit.RabbitState.KeepTail | src/stream/rabbit/rabbit_crypt.c:99-101 | Sets `unused = 16 - rem`. It copies `buf[rem..16]` into `block` and leaves `block[0..rem]` untouched, so the state is valid again. |
| Rabbit.RabbitState.GenBlock | src/stream/rabbit/rabbit_crypt.c:95 | A call writes the next block of the generator into `buf` and advances the generated-block count by one. |
| Rabbit.RabbitState.constructor | src/stream/rabbit/rabbit_crypt.c:85 | The state after key and IV setup: valid, no block generated, nothing held back. |
| Rabbit.XorInto | src/stream/rabbit/rabbit_crypt.c:98-105 | `out[outStart..outStart+n]` becomes the input bytes XOR the first `n` key bytes, and every other byte of `out` is unchanged. |
| Rabbit.BlockStep | src/stream/rabbit/rabbit_crypt.c:95-108 | XOR-ing the next `n` bytes with the block generated at the position reached extends the crypted prefix, on buffer contents. |
| Rabbit.DrainThenBlocks | src/stream/rabbit/rabbit_crypt.c:88-93 | Draining `j` bytes, moving on by `j`, and crypting the rest from position `pos0 + j` crypts the whole input. |
| Keystream.KeystreamByteInBlock | src/stream/rabbit/rabbit_crypt.c:87-98 | Byte `k` of block `n` is stream byte `16n + k`. |
| Keystream.CryptAt | src/stream/rabbit/rabbit_crypt.c:87-105 | Output byte `k` of the reference crypt is input byte `k` XOR stream byte `pos + k`. |
| Keystream.CryptIsXor | src/stream/rabbit/rabbit_crypt.c:87-105 | The recursive reference crypt equals data XOR the n keystream bytes from `pos`, all at once. |
| Keystream.CryptSlice | src/stream/rabbit/rabbit_crypt.c:90-108 | Any stretch `[i..j]` of a crypt is the crypt of that stretch at position `pos + i`. This is why advancing `in` and `out` is sound. |
| Keystream.CryptAppend | src/stream/rabbit/rabbit_crypt.c:23-25 | Chunking: crypting `a ++ b` from `pos` is crypting `a` from `pos`, then `b` from `pos` plus the length of `a`. |
| Keystream.CryptInvolution | src/stream/rabbit/rabbit_crypt.c:73 | Crypting twice from the same position gives the data back, so one function both encrypts and decrypts. |
| Keystream.Cursor.Advance | src/stream/rabbit/rabbit_crypt.c:85-101 | The bookkeeping after crypting `n` bytes is again valid: at most 16 held back, and none before any block. |
| Keystream.BlocksFor | src/stream/rabbit/rabbit_crypt.c:93-109 | The number of generator calls the loop makes for m bytes is the least number of 16-byte blocks covering them: `16*calls - 16 < m <= 16*calls`. |
| Keystream.AdvancePosition | src/stream/rabbit/rabbit_crypt.c:85-109 | Crypting `n` bytes moves the stream position on by exactly `n`. |
| Keystream.AdvanceLeftover | src/stream/rabbit/rabbit_crypt.c:93-101 | A call that generates blocks generates `ceil((n - unused)/16)` of them and leaves 0 to 15 unused bytes, never 16. |
| Keystream.AdvanceFromBoundary | src/stream/rabbit/rabbit_crypt.c:93-101 | From a block boundary, `n` bytes in the last of `calls` blocks means `calls` generator calls and `16*calls - n` bytes kept. |
| Keystream.AdvanceCompose | src/stream/rabbit/rabbit_crypt.c:23-25 | Chunking for the state: `Advance(a)` then `Advance(b)` is `Advance(a + b)`. |
| Keystream.AdvanceTwice | src/stream/rabbit/rabbit_crypt.c:23-25 | The same for named intermediate states. If c1 is c0 after a of n bytes, and c2 is c1 after the other `n - a`, then c2 is c0 after n. |
| RabbitUsage.CryptOnce | src/stream/rabbit/rabbit_crypt.c:74-110 | One RabbitCrypt call with a fresh state yields `Crypt(gen, 0, data)` and leaves the bookkeeping at `Advance` by the length of `data`. |
| RabbitUsage.CryptTwice | src/stream/rabbit/rabbit_crypt.c:23-25 | Two RabbitCrypt calls on one fresh state, split anywhere, yield the same bytes and the same bookkeeping as one call. |
| RabbitUsage.OneCallOrTwo | src/stream/rabbit/rabbit_crypt.c:23-25 | The outputs and final states of one call and of two calls are equal. |
| RabbitUsage.RoundTrip | src/stream/rabbit/rabbit_crypt.c:73 | Encrypting with one fresh state and decrypting with another gives the message back. |
| RabbitUsage.CryptPart | src/stream/rabbit/rabbit_crypt.c:79-109 | A RabbitCrypt call on a valid state and distinct buffers, the empty input included: the same output and bookkeeping laws. |
| RabbitUsage.SplitPatches | src/stream/rabbit/rabbit_crypt.c:23-25 | On buffer contents, two patched crypts, split at `split`, make the crypt of the whole. |

## Left out

- The generator `_rabbit_gen_1_block`, its next-state and extraction functions, and key and IV setup are defined in `rabbit_common.h` and other files that are not part of this model. The generator is the parameter `gen`; `blocksGenerated` stands for its internal registers. That counter is a real field, because `GenBlock` must produce the bytes of `gen(blocksGenerated)`.
- The note on a wrong eSTREAM test vector (lines 29-32), and the test vectors themselves. Checking them needs the real generator.
- What `LTC_ARGCHK` does on failure is defined elsewhere: the model returns `InvalidArg` and changes nothing.
- The `#ifdef LTC_RABBIT` gating, the licence text and the provenance comments.
- `in` and `out` overlapping other than being one buffer at one offset. Raw pointer arithmetic is modelled as offsets into arrays. Neither buffer may be `st->block` itself.
- `unsigned long` width: `inlen` and the offsets are unbounded naturals. A length near the top of `unsigned long` is not modelled.
- Rabbit.RabbitCrypt: states each output byte's final value, and that bytes outside the range keep theirs. It does not say that each byte is written exactly once.
- Rabbit.RabbitState.CryptBytes: does not state the stale prefix `block[0..16-unused]` after the call. Only the live tail is specified, so two ways of chunking one input end in the same bookkeeping and live tail, but possibly different dead bytes.
- RabbitUsage.CryptTwice, RabbitUsage.OneCallOrTwo: "the same final state" means the same bookkeeping `Cursor(blocks, unused)`. The live tail follows from `Valid()`; the dead prefix of `block` may differ.
