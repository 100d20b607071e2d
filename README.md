# ChaCha20 stream cipher (src/chacha.rs) in Dafny

This project models `src/chacha.rs`, a ChaCha20 implementation that follows
RFC 8439. It covers both halves of that file:

- **The block function.** `chacha_round` builds the 16-word state from four
  constants, the key, the block counter and the nonce. It runs ten double
  rounds (`inner_round`, made of eight `quarter_round` calls) on the state in
  place. It then adds the saved initial state back word by word with
  `add_states` and writes the 16 words out little-endian as a 64-byte block.
- **The stream driver.** `encrypt` checks the lengths of key, nonce and
  buffers. It then walks the input in 64-byte chunks. For each chunk it makes
  one keystream block and XORs it into the output chunk with `xor_bytes`, then
  increments the counter.

The project has four files:

- `words.dfy` (module `Words`): `u8` and `u32` as bounded integers (`Byte`,
  `Word`), and the three word operations:
  - `wrapping_add`, as addition modulo 2^32;
  - `^`, as a bit-by-bit exclusive-or on naturals;
  - `rotate_left`, as repeated one-bit rotation.

  Each operation has an inverse with a proof that it undoes the operation.
- `le.dfy` (module `LittleEndian`): the little-endian packing that the
  source delegates to the `byteorder` crate, with both round trips.
- `rfc8439.dfy` (module `Rfc8439`): the reference definitions, as pure
  functions on sequences. It defines the quarter round, the double round, the
  initial state, the block function and the XOR stream, and proves the
  properties of each.
- `chacha.dfy` (module `ChaCha`): the source's functions as imperative
  methods. The state is a `Word` array updated in place, and the keystream
  and output buffers are `Byte` arrays written element by element. Each
  method's postcondition ties the contents of the arrays it writes to a
  reference function of `Rfc8439` or `LittleEndian` (`ReadU32Into` and
  `WriteU32Into`), or, in `NextBlock` and `Chunk`, to the stream's block
  function, which their preconditions tie to `Rfc8439.Chacha20Block`. The
  one exception is `Stream`: it says
  nothing about `keyStream`, which is a scratch buffer local to `encrypt` in
  the source.

Points where the model differs in form from the source:

- Rust slices passed to helpers become an array with a window: `xor_bytes`
  receives the output chunk as `(output, lo, hi)`, and `read_u32_into`
  receives `state[4..12]` and `state[13..16]` the same way.
- Read-only borrows (`key`, `nonce`, `input`, the `working_state` copy, the
  source of `write_u32_into`) are sequence values.
- A panic of `encrypt` is the `Panicked` value of its result.
- `chacha_round`'s three phases are separate methods: building the state
  (`InitialState`), the ten-round loop (`DoubleRounds`), and the rest
  (`ChachaRound`).
- `encrypt`'s chunk loop is the method `Stream`, and one pass of it is
  `Chunk`.

## Model

| member | source | states |
|---|---|---|
| Words.WrappingAddCases | src/chacha.rs:7-11 | `wrapping_add` (`WrappingAdd`, defined as `(x + y) % 2^32`) is the plain sum when it fits in 32 bits, and the sum less 2^32 otherwise |
| Words.WrappingAddSub | src/chacha.rs:7-11 | subtracting `y` modulo 2^32 undoes `wrapping_add(y)` |
| Words.XorBits | src/chacha.rs:13-17 | `^` (`Xor`, defined recursively on naturals) works bit by bit: the lowest bit of `x ^ y` is the parity of the two lowest bits, and the rest is `(x / 2) ^ (y / 2)` |
| Words.XorBound | src/chacha.rs:13-17 | the XOR of two n-bit values has at most n bits, so `ByteXor` (`u8 ^ u8`, line 104) is a byte and `WordXor` (`u32 ^ u32`, lines 47-59) is a word |
| Words.XorCancel | src/chacha.rs:13-17 | `(x ^ y) ^ y == x` for all naturals: XOR-ing the same value twice restores the original |
| Words.XorCommutes | src/chacha.rs:102-106 | `x ^ y == y ^ x`, so the order of keystream byte and input byte in `bb ^ cc` does not matter |
| Words.RotateLeftValue | src/chacha.rs:19-23 | `rotate_left(n)` (`RotateLeft`, defined as n one-bit rotations) for n up to 32 is `x << n`, truncated to 32 bits, combined by bitwise or with `x >> (32 - n)`: the low `32 - n` bits move up n places and the top n bits come round to the bottom |
| Words.RotateLeftRight | src/chacha.rs:19-23 | rotating right by n and then left by n (`rotate_left`) gives back the word |
| Words.RotateRightLeft | src/chacha.rs:19-23 | rotating left by n (`rotate_left`) and then right by n gives back the word, so rotation loses no bit |
| LittleEndian.ToWord | src/chacha.rs:82-83 | four bytes read as a little-endian word: the least significant byte of the word is `b[0]` and the most significant is `b[3]` |
| LittleEndian.FromWord | src/chacha.rs:93 | a word is written as four bytes, least significant first, and those bytes read back as the word |
| LittleEndian.FromWordToWord | src/chacha.rs:82-83 | four bytes read as a little-endian word and written back give the same four bytes |
| LittleEndian.BytesToWords | src/chacha.rs:82-83 | reading `4k` bytes gives `k` words, and word `i` is the little-endian value of bytes `4i..4i+3` |
| LittleEndian.WordsToBytes | src/chacha.rs:93 | writing `k` words gives `4k` bytes, and bytes `4i..4i+3` are word `i`, least significant first |
| LittleEndian.WordsToBytesAppend | src/chacha.rs:93 | writing `ws + [w]` is writing `ws` followed by the four bytes of `w` |
| LittleEndian.WordsRoundTrip | src/chacha.rs:93 | reading back the bytes written for a list of words gives the words |
| LittleEndian.BytesRoundTrip | src/chacha.rs:82-83 | writing out the words read from a byte string gives the bytes |
| Rfc8439.Step | src/chacha.rs:46-48 | one line of the quarter round on the whole state, in its order: `s[x] += s[y]`, then `s[z] ^= s[x]`, then `s[z] <<<= n`; the state keeps its length |
| Rfc8439.QuarterRound | src/chacha.rs:45-61 | the four lines of `quarter_round` in order, with targets (a, b, d, 16), (c, d, b, 12), (a, b, d, 8) and (c, d, b, 7); the state keeps its 16 words |
| Rfc8439.QuarterRoundOnState | src/chacha.rs:45-61 | on four distinct positions, the twelve in-place updates (add, xor, rotate by 16, 12, 8 and 7) replace exactly those four words by the quarter round of section 2.1 of RFC 8439 |
| Rfc8439.QuarterRoundFrame | src/chacha.rs:45-61 | the quarter round leaves every word other than those at a, b, c and d unchanged |
| Rfc8439.StepInverse | src/chacha.rs:46-48 | one add/xor/rotate line is undone by rotating back, XOR-ing again and subtracting |
| Rfc8439.QuarterRoundInverse | src/chacha.rs:45-61 | on four distinct positions the quarter round is a permutation of the state: `InverseQuarterRound` undoes it |
| Rfc8439.InnerBlock | src/chacha.rs:63-72 | one double round: the quarter rounds listed in `DoubleRound`, applied one after another to a 16-word state |
| Rfc8439.InnerBlockOrder | src/chacha.rs:63-72 | a double round is the column quarter rounds (0,4,8,12) to (3,7,11,15), followed by the diagonal ones (0,5,10,15), (1,6,11,12), (2,7,8,13) and (3,4,9,14), in this order |
| Rfc8439.InnerBlocks | src/chacha.rs:87-89 | n double rounds applied one after another; the state keeps its 16 words |
| Rfc8439.InitState | src/chacha.rs:75-83 | the initial state: the four constants, the eight key words, the counter, the three nonce words, 16 words in all |
| Rfc8439.InitStateSteps | src/chacha.rs:75-83 | the array literal with the constants and the counter, with key words written over positions 4-11 and nonce words over 13-15, is the initial state |
| Rfc8439.InitStateLayout | src/chacha.rs:75-83 | words 0-3 are the constants, word 4+i is key bytes 4i..4i+3 read little-endian, word 12 is the counter, word 13+i is nonce bytes 4i..4i+3 read little-endian; key and nonce can be recovered from the state |
| Rfc8439.AddWords | src/chacha.rs:96-100 | the result has the length of its operands, and word k is `a[k] + b[k]` modulo 2^32 |
| Rfc8439.Chacha20Block | src/chacha.rs:74-94 | the block for one counter: ten double rounds of the initial state, added word by word to the initial state, written out little-endian; it is 64 bytes long |
| Rfc8439.BlockWords | src/chacha.rs:85-93 | bytes `4i..4i+3` of the block are word i of the ten-round state plus word i of the initial state, modulo 2^32, least significant byte first |
| Rfc8439.XorSeq | src/chacha.rs:102-106 | the result is as long as the shorter operand, and byte k is the XOR of the two k-th bytes |
| Rfc8439.XorCancels | src/chacha.rs:102-106 | XOR-ing a chunk twice with the same keystream bytes gives back the chunk |
| Rfc8439.BlockCounter | src/chacha.rs:41 | the counter after j chunks, defined as j increments modulo 2^32, is `start + j` modulo 2^32 |
| Rfc8439.BlockCounterNext | src/chacha.rs:41 | starting one chunk later is the same as going one chunk further |
| Rfc8439.XorStream | src/chacha.rs:36-42 | the chunk loop with the block function as a parameter: the first `min(64, remaining)` bytes XOR-ed with the leading bytes of the block for the counter, then the rest from the next counter; the output is as long as the input |
| Rfc8439.XorStreamAt | src/chacha.rs:36-42 | output byte i is input byte i XOR byte `i % 64` of the block for the counter of chunk `i / 64`; a short last chunk uses the leading bytes of its block |
| Rfc8439.XorStreamByte | src/chacha.rs:36-42 | output byte i is input byte i XOR byte `i % 64` of the block for counter `(start + i / 64) % 2^32` |
| Rfc8439.XorStreamInvolution | src/chacha.rs:36-42 | running the stream over its own output with the same blocks and counter gives back the input |
| Rfc8439.Chacha20Encrypt | src/chacha.rs:26-43 | the ciphertext is exactly as long as the plaintext |
| Rfc8439.Chacha20EncryptByte | src/chacha.rs:26-43 | ciphertext byte i is plaintext byte i XOR byte `i % 64` of `chacha20_block(key, nonce, (start + i / 64) % 2^32)` |
| Rfc8439.Chacha20EncryptInvolution | src/chacha.rs:26-43 | encryption is its own inverse: encrypting the ciphertext with the same key, nonce and counter gives back the plaintext |
| ChaCha.QuarterRound | src/chacha.rs:45-61 | the array afterwards is the reference quarter round of the array before |
| ChaCha.InnerRound | src/chacha.rs:63-72 | the array afterwards is one double round of the array before |
| ChaCha.AddStates | src/chacha.rs:96-100 | `a` afterwards is the word-by-word sum modulo 2^32 of `a` before and `b`; nothing else changes |
| ChaCha.ReadU32Into | src/chacha.rs:82-83 | positions lo..hi receive the little-endian words of the bytes, and the rest of the array is unchanged |
| ChaCha.WriteU32Into | src/chacha.rs:93 | the byte buffer afterwards is the little-endian serialisation of the words |
| ChaCha.InitialState | src/chacha.rs:75-83 | a fresh array holding the initial state for key, nonce and counter |
| ChaCha.DoubleRounds | src/chacha.rs:87-89 | the array afterwards is ten double rounds of the array before |
| ChaCha.ChachaRound | src/chacha.rs:74-94 | the 64-byte buffer afterwards holds the ChaCha20 block for key, nonce and counter |
| ChaCha.XorBytes | src/chacha.rs:102-106 | for n the length of the shortest of the window, `b` and `c`, the first n bytes of the window become `b[k] ^ c[k]`, and every other byte is unchanged |
| ChaCha.NextBlock | src/chacha.rs:37 | the keystream buffer afterwards holds the stream's block for the current counter |
| ChaCha.Chunk | src/chacha.rs:36-41 | one pass consumes `min(64, remaining)` bytes. The output so far, followed by the stream from the next counter, equals the output before, followed by the stream from this counter. The output after the chunk is unchanged, and the keystream buffer holds the block for this counter |
| ChaCha.Stream | src/chacha.rs:34-42 | after the chunk loop the output is the XOR stream of the input from the starting counter |
| ChaCha.Encrypt | src/chacha.rs:26-43 | the key check, then the nonce check, then the buffer check decide which panic happens, and on a panic the output is unchanged; otherwise the output is the ChaCha20 encryption of the input |

## Left out

- Integer widths: `u8` and `u32` are integers restricted to their ranges, not bit-vectors. The three operations are defined arithmetically: modulo 2^32, bit by bit, and one bit at a time.
- Rfc8439.BlockCounter: models `block_count += 1` (src/chacha.rs:41) as wrap-around modulo 2^32. This is its behaviour in a release build. A debug build instead panics when the counter is `u32::MAX` at the end of a chunk, even the last chunk. That panic is not modelled.
- Memory safety and aliasing of the Rust borrows are not modelled. The methods require the output and keystream buffers to be distinct arrays.
- The `byteorder` and `itertools` crates are modelled by their behaviour, not their code: little-endian packing, and a loop bounded by the shortest operand.
- Cryptographic properties are out of scope: key and nonce uniqueness, diffusion, side channels and keystream reuse.
- The test vectors of RFC 8439 section 2.3.2 and 2.4.2 are not evaluated: running 960 word operations symbolically is beyond what the verifier does in reasonable time.
- The empty-input case has no separate clause. With no input the output buffer is empty, so `ChaCha.Encrypt`'s postcondition already states that nothing was written.
