/** The ChaCha20 implementation of src/chacha.rs as imperative code: the
    16-word state is an array updated in place, the keystream block and the
    output are byte arrays written element by element. Every method is
    proved against the reference definitions of modules Rfc8439 and
    LittleEndian. */
module ChaCha {
  import opened Words
  import opened LittleEndian
  import R = Rfc8439

  // ---------------------------------------------------------------------------
  // Block function
  // ---------------------------------------------------------------------------

  /** quarter_round: the twelve in-place updates of section 2.1 on the words
      at positions a, b, c and d. */
  method QuarterRound(state: array<Word>, a: nat, b: nat, c: nat, d: nat)
    requires state.Length == 16 && a < 16 && b < 16 && c < 16 && d < 16
    modifies state
    ensures state[..] == R.QuarterRound(old(state[..]), a, b, c, d)
  {
    ghost var s0 := state[..];
    state[a] := WrappingAdd(state[a], state[b]);
    state[d] := WordXor(state[d], state[a]);
    state[d] := RotateLeft(state[d], 16);
    assert state[..] == R.Step(s0, a, b, d, 16);
    ghost var s1 := state[..];

    state[c] := WrappingAdd(state[c], state[d]);
    state[b] := WordXor(state[b], state[c]);
    state[b] := RotateLeft(state[b], 12);
    assert state[..] == R.Step(s1, c, d, b, 12);
    ghost var s2 := state[..];

    state[a] := WrappingAdd(state[a], state[b]);
    state[d] := WordXor(state[d], state[a]);
    state[d] := RotateLeft(state[d], 8);
    assert state[..] == R.Step(s2, a, b, d, 8);
    ghost var s3 := state[..];

    state[c] := WrappingAdd(state[c], state[d]);
    state[b] := WordXor(state[b], state[c]);
    state[b] := RotateLeft(state[b], 7);
    assert state[..] == R.Step(s3, c, d, b, 7);
  }

  /** inner_round: the four column quarter rounds, then the four diagonal ones. */
  method InnerRound(state: array<Word>)
    requires state.Length == 16
    modifies state
    ensures state[..] == R.InnerBlock(old(state[..]))
  {
    R.InnerBlockOrder(state[..]);
    QuarterRound(state, 0, 4, 8, 12);
    QuarterRound(state, 1, 5, 9, 13);
    QuarterRound(state, 2, 6, 10, 14);
    QuarterRound(state, 3, 7, 11, 15);
    QuarterRound(state, 0, 5, 10, 15);
    QuarterRound(state, 1, 6, 11, 12);
    QuarterRound(state, 2, 7, 8, 13);
    QuarterRound(state, 3, 4, 9, 14);
  }

  /** add_states: a[k] := a[k] + b[k] modulo 2^32 for every position. */
  method AddStates(a: array<Word>, b: seq<Word>)
    requires a.Length == 16 && |b| == 16
    modifies a
    ensures a[..] == R.AddWords(old(a[..]), b)
  {
    ghost var a0 := a[..];
    for k := 0 to 16
      invariant forall j :: 0 <= j < k ==> a[j] == WrappingAdd(a0[j], b[j])
      invariant a[k..] == a0[k..]
    {
      a[k] := WrappingAdd(a[k], b[k]);
    }
  }

  /** LittleEndian::read_u32_into: fills dst[lo..hi] with the words of src
      read little-endian; the rest of dst is untouched. */
  method ReadU32Into(src: seq<Byte>, dst: array<Word>, lo: nat, hi: nat)
    requires lo <= hi <= dst.Length && |src| == 4 * (hi - lo)
    modifies dst
    ensures dst[..] == old(dst[..lo]) + BytesToWords(src) + old(dst[hi..])
  {
    ghost var d0 := dst[..];
    ghost var ws := BytesToWords(src);
    for i := lo to hi
      invariant dst[..lo] == d0[..lo] && dst[i..] == d0[i..]
      invariant dst[lo..i] == ws[..i - lo]
    {
      dst[i] := ToWord(src[4 * (i - lo) .. 4 * (i - lo) + 4]);
      assert dst[lo..i + 1] == dst[lo..i] + [dst[i]];
    }
    assert dst[..] == dst[..lo] + dst[lo..hi] + dst[hi..];
  }

  /** LittleEndian::write_u32_into: writes the words of src to dst, each
      least significant byte first. */
  method WriteU32Into(src: seq<Word>, dst: array<Byte>)
    requires dst.Length == 4 * |src|
    modifies dst
    ensures dst[..] == WordsToBytes(src)
  {
    for i := 0 to |src|
      invariant dst[..4 * i] == WordsToBytes(src[..i])
    {
      var bytes := FromWord(src[i]);
      dst[4 * i] := bytes[0];
      dst[4 * i + 1] := bytes[1];
      dst[4 * i + 2] := bytes[2];
      dst[4 * i + 3] := bytes[3];
      WriteStep(src, i, dst[..4 * i], bytes, dst[..4 * (i + 1)]);
    }
    assert dst[..] == dst[..4 * |src|] && src == src[..|src|];
  }

  /** One pass of the loop of write_u32_into: four more bytes written. */
  lemma WriteStep(src: seq<Word>, i: nat, written: seq<Byte>, bytes: seq<Byte>, now: seq<Byte>)
    requires i < |src| && written == WordsToBytes(src[..i]) && bytes == FromWord(src[i])
    requires now == written + bytes
    ensures now == WordsToBytes(src[..i + 1])
  {
    assert src[..i + 1] == src[..i] + [src[i]];
    WordsToBytesAppend(src[..i], src[i]);
  }

  /** The state chacha_round starts from: the constants, then key and nonce
      read little-endian around the block counter. */
  method InitialState(key: seq<Byte>, nonce: seq<Byte>, blockCount: Word) returns (state: array<Word>)
    requires |key| == 32 && |nonce| == 12
    ensures fresh(state) && state[..] == R.InitState(key, nonce, blockCount)
  {
    state := new Word[] [
      0x61707865, 0x3320646e, 0x79622d32, 0x6b206574,
      0, 0, 0, 0, 0, 0, 0, 0,
      blockCount,
      0, 0, 0];
    ghost var s0 := state[..];
    ReadU32Into(key, state, 4, 12);
    ghost var s1 := state[..];
    ReadU32Into(nonce, state, 13, 16);
    R.InitStateSteps(key, nonce, blockCount, s0, s1, state[..]);
  }

  /** The ten double rounds of chacha_round, in place. */
  method DoubleRounds(state: array<Word>)
    requires state.Length == 16
    modifies state
    ensures state[..] == R.InnerBlocks(old(state[..]), 10)
  {
    ghost var s0 := state[..];
    for i := 0 to 10
      invariant state[..] == R.InnerBlocks(s0, i)
    {
      InnerRound(state);
    }
  }

  /** chacha_round: builds the initial state, runs ten double rounds on it,
      adds the saved initial state back and writes the result out
      little-endian as the 64-byte keystream block. */
  method ChachaRound(key: seq<Byte>, nonce: seq<Byte>, blockCount: Word, keyStream: array<Byte>)
    requires |key| == 32 && |nonce| == 12 && keyStream.Length == 64
    modifies keyStream
    ensures keyStream[..] == R.Chacha20Block(key, nonce, blockCount)
  {
    var state := InitialState(key, nonce, blockCount);
    var workingState := state[..];
    DoubleRounds(state);
    ghost var rounds := state[..];
    AddStates(state, workingState);
    ghost var sum := state[..];
    WriteU32Into(state[..], keyStream);
    R.BlockSteps(key, nonce, blockCount, workingState, rounds, sum, keyStream[..]);
  }

  // ---------------------------------------------------------------------------
  // Stream driver
  // ---------------------------------------------------------------------------

  /** xor_bytes: a[lo + k] := b[k] ^ c[k] for every k below the length of the
      shortest of the window a[lo..hi], b and c; the rest of a is untouched. */
  method XorBytes(a: array<Byte>, lo: nat, hi: nat, b: array<Byte>, c: seq<Byte>)
    requires lo <= hi <= a.Length && a != b
    modifies a
    ensures var n := R.Min(hi - lo, R.Min(b.Length, |c|));
      a[..] == old(a[..lo]) + R.XorSeq(b[..n], c[..n]) + old(a[lo + n..])
  {
    var n := R.Min(hi - lo, R.Min(b.Length, |c|));
    ghost var a0 := a[..];
    for k := 0 to n
      invariant a[..] == a0[..lo] + R.XorSeq(b[..k], c[..k]) + a0[lo + k..]
    {
      ghost var before := a[..];
      a[lo + k] := ByteXor(b[k], c[k]);
      XorStep(a0, lo, k, b[..], c, before, a[..]);
    }
  }

  /** One pass of the loop of xor_bytes: the window written so far grows by
      one byte. */
  lemma XorStep(a0: seq<Byte>, lo: nat, k: nat, b: seq<Byte>, c: seq<Byte>, before: seq<Byte>, after: seq<Byte>)
    requires lo + k < |a0| && k < |b| && k < |c|
    requires before == a0[..lo] + R.XorSeq(b[..k], c[..k]) + a0[lo + k..]
    requires after == before[lo + k := ByteXor(b[k], c[k])]
    ensures after == a0[..lo] + R.XorSeq(b[..k + 1], c[..k + 1]) + a0[lo + k + 1..]
  {
    var x := R.XorSeq(b[..k + 1], c[..k + 1]);
    assert x == R.XorSeq(b[..k], c[..k]) + [ByteXor(b[k], c[k])];
  }

  /** Why encrypt panics: one of its three length assertions fails. */
  datatype Panic = KeyLength | NonceLength | BufferLengths

  /** How a call of encrypt ends. */
  datatype Outcome = Completed | Panicked(reason: Panic)

  /** encrypt: checks the lengths of key, nonce and buffers (a failed check
      panics before any output byte is written), then combines each 64-byte
      chunk of the input with a fresh keystream block, incrementing the
      counter after every chunk. */
  method Encrypt(key: seq<Byte>, nonce: seq<Byte>, blockCount: Word, input: seq<Byte>, output: array<Byte>)
    returns (outcome: Outcome)
    modifies output
    ensures outcome == if |key| != 32 then Panicked(KeyLength)
                       else if |nonce| != 12 then Panicked(NonceLength)
                       else if |input| != output.Length then Panicked(BufferLengths)
                       else Completed
    ensures outcome.Panicked? ==> output[..] == old(output[..])
    ensures outcome.Completed? ==> output[..] == R.Chacha20Encrypt(key, nonce, blockCount, input)
  {
    if |key| != 32 {
      return Panicked(KeyLength);
    }
    if |nonce| != 12 {
      return Panicked(NonceLength);
    }
    if |input| != output.Length {
      return Panicked(BufferLengths);
    }

    var keyStream := new Byte[64](_ => 0);
    ghost var block := R.BlockFunction(key, nonce);
    Stream(key, nonce, blockCount, input, output, keyStream, block);
    return Completed;
  }

  /** The chunk loop of encrypt, after its length checks have passed. */
  method Stream(key: seq<Byte>, nonce: seq<Byte>, blockCount: Word, input: seq<Byte>,
                output: array<Byte>, keyStream: array<Byte>, ghost block: Word -> seq<Byte>)
    requires |key| == 32 && |nonce| == 12 && |input| == output.Length
    requires keyStream.Length == 64 && output != keyStream
    requires forall c :: |block(c)| == 64
    requires forall c {:trigger R.Chacha20Block(key, nonce, c)} :: block(c) == R.Chacha20Block(key, nonce, c)
    modifies output, keyStream
    ensures output[..] == R.XorStream(block, blockCount, input)
  {
    var counter := blockCount;
    var pos := 0;
    while pos < |input|
      invariant pos <= |input|
      invariant output[..pos] + R.XorStream(block, counter, input[pos..]) == R.XorStream(block, blockCount, input)
      decreases |input| - pos
    {
      var n := Chunk(key, nonce, counter, input, pos, output, keyStream, block);
      counter := WrappingAdd(counter, 1);
      pos := pos + n;
    }
    assert output[..] == output[..pos];
  }

  /** chacha_round as the chunk loop sees it: the keystream block it writes
      is the value of the stream's block function at the counter. */
  method NextBlock(key: seq<Byte>, nonce: seq<Byte>, counter: Word, keyStream: array<Byte>,
                   ghost block: Word -> seq<Byte>)
    requires |key| == 32 && |nonce| == 12 && keyStream.Length == 64
    requires forall c {:trigger R.Chacha20Block(key, nonce, c)} :: block(c) == R.Chacha20Block(key, nonce, c)
    modifies keyStream
    ensures keyStream[..] == block(counter)
  {
    ChachaRound(key, nonce, counter, keyStream);
  }

  /** One pass of the chunk loop: the keystream block for the counter, then
      the exclusive-or of the next chunk of at most 64 bytes. */
  method Chunk(key: seq<Byte>, nonce: seq<Byte>, counter: Word, input: seq<Byte>, pos: nat,
               output: array<Byte>, keyStream: array<Byte>, ghost block: Word -> seq<Byte>) returns (n: nat)
    requires |key| == 32 && |nonce| == 12 && pos < |input| == output.Length
    requires keyStream.Length == 64 && output != keyStream
    requires forall c :: |block(c)| == 64
    requires forall c {:trigger R.Chacha20Block(key, nonce, c)} :: block(c) == R.Chacha20Block(key, nonce, c)
    modifies output, keyStream
    ensures n == R.Min(64, |input| - pos)
    ensures output[..pos + n] + R.XorStream(block, WrappingAdd(counter, 1), input[pos + n..])
         == old(output[..pos]) + R.XorStream(block, counter, input[pos..])
    ensures output[pos + n..] == old(output[pos + n..])
    ensures keyStream[..] == block(counter)
  {
    NextBlock(key, nonce, counter, keyStream, block);
    n := R.Min(64, |input| - pos);
    ghost var before := output[..];
    ghost var ks := keyStream[..];
    XorBytes(output, pos, pos + n, keyStream, input[pos..pos + n]);
    ChunkStep(block, counter, input, pos, n, ks, before, output[..]);
  }

  /** One pass of the chunk loop of encrypt: the chunk just written,
      followed by the stream over the rest of the input from the next
      counter on, is the stream over the input from the current position
      and counter; the output after the chunk is untouched. */
  lemma ChunkStep(block: Word -> seq<Byte>, counter: Word, input: seq<Byte>, pos: nat, n: nat,
                  keyStream: seq<Byte>, before: seq<Byte>, after: seq<Byte>)
    requires forall c :: |block(c)| == 64
    requires pos < |input| == |before| && n == R.Min(64, |input| - pos) && keyStream == block(counter)
    requires var m := R.Min(pos + n - pos, R.Min(|keyStream|, |input[pos..pos + n]|));
      after == before[..pos] + R.XorSeq(keyStream[..m], input[pos..pos + n][..m]) + before[pos + m..]
    ensures after[..pos + n] + R.XorStream(block, WrappingAdd(counter, 1), input[pos + n..])
         == before[..pos] + R.XorStream(block, counter, input[pos..])
    ensures after[pos + n..] == before[pos + n..]
  {
    Written(input, pos, n, keyStream, before, after);
    Unfold(block, counter, input, pos, n);
    Assoc(before[..pos], R.XorSeq(keyStream[..n], input[pos..pos + n]), R.XorStream(block, WrappingAdd(counter, 1), input[pos + n..]));
  }

  /** The bytes of the output up to the end of the chunk after xor_bytes,
      and the bytes after it. */
  lemma Written(input: seq<Byte>, pos: nat, n: nat, keyStream: seq<Byte>, before: seq<Byte>, after: seq<Byte>)
    requires pos < |input| == |before| && n == R.Min(64, |input| - pos) && |keyStream| == 64
    requires var m := R.Min(pos + n - pos, R.Min(|keyStream|, |input[pos..pos + n]|));
      after == before[..pos] + R.XorSeq(keyStream[..m], input[pos..pos + n][..m]) + before[pos + m..]
    ensures after[..pos + n] == before[..pos] + R.XorSeq(keyStream[..n], input[pos..pos + n])
    ensures after[pos + n..] == before[pos + n..]
  {
    assert input[pos..pos + n][..n] == input[pos..pos + n];
    Splice(before[..pos], R.XorSeq(keyStream[..n], input[pos..pos + n]), before[pos + n..], after);
  }

  /** Rfc8439.XorStreamUnfold at position pos of the input. */
  lemma Unfold(block: Word -> seq<Byte>, counter: Word, input: seq<Byte>, pos: nat, n: nat)
    requires forall c :: |block(c)| == 64
    requires pos < |input| && n == R.Min(64, |input| - pos)
    ensures R.XorStream(block, counter, input[pos..])
         == R.XorSeq(block(counter)[..n], input[pos..pos + n]) + R.XorStream(block, WrappingAdd(counter, 1), input[pos + n..])
  {
    R.XorStreamUnfold(block, counter, input[pos..]);
    assert input[pos..][..n] == input[pos..pos + n] && input[pos..][n..] == input[pos + n..];
  }

  lemma Assoc(a: seq<Byte>, b: seq<Byte>, c: seq<Byte>)
    ensures (a + b) + c == a + (b + c)
  {
  }

  /** The parts of a + x + b, read back by position. */
  lemma Splice(a: seq<Byte>, x: seq<Byte>, b: seq<Byte>, s: seq<Byte>)
    requires s == a + x + b
    ensures s[..|a| + |x|] == a + x && s[|a| + |x|..] == b
  {
  }
}
