/** The ChaCha20 block function and encryption of RFC 8439 (sections 2.1 to
    2.4), written as pure functions over 16-word states and byte strings. The
    imperative model of src/chacha.rs in module ChaCha is proved against these
    definitions. */
module Rfc8439 {
  import opened Words
  import opened LittleEndian

  /** The constant words of state positions 0 to 3 ("expand 32-byte k"). */
  const Sigma: seq<Word> := [0x61707865, 0x3320646e, 0x79622d32, 0x6b206574]

  function Min(x: int, y: int): int { if x <= y then x else y }

  // ---------------------------------------------------------------------------
  // Quarter round (section 2.1 and 2.2)
  // ---------------------------------------------------------------------------

  /** One line of the quarter round on the whole state, in its order:
      s[x] += s[y]; s[z] ^= s[x]; s[z] <<<= n. */
  function Step(s: seq<Word>, x: nat, y: nat, z: nat, n: nat): (r: seq<Word>)
    requires x < |s| && y < |s| && z < |s|
    ensures |r| == |s|
  {
    var s1 := s[x := WrappingAdd(s[x], s[y])];
    var s2 := s1[z := WordXor(s1[z], s1[x])];
    s2[z := RotateLeft(s2[z], n)]
  }

  /** The quarter round on state positions a, b, c, d: its four lines, in order. */
  function QuarterRound(s: seq<Word>, a: nat, b: nat, c: nat, d: nat): (r: seq<Word>)
    requires |s| == 16 && a < 16 && b < 16 && c < 16 && d < 16
    ensures |r| == 16
  {
    Step(Step(Step(Step(s, a, b, d, 16), c, d, b, 12), a, b, d, 8), c, d, b, 7)
  }

  /** One line of the quarter round undone: rotate back, xor again, subtract. */
  function UnStep(s: seq<Word>, x: nat, y: nat, z: nat, n: nat): (r: seq<Word>)
    requires x < |s| && y < |s| && z < |s|
    ensures |r| == |s|
  {
    var s1 := s[z := RotateRight(s[z], n)];
    var s2 := s1[z := WordXor(s1[z], s1[x])];
    s2[x := WrappingSub(s2[x], s2[y])]
  }

  /** A line of the quarter round whose target words differ from its source
      word is undone by UnStep. */
  lemma StepInverse(s: seq<Word>, x: nat, y: nat, z: nat, n: nat)
    requires x < |s| && y < |s| && z < |s| && x != y && x != z
    ensures UnStep(Step(s, x, y, z, n), x, y, z, n) == s
  {
    var s1 := s[x := WrappingAdd(s[x], s[y])];
    var s2 := s1[z := WordXor(s1[z], s1[x])];
    RotateRightLeft(s2[z], n);
    XorCancel(s1[z], s1[x]);
    WrappingAddSub(s[x], s[y]);
    var t2 := s2[z := WordXor(s2[z], s2[x])];
    assert t2 == s1;
  }

  /** The quarter round undone line by line, last line first. */
  function InverseQuarterRound(s: seq<Word>, a: nat, b: nat, c: nat, d: nat): (r: seq<Word>)
    requires |s| == 16 && a < 16 && b < 16 && c < 16 && d < 16
    ensures |r| == 16
  {
    UnStep(UnStep(UnStep(UnStep(s, c, d, b, 7), a, b, d, 8), c, d, b, 12), a, b, d, 16)
  }

  /** On four distinct positions the quarter round is a permutation of the
      state: InverseQuarterRound undoes it. */
  lemma QuarterRoundInverse(s: seq<Word>, a: nat, b: nat, c: nat, d: nat)
    requires |s| == 16 && a < 16 && b < 16 && c < 16 && d < 16 && Distinct4(a, b, c, d)
    ensures InverseQuarterRound(QuarterRound(s, a, b, c, d), a, b, c, d) == s
  {
    var s1 := Step(s, a, b, d, 16);
    var s2 := Step(s1, c, d, b, 12);
    var s3 := Step(s2, a, b, d, 8);
    StepInverse(s3, c, d, b, 7);
    StepInverse(s2, a, b, d, 8);
    StepInverse(s1, c, d, b, 12);
    StepInverse(s, a, b, d, 16);
  }

  /** The quarter round changes no word other than those at a, b, c and d. */
  lemma QuarterRoundFrame(s: seq<Word>, a: nat, b: nat, c: nat, d: nat)
    requires |s| == 16 && a < 16 && b < 16 && c < 16 && d < 16
    ensures forall i :: 0 <= i < 16 && i != a && i != b && i != c && i != d ==> QuarterRound(s, a, b, c, d)[i] == s[i]
  {
  }

  /** The quarter round of section 2.1 on four words, as the RFC states it. */
  function QuarterRoundWords(a: Word, b: Word, c: Word, d: Word): (Word, Word, Word, Word)
  {
    var a1 := WrappingAdd(a, b);    var d1 := RotateLeft(WordXor(d, a1), 16);
    var c1 := WrappingAdd(c, d1);   var b1 := RotateLeft(WordXor(b, c1), 12);
    var a2 := WrappingAdd(a1, b1);  var d2 := RotateLeft(WordXor(d1, a2), 8);
    var c2 := WrappingAdd(c1, d2);  var b2 := RotateLeft(WordXor(b1, c2), 7);
    (a2, b2, c2, d2)
  }

  predicate Distinct4(a: nat, b: nat, c: nat, d: nat)
  {
    a != b && a != c && a != d && b != c && b != d && c != d
  }

  /** On four distinct positions the in-place quarter round replaces exactly
      those four words by the section 2.1 quarter round of their old values. */
  lemma QuarterRoundOnState(s: seq<Word>, a: nat, b: nat, c: nat, d: nat)
    requires |s| == 16 && a < 16 && b < 16 && c < 16 && d < 16 && Distinct4(a, b, c, d)
    ensures var q := QuarterRoundWords(s[a], s[b], s[c], s[d]);
      QuarterRound(s, a, b, c, d) == s[a := q.0][b := q.1][c := q.2][d := q.3]
  {
    // The intermediate states and asserts keep the proof cheap and stable
    // across solver seeds; Dafny can also find it without them.
    var s1 := Step(s, a, b, d, 16);
    var s2 := Step(s1, c, d, b, 12);
    var s3 := Step(s2, a, b, d, 8);
    var s4 := Step(s3, c, d, b, 7);
    var a1 := WrappingAdd(s[a], s[b]);  var d1 := RotateLeft(WordXor(s[d], a1), 16);
    assert s1[a] == a1 && s1[b] == s[b] && s1[c] == s[c] && s1[d] == d1;
    var c1 := WrappingAdd(s[c], d1);    var b1 := RotateLeft(WordXor(s[b], c1), 12);
    assert s2[a] == a1 && s2[b] == b1 && s2[c] == c1 && s2[d] == d1;
    var a2 := WrappingAdd(a1, b1);      var d2 := RotateLeft(WordXor(d1, a2), 8);
    assert s3[a] == a2 && s3[b] == b1 && s3[c] == c1 && s3[d] == d2;
    var c2 := WrappingAdd(c1, d2);      var b2 := RotateLeft(WordXor(b1, c2), 7);
    assert s4[a] == a2 && s4[b] == b2 && s4[c] == c2 && s4[d] == d2;
  }

  // ---------------------------------------------------------------------------
  // Double round (section 2.3): four column quarter rounds, then four diagonal ones
  // ---------------------------------------------------------------------------

  /** A position in the 16-word state. */
  type Index = i: nat | i < 16

  /** The four state positions a quarter round works on. */
  datatype Quad = Quad(a: Index, b: Index, c: Index, d: Index)

  /** The eight quarter rounds of a double round, in order: the four columns,
      then the four diagonals. */
  const DoubleRound: seq<Quad> := [
    Quad(0, 4, 8, 12), Quad(1, 5, 9, 13), Quad(2, 6, 10, 14), Quad(3, 7, 11, 15),
    Quad(0, 5, 10, 15), Quad(1, 6, 11, 12), Quad(2, 7, 8, 13), Quad(3, 4, 9, 14)]

  /** The quarter rounds at the positions qs, one after another. */
  function QuarterRounds(s: seq<Word>, qs: seq<Quad>): (r: seq<Word>)
    requires |s| == 16
    ensures |r| == 16
    decreases |qs|
  {
    if |qs| == 0 then s else QuarterRounds(QuarterRound(s, qs[0].a, qs[0].b, qs[0].c, qs[0].d), qs[1..])
  }

  /** The "inner_block" of section 2.3: one double round. */
  function InnerBlock(s: seq<Word>): (r: seq<Word>)
    requires |s| == 16
    ensures |r| == 16
  {
    QuarterRounds(s, DoubleRound)
  }

  /** A double round is the column quarter rounds (0,4,8,12) to (3,7,11,15)
      followed by the diagonal ones (0,5,10,15), (1,6,11,12), (2,7,8,13) and
      (3,4,9,14), in this order. */
  lemma InnerBlockOrder(s: seq<Word>)
    requires |s| == 16
    ensures InnerBlock(s)
         == QuarterRound(QuarterRound(QuarterRound(QuarterRound(
            QuarterRound(QuarterRound(QuarterRound(QuarterRound(s,
              0, 4, 8, 12), 1, 5, 9, 13), 2, 6, 10, 14), 3, 7, 11, 15),
              0, 5, 10, 15), 1, 6, 11, 12), 2, 7, 8, 13), 3, 4, 9, 14)
  {
    // One QuarterRoundsStep per quad keeps the proof cheap and stable across
    // solver seeds; Dafny can also find it without them.
    var s1 := QuarterRound(s, 0, 4, 8, 12);
    var s2 := QuarterRound(s1, 1, 5, 9, 13);
    var s3 := QuarterRound(s2, 2, 6, 10, 14);
    var s4 := QuarterRound(s3, 3, 7, 11, 15);
    var s5 := QuarterRound(s4, 0, 5, 10, 15);
    var s6 := QuarterRound(s5, 1, 6, 11, 12);
    var s7 := QuarterRound(s6, 2, 7, 8, 13);
    var s8 := QuarterRound(s7, 3, 4, 9, 14);
    QuarterRoundsStep(s, DoubleRound, 0);
    QuarterRoundsStep(s1, DoubleRound, 1);
    QuarterRoundsStep(s2, DoubleRound, 2);
    QuarterRoundsStep(s3, DoubleRound, 3);
    QuarterRoundsStep(s4, DoubleRound, 4);
    QuarterRoundsStep(s5, DoubleRound, 5);
    QuarterRoundsStep(s6, DoubleRound, 6);
    QuarterRoundsStep(s7, DoubleRound, 7);
  }

  /** Running the quarter rounds from position k on is running the k-th one,
      then those from position k + 1 on. */
  lemma QuarterRoundsStep(s: seq<Word>, qs: seq<Quad>, k: nat)
    requires |s| == 16 && k < |qs|
    ensures QuarterRounds(s, qs[k..]) == QuarterRounds(QuarterRound(s, qs[k].a, qs[k].b, qs[k].c, qs[k].d), qs[k + 1..])
  {
    assert qs[k..][1..] == qs[k + 1..];
  }

  /** n double rounds applied one after another. */
  function InnerBlocks(s: seq<Word>, n: nat): (r: seq<Word>)
    requires |s| == 16
    ensures |r| == 16
  {
    if n == 0 then s else InnerBlock(InnerBlocks(s, n - 1))
  }

  // ---------------------------------------------------------------------------
  // Block function (section 2.3)
  // ---------------------------------------------------------------------------

  /** The initial state: constants, key words, block counter, nonce words. */
  function InitState(key: seq<Byte>, nonce: seq<Byte>, counter: Word): (s: seq<Word>)
    requires |key| == 32 && |nonce| == 12
    ensures |s| == 16
  {
    Sigma + BytesToWords(key) + [counter] + BytesToWords(nonce)
  }

  /** The initial state as chacha_round builds it: a state holding the
      constants, zeros and the counter, with the key words written over
      positions 4 to 11 and then the nonce words over positions 13 to 15. */
  lemma InitStateSteps(key: seq<Byte>, nonce: seq<Byte>, counter: Word, s0: seq<Word>, s1: seq<Word>, s2: seq<Word>)
    requires |key| == 32 && |nonce| == 12
    requires |s0| == 16 && s0[0] == Sigma[0] && s0[1] == Sigma[1] && s0[2] == Sigma[2] && s0[3] == Sigma[3]
    requires s0[12] == counter
    requires s1 == s0[..4] + BytesToWords(key) + s0[12..]
    requires s2 == s1[..13] + BytesToWords(nonce) + s1[16..]
    ensures s2 == InitState(key, nonce, counter)
  {
    // Hints for solver stability; Dafny can also find the proof without them.
    assert s0[..4] == Sigma && s1[12] == counter;
    assert s1[..13] == Sigma + BytesToWords(key) + [counter] && s1[16..] == [];
  }

  /** Words 0 to 3 are the constants, 4 to 11 the key read little-endian,
      12 the counter and 13 to 15 the nonce read little-endian; no key or
      nonce byte is lost. */
  lemma InitStateLayout(key: seq<Byte>, nonce: seq<Byte>, counter: Word)
    requires |key| == 32 && |nonce| == 12
    ensures var s := InitState(key, nonce, counter);
      && s[..4] == Sigma && s[12] == counter
      && (forall i :: 0 <= i < 8 ==> s[4 + i] == ToWord(key[4 * i .. 4 * i + 4]))
      && (forall i :: 0 <= i < 3 ==> s[13 + i] == ToWord(nonce[4 * i .. 4 * i + 4]))
      && WordsToBytes(s[4..12]) == key && WordsToBytes(s[13..]) == nonce
  {
    var s := InitState(key, nonce, counter);
    InitStateParts(key, nonce, counter);
    assert forall i :: 0 <= i < 8 ==> s[4 + i] == s[4..12][i];
    assert forall i :: 0 <= i < 3 ==> s[13 + i] == s[13..][i];
    BytesRoundTrip(key);
    BytesRoundTrip(nonce);
  }

  lemma InitStateParts(key: seq<Byte>, nonce: seq<Byte>, counter: Word)
    requires |key| == 32 && |nonce| == 12
    ensures var s := InitState(key, nonce, counter);
      s[..4] == Sigma && s[4..12] == BytesToWords(key) && s[12] == counter && s[13..] == BytesToWords(nonce)
  {
  }

  /** Word-by-word sum modulo 2^32 of two states of equal length. */
  function AddWords(a: seq<Word>, b: seq<Word>): (r: seq<Word>)
    requires |a| == |b|
    ensures |r| == |a|
    ensures forall k :: 0 <= k < |r| ==> r[k] == WrappingAdd(a[k], b[k])
  {
    if |a| == 0 then [] else [WrappingAdd(a[0], b[0])] + AddWords(a[1..], b[1..])
  }

  /** The 64-byte keystream block for one counter value. */
  function Chacha20Block(key: seq<Byte>, nonce: seq<Byte>, counter: Word): (block: seq<Byte>)
    requires |key| == 32 && |nonce| == 12
    ensures |block| == 64
  {
    var init := InitState(key, nonce, counter);
    WordsToBytes(AddWords(InnerBlocks(init, 10), init))
  }

  /** Bytes 4i to 4i + 3 of the block are word i of ten double rounds of
      the initial state plus word i of the initial state, modulo 2^32,
      least significant byte first. */
  lemma BlockWords(key: seq<Byte>, nonce: seq<Byte>, counter: Word)
    requires |key| == 32 && |nonce| == 12
    ensures var init := InitState(key, nonce, counter);
      forall i :: 0 <= i < 16 ==>
        Chacha20Block(key, nonce, counter)[4 * i .. 4 * i + 4] == FromWord(WrappingAdd(InnerBlocks(init, 10)[i], init[i]))
  {
  }

  /** The block function, one stage at a time. */
  lemma BlockSteps(key: seq<Byte>, nonce: seq<Byte>, counter: Word,
                   init: seq<Word>, rounds: seq<Word>, sum: seq<Word>, block: seq<Byte>)
    requires |key| == 32 && |nonce| == 12
    requires init == InitState(key, nonce, counter) && rounds == InnerBlocks(init, 10)
    requires sum == AddWords(rounds, init) && block == WordsToBytes(sum)
    ensures block == Chacha20Block(key, nonce, counter)
  {
  }

  // ---------------------------------------------------------------------------
  // Encryption (section 2.4)
  // ---------------------------------------------------------------------------

  /** Position-wise exclusive-or, as long as the shorter of its operands. */
  function XorSeq(k: seq<Byte>, m: seq<Byte>): (r: seq<Byte>)
    ensures |r| == Min(|k|, |m|)
    ensures forall i :: 0 <= i < |r| ==> r[i] == ByteXor(k[i], m[i])
  {
    if |k| == 0 || |m| == 0 then [] else [ByteXor(k[0], m[0])] + XorSeq(k[1..], m[1..])
  }

  lemma XorCancels(k: seq<Byte>, m: seq<Byte>)
    requires |m| <= |k|
    ensures XorSeq(k, XorSeq(k, m)) == m
  {
    forall i | 0 <= i < |m|
      ensures XorSeq(k, XorSeq(k, m))[i] == m[i]
    {
      XorCommutes(k[i], m[i]);
      XorCommutes(k[i], Xor(k[i], m[i]));
      XorCancel(m[i], k[i]);
    }
  }

  /** The counter of block j of a stream that starts at counter start: start
      incremented j times, each time modulo 2^32, which is start + j modulo
      2^32. */
  function BlockCounter(start: Word, j: nat): (c: Word)
    ensures c == (start + j) % 0x1_0000_0000
  {
    if j == 0 then start
    else
      ModSucc(start + j - 1);
      WrappingAdd(BlockCounter(start, j - 1), 1)
  }

  lemma ModSucc(x: nat)
    ensures (x % 0x1_0000_0000 + 1) % 0x1_0000_0000 == (x + 1) % 0x1_0000_0000
  {
    var q := x / 0x1_0000_0000;
    var r := x % 0x1_0000_0000;
    assert x == 0x1_0000_0000 * q + r;
    if r + 1 < 0x1_0000_0000 {
      assert x + 1 == 0x1_0000_0000 * q + (r + 1);
    } else {
      assert x + 1 == 0x1_0000_0000 * (q + 1);
    }
  }

  /** Starting one block later is the same as taking the next block. */
  lemma {:induction false} BlockCounterNext(start: Word, j: nat)
    ensures BlockCounter(WrappingAdd(start, 1), j) == BlockCounter(start, j + 1)
  {
    if j > 0 {
      BlockCounterNext(start, j - 1);
    }
  }

  /** Section 2.4 with the block function left as a parameter: the input is
      cut into chunks of 64 bytes, the last one possibly shorter; each chunk
      is combined with the leading bytes of the block for the current
      counter, which then advances by one modulo 2^32. */
  function XorStream(block: Word -> seq<Byte>, counter: Word, input: seq<Byte>): (output: seq<Byte>)
    requires forall c :: |block(c)| == 64
    ensures |output| == |input|
    decreases |input|
  {
    if |input| == 0 then []
    else
      var n := Min(64, |input|);
      XorSeq(block(counter)[..n], input[..n]) + XorStream(block, WrappingAdd(counter, 1), input[n..])
  }

  /** Byte i of the output is byte i of the input xor byte i mod 64 of the
      block for counter start + i / 64 (mod 2^32). */
  lemma {:induction false} XorStreamAt(block: Word -> seq<Byte>, counter: Word, input: seq<Byte>, i: nat)
    requires forall c :: |block(c)| == 64
    requires i < |input|
    ensures XorStream(block, counter, input)[i] == ByteXor(block(BlockCounter(counter, i / 64))[i % 64], input[i])
    decreases |input|
  {
    var n := Min(64, |input|);
    var output := XorStream(block, counter, input);
    if i < n {
      assert output[i] == XorSeq(block(counter)[..n], input[..n])[i];
    } else {
      var rest := XorStream(block, WrappingAdd(counter, 1), input[n..]);
      assert output[i] == rest[i - 64];
      XorStreamAt(block, WrappingAdd(counter, 1), input[n..], i - 64);
      BlockCounterNext(counter, (i - 64) / 64);
      DivModStep(i);
    }
  }

  /** Byte i of the stream combines input byte i with the block for counter
      start + i / 64, modulo 2^32. */
  lemma XorStreamByte(block: Word -> seq<Byte>, start: Word, input: seq<Byte>, i: nat, c: Word)
    requires forall c :: |block(c)| == 64
    requires i < |input| && c == (start + i / 64) % 0x1_0000_0000
    ensures XorStream(block, start, input)[i] == ByteXor(block(c)[i % 64], input[i])
  {
    XorStreamAt(block, start, input, i);
  }

  lemma DivModStep(i: nat)
    requires i >= 64
    ensures (i - 64) / 64 + 1 == i / 64 && (i - 64) % 64 == i % 64
  {
  }

  /** Running the stream again over its own output with the same block
      function and counter gives back the input. */
  lemma {:induction false} XorStreamInvolution(block: Word -> seq<Byte>, counter: Word, input: seq<Byte>)
    requires forall c :: |block(c)| == 64
    ensures XorStream(block, counter, XorStream(block, counter, input)) == input
    decreases |input|
  {
    if |input| > 0 {
      var n := Min(64, |input|);
      var next := WrappingAdd(counter, 1);
      var ks := block(counter)[..n];
      var output := XorStream(block, counter, input);
      XorStreamUnfold(block, counter, input);
      SplitAt(XorSeq(ks, input[..n]), XorStream(block, next, input[n..]), output);
      XorCancels(ks, input[..n]);
      XorStreamInvolution(block, next, input[n..]);
      XorStreamUnfold(block, counter, output);
      SplitAt(input[..n], input[n..], input);
    }
  }

  /** The first chunk of a non-empty stream, then the rest from the next counter. */
  lemma XorStreamUnfold(block: Word -> seq<Byte>, counter: Word, input: seq<Byte>)
    requires forall c :: |block(c)| == 64
    requires |input| > 0
    ensures var n := Min(64, |input|);
      XorStream(block, counter, input)
        == XorSeq(block(counter)[..n], input[..n]) + XorStream(block, WrappingAdd(counter, 1), input[n..])
  {
  }

  /** The two parts of a + b, read back by position. */
  lemma SplitAt(a: seq<Byte>, b: seq<Byte>, s: seq<Byte>)
    ensures s == a + b <==> s[..Min(|a|, |s|)] == a && s[Min(|a|, |s|)..] == b
  {
    if s[..Min(|a|, |s|)] == a && s[Min(|a|, |s|)..] == b {
      assert s == s[..Min(|a|, |s|)] + s[Min(|a|, |s|)..];
    }
  }

  /** The ChaCha20 block function for a fixed key and nonce, as a function
      of the counter. */
  function BlockFunction(key: seq<Byte>, nonce: seq<Byte>): (block: Word -> seq<Byte>)
    requires |key| == 32 && |nonce| == 12
    ensures forall c :: block(c) == Chacha20Block(key, nonce, c)
  {
    (c: Word) => Chacha20Block(key, nonce, c)
  }

  /** ChaCha20 encryption: the stream driven by the ChaCha20 block function
      for this key and nonce. */
  function Chacha20Encrypt(key: seq<Byte>, nonce: seq<Byte>, counter: Word, input: seq<Byte>): (output: seq<Byte>)
    requires |key| == 32 && |nonce| == 12
    ensures |output| == |input|
  {
    XorStream(BlockFunction(key, nonce), counter, input)
  }

  /** Byte i of the output is byte i of the input xor byte i mod 64 of the
      ChaCha20 block for counter start + i / 64, modulo 2^32. */
  lemma Chacha20EncryptByte(key: seq<Byte>, nonce: seq<Byte>, start: Word, input: seq<Byte>, i: nat, c: Word)
    requires |key| == 32 && |nonce| == 12 && i < |input|
    requires c == (start + i / 64) % 0x1_0000_0000
    ensures Chacha20Encrypt(key, nonce, start, input)[i] == ByteXor(Chacha20Block(key, nonce, c)[i % 64], input[i])
  {
    XorStreamByte(BlockFunction(key, nonce), start, input, i, c);
  }

  /** Encryption is its own inverse: encrypting the output again with the
      same key, nonce and counter gives back the input. */
  lemma Chacha20EncryptInvolution(key: seq<Byte>, nonce: seq<Byte>, counter: Word, input: seq<Byte>)
    requires |key| == 32 && |nonce| == 12
    ensures Chacha20Encrypt(key, nonce, counter, Chacha20Encrypt(key, nonce, counter, input)) == input
  {
    XorStreamInvolution(BlockFunction(key, nonce), counter, input);
  }
}
