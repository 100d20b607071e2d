/** Little-endian packing of 32-bit words into bytes and back: the conversions
    that chacha_round delegates to the byteorder crate (read_u32_into when it
    loads key and nonce into the state, write_u32_into when it serialises the
    state into the keystream block). */
module LittleEndian {
  import opened Words

  /** The word whose least significant byte is b[0] and most significant byte is b[3]. */
  function ToWord(b: seq<Byte>): (w: Word)
    requires |b| == 4
    ensures w % 0x100 == b[0] && w / 0x100_0000 == b[3]
  {
    b[0] as int + 0x100 * (b[1] as int + 0x100 * (b[2] as int + 0x100 * b[3] as int))
  }

  /** The four bytes of w, least significant first. */
  function FromWord(w: Word): (b: seq<Byte>)
    ensures |b| == 4
    ensures ToWord(b) == w
  {
    var w1 := w / 0x100;
    var w2 := w1 / 0x100;
    [w % 0x100, w1 % 0x100, w2 % 0x100, w2 / 0x100]
  }

  lemma FromWordToWord(b: seq<Byte>)
    requires |b| == 4
    ensures FromWord(ToWord(b)) == b
  {
    var w2 := b[2] as int + 0x100 * b[3] as int;
    var w1 := b[1] as int + 0x100 * w2;
    var w := ToWord(b);
    assert w == b[0] as int + 0x100 * w1;
    assert w / 0x100 == w1 && w % 0x100 == b[0] as int;
    assert w1 / 0x100 == w2 && w1 % 0x100 == b[1] as int;
    assert w2 / 0x100 == b[3] as int && w2 % 0x100 == b[2] as int;
  }

  /** Reads a byte string whose length is a multiple of four as consecutive
      little-endian words. */
  function BytesToWords(b: seq<Byte>): (ws: seq<Word>)
    requires |b| % 4 == 0
    ensures |ws| == |b| / 4
    ensures forall i :: 0 <= i < |ws| ==> ws[i] == ToWord(b[4 * i .. 4 * i + 4])
  {
    if |b| == 0 then []
    else
      var rest := BytesToWords(b[4..]);
      assert forall i :: 1 <= i < |rest| + 1 ==> b[4..][4 * (i - 1) .. 4 * (i - 1) + 4] == b[4 * i .. 4 * i + 4];
      [ToWord(b[..4])] + rest
  }

  /** Writes words out one after another, each least significant byte first. */
  function WordsToBytes(ws: seq<Word>): (b: seq<Byte>)
    ensures |b| == 4 * |ws|
    ensures forall i :: 0 <= i < |ws| ==> b[4 * i .. 4 * i + 4] == FromWord(ws[i])
  {
    if |ws| == 0 then []
    else
      var rest := WordsToBytes(ws[1..]);
      var b := FromWord(ws[0]) + rest;
      assert forall i :: 1 <= i < |ws| ==> b[4 * i .. 4 * i + 4] == rest[4 * (i - 1) .. 4 * (i - 1) + 4];
      b
  }

  lemma {:induction false} WordsToBytesAppend(ws: seq<Word>, w: Word)
    ensures WordsToBytes(ws + [w]) == WordsToBytes(ws) + FromWord(w)
  {
    if |ws| == 0 {
      assert ws + [w] == [w];
    } else {
      assert (ws + [w])[1..] == ws[1..] + [w];
      WordsToBytesAppend(ws[1..], w);
    }
  }

  /** Serialising words and reading them back gives the same words. */
  lemma {:induction false} WordsRoundTrip(ws: seq<Word>)
    ensures BytesToWords(WordsToBytes(ws)) == ws
  {
    if |ws| > 0 {
      var b := WordsToBytes(ws);
      assert b[4..] == WordsToBytes(ws[1..]);
      WordsRoundTrip(ws[1..]);
    }
  }

  /** Reading a byte string as words and writing them back gives the same bytes. */
  lemma {:induction false} BytesRoundTrip(b: seq<Byte>)
    requires |b| % 4 == 0
    ensures WordsToBytes(BytesToWords(b)) == b
  {
    if |b| > 0 {
      var ws := BytesToWords(b);
      assert ws[1..] == BytesToWords(b[4..]);
      BytesRoundTrip(b[4..]);
      FromWordToWord(b[..4]);
      assert b == b[..4] + b[4..];
    }
  }
}
