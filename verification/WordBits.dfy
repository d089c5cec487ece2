/** An encoding bit by bit: the words' bits are the bytes' bits, in order. */
module WordBits {
  import opened Words
  import opened Bits
  import opened Octets
  import opened WordCodec

  /** Bit `n` of a number, counting from the lowest. */
  function Bit(x: nat, n: nat): nat {
    if n == 0 then x % 2 else Bit(x / 2, n - 1)
  }

  lemma {:induction false} BitOfShifted(x: nat, w: nat, d: nat, e: nat)
    requires d < Pow2(w)
    ensures Bit(x * Pow2(w) + d, e) == if e < w then Bit(d, e) else Bit(x, e - w)
    decreases w
  {
    if w > 0 {
      var shifted := x * Pow2(w);
      assert shifted == 2 * (x * Pow2(w - 1)) by { Doubles(Pow2(w - 1), x); }
      assert (shifted + d) / 2 == x * Pow2(w - 1) + d / 2 && (shifted + d) % 2 == d % 2;
      if e > 0 { BitOfShifted(x, w - 1, d / 2, e - 1); }
    }
  }

  lemma {:induction false} BitOfZero(e: nat)
    ensures Bit(0, e) == 0
  {
    if e > 0 { BitOfZero(e - 1); }
  }

  /** A number's bits are its digits' bits. */
  lemma {:induction false} NumberBits(w: nat, digits: seq<nat>, q: nat, r: nat, e: nat)
    requires q < |digits| && r < w && forall i :: 0 <= i < |digits| ==> digits[i] < Pow2(w)
    requires e == w * (|digits| - 1 - q) + r
    ensures Bit(Number(Pow2(w), digits), e) == Bit(digits[q], r)
    decreases |digits|
  {
    var n := |digits| - 1;
    BitOfShifted(Number(Pow2(w), digits[..n]), w, digits[n], e);
    OneDigitLess(w, n - q);
    if q < n {
      NumberBits(w, digits[..n], q, r, e - w);
    }
  }

  lemma OneDigitLess(w: nat, k: nat)
    ensures k == 0 ==> w * k == 0
    ensures k > 0 ==> w * k - w == w * (k - 1) >= 0
  {
  }

  /** Bit `j` of a list of bytes, and of a list of data words: the highest of each comes
      first. */
  function ByteBit(bytes: seq<Byte>, j: nat): nat
    requires j < 8 * |bytes|
  {
    Bit(bytes[j / 8], 7 - j % 8)
  }

  function WordBit(words: seq<WordIndex>, j: nat): nat
    requires j < 11 * |words| && AllData(words)
  {
    Bit(words[j / 11] - 10, 10 - j % 11)
  }

  lemma WordBitIs(words: seq<WordIndex>, j: nat)
    requires AllData(words) && j < 11 * |words|
    ensures WordBit(words, j) == Bit(Number(N_DATA_WORDS, Payloads(words)), 11 * |words| - 1 - j)
  {
    WordValues();
    NumberBits(11, Payloads(words), j / 11, 10 - j % 11, 11 * |words| - 1 - j);
  }

  lemma ByteBitIs(bytes: seq<Byte>, j: nat)
    requires j < 8 * |bytes|
    ensures ByteBit(bytes, j) == Bit(Number(256, bytes), 8 * |bytes| - 1 - j)
  {
    WordValues();
    NumberBits(8, bytes, j / 8, 7 - j % 8, 8 * |bytes| - 1 - j);
  }

  /** The data words of an encoding have the bytes' bits, in order, and zeros for padding;
      the marker, if there is one, says how many. */
  lemma EncodedBits(bytes: seq<Byte>, indices: seq<WordIndex>, j: nat)
    requires Encodes(bytes, indices) && j < 11 * |DataOf(indices)|
    ensures 11 * |DataOf(indices)| == 8 * |bytes| + PadOf(indices)
    ensures WordBit(DataOf(indices), j) == if j < 8 * |bytes| then ByteBit(bytes, j) else 0
  {
    var data, pad := DataOf(indices), PadOf(indices);
    var e := 11 * |data| - 1 - j;
    WordBitIs(data, j);
    BitOfShifted(Number(256, bytes), pad, 0, e);
    if e < pad {
      BitOfZero(e);
    } else {
      ByteBitIs(bytes, j);
    }
  }
}
