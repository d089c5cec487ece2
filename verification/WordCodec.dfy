/** Bytes as words of eleven bits, with a padding marker for the last word's unused
    bits. */
module WordCodec {
  import opened Wrappers
  import opened Words
  import opened Bits
  import opened Octets

  const DATA_OFFSET: nat := N_PADDING_WORDS

  datatype DecodeError = UnknownWord(word: string) | PaddingInMiddle | Malformed

  // ----- What an encoding is -----

  /** The number that digits spell, most significant first. */
  function Number(base: nat, digits: seq<nat>): nat {
    if digits == [] then 0
    else Number(base, digits[..|digits| - 1]) * base + digits[|digits| - 1]
  }

  /** A list of words that ends with a padding marker, or needs none. */
  predicate IsMarked(indices: seq<WordIndex>) {
    indices != [] && IsPaddingMarker(indices[|indices| - 1])
  }

  function DataOf(indices: seq<WordIndex>): seq<WordIndex> {
    if IsMarked(indices) then indices[..|indices| - 1] else indices
  }

  /** The number of unused bits: marker `k` stands for `k + 1` of them. */
  function PadOf(indices: seq<WordIndex>): (pad: nat)
    ensures pad < BITS_PER_WORD
  {
    if IsMarked(indices) then indices[|indices| - 1] + 1 else 0
  }

  predicate AllData(words: seq<WordIndex>) {
    forall i :: 0 <= i < |words| ==> !IsPaddingMarker(words[i])
  }

  function Payloads(words: seq<WordIndex>): (r: seq<nat>)
    requires AllData(words)
    ensures |r| == |words| && forall i :: 0 <= i < |r| ==> r[i] < N_DATA_WORDS
  {
    seq(|words|, i requires 0 <= i < |words| => words[i] - DATA_OFFSET)
  }

  /** The words spell the bytes' bits followed by zeros in the unused bits. */
  ghost predicate Encodes(bytes: seq<Byte>, indices: seq<WordIndex>) {
    && AllData(DataOf(indices))
    && BITS_PER_WORD * |DataOf(indices)| == 8 * |bytes| + PadOf(indices)
    && Number(N_DATA_WORDS, Payloads(DataOf(indices))) == Number(256, bytes) * Pow2(PadOf(indices))
  }

  // ----- Encoding -----

  lemma WordValues()
    ensures Pow2(BITS_PER_WORD) == N_DATA_WORDS && Pow2(8) == 256
  {
    assert Pow2(11) == 2 * (2 * (2 * Pow2(8)));
    assert Pow2(8) == 2 * (2 * (2 * (2 * (2 * (2 * (2 * (2 * Pow2(0))))))));
  }

  lemma NumberAppend(base: nat, digits: seq<nat>, d: nat)
    ensures Number(base, digits + [d]) == Number(base, digits) * base + d
  {
    assert (digits + [d])[..|digits|] == digits;
  }

  lemma PayloadsAppend(words: seq<WordIndex>, w: WordIndex)
    requires AllData(words) && !IsPaddingMarker(w)
    ensures AllData(words + [w]) && Payloads(words + [w]) == Payloads(words) + [w - DATA_OFFSET]
  {
  }

  /** The words so far and the buffered bits spell the bytes so far. */
  ghost predicate Packed(bytes: seq<Byte>, out: seq<WordIndex>, buf: nat, bits: nat) {
    && AllData(out)
    && buf < Pow2(bits)
    && BITS_PER_WORD * |out| + bits == 8 * |bytes|
    && Number(N_DATA_WORDS, Payloads(out)) * Pow2(bits) + buf == Number(256, bytes)
  }

  lemma PackByte(bytes: seq<Byte>, out: seq<WordIndex>, buf: nat, bits: nat, b: Byte)
    requires Packed(bytes, out, buf, bits) && bits + 8 <= 32
    ensures Or(Shl(32, buf, 8), b) == buf * 256 + b < Pow2(bits + 8)
    ensures Packed(bytes + [b], out, buf * 256 + b, bits + 8)
  {
    WordValues();
    ShlExact(32, buf, 8, bits);
    OrAdds(buf, 8, b);
    Pow2Adds(bits, 8);
    NumberAppend(256, bytes, b);
    Regroup(Number(N_DATA_WORDS, Payloads(out)), Pow2(bits), buf, 256);
  }

  lemma Regroup(a: nat, p: nat, b: nat, q: nat)
    ensures (a * p + b) * q == a * (p * q) + b * q
  {
  }

  /** Taking the top eleven of the buffered bits out as a word. */
  lemma PackWord(bytes: seq<Byte>, out: seq<WordIndex>, buf: nat, bits: nat)
    requires Packed(bytes, out, buf, bits + BITS_PER_WORD)
    ensures var w := And(Shr(buf, bits), Mask(BITS_PER_WORD));
      && w < N_DATA_WORDS
      && Packed(bytes, out + [w + DATA_OFFSET], And(buf, Mask(bits)), bits)
  {
    WordValues();
    SplitBits(buf, bits);
    var w, rest := Shr(buf, bits), And(buf, Mask(bits));
    Pow2Adds(bits, BITS_PER_WORD);
    TopFits(w, rest, Pow2(bits), N_DATA_WORDS);
    AndMask(w, BITS_PER_WORD);
    SmallRemainder(w, N_DATA_WORDS);
    PayloadsAppend(out, w + DATA_OFFSET);
    NumberAppend(N_DATA_WORDS, Payloads(out), w);
    MoveWord(Number(N_DATA_WORDS, Payloads(out)), Pow2(bits), w, rest);
  }

  lemma MoveWord(value: nat, p: nat, w: nat, rest: nat)
    ensures value * (p * N_DATA_WORDS) + (w * p + rest) == (value * N_DATA_WORDS + w) * p + rest
  {
    Regroup(value, N_DATA_WORDS, w, p);
  }

  lemma TopFits(top: nat, low: nat, p: nat, bound: nat)
    requires p > 0 && top * p + low < p * bound
    ensures top < bound
  {
    if top >= bound {
      Monotone(bound, top, p);
    }
  }

  lemma Monotone(a: nat, b: nat, p: nat)
    requires a <= b
    ensures a * p <= b * p
  {
    NonNegative(b - a, p);
    assert b * p == a * p + (b - a) * p;
  }

  /** Filling the last word up with zeros. */
  lemma PackTail(bytes: seq<Byte>, out: seq<WordIndex>, buf: nat, bits: nat)
    requires Packed(bytes, out, buf, bits) && 0 < bits < BITS_PER_WORD
    ensures var pad := BITS_PER_WORD - bits;
      var w := And(Shl(32, buf, pad), Mask(BITS_PER_WORD));
      w < N_DATA_WORDS && Encodes(bytes, out + [w + DATA_OFFSET] + [pad - 1])
  {
    var pad := BITS_PER_WORD - bits;
    var w := buf * Pow2(pad);
    TailWord(buf, bits);
    PayloadsAppend(out, w + DATA_OFFSET);
    NumberAppend(N_DATA_WORDS, Payloads(out), w);
    WordValues();
    Pow2Adds(bits, pad);
    Regroup(Number(N_DATA_WORDS, Payloads(out)), Pow2(bits), buf, Pow2(pad));
    MarkedEncodes(bytes, out + [w + DATA_OFFSET], pad);
  }

  lemma TailWord(buf: nat, bits: nat)
    requires buf < Pow2(bits) && 0 < bits < BITS_PER_WORD
    ensures var pad := BITS_PER_WORD - bits;
      And(Shl(32, buf, pad), Mask(BITS_PER_WORD)) == buf * Pow2(pad) < N_DATA_WORDS
  {
    var pad := BITS_PER_WORD - bits;
    WordValues();
    ShlExact(32, buf, pad, bits);
    AndMask(buf * Pow2(pad), BITS_PER_WORD);
    SmallRemainder(buf * Pow2(pad), N_DATA_WORDS);
  }

  lemma MarkedEncodes(bytes: seq<Byte>, words: seq<WordIndex>, pad: nat)
    requires AllData(words) && 0 < pad < BITS_PER_WORD
    requires BITS_PER_WORD * |words| == 8 * |bytes| + pad
    requires Number(N_DATA_WORDS, Payloads(words)) == Number(256, bytes) * Pow2(pad)
    ensures Encodes(bytes, words + [pad - 1])
  {
    assert DataOf(words + [pad - 1]) == words;
  }

  lemma PackAligned(bytes: seq<Byte>, out: seq<WordIndex>, buf: nat)
    requires Packed(bytes, out, buf, 0)
    ensures Encodes(bytes, out)
  {
    assert DataOf(out) == out;
  }

  /** The unused bits of the last word, from 32-bit counters that cannot wrap. */
  method PaddingBits(length: nat) returns (padBits: nat)
    requires length < 0x2000_0000
    ensures padBits < BITS_PER_WORD && (length * 8 + padBits) % BITS_PER_WORD == 0
  {
    var totalBits := length * 8;
    var nData := (totalBits + BITS_PER_WORD - 1) / BITS_PER_WORD;
    assert totalBits < 0x1_0000_0000 && nData * BITS_PER_WORD < 0x1_0000_0000;
    padBits := nData * BITS_PER_WORD - totalBits;
    DivMod(totalBits + BITS_PER_WORD - 1, BITS_PER_WORD);
    RemainderIs(length * 8 + padBits, BITS_PER_WORD, nData, 0);
  }

  lemma PaddingFits(length: nat, words: nat, bits: nat, padBits: nat)
    requires BITS_PER_WORD * words + bits == 8 * length && bits < BITS_PER_WORD
    requires padBits < BITS_PER_WORD && (length * 8 + padBits) % BITS_PER_WORD == 0
    ensures padBits == if bits == 0 then 0 else BITS_PER_WORD - bits
  {
    DivMod(length * 8 + padBits, BITS_PER_WORD);
  }

  lemma PackNothing()
    ensures Packed([], [], 0, 0)
  {
  }

  /** One round of the packing loop. */
  method PackOne(ghost bytes: seq<Byte>, out: seq<WordIndex>, buf: nat, bits: nat, b: Byte)
    returns (out': seq<WordIndex>, buf': nat, bits': nat)
    requires Packed(bytes, out, buf, bits) && bits < BITS_PER_WORD
    ensures Packed(bytes + [b], out', buf', bits') && bits' < BITS_PER_WORD
  {
    PackByte(bytes, out, buf, bits, b);
    out', buf', bits' := out, Or(Shl(32, buf, 8), b), bits + 8;
    if bits' >= BITS_PER_WORD {
      bits' := bits' - BITS_PER_WORD;
      PackWord(bytes + [b], out, buf', bits');
      out' := out + [And(Shr(buf', bits'), Mask(BITS_PER_WORD)) + DATA_OFFSET];
      buf' := And(buf', Mask(bits'));
    }
  }

  /** The packing loop: whole words, and the bits that are left over. */
  method PackAll(bytes: seq<Byte>) returns (out: seq<WordIndex>, buf: nat, bits: nat)
    ensures Packed(bytes, out, buf, bits) && bits < BITS_PER_WORD
  {
    out, buf, bits := [], 0, 0;
    PackNothing();
    for i := 0 to |bytes|
      invariant Packed(bytes[..i], out, buf, bits) && bits < BITS_PER_WORD
    {
      out, buf, bits := PackOne(bytes[..i], out, buf, bits, bytes[i]);
      assert bytes[..i + 1] == bytes[..i] + [bytes[i]];
    }
    assert bytes[..|bytes|] == bytes;
  }

  /** Packs bytes. */
  method Encode(bytes: seq<Byte>) returns (out: seq<WordIndex>)
    requires |bytes| < 0x2000_0000
    ensures Encodes(bytes, out)
  {
    if bytes == [] {
      PackNothing();
      PackAligned([], [], 0);
      return [];
    }
    var padBits := PaddingBits(|bytes|);
    var buf, bits;
    out, buf, bits := PackAll(bytes);
    PaddingFits(|bytes|, |out|, bits, padBits);
    if bits > 0 {
      PackTail(bytes, out, buf, bits);
      out := out + [And(Shl(32, buf, BITS_PER_WORD - bits), Mask(BITS_PER_WORD)) + DATA_OFFSET];
    } else {
      PackAligned(bytes, out, buf);
    }
    if padBits != 0 {
      out := out + [padBits - 1];
    }
  }

  // ----- Decoding -----

  /** The bytes so far and the buffered bits spell the words so far. */
  ghost predicate Unpacked(words: seq<WordIndex>, out: seq<Byte>, buf: nat, bits: nat) {
    && AllData(words)
    && buf < Pow2(bits)
    && BITS_PER_WORD * |words| == 8 * |out| + bits
    && Number(N_DATA_WORDS, Payloads(words)) == Number(256, out) * Pow2(bits) + buf
  }

  lemma UnpackNothing()
    ensures Unpacked([], [], 0, 0)
  {
  }

  lemma UnpackWord(words: seq<WordIndex>, out: seq<Byte>, buf: nat, bits: nat, w: WordIndex)
    requires Unpacked(words, out, buf, bits) && !IsPaddingMarker(w) && bits + BITS_PER_WORD <= 64
    ensures var buf' := Or(Shl(64, buf, BITS_PER_WORD), w - DATA_OFFSET);
      Unpacked(words + [w], out, buf', bits + BITS_PER_WORD)
  {
    ShiftWordIn(buf, bits, w - DATA_OFFSET);
    PayloadsAppend(words, w);
    NumberAppend(N_DATA_WORDS, Payloads(words), w - DATA_OFFSET);
    Regroup(Number(256, out), Pow2(bits), buf, N_DATA_WORDS);
  }

  /** Eleven more bits in the buffer, none lost. */
  lemma ShiftWordIn(buf: nat, bits: nat, payload: nat)
    requires buf < Pow2(bits) && payload < N_DATA_WORDS && bits + BITS_PER_WORD <= 64
    ensures Or(Shl(64, buf, BITS_PER_WORD), payload) == buf * N_DATA_WORDS + payload < Pow2(bits + BITS_PER_WORD)
    ensures Pow2(bits + BITS_PER_WORD) == Pow2(bits) * N_DATA_WORDS
  {
    WordValues();
    ShlExact(64, buf, BITS_PER_WORD, bits);
    OrAdds(buf, BITS_PER_WORD, payload);
    Pow2Adds(bits, BITS_PER_WORD);
    AppendBits(buf, Pow2(bits), payload, N_DATA_WORDS);
  }

  lemma AppendBits(buf: nat, bound: nat, low: nat, base: nat)
    requires buf < bound && low < base
    ensures buf * base + low < bound * base
  {
    Monotone(buf + 1, bound, base);
  }

  lemma UnpackByte(words: seq<WordIndex>, out: seq<Byte>, buf: nat, bits: nat)
    requires Unpacked(words, out, buf, bits + 8)
    ensures var b := And(Shr(buf, bits), Mask(8));
      b < 256 && Unpacked(words, out + [b], And(buf, Mask(bits)), bits)
  {
    WordValues();
    SplitBits(buf, bits);
    var b, rest := Shr(buf, bits), And(buf, Mask(bits));
    Pow2Adds(bits, 8);
    TopFits(b, rest, Pow2(bits), 256);
    AndMask(b, 8);
    SmallRemainder(b, 256);
    NumberAppend(256, out, b);
    MoveByte(Number(256, out), Pow2(bits), b, rest);
  }

  lemma MoveByte(value: nat, p: nat, b: nat, rest: nat)
    ensures value * (p * 256) + (b * p + rest) == (value * 256 + b) * p + rest
  {
    Regroup(value, 256, b, p);
  }

  /** The inner loop: takes bytes out while there are eight bits and bytes are due.
      Eighteen bits are the most there ever are, so no shift loses any. */
  method TakeBytes(ghost words: seq<WordIndex>, out: seq<Byte>, buf: nat, bits: nat, byteLen: nat)
    returns (out': seq<Byte>, buf': nat, bits': nat)
    requires Unpacked(words, out, buf, bits) && |out| <= byteLen
    ensures Unpacked(words, out', buf', bits') && |out| <= |out'| <= byteLen
    ensures bits' < 8 || |out'| == byteLen
  {
    out', buf', bits' := out, buf, bits;
    while bits' >= 8 && |out'| < byteLen
      invariant Unpacked(words, out', buf', bits') && |out| <= |out'| <= byteLen
    {
      bits' := bits' - 8;
      UnpackByte(words, out', buf', bits');
      out' := out' + [And(Shr(buf', bits'), Mask(8))];
      buf' := And(buf', Mask(bits'));
    }
  }

  /** One round of the unpacking loop; the buffer never holds more than eighteen bits. */
  method UnpackOne(ghost words: seq<WordIndex>, out: seq<Byte>, buf: nat, bits: nat, w: WordIndex, byteLen: nat)
    returns (more: seq<Byte>, buf': nat, bits': nat)
    requires Unpacked(words, out, buf, bits) && !IsPaddingMarker(w) && bits < 8 && |out| <= byteLen
    ensures Unpacked(words + [w], more, buf', bits') && |more| <= byteLen
    ensures bits' < 8 || |more| == byteLen
  {
    UnpackWord(words, out, buf, bits, w);
    var filled := Or(Shl(64, buf, BITS_PER_WORD), w - DATA_OFFSET);
    assert bits + BITS_PER_WORD <= 18;
    more, buf', bits' := TakeBytes(words + [w], out, filled, bits + BITS_PER_WORD, byteLen);
  }

  /** The unpacking loop: as many bytes as are due, and the bits that are left. */
  method UnpackAll(data: seq<WordIndex>, byteLen: nat, ghost padBits: nat) returns (out: seq<Byte>, buf: nat)
    requires AllData(data) && padBits < BITS_PER_WORD && BITS_PER_WORD * |data| == 8 * byteLen + padBits
    ensures Unpacked(data, out, buf, padBits)
  {
    out, buf := [], 0;
    var bits: nat := 0;
    UnpackNothing();
    for i := 0 to |data|
      invariant Unpacked(data[..i], out, buf, bits) && |out| <= byteLen
      invariant bits < 8 || |out| == byteLen
    {
      UnpackedLength(data[..i], out, buf, bits);
      Undone(|data|, i, |out|, byteLen, bits, padBits);
      assert data[..i + 1] == data[..i] + [data[i]];
      out, buf, bits := UnpackOne(data[..i], out, buf, bits, data[i], byteLen);
    }
    assert data[..|data|] == data;
    UnpackedLength(data, out, buf, bits);
    Done(|data|, |out|, byteLen, bits, padBits);
  }

  lemma UnpackedLength(words: seq<WordIndex>, out: seq<Byte>, buf: nat, bits: nat)
    requires Unpacked(words, out, buf, bits)
    ensures BITS_PER_WORD * |words| == 8 * |out| + bits
  {
  }

  /** After the last word every byte is out, and the padding is left. */
  lemma Done(n: nat, done: nat, byteLen: nat, bits: nat, padBits: nat)
    requires BITS_PER_WORD * n == 8 * byteLen + padBits == 8 * done + bits && done <= byteLen
    requires bits < 8 || done == byteLen
    ensures bits == padBits
  {
  }

  /** Before the last word, bytes are still due, so fewer than eight bits wait. */
  lemma Undone(n: nat, i: nat, done: nat, byteLen: nat, bits: nat, padBits: nat)
    requires BITS_PER_WORD * n == 8 * byteLen + padBits && padBits < BITS_PER_WORD
    requires i < n && BITS_PER_WORD * i == 8 * done + bits && done <= byteLen
    requires bits < 8 || done == byteLen
    ensures bits < 8
  {
  }

  /** Digits below the base are determined by their number and how many they are. */
  lemma {:induction false} NumberInjective(base: nat, a: seq<nat>, b: seq<nat>)
    requires |a| == |b| && base > 0
    requires forall i :: 0 <= i < |a| ==> a[i] < base && b[i] < base
    requires Number(base, a) == Number(base, b)
    ensures a == b
  {
    if a != [] {
      var n := |a| - 1;
      RemainderIs(Number(base, a), base, Number(base, a[..n]), a[n]);
      RemainderIs(Number(base, a), base, Number(base, b[..n]), b[n]);
      NumberInjective(base, a[..n], b[..n]);
      assert a == a[..n] + [a[n]] && b == b[..n] + [b[n]];
    }
  }

  /** Once the words are unpacked, they encode the bytes if no bits are left, and
      nothing at all otherwise. */
  lemma UnpackedDecides(indices: seq<WordIndex>, out: seq<Byte>, buf: nat, bytes: seq<Byte>)
    requires AllData(DataOf(indices)) && Unpacked(DataOf(indices), out, buf, PadOf(indices))
    ensures Encodes(bytes, indices) <==> buf == 0 && bytes == out
  {
    if Encodes(bytes, indices) {
      var p := Pow2(PadOf(indices));
      RemainderIs(Number(256, bytes) * p, p, Number(256, bytes), 0);
      RemainderIs(Number(256, bytes) * p, p, Number(256, out), buf);
      NumberInjective(256, bytes, out);
    }
  }

  lemma PayloadLength(indices: seq<WordIndex>, bytes: seq<Byte>)
    requires Encodes(bytes, indices)
    ensures BITS_PER_WORD * |DataOf(indices)| >= PadOf(indices)
    ensures (BITS_PER_WORD * |DataOf(indices)| - PadOf(indices)) % 8 == 0
  {
    RemainderIs(8 * |bytes|, 8, |bytes|, 0);
  }

  /** Unpacks a list of words: it yields the bytes that the list encodes, and fails
      exactly when there are none. */
  method Decode(indices: seq<WordIndex>) returns (r: Result<seq<Byte>, DecodeError>)
    requires BITS_PER_WORD * |DataOf(indices)| < 0x1_0000_0000
    ensures forall bytes :: Encodes(bytes, indices) <==> r == Ok(bytes)
    ensures r.Err? ==> r.error == if AllData(DataOf(indices)) then Malformed else PaddingInMiddle
  {
    var data, padBits := DataOf(indices), PadOf(indices);
    for i := 0 to |data|
      invariant forall k :: 0 <= k < i ==> !IsPaddingMarker(data[k])
    {
      if IsPaddingMarker(data[i]) {
        return Err(PaddingInMiddle);
      }
    }
    var totalBits := |data| * BITS_PER_WORD;
    forall bytes | Encodes(bytes, indices)
      ensures totalBits >= padBits && (totalBits - padBits) % 8 == 0
    {
      PayloadLength(indices, bytes);
    }
    if totalBits < padBits {
      return Err(Malformed);
    }
    var payloadBits := totalBits - padBits;
    if payloadBits % 8 != 0 {
      return Err(Malformed);
    }
    var out, buf := UnpackAll(data, payloadBits / 8, padBits);
    forall bytes ensures Encodes(bytes, indices) <==> buf == 0 && bytes == out {
      UnpackedDecides(indices, out, buf, bytes);
    }
    if buf != 0 {
      return Err(Malformed);
    }
    return Ok(out);
  }

  // ----- The bijection -----

  lemma DecodingUnique(a: seq<Byte>, b: seq<Byte>, indices: seq<WordIndex>)
    requires Encodes(a, indices) && Encodes(b, indices)
    ensures a == b
  {
    CancelFactor(Number(256, a), Number(256, b), Pow2(PadOf(indices)));
    NumberInjective(256, a, b);
  }

  lemma CancelFactor(a: nat, b: nat, p: nat)
    requires p > 0 && a * p == b * p
    ensures a == b
  {
    RemainderIs(a * p, p, a, 0);
    RemainderIs(a * p, p, b, 0);
  }

  lemma SamePadding(bytes: seq<Byte>, x: seq<WordIndex>, y: seq<WordIndex>)
    requires Encodes(bytes, x) && Encodes(bytes, y)
    ensures PadOf(x) == PadOf(y) && |DataOf(x)| == |DataOf(y)|
  {
    OnlyMultiple(|DataOf(x)| - |DataOf(y)|, BITS_PER_WORD);
  }

  lemma DataAndPad(x: seq<WordIndex>)
    ensures x == DataOf(x) + if PadOf(x) == 0 then [] else [PadOf(x) - 1]
  {
  }

  lemma EncodingUnique(bytes: seq<Byte>, x: seq<WordIndex>, y: seq<WordIndex>)
    requires Encodes(bytes, x) && Encodes(bytes, y)
    ensures x == y
  {
    SamePadding(bytes, x, y);
    var a, b := Payloads(DataOf(x)), Payloads(DataOf(y));
    NumberInjective(N_DATA_WORDS, a, b);
    forall i | 0 <= i < |DataOf(x)| ensures DataOf(x)[i] == DataOf(y)[i] {
      assert a[i] == b[i];
    }
    DataAndPad(x);
    DataAndPad(y);
  }

  /** Even the longest text that `Encode` takes keeps the decoder's counter below
      its width. */
  lemma CounterFits(length: nat, words: nat, padBits: nat)
    requires length < 0x2000_0000 && padBits < BITS_PER_WORD
    requires BITS_PER_WORD * words == 8 * length + padBits
    ensures BITS_PER_WORD * words < 0x1_0000_0000
  {
  }

  /** Decoding what was encoded gives the bytes back. */
  method EncodeThenDecode(bytes: seq<Byte>) returns (r: Result<seq<Byte>, DecodeError>)
    requires |bytes| < 0x2000_0000
    ensures r == Ok(bytes)
  {
    var indices := Encode(bytes);
    CounterFits(|bytes|, |DataOf(indices)|, PadOf(indices));
    r := Decode(indices);
  }

  /** Encoding what was decoded gives the words back: no other words decode alike. */
  method DecodeThenEncode(indices: seq<WordIndex>) returns (r: Result<seq<WordIndex>, DecodeError>)
    requires BITS_PER_WORD * |DataOf(indices)| < 0x1_0000_0000
    ensures r.Ok? ==> r.value == indices
  {
    var decoded := Decode(indices);
    if decoded.Err? {
      return Err(decoded.error);
    }
    var again := Encode(decoded.value);
    EncodingUnique(decoded.value, again, indices);
    return Ok(again);
  }

  // ----- Words -----

  method EncodeWords(dictionary: seq<string>, bytes: seq<Byte>) returns (words: seq<string>)
    requires IsDictionary(dictionary) && |bytes| < 0x2000_0000
    ensures exists indices :: Encodes(bytes, indices) && words == WordsOf(dictionary, indices)
  {
    var indices := Encode(bytes);
    words := WordsOf(dictionary, indices);
  }

  lemma WordsDetermineIndices(dictionary: seq<string>, x: seq<WordIndex>, y: seq<WordIndex>)
    requires IsDictionary(dictionary) && WordsOf(dictionary, x) == WordsOf(dictionary, y)
    ensures x == y
  {
    assert |x| == |WordsOf(dictionary, x)| == |y|;
    forall i | 0 <= i < |x| ensures x[i] == y[i] {
      assert WordsOf(dictionary, x)[i] == dictionary[x[i]] && WordsOf(dictionary, y)[i] == dictionary[y[i]];
    }
  }

  lemma SpelledKnown(dictionary: seq<string>, indices: seq<WordIndex>)
    requires IsDictionary(dictionary)
    ensures AllKnown(dictionary, WordsOf(dictionary, indices))
  {
  }

  predicate AllKnown(dictionary: seq<string>, words: seq<string>) {
    forall i :: 0 <= i < |words| ==> words[i] in dictionary
  }

  predicate FirstUnknown(dictionary: seq<string>, words: seq<string>, i: nat) {
    i < |words| && words[i] !in dictionary && AllKnown(dictionary, words[..i])
  }

  /** Looks every word up, stopping at the first that the dictionary does not have. */
  method Lookup(dictionary: seq<string>, words: seq<string>) returns (r: Result<seq<WordIndex>, DecodeError>)
    requires IsDictionary(dictionary)
    ensures r.Ok? ==> words == WordsOf(dictionary, r.value)
    ensures r.Err? ==> exists i: nat :: FirstUnknown(dictionary, words, i) && r.error == UnknownWord(words[i])
  {
    var indices: seq<WordIndex> := [];
    for i := 0 to |words|
      invariant words[..i] == WordsOf(dictionary, indices)
      invariant forall k :: 0 <= k < i ==> words[k] in dictionary
    {
      var index := IndexOf(dictionary, words[i]);
      if index.None? {
        assert FirstUnknown(dictionary, words, i);
        return Err(UnknownWord(words[i]));
      }
      ghost var before := indices;
      indices := indices + [index.value];
      assert WordsOf(dictionary, indices) == WordsOf(dictionary, before) + [words[i]];
    }
    return Ok(indices);
  }

  /** The bits of the data words fit the decoder's 32-bit counter. */
  ghost predicate CounterHolds(dictionary: seq<string>, words: seq<string>)
    requires IsDictionary(dictionary)
  {
    forall indices :: words == WordsOf(dictionary, indices) ==> BITS_PER_WORD * |DataOf(indices)| < 0x1_0000_0000
  }

  /** Yields the bytes that the words spell, and fails exactly when there are none:
      on the first unknown word, or as `Decode` does. */
  method DecodeWords(dictionary: seq<string>, words: seq<string>) returns (r: Result<seq<Byte>, DecodeError>)
    requires IsDictionary(dictionary) && CounterHolds(dictionary, words)
    ensures forall bytes :: r == Ok(bytes) <==>
      exists indices :: Encodes(bytes, indices) && words == WordsOf(dictionary, indices)
    ensures (r.Err? && r.error.UnknownWord?) <==> !AllKnown(dictionary, words)
    ensures r.Err? && r.error.UnknownWord? ==>
      exists i: nat :: FirstUnknown(dictionary, words, i) && r.error == UnknownWord(words[i])
  {
    var indices := Lookup(dictionary, words);
    if indices.Err? {
      forall other ensures words == WordsOf(dictionary, other) ==> AllKnown(dictionary, words) {
        SpelledKnown(dictionary, other);
      }
      return Err(indices.error);
    }
    forall other | words == WordsOf(dictionary, other) ensures other == indices.value {
      WordsDetermineIndices(dictionary, other, indices.value);
    }
    SpelledKnown(dictionary, indices.value);
    r := Decode(indices.value);
  }

  /** A text survives being spelled out in words. */
  method SpellAndRead(dictionary: seq<string>, bytes: seq<Byte>) returns (r: Result<seq<Byte>, DecodeError>)
    requires IsDictionary(dictionary) && |bytes| < 0x2000_0000
    ensures r == Ok(bytes)
  {
    var words := EncodeWords(dictionary, bytes);
    ghost var indices :| Encodes(bytes, indices) && words == WordsOf(dictionary, indices);
    CounterFits(|bytes|, |DataOf(indices)|, PadOf(indices));
    forall other | words == WordsOf(dictionary, other) ensures other == indices {
      WordsDetermineIndices(dictionary, other, indices);
    }
    r := DecodeWords(dictionary, words);
  }
}
