/**
 * Shortening text between code points, and previews made of a head and a tail (src/core/preview.ts).
 *
 * A text is a sequence of code points as string iteration yields them, lone surrogates included; the encoder replaces
 * those by U+FFFD, and the decoder drops one leading U+FEFF.
 */
module Preview {
  import opened Wrappers
  import opened Decimals

  type CodePoint = c: int | 0 <= c <= 0x10_FFFF
  type Byte = b: int | 0 <= b < 0x100
  type Text = seq<CodePoint>

  const REPLACEMENT: CodePoint := 0xFFFD
  const BYTE_ORDER_MARK: CodePoint := 0xFEFF

  predicate Surrogate(c: CodePoint) { 0xD800 <= c <= 0xDFFF }

  function Scalar(c: CodePoint): CodePoint { if Surrogate(c) then REPLACEMENT else c }

  function Scalars(text: Text): (r: Text)
    ensures |r| == |text|
  {
    seq(|text|, i requires 0 <= i < |text| => Scalar(text[i]))
  }

  /** One code point in UTF-8 (section 3 of RFC 3629). */
  function EncodeOne(code: CodePoint): (bytes: seq<Byte>)
    ensures 1 <= |bytes| <= 4 && !IsContinuation(bytes[0])
    ensures forall i | 1 <= i < |bytes| :: IsContinuation(bytes[i])
  {
    var c := Scalar(code);
    if c < 0x80 then [c]
    else if c < 0x800 then [0xC0 + c / 0x40, 0x80 + c % 0x40]
    else if c < 0x1_0000 then [0xE0 + c / 0x1000, 0x80 + c / 0x40 % 0x40, 0x80 + c % 0x40]
    else [0xF0 + c / 0x4_0000, 0x80 + c / 0x1000 % 0x40, 0x80 + c / 0x40 % 0x40, 0x80 + c % 0x40]
  }

  predicate IsContinuation(b: Byte) { 0x80 <= b < 0xC0 }

  /** The encodings of the code points, one by one. */
  function Chunks(text: Text): (chunks: seq<seq<Byte>>)
    ensures |chunks| == |text| && forall k | 0 <= k < |text| :: chunks[k] == EncodeOne(text[k])
  {
    seq(|text|, k requires 0 <= k < |text| => EncodeOne(text[k]))
  }

  /** The first `n` chunks as one byte string. */
  function Flat(chunks: seq<seq<Byte>>, n: nat): seq<Byte>
    requires n <= |chunks|
  {
    if n == 0 then [] else Flat(chunks, n - 1) + chunks[n - 1]
  }

  function Encode(text: Text): seq<Byte> { Flat(Chunks(text), |text|) }

  function ByteLength(text: Text): nat { |Encode(text)| }

  /** Where the chunk at `k` begins. */
  function Offset(chunks: seq<seq<Byte>>, k: nat): nat
    requires k <= |chunks|
  {
    |Flat(chunks, k)|
  }

  /** The six payload bits of a continuation byte. */
  function Low(b: Byte): (bits: int)
    ensures 0 <= bits < 0x40
  {
    b % 0x40
  }

  /** The first code point of a byte string; a malformed first byte stands for itself alone. */
  function DecodeOne(bytes: seq<Byte>): (r: (CodePoint, nat))
    requires bytes != []
    ensures 1 <= r.1 <= |bytes|
  {
    var lead: int := bytes[0];
    if lead < 0x80 then (lead, 1)
    else if 0xC0 <= lead < 0xE0 && |bytes| >= 2 then ((lead - 0xC0) * 0x40 + Low(bytes[1]), 2)
    else if 0xE0 <= lead < 0xF0 && |bytes| >= 3 then
      ((lead - 0xE0) * 0x1000 + Low(bytes[1]) * 0x40 + Low(bytes[2]), 3)
    else if 0xF0 <= lead < 0xF5 && |bytes| >= 4 then
      var c := (lead - 0xF0) * 0x4_0000 + Low(bytes[1]) * 0x1000 + Low(bytes[2]) * 0x40 + Low(bytes[3]);
      (if c <= 0x10_FFFF then c else REPLACEMENT, 4)
    else (REPLACEMENT, 1)
  }

  function Decode(bytes: seq<Byte>): Text {
    if bytes == [] then []
    else
      var (c, length) := DecodeOne(bytes);
      [c] + Decode(bytes[length..])
  }

  function StripMark(text: Text): Text {
    if text != [] && text[0] == BYTE_ORDER_MARK then text[1..] else text
  }

  /** What the platform's decoder returns. */
  function DecodeText(bytes: seq<Byte>): Text { StripMark(Decode(bytes)) }

  // ----- Where code points begin.

  /** A lead byte followed by continuation bytes. */
  predicate ChunkOk(chunk: seq<Byte>) {
    |chunk| >= 1 && !IsContinuation(chunk[0]) && forall i | 1 <= i < |chunk| :: IsContinuation(chunk[i])
  }

  predicate ChunksOk(chunks: seq<seq<Byte>>) { forall k | 0 <= k < |chunks| :: ChunkOk(chunks[k]) }

  lemma {:induction false} ChunksAreOk(text: Text)
    ensures ChunksOk(Chunks(text))
  {
  }

  lemma {:induction false} FlatPrefix(chunks: seq<seq<Byte>>, m: nat, n: nat)
    requires m <= n <= |chunks| && ChunksOk(chunks)
    ensures Offset(chunks, m) + (n - m) <= Offset(chunks, n) && Flat(chunks, n)[..Offset(chunks, m)] == Flat(chunks, m)
  {
    if m < n {
      FlatPrefix(chunks, m, n - 1);
      assert Flat(chunks, n)[..Offset(chunks, n - 1)] == Flat(chunks, n - 1);
      assert Flat(chunks, n)[..Offset(chunks, m)] == Flat(chunks, n)[..Offset(chunks, n - 1)][..Offset(chunks, m)];
    }
  }

  /** The bytes of the chunk at `k` lie between its offset and the next one. */
  lemma {:induction false} BytesAt(chunks: seq<seq<Byte>>, k: nat)
    requires k < |chunks| && ChunksOk(chunks)
    ensures Offset(chunks, k + 1) == Offset(chunks, k) + |chunks[k]| <= Offset(chunks, |chunks|)
    ensures Flat(chunks, |chunks|)[Offset(chunks, k)..Offset(chunks, k + 1)] == chunks[k]
  {
    FlatPrefix(chunks, k + 1, |chunks|);
    var before := Flat(chunks, |chunks|)[..Offset(chunks, k + 1)];
    assert before == Flat(chunks, k) + chunks[k];
    assert Flat(chunks, |chunks|)[Offset(chunks, k)..Offset(chunks, k + 1)] == before[Offset(chunks, k)..];
  }

  /** Every byte belongs to one chunk. */
  lemma {:induction false} Locate(chunks: seq<seq<Byte>>, n: nat, p: nat) returns (k: nat)
    requires n <= |chunks| && p < Offset(chunks, n)
    ensures k < n && Offset(chunks, k) <= p < Offset(chunks, k + 1)
  {
    if p < Offset(chunks, n - 1) { k := Locate(chunks, n - 1, p); } else { k := n - 1; }
  }

  predicate BeginsAt(chunks: seq<seq<Byte>>, k: nat, p: nat) { k <= |chunks| && Offset(chunks, k) == p }

  /** A chunk begins there, or the text ends. */
  predicate IsBoundary(chunks: seq<seq<Byte>>, p: nat) {
    exists k {:trigger BeginsAt(chunks, k, p)} | 0 <= k <= |chunks| :: BeginsAt(chunks, k, p)
  }

  lemma {:induction false} BoundaryWithin(chunks: seq<seq<Byte>>, k: nat, p: nat)
    requires ChunksOk(chunks) && k < |chunks| && Offset(chunks, k) <= p < Offset(chunks, k + 1)
    ensures IsBoundary(chunks, p) <==> p == Offset(chunks, k)
  {
    if p == Offset(chunks, k) {
      assert BeginsAt(chunks, k, p);
    } else if IsBoundary(chunks, p) {
      var j :| 0 <= j <= |chunks| && BeginsAt(chunks, j, p);
      if j < k { FlatPrefix(chunks, j, k); } else { FlatPrefix(chunks, k + 1, j); }
    }
  }

  /** A byte is a continuation byte exactly when no chunk begins there. */
  lemma {:induction false} ContinuationIsInside(chunks: seq<seq<Byte>>, p: nat)
    requires ChunksOk(chunks) && p < Offset(chunks, |chunks|)
    ensures IsContinuation(Flat(chunks, |chunks|)[p]) <==> !IsBoundary(chunks, p)
  {
    var k := Locate(chunks, |chunks|, p);
    BytesAt(chunks, k);
    BoundaryWithin(chunks, k, p);
    var bytes := Flat(chunks, |chunks|);
    assert bytes[p] == bytes[Offset(chunks, k)..Offset(chunks, k + 1)][p - Offset(chunks, k)];
    assert ChunkOk(chunks[k]);
  }

  // ----- Decoding an aligned slice.

  lemma {:induction false} LowOf(bits: int)
    requires 0 <= bits < 0x40
    ensures Low(0x80 + bits) == bits
  {
  }

  /** The decoder's view of an encoded code point, by the number of its bytes. */
  lemma {:induction false} DecodeShort(c: CodePoint, rest: seq<Byte>)
    requires c < 0x800 && !Surrogate(c)
    ensures DecodeOne(EncodeOne(c) + rest) == (c, |EncodeOne(c)|)
  {
    LowOf(c % 0x40);
    assert c == c / 0x40 * 0x40 + c % 0x40;
    var bytes := EncodeOne(c) + rest;
    if c >= 0x80 { assert bytes[0] == 0xC0 + c / 0x40 && bytes[1] == 0x80 + c % 0x40; }
  }

  lemma {:induction false} DecodeThree(c: CodePoint, rest: seq<Byte>)
    requires 0x800 <= c < 0x1_0000 && !Surrogate(c)
    ensures DecodeOne(EncodeOne(c) + rest) == (c, |EncodeOne(c)|)
  {
    LowOf(c / 0x40 % 0x40);
    LowOf(c % 0x40);
    assert c == c / 0x40 * 0x40 + c % 0x40 && c / 0x40 == c / 0x1000 * 0x40 + c / 0x40 % 0x40;
    var bytes := EncodeOne(c) + rest;
    assert bytes[0] == 0xE0 + c / 0x1000 && bytes[1] == 0x80 + c / 0x40 % 0x40 && bytes[2] == 0x80 + c % 0x40;
  }

  lemma {:induction false} DecodeFour(c: CodePoint, rest: seq<Byte>)
    requires 0x1_0000 <= c
    ensures DecodeOne(EncodeOne(c) + rest) == (c, |EncodeOne(c)|)
  {
    LowOf(c / 0x1000 % 0x40);
    LowOf(c / 0x40 % 0x40);
    LowOf(c % 0x40);
    assert c == c / 0x40 * 0x40 + c % 0x40 && c / 0x40 == c / 0x1000 * 0x40 + c / 0x40 % 0x40;
    assert c / 0x1000 == c / 0x4_0000 * 0x40 + c / 0x1000 % 0x40;
    var bytes := EncodeOne(c) + rest;
    assert bytes[0] == 0xF0 + c / 0x4_0000 && bytes[1] == 0x80 + c / 0x1000 % 0x40;
    assert bytes[2] == 0x80 + c / 0x40 % 0x40 && bytes[3] == 0x80 + c % 0x40;
  }

  lemma {:induction false} DecodeOneEncoded(code: CodePoint, rest: seq<Byte>)
    ensures DecodeOne(EncodeOne(code) + rest) == (Scalar(code), |EncodeOne(code)|)
  {
    var c := Scalar(code);
    assert EncodeOne(code) == EncodeOne(c);
    if c < 0x800 { DecodeShort(c, rest); } else if c < 0x1_0000 { DecodeThree(c, rest); } else { DecodeFour(c, rest); }
  }

  lemma {:induction false} DecodeStep(code: CodePoint, rest: seq<Byte>)
    ensures Decode(EncodeOne(code) + rest) == [Scalar(code)] + Decode(rest)
  {
    DecodeOneEncoded(code, rest);
    var bytes := EncodeOne(code) + rest;
    assert bytes[|EncodeOne(code)|..] == rest;
  }

  lemma {:induction false} SliceStep(bytes: seq<Byte>, a: nat, b: nat, c: nat)
    requires a <= b <= c <= |bytes|
    ensures bytes[a..c] == bytes[a..b] + bytes[b..c]
  {
  }

  /** The chunk decodes to its code point whatever follows. */
  ghost predicate DecodesTo(chunk: seq<Byte>, c: CodePoint) {
    forall rest {:trigger chunk + rest} :: Decode(chunk + rest) == [c] + Decode(rest)
  }

  /** The chunk at `k` is the slice between two neighbouring offsets. */
  predicate CutAt(bytes: seq<Byte>, offsets: seq<nat>, chunk: seq<Byte>, k: nat) {
    k + 1 < |offsets| && offsets[k] <= offsets[k + 1] <= |bytes| && bytes[offsets[k]..offsets[k + 1]] == chunk
  }

  ghost predicate DecodesAt(bytes: seq<Byte>, offsets: seq<nat>, chunks: seq<seq<Byte>>, scalars: Text, k: nat) {
    k < |chunks| && k < |scalars| && CutAt(bytes, offsets, chunks[k], k) && DecodesTo(chunks[k], scalars[k])
  }

  lemma {:induction false} DecodeCuts(bytes: seq<Byte>, offsets: seq<nat>, chunks: seq<seq<Byte>>, scalars: Text, i: nat, j: nat)
    requires i <= j < |offsets| && j <= |scalars| && offsets[j] <= |bytes|
    requires forall k {:trigger DecodesAt(bytes, offsets, chunks, scalars, k)} | i <= k < j ::
               DecodesAt(bytes, offsets, chunks, scalars, k)
    ensures offsets[i] <= offsets[j] && Decode(bytes[offsets[i]..offsets[j]]) == scalars[i..j]
    decreases j - i
  {
    if i < j {
      DecodeCuts(bytes, offsets, chunks, scalars, i + 1, j);
      assert DecodesAt(bytes, offsets, chunks, scalars, i);
      SliceStep(bytes, offsets[i], offsets[i + 1], offsets[j]);
      assert scalars[i..j] == [scalars[i]] + scalars[i + 1..j];
    }
  }

  function Offsets(chunks: seq<seq<Byte>>): (offsets: seq<nat>)
    ensures |offsets| == |chunks| + 1 && forall k | 0 <= k <= |chunks| :: offsets[k] == Offset(chunks, k)
  {
    seq(|chunks| + 1, k requires 0 <= k <= |chunks| => Offset(chunks, k))
  }

  /** Decoding the bytes between two boundaries gives back the code points between them. */
  lemma {:induction false} DecodeSlice(text: Text, i: nat, j: nat)
    requires i <= j <= |text|
    ensures Offset(Chunks(text), i) <= Offset(Chunks(text), j) <= ByteLength(text)
    ensures Decode(Encode(text)[Offset(Chunks(text), i)..Offset(Chunks(text), j)]) == Scalars(text)[i..j]
  {
    var chunks := Chunks(text);
    ChunksAreOk(text);
    FlatPrefix(chunks, j, |text|);
    forall k | i <= k < j ensures DecodesAt(Encode(text), Offsets(chunks), chunks, Scalars(text), k) {
      ChunkDecodes(text, k);
    }
    DecodeCuts(Encode(text), Offsets(chunks), chunks, Scalars(text), i, j);
  }

  lemma {:induction false} ChunkDecodes(text: Text, k: nat)
    requires k < |text|
    ensures DecodesAt(Encode(text), Offsets(Chunks(text)), Chunks(text), Scalars(text), k)
  {
    ChunksAreOk(text);
    BytesAt(Chunks(text), k);
    FlatPrefix(Chunks(text), k, k + 1);
    forall rest ensures Decode(EncodeOne(text[k]) + rest) == [Scalar(text[k])] + Decode(rest) { DecodeStep(text[k], rest); }
  }

  /** Chunks of the same lengths, from `i` on. */
  predicate SameLengths(a: seq<seq<Byte>>, b: seq<seq<Byte>>, i: nat, n: nat) {
    i + n <= |a| && n <= |b| && forall k {:trigger b[k]} | 0 <= k < n :: |a[i + k]| == |b[k]|
  }

  lemma {:induction false} FlatSame(a: seq<seq<Byte>>, b: seq<seq<Byte>>, i: nat, n: nat)
    requires SameLengths(a, b, i, n)
    ensures Offset(a, i + n) == Offset(a, i) + Offset(b, n)
  {
    if n > 0 {
      FlatSame(a, b, i, n - 1);
      assert |a[i + (n - 1)]| == |b[n - 1]|;
    }
  }

  lemma {:induction false} SliceChunk(text: Text, i: nat, j: nat, k: nat)
    requires i <= j <= |text| && k < j - i
    ensures |Chunks(Scalars(text)[i..j])[k]| == |Chunks(text)[i + k]|
  {
    assert Scalars(text)[i..j][k] == Scalar(text[i + k]);
    assert EncodeOne(Scalar(text[i + k])) == EncodeOne(text[i + k]);
  }

  lemma {:induction false} SliceSameLengths(text: Text, i: nat, j: nat)
    requires i <= j <= |text|
    ensures SameLengths(Chunks(text), Chunks(Scalars(text)[i..j]), i, j - i)
  {
    forall k | 0 <= k < j - i ensures |Chunks(Scalars(text)[i..j])[k]| == |Chunks(text)[i + k]| { SliceChunk(text, i, j, k); }
  }

  /** Replacing a lone surrogate keeps its three bytes, so a decoded slice encodes to the bytes it came from. */
  lemma {:induction false} SliceLength(text: Text, i: nat, j: nat)
    requires i <= j <= |text|
    ensures Offset(Chunks(text), j) == Offset(Chunks(text), i) + ByteLength(Scalars(text)[i..j])
  {
    SliceSameLengths(text, i, j);
    OffsetDifference(Chunks(text), Chunks(Scalars(text)[i..j]), i, j);
  }

  lemma {:induction false} OffsetDifference(a: seq<seq<Byte>>, b: seq<seq<Byte>>, i: nat, j: nat)
    requires i <= j && |b| == j - i && SameLengths(a, b, i, j - i)
    ensures Offset(a, j) == Offset(a, i) + Offset(b, |b|)
  {
    FlatSame(a, b, i, j - i);
  }

  // ----- Truncation.

  /** The longest run of leading code points that fits. */
  predicate LongestHead(chunks: seq<seq<Byte>>, k: nat, maxBytes: int) {
    k <= |chunks| && Offset(chunks, k) <= maxBytes && (k < |chunks| ==> maxBytes < Offset(chunks, k + 1))
  }

  /** The longest run of trailing code points that fits. */
  predicate LongestTail(chunks: seq<seq<Byte>>, k: nat, maxBytes: int) {
    && k <= |chunks| && Offset(chunks, |chunks|) - Offset(chunks, k) <= maxBytes
    && (k > 0 ==> maxBytes < Offset(chunks, |chunks|) - Offset(chunks, k - 1))
  }

  /** What truncation keeps of a text that is too long: nothing for a limit of zero or less. */
  predicate HeadSlice(text: Text, i: nat, headBytes: int) {
    i <= |text| && if headBytes <= 0 then i == 0 else LongestHead(Chunks(text), i, headBytes)
  }

  predicate TailSlice(text: Text, j: nat, tailBytes: int) {
    j <= |text| && if tailBytes <= 0 then j == |text| else LongestTail(Chunks(text), j, tailBytes)
  }

  /** Stepping back from the limit over continuation bytes finds the longest head. */
  method HeadEnd(bytes: seq<Byte>, ghost chunks: seq<seq<Byte>>, maxBytes: nat) returns (end: nat, ghost k: nat)
    requires ChunksOk(chunks) && bytes == Flat(chunks, |chunks|) && maxBytes < |bytes|
    ensures LongestHead(chunks, k, maxBytes) && end == Offset(chunks, k)
  {
    end := maxBytes;
    assert BeginsAt(chunks, 0, 0);
    ContinuationIsInside(chunks, end);
    while end > 0 && IsContinuation(bytes[end])
      invariant 0 <= end <= maxBytes && (IsContinuation(bytes[end]) <==> !IsBoundary(chunks, end))
      invariant forall p | end < p <= maxBytes :: !IsBoundary(chunks, p)
    {
      end := end - 1;
      ContinuationIsInside(chunks, end);
    }
    k :| 0 <= k <= |chunks| && BeginsAt(chunks, k, end);
    if k < |chunks| {
      FlatPrefix(chunks, k, k + 1);
      assert BeginsAt(chunks, k + 1, Offset(chunks, k + 1));
      assert IsBoundary(chunks, Offset(chunks, k + 1));
    }
  }

  /** Stepping forward from the limit over continuation bytes finds the longest tail. */
  method TailStart(bytes: seq<Byte>, ghost chunks: seq<seq<Byte>>, maxBytes: nat) returns (start: nat, ghost k: nat)
    requires ChunksOk(chunks) && bytes == Flat(chunks, |chunks|) && maxBytes < |bytes|
    ensures LongestTail(chunks, k, maxBytes) && start == Offset(chunks, k)
  {
    start := |bytes| - maxBytes;
    assert BeginsAt(chunks, |chunks|, |bytes|);
    while start < |bytes| && IsContinuation(bytes[start])
      invariant |bytes| - maxBytes <= start <= |bytes|
      invariant forall p | |bytes| - maxBytes <= p < start :: !IsBoundary(chunks, p)
    {
      ContinuationIsInside(chunks, start);
      start := start + 1;
    }
    if start < |bytes| { ContinuationIsInside(chunks, start); }
    assert IsBoundary(chunks, start);
    k :| 0 <= k <= |chunks| && BeginsAt(chunks, k, start);
    assert Offset(chunks, k) == start;
    if k > 0 {
      FlatPrefix(chunks, k - 1, k);
      assert BeginsAt(chunks, k - 1, Offset(chunks, k - 1));
      assert IsBoundary(chunks, Offset(chunks, k - 1));
    }
  }

  /** The longest leading run of whole code points within the limit, less a leading byte order mark. */
  method TruncateUtf8(text: Text, maxBytes: int) returns (r: Text, ghost k: nat)
    ensures 0 < maxBytes && ByteLength(text) <= maxBytes ==> r == text
    ensures maxBytes <= 0 || maxBytes < ByteLength(text) ==>
              HeadSlice(text, k, maxBytes) && r == StripMark(Scalars(text)[..k])
  {
    if maxBytes <= 0 { return [], 0; }
    var bytes := Encode(text);
    if |bytes| <= maxBytes { return text, |text|; }
    ChunksAreOk(text);
    var end;
    end, k := HeadEnd(bytes, Chunks(text), maxBytes);
    DecodeSlice(text, 0, k);
    assert Scalars(text)[0..k] == Scalars(text)[..k] && bytes[0..end] == bytes[..end];
    r := DecodeText(bytes[..end]);
  }

  lemma {:induction false} DecodeTail(text: Text, k: nat, start: nat)
    requires k <= |text| && start == Offset(Chunks(text), k)
    ensures start <= ByteLength(text) && Decode(Encode(text)[start..]) == Scalars(text)[k..]
  {
    DecodeSlice(text, k, |text|);
    assert Scalars(text)[k..|text|] == Scalars(text)[k..];
    assert Encode(text)[start..ByteLength(text)] == Encode(text)[start..];
  }

  /** The longest trailing run of whole code points within the limit, less a leading byte order mark. */
  method TruncateUtf8Tail(text: Text, maxBytes: int) returns (r: Text, ghost k: nat)
    ensures 0 < maxBytes && ByteLength(text) <= maxBytes ==> r == text
    ensures maxBytes <= 0 || maxBytes < ByteLength(text) ==>
              TailSlice(text, k, maxBytes) && r == StripMark(Scalars(text)[k..])
  {
    if maxBytes <= 0 { return [], |text|; }
    var bytes := Encode(text);
    if |bytes| <= maxBytes { return text, 0; }
    ChunksAreOk(text);
    var start;
    start, k := TailStart(bytes, Chunks(text), maxBytes);
    DecodeTail(text, k, start);
    r := DecodeText(bytes[start..]);
  }

  // ----- Previews.

  datatype Preview = Preview(text: Text, truncated: bool, originalBytes: nat, omittedBytes: int)

  function CodePoints(s: string): Text { seq(|s|, i requires 0 <= i < |s| => s[i] as int % 0x11_0000) }

  /** The marker between head and tail. */
  function Separator(omittedBytes: int): Text {
    CodePoints("\n... [") + CodePoints(if omittedBytes < 0 then "-" + Decimal(-omittedBytes) else Decimal(omittedBytes))
    + CodePoints(" bytes omitted] ...\n")
  }

  function Marks(text: Text): nat { if text != [] && text[0] == BYTE_ORDER_MARK then 3 else 0 }

  lemma {:induction false} TailSameLengths(text: Text)
    requires text != []
    ensures SameLengths(Chunks(text), Chunks(text[1..]), 1, |text| - 1)
  {
    forall k | 0 <= k < |text| - 1 ensures |Chunks(text)[1 + k]| == |Chunks(text[1..])[k]| {
      assert text[1..][k] == text[1 + k];
    }
  }

  lemma FirstOffset(chunks: seq<seq<Byte>>)
    requires chunks != []
    ensures Offset(chunks, 1) == |chunks[0]|
  {
    assert Flat(chunks, 1) == Flat(chunks, 0) + chunks[0];
  }

  lemma {:induction false} LengthFromFirst(text: Text)
    requires text != []
    ensures ByteLength(text) == |EncodeOne(text[0])| + ByteLength(text[1..])
  {
    var chunks, rest := Chunks(text), Chunks(text[1..]);
    TailSameLengths(text);
    FirstOffset(chunks);
    FlatSame(chunks, rest, 1, |text| - 1);
    assert ByteLength(text) == Offset(chunks, |text|) && ByteLength(text[1..]) == Offset(rest, |text| - 1);
  }

  lemma {:induction false} StripLength(text: Text)
    ensures ByteLength(StripMark(text)) == ByteLength(text) - Marks(text)
  {
    if Marks(text) != 0 {
      LengthFromFirst(text);
      assert |EncodeOne(BYTE_ORDER_MARK)| == 3;
    }
  }

  /** The bytes that two kept slices leave out. */
  lemma {:induction false} Accounting(text: Text, i: nat, j: nat)
    requires i <= j <= |text|
    ensures var head, tail := Scalars(text)[..i], Scalars(text)[j..];
            ByteLength(text) - (ByteLength(StripMark(head)) + ByteLength(StripMark(tail)))
            == ByteLength(Scalars(text)[i..j]) + Marks(head) + Marks(tail)
  {
    SliceLength(text, 0, i);
    SliceLength(text, i, j);
    SliceLength(text, j, |text|);
    StripLength(Scalars(text)[..i]);
    StripLength(Scalars(text)[j..]);
    assert Scalars(text)[0..i] == Scalars(text)[..i] && Scalars(text)[j..|text|] == Scalars(text)[j..];
  }

  function AtLeastZero(n: int): int { if n < 0 then 0 else n }

  /** Head and tail do not overlap when they leave something out. */
  lemma {:induction false} SlicesApart(text: Text, i: nat, j: nat, headBytes: int, tailBytes: int)
    requires HeadSlice(text, i, headBytes) && TailSlice(text, j, tailBytes)
    requires AtLeastZero(headBytes) + AtLeastZero(tailBytes) < ByteLength(text)
    ensures i <= j
  {
    ChunksAreOk(text);
    if j < i { FlatPrefix(Chunks(text), j, i); }
  }

  /**
   * A bounded preview keeps the longest head and the longest tail. Its omitted bytes are exactly the bytes between the
   * two slices, plus three for each slice that begins with U+FEFF: so every byte is accounted for as head, omitted or
   * tail exactly when no slice begins with that mark.
   */
  method HeadTailPreview(text: Text, headBytes: int, tailBytes: int, separator: Option<Text>)
    returns (preview: Preview, ghost i: nat, ghost j: nat)
    ensures ByteLength(text) <= AtLeastZero(headBytes) + AtLeastZero(tailBytes) ==>
              preview == Preview(text, false, ByteLength(text), 0)
    ensures ByteLength(text) > AtLeastZero(headBytes) + AtLeastZero(tailBytes) ==>
              && HeadSlice(text, i, headBytes) && TailSlice(text, j, tailBytes) && i <= j
              && var head, tail := Scalars(text)[..i], Scalars(text)[j..];
              && preview.truncated && preview.originalBytes == ByteLength(text)
              && preview.omittedBytes == ByteLength(Scalars(text)[i..j]) + Marks(head) + Marks(tail)
              && preview.text == StripMark(head) + separator.GetOr(Separator(preview.omittedBytes)) + StripMark(tail)
  {
    var originalBytes := ByteLength(text);
    var budget := AtLeastZero(headBytes) + AtLeastZero(tailBytes);
    if originalBytes <= budget { return Preview(text, false, originalBytes, 0), 0, 0; }
    var head, tail;
    head, i := TruncateUtf8(text, headBytes);
    tail, j := TruncateUtf8Tail(text, tailBytes);
    SlicesApart(text, i, j, headBytes, tailBytes);
    Accounting(text, i, j);
    var omittedBytes := originalBytes - (ByteLength(head) + ByteLength(tail));
    preview := Preview(head + separator.GetOr(Separator(omittedBytes)) + tail, true, originalBytes, omittedBytes);
  }
}
