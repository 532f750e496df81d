/**
 * The WAV decoder of main.py (read_wavfile and the WAVFile record).
 *
 * The source reads the header with three chained numpy.fromfile calls on one open file:
 * each `offset` is a seek relative to the cursor the previous read left behind.
 * OpenFile and FromFile model that cursor; ReadWavFile replays the chain step by step;
 * DecodeWav states the same decoder directly on the absolute positions of the canonical
 * RIFF/WAVE header, and ReadWavFile's postcondition says that the two agree.
 */
module WavDecoder {
  import opened Results
  import opened Bytes

  /** The numpy dtypes the decoder uses; all little-endian. */
  datatype Dtype = UInt16 | UInt32 | Int16 | Int32 | Int64

  function Width(d: Dtype): (w: nat)
    ensures w == 2 || w == 4 || w == 8
  {
    match d
    case UInt16 => 2
    case UInt32 => 4
    case Int16 => 2
    case Int32 => 4
    case Int64 => 8
  }

  predicate IsSigned(d: Dtype) {
    d == Int16 || d == Int32 || d == Int64
  }

  /** The value of one item of type d stored in the bytes s. */
  function ItemValue(d: Dtype, s: seq<byte>): int
    requires |s| == Width(d)
  {
    if IsSigned(d) then ToSigned(LeUnsigned(s), Width(d)) else LeUnsigned(s)
  }

  lemma MulPositive(k: int, w: int)
    requires w > 0 && k > 0
    ensures k * w >= w
  {
  }

  lemma MulNegative(k: int, w: int)
    requires w > 0 && k < 0
    ensures k * w <= -w
  {
  }

  /** Division is determined by quotient and remainder. */
  lemma DivUnique(n: int, w: int, q: int, r: int)
    requires w > 0 && n == q * w + r && 0 <= r < w
    ensures n / w == q
  {
    var q', r' := n / w, n % w;
    assert (q' - q) * w == r - r';
    var k := q' - q;
    if k > 0 { MulPositive(k, w); }
    if k < 0 { MulNegative(k, w); }
  }

  lemma DivStep(n: nat, w: nat)
    requires w > 0 && n >= w
    ensures (n - w) / w + 1 == n / w
    ensures (n / w) * w == ((n - w) / w) * w + w
  {
    var q, r := (n - w) / w, (n - w) % w;
    assert n == (q + 1) * w + r;
    DivUnique(n, w, q + 1, r);
  }

  /** The whole pieces fit in the bytes. */
  lemma WholePart(n: nat, w: nat)
    requires w > 0
    ensures (n / w) * w <= n
  {
    assert n == (n / w) * w + n % w;
  }

  /** s cut into whole w-byte pieces, in order; a trailing partial piece is dropped. */
  function Chunks(s: seq<byte>, w: nat): (r: seq<seq<byte>>)
    requires w > 0
    ensures |r| == |s| / w
    ensures forall k :: 0 <= k < |r| ==> |r[k]| == w
    decreases |s|
  {
    if |s| < w then []
    else
      DivStep(|s|, w);
      [s[..w]] + Chunks(s[w..], w)
  }

  /** The whole items of type d stored back to back in s; a trailing partial item is dropped. */
  function Items(d: Dtype, s: seq<byte>): (r: seq<int>)
    ensures |r| == |s| / Width(d)
  {
    var c := Chunks(s, Width(d));
    seq(|c|, k requires 0 <= k < |c| => ItemValue(d, c[k]))
  }

  /** Piece i below the piece count lies inside the bytes, and the converse. */
  lemma SlotInside(i: nat, n: nat, w: nat)
    requires w > 0
    ensures i < n / w <==> (i + 1) * w <= n
  {
    if i < n / w {
      assert (i + 1) * w <= (n / w) * w;
    } else {
      assert (n / w + 1) * w <= (i + 1) * w;
    }
  }

  lemma SlotShift(i: nat, w: nat)
    requires i > 0
    ensures (i - 1) * w + w == i * w
  {
  }

  /** Piece i is the w bytes at lo = i*w. */
  lemma {:induction false} ChunkAt(s: seq<byte>, w: nat, i: nat, lo: nat)
    requires w > 0 && lo == i * w && lo + w <= |s|
    ensures i < |Chunks(s, w)| && Chunks(s, w)[i] == s[lo..lo + w]
    decreases |s|
  {
    SlotInside(i, |s|, w);
    if i > 0 {
      SlotShift(i, w);
      ChunkAt(s[w..], w, i - 1, lo - w);
      assert s[w..][lo - w..lo] == s[lo..lo + w];
    }
  }

  /** Item i of Items(d, s) is read from bytes i*w up to (i+1)*w of s. */
  lemma ItemAt(d: Dtype, s: seq<byte>, i: nat)
    requires i < |s| / Width(d)
    ensures i * Width(d) + Width(d) <= |s|
    ensures Items(d, s)[i] == ItemValue(d, s[i * Width(d)..i * Width(d) + Width(d)])
  {
    var w := Width(d);
    SlotInside(i, |s|, w);
    MulSucc(i, w);
    ChunkAt(s, w, i, i * w);
  }

  /** Cutting off the trailing partial piece first leaves the pieces unchanged. */
  lemma {:induction false} ChunksOfWholePrefix(s: seq<byte>, w: nat)
    requires w > 0
    ensures (|s| / w) * w <= |s|
    ensures Chunks(s[..(|s| / w) * w], w) == Chunks(s, w)
    decreases |s|
  {
    var n := (|s| / w) * w;
    WholePart(|s|, w);
    if |s| >= w {
      DivStep(|s|, w);
      ChunksOfWholePrefix(s[w..], w);
      var m := ((|s| - w) / w) * w;
      assert s[..n][w..] == s[w..][..m];
      assert s[..n][..w] == s[..w];
    }
  }

  /** Items reads the same values when the trailing partial item is cut off first. */
  lemma ItemsOfWholePrefix(d: Dtype, s: seq<byte>)
    ensures (|s| / Width(d)) * Width(d) <= |s|
    ensures Items(d, s[..(|s| / Width(d)) * Width(d)]) == Items(d, s)
  {
    WholePart(|s|, Width(d));
    ChunksOfWholePrefix(s, Width(d));
  }

  /** C division, which truncates toward zero (numpy computes its item count this way). */
  function TruncDiv(a: int, b: int): (q: int)
    requires b > 0
    ensures q < 0 <==> a <= -b
  {
    if a >= 0 then a / b else -((-a) / b)
  }

  /**
   * numpy.fromfile(file, dtype=d, count=count, offset=offset) in binary mode on a file with
   * the given content whose cursor is at pos: the items read and the new cursor.
   * The cursor first moves offset bytes forward (possibly past the end). A negative count
   * means "all remaining items": numpy computes (size - cursor) / itemsize truncating toward
   * zero and fails when that is negative. Otherwise at most count items are read; a short
   * read returns fewer items and leaves the cursor at the end of the bytes it consumed.
   */
  function FromFileSpec(content: seq<byte>, pos: nat, d: Dtype, count: int, offset: nat): (res: (Result<seq<int>>, nat))
    ensures res.0.Err? <==> count < 0 && TruncDiv(|content| - (pos + offset), Width(d)) < 0
    ensures res.0.Err? ==> res.0.error == NegativeDimensions && res.1 == pos + offset
    ensures pos + offset <= res.1
    ensures res.0.Ok? && pos + offset <= |content| ==> res.1 <= |content|
  {
    var start := pos + offset;
    var w := Width(d);
    var rest := if start <= |content| then content[start..] else [];
    if count < 0 && TruncDiv(|content| - start, w) < 0 then (Err(NegativeDimensions), start)
    else
      var wanted := if count < 0 then TruncDiv(|content| - start, w) * w else count * w;
      var consumed := if wanted < |rest| then wanted else |rest|;
      (Ok(Items(d, rest[..consumed])), start + consumed)
  }

  /** A count=1 read yields one item exactly when the whole item lies inside the file. */
  lemma ReadOne(content: seq<byte>, pos: nat, d: Dtype, offset: nat)
    ensures var (r, p) := FromFileSpec(content, pos, d, 1, offset);
      var start := pos + offset;
      && r.Ok?
      && (|r.value| == 1 <==> start + Width(d) <= |content|)
      && (start + Width(d) <= |content| ==>
            r.value[0] == ItemValue(d, content[start..start + Width(d)]) && p == start + Width(d))
  {
    var start := pos + offset;
    var w := Width(d);
    if start + w <= |content| {
      var item := content[start..start + w];
      assert content[start..][..w] == item;
      assert item[..w] == item && item[w..] == [];
      assert Items(d, item) == [ItemValue(d, item)];
    }
  }

  /** An open binary file: its content and Python's file cursor, which numpy advances. */
  class OpenFile {
    const content: seq<byte>
    var pos: nat

    constructor (content: seq<byte>)
      ensures this.content == content && pos == 0
    {
      this.content := content;
      pos := 0;
    }

    /** One numpy.fromfile call on this file. */
    method FromFile(d: Dtype, count: int, offset: nat) returns (r: Result<seq<int>>)
      modifies this
      ensures (r, pos) == FromFileSpec(content, old(pos), d, count, offset)
    {
      // Unused below, but naming the specification's value at the start steers the proof
      // of the postcondition onto the same case split as the body.
      ghost var spec := FromFileSpec(content, pos, d, count, offset);
      pos := pos + offset;
      var w := Width(d);
      var rest := if pos <= |content| then content[pos..] else [];
      var num := count;
      if count < 0 {
        num := TruncDiv(|content| - pos, w);
        if num < 0 {
          return Err(NegativeDimensions);
        }
      }
      var wanted := num * w;
      var consumed := if wanted < |rest| then wanted else |rest|;
      r := Ok(Items(d, rest[..consumed]));
      pos := pos + consumed;
    }
  }

  /** Python's int() of the array a count=1 read returned: it needs exactly one element. */
  function AsScalar(items: Result<seq<int>>): (r: Result<int>)
    ensures r.Ok? <==> items.Ok? && |items.value| == 1
    ensures r.Ok? ==> r.value == items.value[0]
  {
    match items
    case Err(e) => Err(e)
    case Ok(xs) => if |xs| == 1 then Ok(xs[0]) else Err(TruncatedHeader)
  }

  /**
   * The WAVFile record. duration is data.size / fs as an exact rational number
   * (the source rounds it to a double).
   */
  datatype WavFile = WavFile(
    bitsPerSample: int,
    duration: real,
    fileName: string,
    fs: int,
    nChannels: int,
    data: seq<int>)

  /** Absolute positions of the fields the decoder reads (canonical RIFF/WAVE header). */
  const ChannelsAt: nat := 22   // NumChannels, u16
  const RateAt: nat := 24       // SampleRate, u32
  const BitsAt: nat := 34       // BitsPerSample, u16
  const DataAt: nat := 44       // first byte after the header

  /** The sample dtype for a bit depth; only 16, 32 and 64 bits have one. */
  function SampleType(bits: int): (d: Option<Dtype>)
    ensures d.Some? <==> bits == 16 || bits == 32 || bits == 64
    ensures d.Some? ==> IsSigned(d.value) && 8 * Width(d.value) == bits
  {
    if bits == 16 then Some(Int16)
    else if bits == 32 then Some(Int32)
    else if bits == 64 then Some(Int64)
    else None
  }

  function U16At(b: seq<byte>, p: nat): nat
    requires p + 2 <= |b|
  {
    LeUnsigned(b[p..p + 2])
  }

  function U32At(b: seq<byte>, p: nat): nat
    requires p + 4 <= |b|
  {
    LeUnsigned(b[p..p + 4])
  }

  /**
   * The decoder stated on absolute positions. It fails, in the order the source does:
   * when the file ends before the bit-depth field; when the bit depth is not 16, 32 or 64;
   * when the file is so short that numpy's item count for the payload is negative
   * (it ends a whole sample or more before byte 44); when the sample rate is zero.
   */
  function DecodeWav(fileName: string, b: seq<byte>): (r: Result<WavFile>)
    ensures |b| < BitsAt + 2 <==> r == Err(TruncatedHeader)
    ensures r.Ok? ==> r.value.fileName == fileName && r.value.fs > 0
    ensures r.Ok? ==> r.value.bitsPerSample == 16 || r.value.bitsPerSample == 32 || r.value.bitsPerSample == 64
  {
    if |b| < BitsAt + 2 then Err(TruncatedHeader)
    else
      var nChannels := U16At(b, ChannelsAt);
      var fs := U32At(b, RateAt);
      var bits := U16At(b, BitsAt);
      match SampleType(bits)
      case None => Err(UnsupportedBitDepth(bits))
      case Some(d) =>
        if |b| + Width(d) <= DataAt then Err(NegativeDimensions)
        else if fs == 0 then Err(ZeroSampleRate)
        else
          var data := if DataAt <= |b| then Items(d, b[DataAt..]) else [];
          Ok(WavFile(bits, |data| as real / fs as real, fileName, fs, nChannels, data))
  }

  /**
   * read_wavfile: the three header reads and the payload read, each advancing the shared
   * cursor. The result is exactly DecodeWav's: the relative offsets 22, 0, 6 and 8 land on
   * the absolute positions 22, 24, 34 and 44.
   */
  method ReadWavFile(fileName: string, content: seq<byte>) returns (r: Result<WavFile>)
    ensures r == DecodeWav(fileName, content)
  {
    var file := new OpenFile(content);
    var raw := file.FromFile(UInt16, 1, 22);
    ReadOne(content, 0, UInt16, 22);
    var nChannels :- AsScalar(raw);
    assert nChannels == U16At(content, ChannelsAt) && file.pos == 24;
    raw := file.FromFile(UInt32, 1, 0);
    ReadOne(content, 24, UInt32, 0);
    var fs :- AsScalar(raw);
    assert fs == U32At(content, RateAt) && file.pos == 28;
    raw := file.FromFile(UInt16, 1, 6);
    ReadOne(content, 28, UInt16, 6);
    var bits :- AsScalar(raw);
    assert bits == U16At(content, BitsAt) && file.pos == 36 && |content| >= BitsAt + 2;
    var data: Option<seq<int>> := None;
    if bits == 16 {
      raw := file.FromFile(Int16, -1, 8);
      var samples :- raw;
      data := Some(samples);
    }
    if bits == 32 {
      raw := file.FromFile(Int32, -1, 8);
      var samples :- raw;
      data := Some(samples);
    }
    if bits == 64 {
      raw := file.FromFile(Int64, -1, 8);
      var samples :- raw;
      data := Some(samples);
    }
    if data.None? {
      return Err(UnsupportedBitDepth(bits));
    }
    if fs == 0 {
      return Err(ZeroSampleRate);
    }
    PayloadAgrees(content, SampleType(bits).value);
    var samples := data.value;
    r := Ok(WavFile(bits, |samples| as real / fs as real, fileName, fs, nChannels, samples));
  }

  /** The payload read (count=-1 at cursor 44) yields DecodeWav's samples when it succeeds. */
  lemma PayloadAgrees(content: seq<byte>, d: Dtype)
    requires |content| + Width(d) > DataAt
    ensures FromFileSpec(content, 36, d, -1, 8).0
         == Ok(if DataAt <= |content| then Items(d, content[DataAt..]) else [])
  {
    if DataAt <= |content| {
      ItemsOfWholePrefix(d, content[DataAt..]);
    }
  }

  /**
   * The decoder's partner: a writer for canonical WAV files (RIFF chunk descriptor,
   * 16-byte PCM fmt sub-chunk, data sub-chunk), used to state the round trip.
   */
  predicate FitsIn(d: Dtype, x: int) {
    if IsSigned(d) then -HalfRange(Width(d)) <= x < HalfRange(Width(d)) else 0 <= x < Pow256(Width(d))
  }

  /** The bytes numpy stores for one item: ItemValue reads the value back. */
  function EncodeItem(d: Dtype, x: int): (s: seq<byte>)
    requires FitsIn(d, x)
    ensures |s| == Width(d) && ItemValue(d, s) == x
  {
    var u := if IsSigned(d) then ToUnsigned(x, Width(d)) else x;
    LeUnsignedOfEncode(u, Width(d));
    LeEncode(u, Width(d))
  }

  function EncodeItems(d: Dtype, xs: seq<int>): (s: seq<byte>)
    requires forall i :: 0 <= i < |xs| ==> FitsIn(d, xs[i])
    ensures |s| == |xs| * Width(d)
  {
    if xs == [] then [] else EncodeItem(d, xs[0]) + EncodeItems(d, xs[1..])
  }

  /** The pieces of an encoding are the encodings of the items, in order. */
  lemma {:induction false} ChunksOfEncode(d: Dtype, xs: seq<int>)
    requires forall i :: 0 <= i < |xs| ==> FitsIn(d, xs[i])
    ensures var c := Chunks(EncodeItems(d, xs), Width(d));
      |c| == |xs| && forall k :: 0 <= k < |xs| ==> c[k] == EncodeItem(d, xs[k])
  {
    if xs != [] {
      var s := EncodeItems(d, xs);
      var w := Width(d);
      assert s[..w] == EncodeItem(d, xs[0]);
      assert s[w..] == EncodeItems(d, xs[1..]);
      ChunksOfEncode(d, xs[1..]);
    }
  }

  /** Items reads back every encoded item, in order. */
  lemma ItemsOfEncode(d: Dtype, xs: seq<int>)
    requires forall i :: 0 <= i < |xs| ==> FitsIn(d, xs[i])
    ensures Items(d, EncodeItems(d, xs)) == xs
  {
    ChunksOfEncode(d, xs);
    var r := Items(d, EncodeItems(d, xs));
    assert forall k :: 0 <= k < |xs| ==> r[k] == xs[k];
  }

  const RiffTag: seq<byte> := [82, 73, 70, 70]     // "RIFF"
  const WaveTag: seq<byte> := [87, 65, 86, 69]     // "WAVE"
  const FmtTag: seq<byte> := [102, 109, 116, 32]   // "fmt "
  const DataTag: seq<byte> := [100, 97, 116, 97]   // "data"

  /** Where the three fields the decoder reads sit in a header laid out field by field. */
  lemma HeaderLayout(pre: seq<byte>, channels: seq<byte>, rate: seq<byte>, mid: seq<byte>,
                     depth: seq<byte>, post: seq<byte>)
    requires |pre| == ChannelsAt && |channels| == 2 && |rate| == 4
    requires |mid| == BitsAt - RateAt - 4 && |depth| == 2
    ensures var h := pre + channels + rate + mid + depth + post;
      && h[ChannelsAt..ChannelsAt + 2] == channels
      && h[RateAt..RateAt + 4] == rate
      && h[BitsAt..BitsAt + 2] == depth
  {
  }

  /** The 44-byte canonical header for a payload of dataBytes bytes. */
  function CanonicalHeader(nChannels: nat, fs: nat, bits: nat, dataBytes: nat): (h: seq<byte>)
    requires nChannels < Pow256(2) && fs < Pow256(4) && bits < Pow256(2)
    ensures |h| == DataAt
    ensures U16At(h, ChannelsAt) == nChannels && U32At(h, RateAt) == fs && U16At(h, BitsAt) == bits
  {
    var blockAlign := nChannels * (bits / 8);
    var descriptor := RiffTag + LeEncode((36 + dataBytes) % Pow256(4), 4) + WaveTag;
    var fmtHead := FmtTag + LeEncode(16, 4) + LeEncode(1, 2);
    var channels := LeEncode(nChannels, 2);
    var rate := LeEncode(fs, 4);
    var rateAndAlign := LeEncode((fs * blockAlign) % Pow256(4), 4) + LeEncode(blockAlign % Pow256(2), 2);
    var depth := LeEncode(bits, 2);
    var dataHead := DataTag + LeEncode(dataBytes % Pow256(4), 4);
    var h := descriptor + fmtHead + channels + rate + rateAndAlign + depth + dataHead;
    HeaderLayout(descriptor + fmtHead, channels, rate, rateAndAlign, depth, dataHead);
    LeUnsignedOfEncode(nChannels, 2);
    LeUnsignedOfEncode(fs, 4);
    LeUnsignedOfEncode(bits, 2);
    h
  }

  /** A canonical WAV file holding the given interleaved samples. */
  function CanonicalWav(nChannels: nat, fs: nat, bits: nat, samples: seq<int>): seq<byte>
    requires nChannels < Pow256(2) && fs < Pow256(4) && SampleType(bits).Some?
    requires forall i :: 0 <= i < |samples| ==> FitsIn(SampleType(bits).value, samples[i])
  {
    var payload := EncodeItems(SampleType(bits).value, samples);
    CanonicalHeader(nChannels, fs, bits, |payload|) + payload
  }

  /** Decoding a canonical file gives back its channel count, rate, depth and samples. */
  lemma DecodeCanonical(fileName: string, nChannels: nat, fs: nat, bits: nat, samples: seq<int>)
    requires nChannels < Pow256(2) && 0 < fs < Pow256(4) && SampleType(bits).Some?
    requires forall i :: 0 <= i < |samples| ==> FitsIn(SampleType(bits).value, samples[i])
    ensures DecodeWav(fileName, CanonicalWav(nChannels, fs, bits, samples))
         == Ok(WavFile(bits, |samples| as real / fs as real, fileName, fs, nChannels, samples))
  {
    var d := SampleType(bits).value;
    var payload := EncodeItems(d, samples);
    var h := CanonicalHeader(nChannels, fs, bits, |payload|);
    var b := h + payload;
    assert b[..DataAt] == h && b[DataAt..] == payload;
    assert U16At(b, ChannelsAt) == nChannels && U32At(b, RateAt) == fs && U16At(b, BitsAt) == bits by {
      assert b[ChannelsAt..ChannelsAt + 2] == h[ChannelsAt..ChannelsAt + 2];
      assert b[RateAt..RateAt + 4] == h[RateAt..RateAt + 4];
      assert b[BitsAt..BitsAt + 2] == h[BitsAt..BitsAt + 2];
    }
    ItemsOfEncode(d, samples);
  }

  /** The shape of a successful decode, with the sample dtype named. */
  lemma DecodedShape(fileName: string, b: seq<byte>)
    requires DecodeWav(fileName, b).Ok?
    ensures var wav := DecodeWav(fileName, b).value;
      && |b| >= BitsAt + 2
      && wav.bitsPerSample == U16At(b, BitsAt)
      && SampleType(wav.bitsPerSample).Some?
      && wav.data == (if DataAt <= |b| then Items(SampleType(wav.bitsPerSample).value, b[DataAt..]) else [])
  {
  }

  /**
   * What a successful decode returns: the three header fields at their absolute positions,
   * a positive rate, a supported depth, duration times rate equal to the sample count, and
   * as many samples as whole bits/8-byte items follow byte 44.
   */
  lemma DecodedHeader(fileName: string, b: seq<byte>)
    requires DecodeWav(fileName, b).Ok?
    ensures var wav := DecodeWav(fileName, b).value;
      && |b| >= BitsAt + 2
      && wav.fileName == fileName
      && wav.nChannels == U16At(b, ChannelsAt)
      && wav.fs == U32At(b, RateAt) && wav.fs > 0
      && wav.bitsPerSample == U16At(b, BitsAt)
      && (wav.bitsPerSample == 16 || wav.bitsPerSample == 32 || wav.bitsPerSample == 64)
      && wav.duration * (wav.fs as real) == |wav.data| as real
      && |wav.data| == (if |b| >= DataAt then (|b| - DataAt) / (wav.bitsPerSample / 8) else 0)
  {
    var wav := DecodeWav(fileName, b).value;
    DecodedShape(fileName, b);
    var d := SampleType(wav.bitsPerSample).value;
    assert wav.bitsPerSample / 8 == Width(d);
    RateTimesDuration(|wav.data|, wav.fs);
  }

  lemma RateTimesDuration(n: nat, fs: int)
    requires fs > 0
    ensures (n as real / fs as real) * (fs as real) == n as real
  {
  }

  lemma SliceOfSuffix(b: seq<byte>, k: nat, lo: nat, hi: nat)
    requires k <= |b| && lo <= hi <= |b| - k
    ensures b[k..][lo..hi] == b[k + lo..k + hi]
  {
  }

  lemma MulSucc(i: nat, w: nat)
    ensures (i + 1) * w == i * w + w
  {
  }

  /** Item i of the payload that starts at byte 44, located in the whole file. */
  lemma PayloadItemAt(d: Dtype, b: seq<byte>, i: nat)
    requires DataAt <= |b| && i < |Items(d, b[DataAt..])|
    ensures DataAt + i * Width(d) + Width(d) <= |b|
    ensures Items(d, b[DataAt..])[i] == ItemValue(d, b[DataAt + i * Width(d)..DataAt + i * Width(d) + Width(d)])
  {
    var w := Width(d);
    var payload := b[DataAt..];
    ItemAt(d, payload, i);
    SliceOfSuffix(b, DataAt, i * w, i * w + w);
  }

  /** Sample i is the signed little-endian integer in the bits/8 bytes at 44 + i*bits/8. */
  lemma DecodedSampleAt(fileName: string, b: seq<byte>, i: nat)
    requires DecodeWav(fileName, b).Ok? && i < |DecodeWav(fileName, b).value.data|
    ensures var wav := DecodeWav(fileName, b).value;
      var w := wav.bitsPerSample / 8;
      var lo := DataAt + i * w;
      && 0 < w && lo + w <= |b|
      && wav.data[i] == ToSigned(LeUnsigned(b[lo..lo + w]), w)
  {
    var wav := DecodeWav(fileName, b).value;
    DecodedShape(fileName, b);
    var d := SampleType(wav.bitsPerSample).value;
    assert wav.bitsPerSample / 8 == Width(d);
    PayloadItemAt(d, b, i);
  }

  /** The decoder succeeds exactly when none of its four failure conditions holds. */
  lemma DecodeSucceedsIff(fileName: string, b: seq<byte>)
    ensures DecodeWav(fileName, b).Ok? <==>
      && |b| >= BitsAt + 2
      && SampleType(U16At(b, BitsAt)).Some?
      && |b| + U16At(b, BitsAt) / 8 > DataAt
      && U32At(b, RateAt) > 0
  {
  }
}
