/** RIFF/WAVE headers: the chunk walker of benchmark/eval/audio.py against a grammar of
    chunk lists, and the two writers (benchmark/utils.py, benchmark/tts_speech_bench.py)
    as its inverses. */
module Wave {
  import opened Bytes
  import opened Wrappers

  const RIFF: bytes := [0x52, 0x49, 0x46, 0x46]
  const WAVE: bytes := [0x57, 0x41, 0x56, 0x45]
  const FMT: bytes := [0x66, 0x6d, 0x74, 0x20]
  const DATA: bytes := [0x64, 0x61, 0x74, 0x61]

  /** What a `fmt ` body says. */
  datatype Fmt = Fmt(rate: nat, channels: nat, bits: nat)

  datatype WavFormat = WavFormat(sampleRate: nat, channels: nat, bitsPerSample: nat, dataOffset: nat)

  function FmtAt(d: bytes, p: nat): Fmt
    requires p + 16 <= |d|
  {
    Fmt(U32(d, p + 4), U16(d, p + 2), U16(d, p + 14))
  }

  // ---------------------------------------------------------------- the walker

  /** Where the chunk at `pos` ends: odd bodies are padded to even. */
  function NextChunk(d: bytes, pos: nat): (next: nat)
    requires pos + 8 <= |d|
    ensures next >= pos + 8
  {
    var size := U32(d, pos + 4);
    pos + 8 + size + size % 2
  }

  /** The walk from chunk boundary `pos`, with the last `fmt ` seen so far. */
  function Walk(d: bytes, pos: nat, fmt: Option<Fmt>): Option<WavFormat>
    decreases |d| - pos
  {
    if pos + 8 > |d| then None
    else if d[pos..pos + 4] == FMT then
      if pos + 24 > |d| then None else Walk(d, NextChunk(d, pos), Some(FmtAt(d, pos + 8)))
    else if d[pos..pos + 4] == DATA then
      match fmt
      case None => None
      case Some(f) => Some(WavFormat(f.rate, f.channels, f.bits, pos + 8))
    else Walk(d, NextChunk(d, pos), fmt)
  }

  /** The result at a `data` chunk. */
  function Found(fmt: Option<Fmt>, offset: nat): Option<WavFormat> {
    match fmt
    case None => None
    case Some(f) => Some(WavFormat(f.rate, f.channels, f.bits, offset))
  }

  function Parse(d: bytes): Option<WavFormat> {
    if |d| < 12 || d[..4] != RIFF || d[8..12] != WAVE then None else Walk(d, 12, None)
  }

  method ParseWavHeader(data: bytes) returns (r: Option<WavFormat>)
    ensures r == Parse(data)
  {
    if |data| < 12 || data[..4] != RIFF || data[8..12] != WAVE {
      return None;
    }
    var pos: nat, fmt: Option<Fmt> := 12, None;
    while pos + 8 <= |data|
      invariant Walk(data, pos, fmt) == Parse(data)
      decreases |data| - pos
    {
      var cid, size := data[pos..pos + 4], U32(data, pos + 4);
      var body := pos + 8;
      if cid == FMT {
        if body + 16 > |data| {
          return None;
        }
        fmt := Some(FmtAt(data, body));
      } else if cid == DATA {
        if fmt == None {
          return None;
        }
        return Some(WavFormat(fmt.value.rate, fmt.value.channels, fmt.value.bits, body));
      }
      pos := body + size + size % 2;
    }
    return None;
  }

  // ---------------------------------------------------------------- a grammar of files

  datatype RiffChunk = RiffChunk(id: bytes, body: bytes, pad: byte) {
    /** A chunk the format allows before the samples: a `fmt ` body has its 16 bytes. */
    predicate BeforeData() {
      |id| == 4 && id != DATA && |body| < U32_LIMIT && (id == FMT ==> |body| >= 16)
    }

    /** The format in force after this chunk. */
    function After(fmt: Option<Fmt>): Option<Fmt>
      requires BeforeData()
    {
      if id == FMT then Some(FmtAt(body, 0)) else fmt
    }

    function Encode(): (b: bytes)
      requires BeforeData()
    {
      id + Pack32(|body|) + body + if |body| % 2 == 1 then [pad] else []
    }
  }

  ghost predicate BeforeDataAll(chunks: seq<RiffChunk>) {
    forall c <- chunks :: c.BeforeData()
  }

  function EncodeAll(chunks: seq<RiffChunk>): bytes
    requires BeforeDataAll(chunks)
  {
    if chunks == [] then [] else chunks[0].Encode() + EncodeAll(chunks[1..])
  }

  /** A whole file: `riffSize` and `dataSize` are whatever four bytes the server put there. */
  function FileOf(riffSize: bytes, chunks: seq<RiffChunk>, dataSize: bytes, samples: bytes): bytes
    requires BeforeDataAll(chunks)
  {
    RIFF + riffSize + WAVE + EncodeAll(chunks) + DATA + dataSize + samples
  }

  /** The format in force after `chunks`: the last `fmt ` wins. */
  function LastFmt(chunks: seq<RiffChunk>, fmt: Option<Fmt>): Option<Fmt>
    requires BeforeDataAll(chunks)
  {
    if chunks == [] then fmt
    else LastFmt(chunks[1..], chunks[0].After(fmt))
  }

  lemma FmtSlice(d: bytes, p: nat, body: bytes)
    requires p + |body| <= |d| && |body| >= 16 && d[p..p + |body|] == body
    ensures FmtAt(d, p) == FmtAt(body, 0)
  {
    forall i | 0 <= i < 16
      ensures d[p + i] == body[i]
    {
      assert d[p..p + |body|][i] == body[i];
    }
  }

  lemma ChunkParts(before: bytes, id: bytes, size: bytes, body: bytes, pad: bytes, after: bytes)
    requires |id| == |size| == 4
    ensures var (d, p) := (before + (id + size + body + pad) + after, |before|);
            && |d| >= p + 8 + |body|
            && d[p..p + 4] == id && d[p + 4..p + 8] == size && d[p + 8..p + 8 + |body|] == body
  {
    var d := before + (id + size + body + pad) + after;
    assert d == before + id + (size + body + pad + after);
    Window(before, id, size + body + pad + after);
    assert d == (before + id) + size + (body + pad + after);
    Window(before + id, size, body + pad + after);
    assert d == (before + id + size) + body + (pad + after);
    Window(before + id + size, body, pad + after);
  }

  /** What the walker reads at a well-formed chunk. */
  lemma ReadChunk(before: bytes, c: RiffChunk, after: bytes)
    requires c.BeforeData()
    ensures var (d, p) := (before + c.Encode() + after, |before|);
            && p + 8 <= |d| && d[p..p + 4] == c.id
            && NextChunk(d, p) == p + |c.Encode()|
            && (c.id == FMT ==> p + 24 <= |d| && FmtAt(d, p + 8) == FmtAt(c.body, 0))
  {
    var d, p, size := before + c.Encode() + after, |before|, Pack32(|c.body|);
    var pad := if |c.body| % 2 == 1 then [c.pad] else [];
    ChunkParts(before, c.id, size, c.body, pad, after);
    U32Slice(d, p + 4, size);
    if c.id == FMT {
      FmtSlice(d, p + 8, c.body);
    }
  }

  /** The walk crosses one well-formed chunk in one step. */
  lemma CrossChunk(d: bytes, before: bytes, c: RiffChunk, after: bytes, fmt: Option<Fmt>)
    requires c.BeforeData()
    requires d == before + c.Encode() + after
    ensures Walk(d, |before|, fmt) == Walk(d, |before + c.Encode()|, c.After(fmt))
  {
    ReadChunk(before, c, after);
  }

  lemma Regroup(before: bytes, x: bytes, y: bytes, after: bytes)
    ensures before + (x + y) + after == before + x + (y + after)
    ensures before + (x + y) + after == (before + x) + y + after
  {
  }

  lemma {:induction false} CrossChunks(d: bytes, before: bytes, chunks: seq<RiffChunk>, after: bytes,
                                       fmt: Option<Fmt>)
    requires BeforeDataAll(chunks)
    requires d == before + EncodeAll(chunks) + after
    ensures Walk(d, |before|, fmt) == Walk(d, |before + EncodeAll(chunks)|, LastFmt(chunks, fmt))
    decreases |chunks|
  {
    if chunks == [] {
      assert before + EncodeAll(chunks) == before;
    } else {
      var c, rest := chunks[0], EncodeAll(chunks[1..]);
      Regroup(before, c.Encode(), rest, after);
      assert EncodeAll(chunks) == c.Encode() + rest;
      assert d == before + c.Encode() + (rest + after);
      CrossChunk(d, before, c, rest + after, fmt);
      assert LastFmt(chunks, fmt) == LastFmt(chunks[1..], c.After(fmt));
      CrossChunks(d, before + c.Encode(), chunks[1..], after, c.After(fmt));
      assert |before + EncodeAll(chunks)| == |before + c.Encode() + rest|;
    }
  }

  /** The parser on a preamble, chunks and a `data` header. */
  lemma ParseFrom(d: bytes, head: bytes, chunks: seq<RiffChunk>, tail: bytes)
    requires BeforeDataAll(chunks) && d == head + EncodeAll(chunks) + tail && |head| == 12 && |tail| >= 8
    requires d[..4] == RIFF && d[8..12] == WAVE
    requires d[12 + |EncodeAll(chunks)|..12 + |EncodeAll(chunks)| + 4] == DATA
    ensures Parse(d) == Found(LastFmt(chunks, None), 20 + |EncodeAll(chunks)|)
  {
    CrossChunks(d, head, chunks, tail, None);
    DataAt(d, 12 + |EncodeAll(chunks)|, LastFmt(chunks, None));
  }

  /** The parser inverts the grammar: it finds the last `fmt ` before the samples and the
      offset of the samples, whatever the two size fields hold. */
  lemma ParseInvertsFile(riffSize: bytes, chunks: seq<RiffChunk>, dataSize: bytes, samples: bytes)
    requires |riffSize| == |dataSize| == 4 && BeforeDataAll(chunks)
    ensures var d := FileOf(riffSize, chunks, dataSize, samples);
            var offset := 20 + |EncodeAll(chunks)|;
            && offset <= |d| && d[offset..] == samples
            && Parse(d) == match LastFmt(chunks, None)
                           case None => None
                           case Some(f) => Some(WavFormat(f.rate, f.channels, f.bits, offset))
  {
    FileParts(riffSize, EncodeAll(chunks), dataSize, samples);
    ParseFrom(FileOf(riffSize, chunks, dataSize, samples), RIFF + riffSize + WAVE, chunks, DATA + dataSize + samples);
  }

  lemma FileParts(riffSize: bytes, all: bytes, dataSize: bytes, samples: bytes)
    requires |riffSize| == |dataSize| == 4
    ensures var (d, n) := (RIFF + riffSize + WAVE + all + DATA + dataSize + samples, 12 + |all|);
            && |d| >= n + 8 && d[..4] == RIFF && d[8..12] == WAVE && d[n..n + 4] == DATA && d[n + 8..] == samples
            && d == (RIFF + riffSize + WAVE) + all + (DATA + dataSize + samples)
  {
  }

  lemma DataAt(d: bytes, pos: nat, fmt: Option<Fmt>)
    requires pos + 8 <= |d| && d[pos..pos + 4] == DATA
    ensures Walk(d, pos, fmt) == Found(fmt, pos + 8)
  {
  }

  lemma {:induction false} LastFmtSplit(a: seq<RiffChunk>, b: seq<RiffChunk>, fmt: Option<Fmt>)
    requires BeforeDataAll(a) && BeforeDataAll(b)
    ensures LastFmt(a + b, fmt) == LastFmt(b, LastFmt(a, fmt))
  {
    if a == [] {
      assert a + b == b;
    } else {
      assert (a + b)[1..] == a[1..] + b;
      LastFmtSplit(a[1..], b, a[0].After(fmt));
    }
  }

  lemma {:induction false} EncodeAllSplit(a: seq<RiffChunk>, b: seq<RiffChunk>)
    requires BeforeDataAll(a) && BeforeDataAll(b)
    ensures EncodeAll(a + b) == EncodeAll(a) + EncodeAll(b)
  {
    if a == [] {
      assert a + b == b;
    } else {
      assert (a + b)[1..] == a[1..] + b;
      EncodeAllSplit(a[1..], b);
    }
  }

  lemma InsertUnknown(a: seq<RiffChunk>, unknown: RiffChunk, b: seq<RiffChunk>)
    requires BeforeDataAll(a) && BeforeDataAll(b) && unknown.BeforeData() && unknown.id != FMT
    ensures LastFmt(a + [unknown] + b, None) == LastFmt(a + b, None)
    ensures |EncodeAll(a + [unknown] + b)| == |EncodeAll(a + b)| + |unknown.Encode()|
  {
    LastFmtSplit(a, b, None);
    LastFmtSplit(a, [unknown], None);
    LastFmtSplit(a + [unknown], b, None);
    EncodeAllSplit(a, b);
    EncodeAllSplit(a, [unknown]);
    EncodeAllSplit(a + [unknown], b);
  }

  /** A chunk the walker does not know, anywhere before the samples, only moves them. */
  lemma UnknownChunkMovesOffset(size: bytes, a: seq<RiffChunk>, unknown: RiffChunk, b: seq<RiffChunk>,
                                dataSize: bytes, samples: bytes)
    requires |size| == |dataSize| == 4
    requires BeforeDataAll(a) && BeforeDataAll(b) && unknown.BeforeData() && unknown.id != FMT
    ensures BeforeDataAll(a + b) && BeforeDataAll(a + [unknown] + b)
    ensures var without := Parse(FileOf(size, a + b, dataSize, samples));
            var with := Parse(FileOf(size, a + [unknown] + b, dataSize, samples));
            match without
            case None => with == None
            case Some(w) => with == Some(w.(dataOffset := w.dataOffset + |unknown.Encode()|))
  {
    InsertUnknown(a, unknown, b);
    ParseInvertsFile(size, a + b, dataSize, samples);
    ParseInvertsFile(size, a + [unknown] + b, dataSize, samples);
  }

  // ---------------------------------------------------------------- streaming

  /** A prefix that holds what a step reads takes the same step. */
  lemma SameStep(d: bytes, n: nat, pos: nat)
    requires pos + 8 <= n <= |d|
    ensures d[..n][pos..pos + 4] == d[pos..pos + 4]
    ensures NextChunk(d[..n], pos) == NextChunk(d, pos)
    ensures pos + 24 <= n ==> FmtAt(d[..n], pos + 8) == FmtAt(d, pos + 8)
  {
  }

  /** A walk that succeeds on a prefix takes the same steps on the whole. */
  lemma {:induction false} WalkExtends(d: bytes, n: nat, pos: nat, fmt: Option<Fmt>)
    requires n <= |d|
    requires Walk(d[..n], pos, fmt).Some?
    ensures Walk(d, pos, fmt) == Walk(d[..n], pos, fmt)
    ensures pos + 8 <= Walk(d, pos, fmt).value.dataOffset <= n
    decreases |d| - pos
  {
    SameStep(d, n, pos);
    if d[pos..pos + 4] == FMT {
      WalkExtends(d, n, NextChunk(d, pos), Some(FmtAt(d, pos + 8)));
    } else if d[pos..pos + 4] != DATA {
      WalkExtends(d, n, NextChunk(d, pos), fmt);
    }
  }

  /** A walk that succeeds on the whole succeeds on a prefix with 8 bytes of samples. */
  lemma {:induction false} WalkReaches(d: bytes, n: nat, pos: nat, fmt: Option<Fmt>)
    requires n <= |d|
    requires Walk(d, pos, fmt).Some? && Walk(d, pos, fmt).value.dataOffset + 8 <= n
    ensures pos + 8 <= Walk(d, pos, fmt).value.dataOffset
    ensures Walk(d[..n], pos, fmt).Some?
    decreases |d| - pos
  {
    if d[pos..pos + 4] == FMT {
      WalkReaches(d, n, NextChunk(d, pos), Some(FmtAt(d, pos + 8)));
      SameStep(d, n, pos);
    } else if d[pos..pos + 4] != DATA {
      WalkReaches(d, n, NextChunk(d, pos), fmt);
      SameStep(d, n, pos);
    } else {
      SameStep(d, n, pos);
    }
  }

  /** The bytes a walk reads before it succeeds: every `fmt ` it crosses needs 16 body bytes, even
      one that says it is shorter, and the samples begin after the `data` header. */
  function Needed(d: bytes, pos: nat): nat
    decreases |d| - pos
  {
    if pos + 8 > |d| then 0
    else if d[pos..pos + 4] == FMT then Max(pos + 24, Needed(d, NextChunk(d, pos)))
    else if d[pos..pos + 4] == DATA then pos + 8
    else Needed(d, NextChunk(d, pos))
  }

  function Max(a: nat, b: nat): nat {
    if a > b then a else b
  }

  /** Exactly the prefixes with those bytes are enough; they end with the `data` header, or up
      to 8 bytes later. */
  lemma {:induction false} WalkSucceedsIff(d: bytes, n: nat, pos: nat, fmt: Option<Fmt>)
    requires n <= |d| && Walk(d, pos, fmt).Some?
    ensures var offset := Walk(d, pos, fmt).value.dataOffset;
            pos + 8 <= offset <= Needed(d, pos) <= offset + 8
    ensures Walk(d[..n], pos, fmt).Some? <==> Needed(d, pos) <= n
    decreases |d| - pos
  {
    if pos + 8 <= n {
      SameStep(d, n, pos);
    }
    if d[pos..pos + 4] == FMT {
      WalkSucceedsIff(d, n, NextChunk(d, pos), Some(FmtAt(d, pos + 8)));
    } else if d[pos..pos + 4] != DATA {
      WalkSucceedsIff(d, n, NextChunk(d, pos), fmt);
    }
  }

  /** Success on a prefix is unchanged by more bytes, and succeed exactly the prefixes with all
      the bytes the walk reads: none that stops before the samples, all with 8 bytes of them. */
  lemma ParseIsPrefixStable(d: bytes, n: nat)
    requires n <= |d|
    ensures Parse(d[..n]).Some? ==> Parse(d) == Parse(d[..n])
    ensures Parse(d).Some? ==> (Parse(d[..n]).Some? <==> Needed(d, 12) <= n)
    ensures Parse(d).Some? && n < Parse(d).value.dataOffset ==> Parse(d[..n]) == None
    ensures Parse(d).Some? && Parse(d).value.dataOffset + 8 <= n ==> Parse(d[..n]) == Parse(d)
  {
    if Parse(d).Some? {
      WalkSucceedsIff(d, n, 12, None);
      if n >= 12 {
        SamePreamble(d, n);
      }
    }
    if Parse(d[..n]).Some? {
      SamePreamble(d, n);
      WalkExtends(d, n, 12, None);
    }
  }

  /** On a file of the grammar, exactly the prefixes that reach the samples. */
  lemma FilePrefixIff(riffSize: bytes, chunks: seq<RiffChunk>, dataSize: bytes, samples: bytes, n: nat)
    requires |riffSize| == |dataSize| == 4 && BeforeDataAll(chunks) && LastFmt(chunks, None).Some?
    requires n <= |FileOf(riffSize, chunks, dataSize, samples)|
    ensures Parse(FileOf(riffSize, chunks, dataSize, samples)[..n]).Some? <==> 20 + |EncodeAll(chunks)| <= n
  {
    var d, offset := FileOf(riffSize, chunks, dataSize, samples), 20 + |EncodeAll(chunks)|;
    ParseInvertsFile(riffSize, chunks, dataSize, samples);
    if offset <= n {
      var kept := samples[..n - offset];
      assert d[..n] == FileOf(riffSize, chunks, dataSize, kept);
      ParseInvertsFile(riffSize, chunks, dataSize, kept);
    } else {
      ParseIsPrefixStable(d, n);
    }
  }

  lemma SamePreamble(d: bytes, n: nat)
    requires 12 <= n <= |d|
    ensures d[..n][..4] == d[..4] && d[..n][8..12] == d[8..12]
  {
  }

  // ---------------------------------------------------------------- the writers

  /** The `fmt ` chunk of mono PCM16. */
  function FormatBytes(rate: nat): bytes
    requires 2 * rate < U32_LIMIT
  {
    FMT + Pack32(16) + Pack16(1) + Pack16(1) + Pack32(rate) + Pack32(2 * rate) + Pack16(2) + Pack16(16)
  }

  /** A mono PCM16 file: what both writers emit. */
  function WavBytes(rate: nat, pcm: bytes): bytes
    requires 2 * rate < U32_LIMIT && 36 + |pcm| < U32_LIMIT
  {
    RIFF + Pack32(36 + |pcm|) + WAVE + FormatBytes(rate) + DATA + Pack32(|pcm|) + pcm
  }

  /** `_write_wav` of the speech benchmark: the header is packed first, so nothing is
      written when a field does not fit. */
  function SpeechWav(pcm: bytes, rate: nat): (r: Option<bytes>)
    ensures r.Some? <==> 36 + |pcm| < U32_LIMIT && 2 * rate < U32_LIMIT
  {
    if 36 + |pcm| < U32_LIMIT && 2 * rate < U32_LIMIT then Some(WavBytes(rate, pcm)) else None
  }

  class OutputFile {
    var content: bytes

    constructor ()
      ensures content == []
    {
      content := [];
    }

    method Write(b: bytes)
      modifies this
      ensures content == old(content) + b
    {
      content := content + b;
    }
  }

  const SAMPLE_RATE: nat := 24000
  const NUM_CHANNELS: nat := 1
  const SAMPLE_WIDTH: nat := 2

  /** The `fmt ` chunk, field by field. */
  method WriteFormat(f: OutputFile)
    modifies f
    ensures f.content == old(f.content) + FormatBytes(24000)
  {
    var byteRate := SAMPLE_RATE * NUM_CHANNELS * SAMPLE_WIDTH;
    var blockAlign := NUM_CHANNELS * SAMPLE_WIDTH;
    f.Write(FMT);
    f.Write(Pack32(16));
    f.Write(Pack16(1));
    f.Write(Pack16(NUM_CHANNELS));
    f.Write(Pack32(SAMPLE_RATE));
    f.Write(Pack32(byteRate));
    f.Write(Pack16(blockAlign));
    f.Write(Pack16(SAMPLE_WIDTH * 8));
    assert f.content == old(f.content) + FormatBytes(24000);
  }

  /** `_write_wav` of benchmark/utils.py: field by field into a file just truncated. The
      first size field is the one that can be out of range, leaving `RIFF` behind. */
  method WritePcm(pcm: bytes, f: OutputFile) returns (ok: bool)
    requires f.content == []
    modifies f
    ensures ok <==> 36 + |pcm| < U32_LIMIT
    ensures ok ==> f.content == WavBytes(24000, pcm)
    ensures ok ==> Parse(f.content) == Some(WavFormat(24000, 1, 16, 44)) && f.content[44..] == pcm
    ensures !ok ==> f.content == RIFF
  {
    var dataSize := |pcm|;
    f.Write(RIFF);
    assert f.content == RIFF;
    if 36 + dataSize >= U32_LIMIT {
      return false;
    }
    f.Write(Pack32(36 + dataSize));
    f.Write(WAVE);
    WriteFormat(f);
    f.Write(DATA);
    f.Write(Pack32(dataSize));
    f.Write(pcm);
    assert f.content == WavBytes(24000, pcm);
    RoundTrip(24000, pcm);
    return true;
  }

  /** A `fmt ` body, field by field, with whatever an extended format adds. */
  function FormatBody(tag: nat, channels: nat, rate: nat, byteRate: nat, align: nat, bits: nat, extra: bytes)
    : (b: bytes)
    requires tag < U16_LIMIT && channels < U16_LIMIT && align < U16_LIMIT && bits < U16_LIMIT
    requires rate < U32_LIMIT && byteRate < U32_LIMIT
    ensures |b| == 16 + |extra|
  {
    Pack16(tag) + Pack16(channels) + Pack32(rate) + Pack32(byteRate) + Pack16(align) + Pack16(bits) + extra
  }

  /** Whatever the format, its channels, rate and sample width are what is read. */
  lemma FormatBodyFields(tag: nat, channels: nat, rate: nat, byteRate: nat, align: nat, bits: nat, extra: bytes)
    requires tag < U16_LIMIT && channels < U16_LIMIT && align < U16_LIMIT && bits < U16_LIMIT
    requires rate < U32_LIMIT && byteRate < U32_LIMIT
    ensures FmtAt(FormatBody(tag, channels, rate, byteRate, align, bits, extra), 0) == Fmt(rate, channels, bits)
  {
    var b := FormatBody(tag, channels, rate, byteRate, align, bits, extra);
    assert b[2..4] == Pack16(channels) && b[14..16] == Pack16(bits) && b[4..8] == Pack32(rate);
    U32Slice(b, 4, Pack32(rate));
    U16Slice(b, 2, Pack16(channels));
    U16Slice(b, 14, Pack16(bits));
  }

  function FmtChunk(rate: nat): (c: RiffChunk)
    requires 2 * rate < U32_LIMIT
    ensures c.BeforeData() && |c.Encode()| == 24
  {
    RiffChunk(FMT, FormatBody(1, 1, rate, 2 * rate, 2, 16, []), 0)
  }

  lemma FmtChunkFields(rate: nat)
    requires 2 * rate < U32_LIMIT
    ensures FmtAt(FmtChunk(rate).body, 0) == Fmt(rate, 1, 16)
  {
    FormatBodyFields(1, 1, rate, 2 * rate, 2, 16, []);
  }

  /** A file with one format chunk before its samples. */
  lemma OneFmt(riffSize: bytes, body: bytes, pad: byte, dataSize: bytes, samples: bytes)
    requires |riffSize| == |dataSize| == 4 && 16 <= |body| < U32_LIMIT
    ensures BeforeDataAll([RiffChunk(FMT, body, pad)])
    ensures var (file, f) := (FileOf(riffSize, [RiffChunk(FMT, body, pad)], dataSize, samples), FmtAt(body, 0));
            var offset := 28 + |body| + |body| % 2;
            && Parse(file) == Some(WavFormat(f.rate, f.channels, f.bits, offset))
            && offset <= |file| && file[offset..] == samples
  {
    var c := RiffChunk(FMT, body, pad);
    var rest := [c][1..];
    assert rest == [] && EncodeAll(rest) == [] && EncodeAll([c]) == c.Encode();
    assert LastFmt([c], None) == LastFmt(rest, c.After(None));
    ParseInvertsFile(riffSize, [c], dataSize, samples);
  }

  /** A file with any one format: stereo or mono, float or integer, plain or extended. */
  lemma AnyFormatIsRead(riffSize: bytes, tag: nat, channels: nat, rate: nat, byteRate: nat, align: nat, bits: nat,
                        extra: bytes, pad: byte, dataSize: bytes, samples: bytes) returns (body: bytes)
    requires |riffSize| == |dataSize| == 4 && 16 + |extra| < U32_LIMIT
    requires tag < U16_LIMIT && channels < U16_LIMIT && align < U16_LIMIT && bits < U16_LIMIT
    requires rate < U32_LIMIT && byteRate < U32_LIMIT
    ensures body == FormatBody(tag, channels, rate, byteRate, align, bits, extra)
    ensures BeforeDataAll([RiffChunk(FMT, body, pad)])
    ensures var (file, offset) := (FileOf(riffSize, [RiffChunk(FMT, body, pad)], dataSize, samples),
                                   28 + |body| + |body| % 2);
            && Parse(file) == Some(WavFormat(rate, channels, bits, offset))
            && offset <= |file| && file[offset..] == samples
  {
    body := FormatBody(tag, channels, rate, byteRate, align, bits, extra);
    FormatBodyFields(tag, channels, rate, byteRate, align, bits, extra);
    OneFmt(riffSize, body, pad, dataSize, samples);
  }

  lemma Placed(before: bytes, x: bytes, more: bytes, whole: bytes)
    requires before + x + more <= whole
    ensures before + x <= whole && whole[|before|..|before| + |x|] == x
  {
    var front := before + x;
    forall i | 0 <= i < |front|
      ensures whole[i] == front[i]
    {
      assert (front + more)[i] == whole[i];
    }
    assert front[|before|..] == x && whole[|before|..|front|] == front[|before|..];
  }

  lemma SlicesNest(s: bytes, from: nat, x: bytes, i: nat, j: nat)
    requires from + |x| <= |s| && s[from..from + |x|] == x && i <= j <= |x|
    ensures s[from + i..from + j] == x[i..j]
  {
    forall k | 0 <= k < j - i
      ensures s[from + i..from + j][k] == x[i..j][k]
    {
      assert s[from + (i + k)] == s[from..from + |x|][i + k];
    }
  }

  /** Where the fields of the `fmt ` chunk are. */
  lemma FormatPlaces(size: bytes, one: bytes, rate: bytes, byteRate: bytes, align: bytes, bits: bytes)
    requires |size| == |rate| == |byteRate| == 4 && |one| == |align| == |bits| == 2
    ensures var f := FMT + size + one + one + rate + byteRate + align + bits;
            && |f| == 24 && f[4..8] == size && f[8..10] == one && f[16..20] == byteRate && f[20..22] == align
  {
    var f := FMT + size + one + one + rate + byteRate + align + bits;
    Placed(FMT + size + one + one + rate + byteRate, align, bits, f);
    Placed(FMT + size + one + one + rate, byteRate, align, f);
    Placed(FMT + size + one + one, rate, byteRate, f);
    Placed(FMT + size + one, one, rate, f);
    Placed(FMT + size, one, one, f);
    Placed(FMT, size, one, f);
  }

  /** Where the sizes and the `fmt ` chunk are. */
  lemma FilePlaces(riffSize: bytes, format: bytes, dataSize: bytes, pcm: bytes)
    requires |riffSize| == |dataSize| == 4 && |format| == 24
    ensures var file := RIFF + riffSize + WAVE + format + DATA + dataSize + pcm;
            && |file| == 44 + |pcm| && file[4..8] == riffSize && file[12..36] == format && file[40..44] == dataSize
  {
    var file := RIFF + riffSize + WAVE + format + DATA + dataSize + pcm;
    Placed(RIFF + riffSize + WAVE + format + DATA, dataSize, pcm, file);
    Placed(RIFF + riffSize + WAVE + format, DATA, dataSize, file);
    Placed(RIFF + riffSize + WAVE, format, DATA, file);
    Placed(RIFF + riffSize, WAVE, format, file);
    Placed(RIFF, riffSize, WAVE, file);
  }

  /** The header fields no parser here reads: sizes, format tag, byte rate and frame size. */
  lemma HeaderFields(rate: nat, pcm: bytes)
    requires 2 * rate < U32_LIMIT && 36 + |pcm| < U32_LIMIT
    ensures var file := WavBytes(rate, pcm);
            && |file| == 44 + |pcm|
            && U32(file, 4) == |file| - 8 && U32(file, 40) == |pcm|
            && U32(file, 16) == 16 && U16(file, 20) == 1
            && U32(file, 28) == 2 * rate && U16(file, 32) == 2
  {
    var file, f := WavBytes(rate, pcm), FormatBytes(rate);
    FormatPlaces(Pack32(16), Pack16(1), Pack32(rate), Pack32(2 * rate), Pack16(2), Pack16(16));
    FilePlaces(Pack32(36 + |pcm|), f, Pack32(|pcm|), pcm);
    U32Slice(file, 4, Pack32(36 + |pcm|));
    U32Slice(file, 40, Pack32(|pcm|));
    SlicesNest(file, 12, f, 4, 8);
    U32Slice(file, 16, Pack32(16));
    SlicesNest(file, 12, f, 8, 10);
    U16Slice(file, 20, Pack16(1));
    SlicesNest(file, 12, f, 16, 20);
    U32Slice(file, 28, Pack32(2 * rate));
    SlicesNest(file, 12, f, 20, 22);
    U16Slice(file, 32, Pack16(2));
  }

  lemma WavBytesIsFile(rate: nat, pcm: bytes)
    requires 2 * rate < U32_LIMIT && 36 + |pcm| < U32_LIMIT
    ensures WavBytes(rate, pcm) == FileOf(Pack32(36 + |pcm|), [FmtChunk(rate)], Pack32(|pcm|), pcm)
  {
    assert EncodeAll([FmtChunk(rate)]) == FmtChunk(rate).Encode();
  }

  /** The parser inverts both writers: format, 44-byte header, samples intact. */
  lemma RoundTrip(rate: nat, pcm: bytes)
    requires 2 * rate < U32_LIMIT && 36 + |pcm| < U32_LIMIT
    ensures var file := WavBytes(rate, pcm);
            && |file| == 44 + |pcm| && file[44..] == pcm && Parse(file) == Some(WavFormat(rate, 1, 16, 44))
            && SpeechWav(pcm, rate) == Some(file)
  {
    WavBytesIsFile(rate, pcm);
    FmtChunkFields(rate);
    ParseInvertsFile(Pack32(36 + |pcm|), [FmtChunk(rate)], Pack32(|pcm|), pcm);
  }
}
