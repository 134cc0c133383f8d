/** Dropping the streaming WAV header from a response body that arrives in arbitrary
    reads: the buffered stripper of benchmark/request.py and the counting one of
    benchmark/tts_speech_bench.py. */
module HeaderStrip {
  import opened Bytes
  import opened Wrappers
  import Wave

  const HEADER: nat := 44

  predicate StartsWithRiff(s: bytes) {
    |s| >= 4 && s[..4] == Wave.RIFF
  }

  function Drop(s: bytes, n: nat): bytes {
    if n <= |s| then s[n..] else []
  }

  /** What the buffered stripper keeps of a whole body: nothing until 44 bytes are in. */
  function StripRiff(s: bytes): bytes {
    if |s| < HEADER then [] else if StartsWithRiff(s) then s[HEADER..] else s
  }

  function NonEmpty(pieces: seq<bytes>): seq<bytes> {
    if pieces == [] then []
    else
      var last := pieces[|pieces| - 1];
      NonEmpty(pieces[..|pieces| - 1]) + if last == [] then [] else [last]
  }

  /** The chunks recorded once 44 bytes are in: what the read `at` completes, then every
      later read as it came. */
  ghost predicate RecordedFrom(recorded: seq<bytes>, pieces: seq<bytes>, at: nat) {
    && at < |pieces|
    && |Concat(pieces[..at])| < HEADER <= |Concat(pieces[..at + 1])|
    && recorded == NonEmpty([StripRiff(Concat(pieces[..at + 1]))] + pieces[at + 1..])
  }

  lemma NonEmptyAppend(pieces: seq<bytes>, last: bytes)
    ensures NonEmpty(pieces + [last]) == NonEmpty(pieces) + if last == [] then [] else [last]
  {
    assert (pieces + [last])[..|pieces|] == pieces;
  }

  lemma PrefixOfPrefix(pieces: seq<bytes>, n: nat, i: nat)
    requires n <= i <= |pieces|
    ensures pieces[..i][..n] == pieces[..n]
  {
  }

  lemma OneMorePiece(head: bytes, pieces: seq<bytes>, n: nat, i: nat)
    requires n <= i < |pieces|
    ensures [head] + pieces[..i + 1][n..] == ([head] + pieces[..i][n..]) + [pieces[i]]
  {
  }

  lemma RecordNext(recorded: seq<bytes>, pieces: seq<bytes>, at: nat, i: nat)
    requires i < |pieces| && RecordedFrom(recorded, pieces[..i], at)
    ensures RecordedFrom(recorded + if pieces[i] == [] then [] else [pieces[i]], pieces[..i + 1], at)
  {
    PrefixOfPrefix(pieces, at, i);
    PrefixOfPrefix(pieces, at + 1, i);
    PrefixOfPrefix(pieces, at, i + 1);
    PrefixOfPrefix(pieces, at + 1, i + 1);
    var head := StripRiff(Concat(pieces[..at + 1]));
    OneMorePiece(head, pieces, at + 1, i);
    NonEmptyAppend([head] + pieces[..i][at + 1..], pieces[i]);
  }

  lemma RecordFirst(pieces: seq<bytes>, i: nat)
    requires i < |pieces| && |Concat(pieces[..i])| < HEADER <= |Concat(pieces[..i + 1])|
    ensures var raw := StripRiff(Concat(pieces[..i + 1]));
            RecordedFrom(if raw == [] then [] else [raw], pieces[..i + 1], i)
  {
    var raw := StripRiff(Concat(pieces[..i + 1]));
    assert pieces[..i + 1][..i] == pieces[..i] && pieces[..i + 1][..i + 1] == pieces[..i + 1];
    assert [raw] + pieces[..i + 1][i + 1..] == [] + [raw];
    NonEmptyAppend([], raw);
  }

  lemma {:induction false} ConcatNonEmpty(pieces: seq<bytes>)
    ensures Concat(NonEmpty(pieces)) == Concat(pieces)
  {
    if pieces != [] {
      var rest, last := pieces[..|pieces| - 1], pieces[|pieces| - 1];
      ConcatNonEmpty(rest);
      ConcatAppend(NonEmpty(rest), last);
      assert last == [] ==> Concat(rest) + last == Concat(rest);
      assert last == [] ==> NonEmpty(rest) + [] == NonEmpty(rest);
    }
  }

  /** Bytes after the 44th do not change what is stripped. */
  lemma StripExtends(s: bytes, more: bytes)
    requires |s| >= HEADER
    ensures StripRiff(s + more) == StripRiff(s) + more
  {
    assert (s + more)[..4] == s[..4];
  }

  lemma ConcatFirst(raw: bytes, later: seq<bytes>)
    ensures Concat([raw] + later) == raw + Concat(later)
  {
    ConcatJoin([raw], later);
    ConcatAppend([], raw);
    assert [] + [raw] == [raw];
  }

  lemma ConcatSplit(pieces: seq<bytes>, n: nat)
    requires n <= |pieces|
    ensures Concat(pieces) == Concat(pieces[..n]) + Concat(pieces[n..])
  {
    assert pieces == pieces[..n] + pieces[n..];
    ConcatJoin(pieces[..n], pieces[n..]);
  }

  /** What was recorded is the stripped body. */
  lemma {:induction false} RecordedIsStripped(recorded: seq<bytes>, pieces: seq<bytes>, at: nat)
    requires RecordedFrom(recorded, pieces, at)
    ensures Concat(recorded) == StripRiff(Concat(pieces))
  {
    var front, later := pieces[..at + 1], pieces[at + 1..];
    var raw := StripRiff(Concat(front));
    ConcatSplit(pieces, at + 1);
    StripExtends(Concat(front), Concat(later));
    ConcatNonEmpty([raw] + later);
    ConcatFirst(raw, later);
  }

  /** Where the loop stands after the reads `front`. */
  ghost predicate Reading(front: seq<bytes>, headerSkipped: bool, pending: bytes, recorded: seq<bytes>, at: nat) {
    if headerSkipped then RecordedFrom(recorded, front, at)
    else recorded == [] && pending == Concat(front) && |pending| < HEADER
  }

  lemma ReadEmpty(pieces: seq<bytes>, i: nat, headerSkipped: bool, pending: bytes, recorded: seq<bytes>, at: nat)
    requires i < |pieces| && pieces[i] == [] && Reading(pieces[..i], headerSkipped, pending, recorded, at)
    ensures Reading(pieces[..i + 1], headerSkipped, pending, recorded, at)
  {
    ConcatPrefix(pieces, i);
    if headerSkipped {
      RecordNext(recorded, pieces, at, i);
      assert recorded + [] == recorded;
    } else {
      assert pending + [] == pending;
    }
  }

  lemma ReadLater(pieces: seq<bytes>, i: nat, recorded: seq<bytes>, at: nat)
    requires i < |pieces| && pieces[i] != [] && Reading(pieces[..i], true, [], recorded, at)
    ensures Reading(pieces[..i + 1], true, [], recorded + [pieces[i]], at)
  {
    RecordNext(recorded, pieces, at, i);
  }

  lemma ReadFirst(pieces: seq<bytes>, i: nat, pending: bytes)
    requires i < |pieces| && Reading(pieces[..i], false, pending, [], 0)
    ensures var whole := pending + pieces[i];
            var raw := StripRiff(whole);
            if |whole| < HEADER then Reading(pieces[..i + 1], false, whole, [], 0)
            else Reading(pieces[..i + 1], true, [], if raw == [] then [] else [raw], i)
  {
    ConcatPrefix(pieces, i);
    if |pending + pieces[i]| >= HEADER {
      RecordFirst(pieces, i);
    }
  }

  datatype Buffered = Buffered(headerSkipped: bool, pending: bytes, recorded: seq<bytes>, at: nat)

  /** One read, the `i`-th. */
  function Read(s: Buffered, raw: bytes, i: nat): Buffered {
    if raw == [] then s
    else if s.headerSkipped then s.(recorded := s.recorded + [raw])
    else
      var pending := s.pending + raw;
      if |pending| < HEADER then s.(pending := pending)
      else
        var rest := StripRiff(pending);
        Buffered(true, [], if rest == [] then s.recorded else s.recorded + [rest], i)
  }

  function ReadAll(pieces: seq<bytes>): Buffered {
    if pieces == [] then Buffered(false, [], [], 0)
    else Read(ReadAll(DropLast(pieces)), Last(pieces), |pieces| - 1)
  }

  lemma {:induction false} ReadAllIs(pieces: seq<bytes>)
    ensures var s := ReadAll(pieces);
            && Reading(pieces, s.headerSkipped, s.pending, s.recorded, s.at)
            && (if s.headerSkipped then s.pending == [] else s.at == 0)
  {
    if pieces != [] {
      var n := |pieces| - 1;
      var s := ReadAll(pieces[..n]);
      ReadAllIs(pieces[..n]);
      assert pieces[..n + 1] == pieces;
      if pieces[n] == [] {
        ReadEmpty(pieces, n, s.headerSkipped, s.pending, s.recorded, s.at);
      } else if s.headerSkipped {
        ReadLater(pieces, n, s.recorded, s.at);
      } else {
        ReadFirst(pieces, n, s.pending);
      }
    }
  }

  lemma WholeBody(pieces: seq<bytes>)
    ensures var s := ReadAll(pieces);
            && Concat(s.recorded) == StripRiff(Concat(pieces))
            && (if |Concat(pieces)| < HEADER then s.recorded == [] else RecordedFrom(s.recorded, pieces, s.at))
  {
    ReadAllIs(pieces);
    if ReadAll(pieces).headerSkipped {
      RecordedIsStripped(ReadAll(pieces).recorded, pieces, ReadAll(pieces).at);
      RecordedIsLong(ReadAll(pieces).recorded, pieces, ReadAll(pieces).at);
    }
  }

  lemma RecordedIsLong(recorded: seq<bytes>, pieces: seq<bytes>, at: nat)
    requires RecordedFrom(recorded, pieces, at)
    ensures |Concat(pieces)| >= HEADER
  {
    ConcatSplit(pieces, at + 1);
  }

  /** `_send_request_audio_speech`: hold bytes back until 44 are there, drop them if they
      are a RIFF header, then record every read as one audio chunk. */
  method StripBuffered(pieces: seq<bytes>) returns (recorded: seq<bytes>, ghost at: nat)
    ensures var body := Concat(pieces);
            if |body| < 44 then recorded == []
            else Concat(recorded) == if body[..4] == [0x52, 0x49, 0x46, 0x46] then body[44..] else body
    ensures Concat(recorded) == StripRiff(Concat(pieces))
    ensures |Concat(pieces)| >= HEADER ==> RecordedFrom(recorded, pieces, at)
  {
    recorded, at := [], 0;
    var headerSkipped, pending: bytes := false, [];
    for i := 0 to |pieces|
      invariant Buffered(headerSkipped, pending, recorded, at) == ReadAll(pieces[..i])
    {
      var raw := pieces[i];
      assert DropLast(pieces[..i + 1]) == pieces[..i];
      if raw == [] {
        continue;
      }
      if !headerSkipped {
        pending := pending + raw;
        if |pending| < HEADER {
          continue;
        }
        raw := if pending[..4] == Wave.RIFF then pending[HEADER..] else pending;
        pending := [];
        headerSkipped := true;
        at := i;
        if raw == [] {
          continue;
        }
      }
      recorded := recorded + [raw];
    }
    assert pieces[..|pieces|] == pieces;
    WholeBody(pieces);
  }

  /** `_one_request`: count `skip` bytes off the front. `first` is the read at which the
      first PCM byte came, what time-to-first-audio is taken at. */
  method StripCounted(pieces: seq<bytes>, header: nat) returns (pcm: bytes, first: Option<nat>)
    ensures pcm == Drop(Concat(pieces), header)
    ensures first == None <==> |Concat(pieces)| <= header
    ensures first.Some? ==>
              && first.value < |pieces|
              && |Concat(pieces[..first.value])| <= header < |Concat(pieces[..first.value + 1])|
  {
    var skip := header;
    pcm, first := [], None;
    for i := 0 to |pieces|
      invariant skip == if |Concat(pieces[..i])| < header then header - |Concat(pieces[..i])| else 0
      invariant pcm == Drop(Concat(pieces[..i]), header)
      invariant first == None <==> |Concat(pieces[..i])| <= header
      invariant first.Some? ==>
                  && first.value < i
                  && |Concat(pieces[..first.value])| <= header < |Concat(pieces[..first.value + 1])|
    {
      var chunk := pieces[i];
      ConcatPrefix(pieces, i);
      if chunk == [] {
        continue;
      }
      if skip > 0 {
        var drop := if skip < |chunk| then skip else |chunk|;
        chunk := chunk[drop..];
        skip := skip - drop;
        if chunk == [] {
          continue;
        }
      }
      if first == None {
        first := Some(i);
      }
      pcm := pcm + chunk;
    }
    assert pieces[..|pieces|] == pieces;
  }

  /** The two agree exactly on RIFF bodies and on bodies too short to hold a header. */
  lemma StrippersAgreeIff(s: bytes)
    ensures StripRiff(s) == Drop(s, HEADER) <==> StartsWithRiff(s) || |s| < HEADER
  {
    if |s| >= HEADER && !StartsWithRiff(s) {
      assert |StripRiff(s)| != |Drop(s, HEADER)|;
    }
  }

  /** On a WAV body what is kept is the samples iff they start at 44, which any further chunk
      before them breaks, or the body is shorter and ends where they would start. */
  lemma StripIsHeaderIff(s: bytes)
    requires Wave.Parse(s).Some?
    ensures StripRiff(s) == Drop(s, Wave.Parse(s).value.dataOffset)
       <==> Wave.Parse(s).value.dataOffset == Min(HEADER, |s|)
  {
    assert s[..|s|] == s;
    Wave.WalkExtends(s, |s|, 12, None);
  }

  /** Both recover the samples of a file either writer made, however the body is cut. */
  lemma {:induction false} StripUndoesWriter(rate: nat, pcm: bytes)
    requires 2 * rate < U32_LIMIT && 36 + |pcm| < U32_LIMIT
    ensures StripRiff(Wave.WavBytes(rate, pcm)) == pcm == Drop(Wave.WavBytes(rate, pcm), HEADER)
  {
    Wave.RoundTrip(rate, pcm);
  }

  const LIST: bytes := [0x4c, 0x49, 0x53, 0x54]

  /** A file with one more chunk before its samples: the stripper leaves part of the header in. */
  lemma LongHeaderStays(size: bytes, rate: nat, dataSize: bytes, samples: bytes) returns (file: bytes)
    requires |size| == |dataSize| == 4 && 2 * rate < U32_LIMIT
    ensures Wave.Parse(file) == Some(Wave.WavFormat(rate, 1, 16, 52)) && |file| >= 52 && file[52..] == samples
    ensures StripRiff(file) == file[44..] && StripRiff(file) != samples
  {
    var list := Wave.RiffChunk(LIST, [], 0);
    var f := Wave.FmtChunk(rate);
    file := Wave.FileOf(size, [f, list], dataSize, samples);
    Wave.FmtChunkFields(rate);
    TwoChunks(f, list);
    Wave.ParseInvertsFile(size, [f, list], dataSize, samples);
    assert file[..4] == Wave.RIFF;
  }

  lemma TwoChunks(f: Wave.RiffChunk, list: Wave.RiffChunk)
    requires f.BeforeData() && f.id == Wave.FMT && |f.Encode()| == 24
    requires list == Wave.RiffChunk(LIST, [], 0)
    ensures Wave.BeforeDataAll([f, list]) && |Wave.EncodeAll([f, list])| == 32
    ensures Wave.LastFmt([f, list], None) == Some(Wave.FmtAt(f.body, 0))
  {
    var both, one, none: seq<Wave.RiffChunk> := [f, list], [list], [];
    assert both[1..] == one && one[1..] == none;
    assert LIST[0] != Wave.DATA[0] && LIST[0] != Wave.FMT[0];
    assert |list.Encode()| == 8;
    assert Wave.EncodeAll(one) == list.Encode() + Wave.EncodeAll(none);
    assert Wave.EncodeAll(both) == f.Encode() + Wave.EncodeAll(one);
    assert Wave.LastFmt(one, f.After(None)) == Wave.LastFmt(none, f.After(None));
    assert Wave.LastFmt(both, None) == Wave.LastFmt(one, f.After(None));
  }
}
