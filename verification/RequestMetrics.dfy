/** Per-request metrics of benchmark/request.py. The class keeps the fields the source keeps;
    `Ledger` is what a sequence of calls amounts to, and `Valid` ties every field to it. */
module RequestMetrics {
  import opened Bytes
  import Playback
  import opened Wrappers

  datatype Status = InProgress | Success | Failed

  /** The modality strings the code compares with, and any other. */
  datatype Modality = Text | Image | Sound | Action | Video | Error | Other(name: string)

  /** A streamed chunk after base64 decoding. */
  datatype Chunk = Chunk(modality: Modality, data: bytes, tokens: int, arrival: real)

  /** Why a request failed. */
  datatype Failure =
    | InBand(status: Option<nat>, payload: bytes)
    | Raised(message: string)
    | NeverStarted

  datatype Call =
    | SetStart(now: real)
    | Output(chunk: Chunk, status: Option<nat>, now: real)
    | RecordError(message: string, now: real)
    | RecordCompletion(now: real)

  // ---------------------------------------------------------------- the ledger

  /** `received` notes a modality before a chunk is counted; a chunk before the start raises
      in between, which `raised` counts. */
  datatype Ledger = Ledger(start: Option<real>, history: seq<Chunk>, received: seq<Modality>, raised: nat,
                           error: Option<Failure>, status: Status, e2e: Option<real>) {
    function Elapsed(now: real): real {
      if start == None then 0.0 else now - start.value
    }

    /** The modality is noted first; before the start that is all that happens. */
    function Note(m: Modality): Ledger {
      this.(received := received + [m], raised := raised + if start == None then 1 else 0)
    }

    function Fail(f: Failure, now: real): Ledger {
      this.(error := Some(f), status := Failed, e2e := Some(Elapsed(now)))
    }
  }

  const BLANK: Ledger := Ledger(None, [], [], 0, None, InProgress, None)

  predicate Covers(received: seq<Modality>, expected: seq<Modality>) {
    forall m <- expected :: m in received
  }

  function Apply(l: Ledger, call: Call, expected: seq<Modality>): Ledger {
    match call
    case SetStart(now) => l.(start := Some(now))
    case Output(chunk, status, now) =>
      if chunk.data == [] then l
      else if chunk.modality == Error then l.Fail(InBand(status, chunk.data), now)
      else if l.start == None then l.Note(chunk.modality)
      else l.Note(chunk.modality).(history := l.history + [chunk])
    case RecordError(message, now) => l.Fail(Raised(message), now)
    case RecordCompletion(now) =>
      if l.start == None then
        l.(e2e := Some(0.0), status := Failed,
           error := if l.error == None || l.error == Some(Raised("")) then Some(NeverStarted) else l.error)
      else if l.error != None then l.(status := Failed)
      else l.(e2e := Some(now - l.start.value),
              status := if Covers(l.received, expected) then Success else Failed)
  }

  function Run(l: Ledger, calls: seq<Call>, expected: seq<Modality>): Ledger {
    if calls == [] then l
    else Apply(Run(l, calls[..|calls| - 1], expected), calls[|calls| - 1], expected)
  }

  // ---------------------------------------------------------------- completion safety

  lemma RunAppend(l: Ledger, calls: seq<Call>, call: Call, expected: seq<Modality>)
    ensures Run(l, calls + [call], expected) == Apply(Run(l, calls, expected), call, expected)
  {
    assert (calls + [call])[..|calls|] == calls;
  }

  /** Once an error is recorded, every later call leaves the request failed. */
  lemma {:induction false} ErrorIsFinal(l: Ledger, calls: seq<Call>, expected: seq<Modality>)
    requires l.error != None && l.status == Failed
    ensures Run(l, calls, expected).error != None && Run(l, calls, expected).status == Failed
  {
    if calls != [] {
      ErrorIsFinal(l, calls[..|calls| - 1], expected);
    }
  }

  predicate Started(calls: seq<Call>) {
    exists i :: 0 <= i < |calls| && calls[i].SetStart?
  }

  /** The call records an error whatever came before: an exception, or an in-band error chunk
      that says something. */
  predicate IsError(call: Call) {
    call.RecordError? || (call.Output? && call.chunk.modality == Error && call.chunk.data != [])
  }

  /** The call records that no request was ever sent. */
  predicate CompletesUnstarted(calls: seq<Call>, i: nat)
    requires i < |calls|
  {
    calls[i].RecordCompletion? && !Started(calls[..i])
  }

  predicate AnyError(calls: seq<Call>) {
    exists i :: 0 <= i < |calls| && (IsError(calls[i]) || CompletesUnstarted(calls, i))
  }

  /** The modality was noted as received. */
  predicate Noted(calls: seq<Call>, m: Modality) {
    exists i :: 0 <= i < |calls| && calls[i].Output? && calls[i].chunk.modality == m && calls[i].chunk.data != []
  }

  lemma GrowCalls(calls: seq<Call>, call: Call)
    ensures Started(calls + [call]) <==> Started(calls) || call.SetStart?
    ensures AnyError(calls + [call])
       <==> AnyError(calls) || IsError(call) || (call.RecordCompletion? && !Started(calls))
    ensures forall m :: Noted(calls + [call], m)
               <==> Noted(calls, m) || (call.Output? && call.chunk.modality == m && call.chunk.data != [])
  {
    var all, n := calls + [call], |calls|;
    assert all[n] == call && all[..n] == calls;
    assert forall i :: 0 <= i < n ==> all[i] == calls[i] && all[..i] == calls[..i];
    if AnyError(calls) {
      var i :| 0 <= i < n && (IsError(calls[i]) || CompletesUnstarted(calls, i));
      assert IsError(all[i]) || CompletesUnstarted(all, i);
    }
    if AnyError(all) {
      var i :| 0 <= i < n + 1 && (IsError(all[i]) || CompletesUnstarted(all, i));
      assert i < n ==> IsError(calls[i]) || CompletesUnstarted(calls, i);
    }
    if IsError(call) || (call.RecordCompletion? && !Started(calls)) {
      assert IsError(all[n]) || CompletesUnstarted(all, n);
    }
  }

  /** What a sequence of calls leaves in the ledger, in terms of the calls alone. */
  lemma {:induction false} LedgerOfCalls(calls: seq<Call>, expected: seq<Modality>)
    ensures var l := Run(BLANK, calls, expected);
            && (l.start != None <==> Started(calls))
            && (l.error != None <==> AnyError(calls))
            && (l.error != None ==> l.status == Failed)
            && (forall m :: m != Error ==> (m in l.received <==> Noted(calls, m)))
            && Error !in l.received
  {
    if calls != [] {
      var rest, call := calls[..|calls| - 1], calls[|calls| - 1];
      assert calls == rest + [call];
      LedgerOfCalls(rest, expected);
      GrowCalls(rest, call);
    }
  }

  /** A request ends in SUCCESS iff it was started, nothing recorded an error, and every
      expected modality was received; over any calls before the completion. */
  lemma SuccessIff(calls: seq<Call>, now: real, expected: seq<Modality>)
    requires Error !in expected
    ensures Run(BLANK, calls + [RecordCompletion(now)], expected).status == Success
       <==> Started(calls) && !AnyError(calls) && forall m <- expected :: Noted(calls, m)
  {
    RunAppend(BLANK, calls, RecordCompletion(now), expected);
    LedgerOfCalls(calls, expected);
  }

  /** An incomplete set of modalities, unlike an error, does not stick: a request completed one
      chunk too early is FAILED, and SUCCESS once that chunk is recorded and it is completed again. */
  lemma MissingModalityIsNotFinal(l: Ledger, chunk: Chunk, now: real, expected: seq<Modality>)
    requires l.start != None && l.error == None && chunk.data != [] && chunk.modality != Error
    requires chunk.modality in expected && chunk.modality !in l.received
    requires forall m <- expected :: m == chunk.modality || m in l.received
    ensures var early := Apply(l, RecordCompletion(now), expected);
            var late := Apply(early, Output(chunk, None, now), expected);
            && early.status == Failed && Apply(late, RecordCompletion(now), expected).status == Success
  {
    assert !Covers(l.received, expected);
    var received := l.received + [chunk.modality];
    assert received[|l.received|] == chunk.modality;
    assert Covers(received, expected);
  }

  // ---------------------------------------------------------------- reading the history

  /** The chunks of one modality, in order. */
  function Of(h: seq<Chunk>, m: Modality): seq<Chunk> {
    if h == [] then []
    else Of(h[..|h| - 1], m) + if h[|h| - 1].modality == m then [h[|h| - 1]] else []
  }

  function Arrivals(chunks: seq<Chunk>): seq<real> {
    if chunks == [] then [] else Arrivals(chunks[..|chunks| - 1]) + [chunks[|chunks| - 1].arrival]
  }

  function Payloads(chunks: seq<Chunk>): seq<bytes> {
    if chunks == [] then [] else Payloads(chunks[..|chunks| - 1]) + [chunks[|chunks| - 1].data]
  }

  function ByteCount(chunks: seq<Chunk>): nat {
    if chunks == [] then 0 else ByteCount(chunks[..|chunks| - 1]) + |chunks[|chunks| - 1].data|
  }

  function TokenCount(chunks: seq<Chunk>): int {
    if chunks == [] then 0 else TokenCount(chunks[..|chunks| - 1]) + chunks[|chunks| - 1].tokens
  }

  /** How often a modality was received. */
  function Times(received: seq<Modality>, m: Modality): nat {
    if received == [] then 0
    else Times(received[..|received| - 1], m) + if received[|received| - 1] == m then 1 else 0
  }

  /** Seconds of 24 kHz 16-bit mono PCM. */
  function PcmSeconds(nbytes: nat): real {
    nbytes as real / 48000.0
  }

  /** An audio chunk as the player model sees it. */
  function Played(c: Chunk): Playback.Chunk {
    Playback.Chunk(c.arrival, PcmSeconds(|c.data|))
  }

  function Audio(chunks: seq<Chunk>): seq<Playback.Chunk> {
    if chunks == [] then [] else Audio(chunks[..|chunks| - 1]) + [Played(chunks[|chunks| - 1])]
  }

  /** An entry of the audio log: the gap before a chunk, and how long the chunk before it lasts. */
  datatype LogEntry = LogEntry(gap: real, previous: real)

  function EntryAt(a: seq<Playback.Chunk>, i: nat): LogEntry
    requires 0 < i < |a|
  {
    LogEntry(a[i].arrival - a[i - 1].arrival, a[i - 1].seconds)
  }

  /** One entry per consecutive pair of audio chunks. */
  function GapLog(a: seq<Playback.Chunk>): seq<LogEntry> {
    if |a| < 2 then [] else GapLog(a[..|a| - 1]) + [EntryAt(a, |a| - 1)]
  }

  lemma {:induction false} GapLogAt(a: seq<Playback.Chunk>, i: nat)
    ensures |GapLog(a)| == if a == [] then 0 else |a| - 1
    ensures i + 1 < |a| ==> GapLog(a)[i] == EntryAt(a, i + 1)
    decreases |a|
  {
    if |a| >= 2 {
      GapLogAt(a[..|a| - 1], i);
    }
  }

  lemma AppendOne(h: seq<Chunk>, c: Chunk, m: Modality)
    ensures Of(h + [c], m) == if c.modality == m then Of(h, m) + [c] else Of(h, m)
  {
    assert (h + [c])[..|h|] == h;
  }

  lemma ArrivalsAppend(chunks: seq<Chunk>, c: Chunk)
    ensures Arrivals(chunks + [c]) == Arrivals(chunks) + [c.arrival]
  {
    assert (chunks + [c])[..|chunks|] == chunks;
  }

  lemma PayloadsAppend(chunks: seq<Chunk>, c: Chunk)
    ensures Payloads(chunks + [c]) == Payloads(chunks) + [c.data]
  {
    assert (chunks + [c])[..|chunks|] == chunks;
  }

  lemma BytesAppend(chunks: seq<Chunk>, c: Chunk)
    ensures ByteCount(chunks + [c]) == ByteCount(chunks) + |c.data|
  {
    assert (chunks + [c])[..|chunks|] == chunks;
  }

  lemma TokensAppend(chunks: seq<Chunk>, c: Chunk)
    ensures TokenCount(chunks + [c]) == TokenCount(chunks) + c.tokens
  {
    assert (chunks + [c])[..|chunks|] == chunks;
  }

  lemma AudioAppend(chunks: seq<Chunk>, c: Chunk)
    ensures Audio(chunks + [c]) == Audio(chunks) + [Played(c)]
  {
    assert (chunks + [c])[..|chunks|] == chunks;
  }

  lemma GapLogAppend(a: seq<Playback.Chunk>, x: Playback.Chunk)
    ensures a == [] ==> GapLog(a + [x]) == []
    ensures a != [] ==> GapLog(a + [x]) == GapLog(a) + [LogEntry(x.arrival - a[|a| - 1].arrival, a[|a| - 1].seconds)]
  {
    var all := a + [x];
    assert all[..|all| - 1] == a;
    if a != [] {
      assert EntryAt(all, |a|) == LogEntry(x.arrival - a[|a| - 1].arrival, a[|a| - 1].seconds);
    }
  }

  /** A dictionary has exactly the modalities seen. */
  ghost predicate HasSeen<T>(d: map<Modality, T>, h: seq<Chunk>) {
    forall m :: m in d <==> Of(h, m) != []
  }

  /** Time from the start to the first chunk. */
  ghost predicate FirstTimes(d: map<Modality, real>, h: seq<Chunk>, start: Option<real>) {
    HasSeen(d, h) && forall m <- d :: start != None && d[m] == Of(h, m)[0].arrival - start.value
  }

  ghost predicate ArrivalTimes(d: map<Modality, seq<real>>, h: seq<Chunk>) {
    HasSeen(d, h) && forall m <- d :: d[m] == Arrivals(Of(h, m))
  }

  ghost predicate ChunkCounts(d: map<Modality, nat>, h: seq<Chunk>) {
    HasSeen(d, h) && forall m <- d :: d[m] == |Of(h, m)|
  }

  ghost predicate ByteCounts(d: map<Modality, nat>, h: seq<Chunk>) {
    HasSeen(d, h) && forall m <- d :: d[m] == ByteCount(Of(h, m))
  }

  function GetOr<T>(d: map<Modality, T>, m: Modality, default: T): T {
    if m in d then d[m] else default
  }

  /** The four dictionaries of a request. */
  datatype Dictionaries = Dictionaries(ttft: map<Modality, real>, arrivals: map<Modality, seq<real>>,
                                       counts: map<Modality, nat>, sizes: map<Modality, nat>)
  {
    function Add(c: Chunk, start: real): Dictionaries {
      Dictionaries(if c.modality in ttft then ttft else ttft[c.modality := c.arrival - start],
                   arrivals[c.modality := GetOr(arrivals, c.modality, []) + [c.arrival]],
                   counts[c.modality := GetOr(counts, c.modality, 0) + 1],
                   sizes[c.modality := GetOr(sizes, c.modality, 0) + |c.data|])
    }
  }

  /** The output buffers: payloads by modality, audio in one piece. */
  datatype Buffers = Buffers(text: seq<bytes>, image: seq<bytes>, audio: bytes, action: seq<bytes>, video: seq<bytes>)
  {
    ghost predicate Agree(h: seq<Chunk>) {
      && text == Payloads(Of(h, Text)) && image == Payloads(Of(h, Image))
      && audio == Concat(Payloads(Of(h, Sound)))
      && action == Payloads(Of(h, Action)) && video == Payloads(Of(h, Video))
    }

    function Add(c: Chunk): Buffers {
      match c.modality
      case Text => this.(text := text + [c.data])
      case Image => this.(image := image + [c.data])
      case Sound => this.(audio := audio + c.data)
      case Action => this.(action := action + [c.data])
      case Video => this.(video := video + [c.data])
      case _ => this
    }
  }

  lemma PayloadChunk(h: seq<Chunk>, m: Modality, c: Chunk)
    ensures Payloads(Of(h + [c], m)) == if c.modality == m then Payloads(Of(h, m)) + [c.data] else Payloads(Of(h, m))
  {
    AppendOne(h, c, m);
    PayloadsAppend(Of(h, m), c);
  }

  lemma BufferChunk(h: seq<Chunk>, b: Buffers, c: Chunk)
    requires b.Agree(h)
    ensures b.Add(c).Agree(h + [c])
  {
    PayloadChunk(h, Text, c);
    PayloadChunk(h, Image, c);
    PayloadChunk(h, Sound, c);
    PayloadChunk(h, Action, c);
    PayloadChunk(h, Video, c);
    ConcatAppend(Payloads(Of(h, Sound)), c.data);
  }

  lemma SeenGrows<T>(h: seq<Chunk>, d: map<Modality, T>, c: Chunk, e: map<Modality, T>)
    requires HasSeen(d, h) && e.Keys == d.Keys + {c.modality}
    ensures HasSeen(e, h + [c])
  {
    forall m
      ensures m in e <==> Of(h + [c], m) != []
    {
      AppendOne(h, c, m);
    }
  }

  lemma ArrivalAt(h: seq<Chunk>, d: map<Modality, seq<real>>, c: Chunk, m: Modality)
    requires ArrivalTimes(d, h)
    ensures Arrivals(Of(h + [c], m)) == GetOr(d, m, []) + if m == c.modality then [c.arrival] else []
  {
    AppendOne(h, c, m);
    ArrivalsAppend(Of(h, m), c);
  }

  lemma BytesAt(h: seq<Chunk>, d: map<Modality, nat>, c: Chunk, m: Modality)
    requires ByteCounts(d, h)
    ensures ByteCount(Of(h + [c], m)) == GetOr(d, m, 0) + if m == c.modality then |c.data| else 0
  {
    AppendOne(h, c, m);
    BytesAppend(Of(h, m), c);
  }

  /** The audio log and the chunk it continues from. */
  datatype AudioState = AudioState(log: seq<LogEntry>, lastTime: Option<real>, lastSeconds: Option<real>) {
    function Add(c: Chunk): AudioState {
      if c.modality == Sound then Next(c.arrival, PcmSeconds(|c.data|)) else this
    }

    function Next(arrival: real, seconds: real): AudioState {
      AudioState(if lastTime == None || lastSeconds == None then log
                 else log + [LogEntry(arrival - lastTime.value, lastSeconds.value)],
                 Some(arrival), Some(seconds))
    }
  }

  /** One entry per consecutive pair, and the last chunk remembered. */
  function AudioStateOf(a: seq<Playback.Chunk>): AudioState {
    if a == [] then AudioState([], None, None)
    else AudioState(GapLog(a), Some(a[|a| - 1].arrival), Some(a[|a| - 1].seconds))
  }

  /** Everything the fields keep about the chunks. */
  datatype Summary = Summary(dicts: Dictionaries, buffers: Buffers, audio: AudioState, textTokens: int) {
    function Add(c: Chunk, start: real): Summary {
      Summary(dicts.Add(c, start), buffers.Add(c), audio.Add(c),
              textTokens + if c.modality == Text then c.tokens else 0)
    }
  }

  const EMPTY: Summary := Summary(Dictionaries(map[], map[], map[], map[]), Buffers([], [], [], [], []),
                                  AudioState([], None, None), 0)

  /** The summary chunk by chunk, as the calls build it. */
  function Summarize(h: seq<Chunk>, start: Option<real>): Summary
    requires h != [] ==> start != None
  {
    if h == [] then EMPTY else Summarize(h[..|h| - 1], start).Add(h[|h| - 1], start.value)
  }

  /** Equality that the proofs below carry along without looking inside. */
  ghost predicate Same<T>(a: T, b: T) {
    a == b
  }

  lemma SummarizeAppend(h: seq<Chunk>, c: Chunk, start: Option<real>)
    requires start != None
    ensures Summarize(h + [c], start) == Summarize(h, start).Add(c, start.value)
  {
    assert (h + [c])[..|h|] == h;
  }

  lemma SummaryGrows(before: Summary, after: Summary, h: seq<Chunk>, c: Chunk, start: Option<real>)
    requires start != None && Same(before, Summarize(h, start)) && after == before.Add(c, start.value)
    ensures Same(after, Summarize(h + [c], start))
  {
    SummarizeAppend(h, c, start);
  }

  lemma NextAudioState(a: seq<Playback.Chunk>, x: Playback.Chunk)
    ensures AudioStateOf(a + [x]) == AudioStateOf(a).Next(x.arrival, x.seconds)
  {
    GapLogAppend(a, x);
  }

  lemma AudioOf(h: seq<Chunk>, c: Chunk)
    ensures Audio(Of(h + [c], Sound))
         == if c.modality == Sound then Audio(Of(h, Sound)) + [Played(c)] else Audio(Of(h, Sound))
  {
    AppendOne(h, c, Sound);
    AudioAppend(Of(h, Sound), c);
  }

  lemma TextTokens(h: seq<Chunk>, c: Chunk)
    ensures TokenCount(Of(h + [c], Text))
         == TokenCount(Of(h, Text)) + if c.modality == Text then c.tokens else 0
  {
    AppendOne(h, c, Text);
    TokensAppend(Of(h, Text), c);
  }

  // One more chunk, dictionary by dictionary.

  lemma AddFirst(before: Summary, after: Summary, h: seq<Chunk>, c: Chunk, start: real)
    requires FirstTimes(before.dicts.ttft, h, Some(start)) && after == before.Add(c, start)
    ensures FirstTimes(after.dicts.ttft, h + [c], Some(start))
  {
    var d, e := before.dicts.ttft, after.dicts.ttft;
    SeenGrows(h, d, c, e);
    forall m <- e
      ensures e[m] == Of(h + [c], m)[0].arrival - start
    {
      AppendOne(h, c, m);
    }
  }

  lemma AddArrival(before: Summary, after: Summary, h: seq<Chunk>, c: Chunk, start: real)
    requires ArrivalTimes(before.dicts.arrivals, h) && after == before.Add(c, start)
    ensures ArrivalTimes(after.dicts.arrivals, h + [c])
  {
    var d, e := before.dicts.arrivals, after.dicts.arrivals;
    SeenGrows(h, d, c, e);
    forall m <- e
      ensures e[m] == Arrivals(Of(h + [c], m))
    {
      ArrivalAt(h, d, c, m);
    }
  }

  lemma AddCount(before: Summary, after: Summary, h: seq<Chunk>, c: Chunk, start: real)
    requires ChunkCounts(before.dicts.counts, h) && after == before.Add(c, start)
    ensures ChunkCounts(after.dicts.counts, h + [c])
  {
    var d, e := before.dicts.counts, after.dicts.counts;
    SeenGrows(h, d, c, e);
    forall m <- e
      ensures e[m] == |Of(h + [c], m)|
    {
      AppendOne(h, c, m);
    }
  }

  lemma SizesAfter(s: Summary, c: Chunk, start: real)
    ensures s.Add(c, start).dicts.sizes == s.dicts.sizes[c.modality := GetOr(s.dicts.sizes, c.modality, 0) + |c.data|]
  {
  }

  lemma AddSize(h: seq<Chunk>, d: map<Modality, nat>, c: Chunk, e: map<Modality, nat>)
    requires ByteCounts(d, h) && e == d[c.modality := GetOr(d, c.modality, 0) + |c.data|]
    ensures ByteCounts(e, h + [c])
  {
    SeenGrows(h, d, c, e);
    forall m <- e
      ensures e[m] == ByteCount(Of(h + [c], m))
    {
      BytesAt(h, d, c, m);
    }
  }

  lemma AddBytes(before: Summary, after: Summary, h: seq<Chunk>, c: Chunk, start: real)
    requires ByteCounts(before.dicts.sizes, h) && after == before.Add(c, start)
    ensures ByteCounts(after.dicts.sizes, h + [c])
  {
    SizesAfter(before, c, start);
    AddSize(h, before.dicts.sizes, c, after.dicts.sizes);
  }

  // What the calls build up is what the whole history says.

  /** Time to first chunk: the first arrival less the start, for exactly the modalities seen. */
  lemma {:induction false} FirstTimesAgree(h: seq<Chunk>, start: Option<real>)
    requires h != [] ==> start != None
    ensures FirstTimes(Summarize(h, start).dicts.ttft, h, start)
  {
    if h != [] {
      var rest, c := h[..|h| - 1], h[|h| - 1];
      assert h == rest + [c];
      FirstTimesAgree(rest, start);
      AddFirst(Summarize(rest, start), Summarize(h, start), rest, c, start.value);
    }
  }

  /** All arrivals, in order. */
  lemma {:induction false} ArrivalTimesAgree(h: seq<Chunk>, start: Option<real>)
    requires h != [] ==> start != None
    ensures ArrivalTimes(Summarize(h, start).dicts.arrivals, h)
  {
    if h != [] {
      var rest, c := h[..|h| - 1], h[|h| - 1];
      assert h == rest + [c];
      ArrivalTimesAgree(rest, start);
      AddArrival(Summarize(rest, start), Summarize(h, start), rest, c, start.value);
    }
  }

  /** The number of chunks. */
  lemma {:induction false} ChunkCountsAgree(h: seq<Chunk>, start: Option<real>)
    requires h != [] ==> start != None
    ensures ChunkCounts(Summarize(h, start).dicts.counts, h)
  {
    if h != [] {
      var rest, c := h[..|h| - 1], h[|h| - 1];
      assert h == rest + [c];
      ChunkCountsAgree(rest, start);
      AddCount(Summarize(rest, start), Summarize(h, start), rest, c, start.value);
    }
  }

  /** The sum of the payload sizes. */
  lemma {:induction false} ByteCountsAgree(h: seq<Chunk>, start: Option<real>)
    requires h != [] ==> start != None
    ensures ByteCounts(Summarize(h, start).dicts.sizes, h)
  {
    if h != [] {
      var rest, c := h[..|h| - 1], h[|h| - 1];
      assert h == rest + [c];
      ByteCountsAgree(rest, start);
      AddBytes(Summarize(rest, start), Summarize(h, start), rest, c, start.value);
    }
  }

  /** The payloads of each modality, in order. */
  lemma {:induction false} BuffersAgree(h: seq<Chunk>, start: Option<real>)
    requires h != [] ==> start != None
    ensures Summarize(h, start).buffers.Agree(h)
  {
    if h != [] {
      var rest, c := h[..|h| - 1], h[|h| - 1];
      assert h == rest + [c];
      BuffersAgree(rest, start);
      BufferChunk(rest, Summarize(rest, start).buffers, c);
    }
  }

  /** One log entry per consecutive pair of audio chunks, and the text tokens. */
  lemma {:induction false} AudioAgrees(h: seq<Chunk>, start: Option<real>)
    requires h != [] ==> start != None
    ensures Summarize(h, start).audio == AudioStateOf(Audio(Of(h, Sound)))
    ensures Summarize(h, start).textTokens == TokenCount(Of(h, Text))
  {
    if h != [] {
      var rest, c := h[..|h| - 1], h[|h| - 1];
      assert h == rest + [c];
      AudioAgrees(rest, start);
      AudioOf(rest, c);
      NextAudioState(Audio(Of(rest, Sound)), Played(c));
      TextTokens(rest, c);
    }
  }

  // ---------------------------------------------------------------- the class

  class Metrics {
    const expected: seq<Modality>
    var startTime: Option<real>
    var status: Status
    var ttft: map<Modality, real>
    var chunkArrivals: map<Modality, seq<real>>
    var e2eLatency: Option<real>
    var error: Option<Failure>
    var responseChunks: map<Modality, nat>
    var outputBytes: map<Modality, nat>
    var outputTextTokens: int
    var received: seq<Modality>
    var audioChunkLog: seq<LogEntry>
    var lastAudioTime: Option<real>
    var lastAudioDuration: Option<real>
    var textChunks: seq<bytes>
    var imageChunks: seq<bytes>
    var audioPcm: bytes
    var actionChunks: seq<bytes>
    var videoChunks: seq<bytes>
    ghost var ledger: Ledger

    /** What the fields keep about the chunks. */
    ghost function Kept(): Summary
      reads `ttft, `chunkArrivals, `responseChunks, `outputBytes, `textChunks, `imageChunks, `audioPcm,
            `actionChunks, `videoChunks, `audioChunkLog, `lastAudioTime, `lastAudioDuration, `outputTextTokens
    {
      Summary(Dictionaries(ttft, chunkArrivals, responseChunks, outputBytes),
              Buffers(textChunks, imageChunks, audioPcm, actionChunks, videoChunks),
              AudioState(audioChunkLog, lastAudioTime, lastAudioDuration), outputTextTokens)
    }

    /** The fields that do not depend on chunk payloads. */
    ghost predicate Follows()
      reads `startTime, `status, `error, `e2eLatency, `received, `ledger
    {
      && startTime == ledger.start && status == ledger.status && error == ledger.error
      && e2eLatency == ledger.e2e && received == ledger.received
    }

    /** The fields are what the calls so far amount to. */
    ghost predicate Valid()
      reads this
    {
      && Follows()
      && (startTime == None ==> ledger.history == [])
      && Same(Kept(), Summarize(ledger.history, startTime))
    }

    constructor (expected: seq<Modality>)
      ensures Valid() && this.expected == expected && ledger == BLANK
    {
      this.expected := expected;
      startTime, status, e2eLatency, error := None, InProgress, None, None;
      ttft, chunkArrivals, responseChunks, outputBytes := map[], map[], map[], map[];
      outputTextTokens, received := 0, [];
      audioChunkLog, lastAudioTime, lastAudioDuration := [], None, None;
      textChunks, imageChunks, audioPcm, actionChunks, videoChunks := [], [], [], [], [];
      ledger := BLANK;
    }

    /** The adapter's assignment right before the request is sent: once, before any chunk. */
    method Start(now: real)
      requires Valid() && startTime == None
      modifies `startTime, `ledger
      ensures Valid() && ledger == Apply(old(ledger), SetStart(now), expected)
    {
      startTime := Some(now);
      ledger := Apply(ledger, SetStart(now), expected);
    }

    /** `record_error`. */
    method RecordFailure(f: Failure, now: real)
      requires Valid()
      modifies `e2eLatency, `status, `error, `ledger
      ensures Valid() && ledger == old(ledger).Fail(f, now)
    {
      Fail(f, now);
    }

    /** Nothing kept about chunks takes part in a failure. */
    method Fail(f: Failure, now: real)
      requires Follows()
      modifies `e2eLatency, `status, `error, `ledger
      ensures Follows() && ledger == old(ledger).Fail(f, now)
    {
      if startTime == None {
        e2eLatency := Some(0.0);
      } else {
        e2eLatency := Some(now - startTime.value);
      }
      status := Failed;
      error := Some(f);
      ledger := ledger.Fail(f, now);
    }

    /** `record_output_chunk`; `raised` is the RuntimeError of a chunk before the start, which
        leaves the modality noted as received. */
    method RecordOutputChunk(chunk: Chunk, status: Option<nat>, now: real) returns (raised: bool)
      requires Valid()
      modifies this
      ensures Valid() && ledger == Apply(old(ledger), Call.Output(chunk, status, now), expected)
      ensures raised <==> old(startTime) == None && chunk.data != [] && chunk.modality != Error
    {
      raised := false;
      if chunk.data == [] {
        return;
      }
      if chunk.modality == Error {
        RecordFailure(InBand(status, chunk.data), now);
        return;
      }
      NoteReceived(chunk.modality);
      if startTime == None {
        return true;
      }
      RecordData(chunk);
    }

    method RecordData(chunk: Chunk)
      requires Valid() && startTime != None
      modifies `ttft, `chunkArrivals, `responseChunks, `outputBytes, `outputTextTokens,
               `audioChunkLog, `lastAudioTime, `lastAudioDuration,
               `textChunks, `imageChunks, `audioPcm, `actionChunks, `videoChunks, `ledger
      ensures Valid() && ledger == old(ledger).(history := old(ledger).history + [chunk])
    {
      RecordBeside(chunk, ledger.history);
      Extend(ledger.history + [chunk]);
    }

    /** What is kept about chunks changes, and nothing beside it. */
    method RecordBeside(chunk: Chunk, ghost history: seq<Chunk>)
      requires Follows() && startTime != None && Same(Kept(), Summarize(history, startTime))
      modifies `ttft, `chunkArrivals, `responseChunks, `outputBytes, `outputTextTokens,
               `audioChunkLog, `lastAudioTime, `lastAudioDuration,
               `textChunks, `imageChunks, `audioPcm, `actionChunks, `videoChunks
      ensures Follows() && Same(Kept(), Summarize(history + [chunk], startTime))
    {
      RecordReceived(chunk, history);
    }

    ghost method Extend(history: seq<Chunk>)
      requires Follows() && startTime != None && Same(Kept(), Summarize(history, startTime))
      modifies `ledger
      ensures Valid() && ledger == old(ledger).(history := history)
    {
      ledger := ledger.(history := history);
    }

    method NoteReceived(m: Modality)
      requires Valid()
      modifies `received, `ledger
      ensures Valid() && ledger == old(ledger).Note(m)
    {
      received := received + [m];
      ledger := ledger.Note(m);
    }

    /** Counts a chunk and keeps its payload. */
    method RecordReceived(chunk: Chunk, ghost history: seq<Chunk>)
      requires startTime != None && Same(Kept(), Summarize(history, startTime))
      modifies `ttft, `chunkArrivals, `responseChunks, `outputBytes, `outputTextTokens,
               `audioChunkLog, `lastAudioTime, `lastAudioDuration,
               `textChunks, `imageChunks, `audioPcm, `actionChunks, `videoChunks
      ensures Same(Kept(), Summarize(history + [chunk], startTime))
    {
      ghost var kept := Kept();
      RecordToken(chunk);
      BufferOutput(chunk);
      SummaryGrows(kept, Kept(), history, chunk, startTime);
    }

    /** Keeps the payload with its modality's output. */
    method BufferOutput(chunk: Chunk)
      modifies `textChunks, `imageChunks, `audioPcm, `actionChunks, `videoChunks
      ensures Buffers(textChunks, imageChunks, audioPcm, actionChunks, videoChunks)
           == old(Buffers(textChunks, imageChunks, audioPcm, actionChunks, videoChunks)).Add(chunk)
    {
      match chunk.modality {
        case Text => textChunks := textChunks + [chunk.data];
        case Image => imageChunks := imageChunks + [chunk.data];
        case Sound => audioPcm := audioPcm + chunk.data;
        case Action => actionChunks := actionChunks + [chunk.data];
        case Video => videoChunks := videoChunks + [chunk.data];
        case _ =>
      }
    }

    /** `record_token`: the dictionaries, the token count and the audio log. */
    method RecordToken(chunk: Chunk)
      requires startTime != None
      modifies `ttft, `chunkArrivals, `responseChunks, `outputBytes, `outputTextTokens,
               `audioChunkLog, `lastAudioTime, `lastAudioDuration
      ensures Dictionaries(ttft, chunkArrivals, responseChunks, outputBytes)
           == old(Dictionaries(ttft, chunkArrivals, responseChunks, outputBytes)).Add(chunk, startTime.value)
      ensures AudioState(audioChunkLog, lastAudioTime, lastAudioDuration)
           == old(AudioState(audioChunkLog, lastAudioTime, lastAudioDuration)).Add(chunk)
      ensures outputTextTokens == old(outputTextTokens) + if chunk.modality == Text then chunk.tokens else 0
    {
      CountChunk(chunk);
      RecordKind(chunk);
    }

    /** The four dictionaries. */
    method CountChunk(chunk: Chunk)
      requires startTime != None
      modifies `ttft, `chunkArrivals, `responseChunks, `outputBytes
      ensures Dictionaries(ttft, chunkArrivals, responseChunks, outputBytes)
           == old(Dictionaries(ttft, chunkArrivals, responseChunks, outputBytes)).Add(chunk, startTime.value)
    {
      var m, now, nbytes := chunk.modality, chunk.arrival, |chunk.data|;
      if m !in ttft {
        ttft := ttft[m := now - startTime.value];
      }
      chunkArrivals := chunkArrivals[m := GetOr(chunkArrivals, m, []) + [now]];
      responseChunks := responseChunks[m := GetOr(responseChunks, m, 0) + 1];
      outputBytes := outputBytes[m := GetOr(outputBytes, m, 0) + nbytes];
    }

    /** What text and audio chunks leave beside. */
    method RecordKind(chunk: Chunk)
      modifies `outputTextTokens, `audioChunkLog, `lastAudioTime, `lastAudioDuration
      ensures AudioState(audioChunkLog, lastAudioTime, lastAudioDuration)
           == old(AudioState(audioChunkLog, lastAudioTime, lastAudioDuration)).Add(chunk)
      ensures outputTextTokens == old(outputTextTokens) + if chunk.modality == Text then chunk.tokens else 0
    {
      if chunk.modality == Text {
        outputTextTokens := outputTextTokens + chunk.tokens;
      } else if chunk.modality == Sound {
        LogAudio(chunk.arrival, PcmSeconds(|chunk.data|));
      }
    }

    method LogAudio(now: real, chunkDuration: real)
      modifies `audioChunkLog, `lastAudioTime, `lastAudioDuration
      ensures AudioState(audioChunkLog, lastAudioTime, lastAudioDuration)
           == old(AudioState(audioChunkLog, lastAudioTime, lastAudioDuration)).Next(now, chunkDuration)
    {
      if lastAudioTime != None && lastAudioDuration != None {
        var interChunkLatency := now - lastAudioTime.value;
        audioChunkLog := audioChunkLog + [LogEntry(interChunkLatency, lastAudioDuration.value)];
      }
      lastAudioTime := Some(now);
      lastAudioDuration := Some(chunkDuration);
    }

    /** `record_completion`. */
    method RecordCompletion(now: real)
      requires Valid()
      modifies `e2eLatency, `status, `error, `ledger
      ensures Valid() && ledger == Apply(old(ledger), Call.RecordCompletion(now), expected)
    {
      Complete(now);
    }

    method Complete(now: real)
      requires Follows()
      modifies `e2eLatency, `status, `error, `ledger
      ensures Follows() && ledger == Apply(old(ledger), Call.RecordCompletion(now), expected)
      ensures ledger.history == old(ledger.history)
    {
      if startTime == None {
        CompleteUnstarted(now);
        return;
      }
      CompleteStarted(now);
    }

    /** The adapter never sent the request; a message already there is kept. */
    method CompleteUnstarted(now: real)
      requires Follows() && startTime == None
      modifies `e2eLatency, `status, `error, `ledger
      ensures Follows() && ledger == Apply(old(ledger), Call.RecordCompletion(now), expected)
      ensures ledger.history == old(ledger.history)
    {
      e2eLatency := Some(0.0);
      status := Failed;
      if error == None || error == Some(Raised("")) {
        error := Some(NeverStarted);
      }
      ledger := Apply(ledger, Call.RecordCompletion(now), expected);
    }

    method CompleteStarted(now: real)
      requires Follows() && startTime != None
      modifies `e2eLatency, `status, `ledger
      ensures Follows() && ledger == Apply(old(ledger), Call.RecordCompletion(now), expected)
      ensures ledger.history == old(ledger.history)
    {
      if error != None {
        status := Failed;
      } else {
        e2eLatency := Some(now - startTime.value);
        if expected != [] && exists m <- expected :: m !in received {
          status := Failed;
        } else {
          status := Success;
        }
      }
      ledger := Apply(ledger, Call.RecordCompletion(now), expected);
    }

    lemma DictionariesAgree()
      requires Valid()
      ensures FirstTimes(ttft, ledger.history, startTime) && ArrivalTimes(chunkArrivals, ledger.history)
      ensures ChunkCounts(responseChunks, ledger.history) && ByteCounts(outputBytes, ledger.history)
    {
      FirstTimesAgree(ledger.history, startTime);
      ArrivalTimesAgree(ledger.history, startTime);
      ChunkCountsAgree(ledger.history, startTime);
      ByteCountsAgree(ledger.history, startTime);
    }

    /** `streaming_viability`. */
    method StreamingViability() returns (v: Option<real>)
      requires Valid()
      ensures v == Viability(Audio(Of(ledger.history, Sound)))
    {
      AudioAgrees(ledger.history, startTime);
      v := ViableShare(audioChunkLog, Audio(Of(ledger.history, Sound)));
    }

    /** `itl_per_token_text`; `count` is the tokenizer with its fallback, None when there is none. */
    method ItlPerTokenText(count: Option<bytes -> int>) returns (itl: Option<seq<real>>)
      requires Valid()
      ensures itl == PerToken(Of(ledger.history, Text), count)
    {
      ArrivalTimesAgree(ledger.history, startTime);
      BuffersAgree(ledger.history, startTime);
      if Text !in chunkArrivals {
        return None;
      }
      itl := SpreadGaps(chunkArrivals[Text], textChunks, count, Of(ledger.history, Text));
    }
  }

  method ViableShare(log: seq<LogEntry>, ghost a: seq<Playback.Chunk>) returns (v: Option<real>)
    requires log == GapLog(a)
    ensures v == Viability(a)
  {
    GapLogAt(a, 0);
    if log == [] {
      return None;
    }
    var viable := 0;
    for i := 0 to |log|
      invariant viable == i - Playback.Dropouts(a, i + 1)
    {
      GapLogAt(a, i);
      if log[i].gap < log[i].previous {
        viable := viable + 1;
      }
    }
    return Some(viable as real / |log| as real);
  }

  lemma {:induction false} FieldsAt(chunks: seq<Chunk>, i: nat)
    requires i < |chunks|
    ensures |Arrivals(chunks)| == |Payloads(chunks)| == |chunks|
    ensures Arrivals(chunks)[i] == chunks[i].arrival && Payloads(chunks)[i] == chunks[i].data
  {
    var rest := chunks[..|chunks| - 1];
    if rest != [] {
      FieldsAt(rest, if i < |rest| then i else 0);
    }
  }

  method SpreadGaps(arrivals: seq<real>, texts: seq<bytes>, count: Option<bytes -> int>, ghost chunks: seq<Chunk>)
    returns (itl: Option<seq<real>>)
    requires arrivals == Arrivals(chunks) && texts == Payloads(chunks) && chunks != []
    ensures itl == PerToken(chunks, count)
  {
    FieldsAt(chunks, 0);
    if |arrivals| < 2 {
      return None;
    }
    var gaps := ChunkGaps(arrivals, chunks);
    if count == None || |texts| < 2 {
      return Some(gaps);
    }
    itl := SpreadOver(gaps, texts, count.value, chunks);
  }

  method SpreadOver(gaps: seq<real>, texts: seq<bytes>, count: bytes -> int, ghost chunks: seq<Chunk>)
    returns (itl: Option<seq<real>>)
    requires gaps == Gaps(chunks) && texts == Payloads(chunks) && |chunks| >= 2 && |gaps| == |chunks| - 1
    ensures itl == PerToken(chunks, Some(count))
  {
    FieldsAt(chunks, 0);
    var out: seq<real> := [];
    for i := 0 to |gaps|
      invariant out == Spread(chunks, count, i)
    {
      FieldsAt(chunks, i + 1);
      GapsAt(chunks, i);
      var nTokens := count(texts[i + 1]);
      if nTokens > 0 {
        var perToken := gaps[i] / nTokens as real;
        out := out + Repeat(perToken, nTokens);
      }
    }
    return if out == [] then None else Some(out);
  }

  /** `chunk_gaps` for one modality. */
  method ChunkGaps(arrivals: seq<real>, ghost chunks: seq<Chunk>) returns (gaps: seq<real>)
    requires arrivals == Arrivals(chunks) && chunks != []
    ensures gaps == Gaps(chunks) && |gaps| == |chunks| - 1
  {
    gaps := [];
    FieldsAt(chunks, 0);
    assert chunks[..1][..0] == [];
    for i := 0 to |arrivals| - 1
      invariant gaps == Gaps(chunks[..i + 1]) && |gaps| == i
    {
      FieldsAt(chunks, i);
      FieldsAt(chunks, i + 1);
      assert chunks[..i + 2][..i + 1] == chunks[..i + 1];
      gaps := gaps + [arrivals[i + 1] - arrivals[i]];
    }
    assert chunks[..|chunks|] == chunks;
  }

  // ---------------------------------------------------------------- what the fields then say

  function Modalities(history: seq<Chunk>): seq<Modality> {
    if history == [] then [] else Modalities(history[..|history| - 1]) + [history[|history| - 1].modality]
  }

  lemma {:induction false} TimesIsCount(h: seq<Chunk>, m: Modality)
    ensures Times(Modalities(h), m) == |Of(h, m)|
  {
    if h != [] {
      TimesIsCount(h[..|h| - 1], m);
      var rest := Modalities(h[..|h| - 1]);
      assert (rest + [h[|h| - 1].modality])[..|rest|] == rest;
    }
  }

  lemma {:induction false} ModalitiesLength(h: seq<Chunk>)
    ensures |Modalities(h)| == |h|
  {
    if h != [] {
      ModalitiesLength(h[..|h| - 1]);
    }
  }

  lemma ModalitiesAppend(h: seq<Chunk>, c: Chunk)
    ensures Modalities(h + [c]) == Modalities(h) + [c.modality]
  {
    assert (h + [c])[..|h|] == h;
  }

  /** What was noted, against what was recorded and what raised. */
  ghost predicate Balanced(l: Ledger) {
    && |l.received| == |l.history| + l.raised
    && (l.raised == 0 <==> l.received == Modalities(l.history))
  }

  lemma SnocSame<T>(a: seq<T>, b: seq<T>, x: T)
    ensures a + [x] == b + [x] <==> a == b
  {
    PrefixOfSnoc(a, x);
    PrefixOfSnoc(b, x);
  }

  /** A chunk before the start is noted and not recorded, a later one both. */
  lemma NoteBalances(l: Ledger, c: Chunk)
    requires Balanced(l)
    ensures l.start == None ==> Balanced(l.Note(c.modality))
    ensures l.start != None ==> Balanced(l.Note(c.modality).(history := l.history + [c]))
  {
    ModalitiesLength(l.history);
    ModalitiesAppend(l.history, c);
    SnocSame(l.received, Modalities(l.history), c.modality);
    assert |l.received + [c.modality]| == |l.received| + 1;
  }

  lemma OneCallBalances(l: Ledger, call: Call, expected: seq<Modality>)
    requires Balanced(l)
    ensures Balanced(Apply(l, call, expected))
  {
    if call.Output? {
      NoteBalances(l, call.chunk);
    }
  }

  /** Over any calls, what was noted as received is the modalities of the recorded chunks iff
      no chunk came before the start. */
  lemma {:induction false} ReceivedIffNoneRaised(calls: seq<Call>, expected: seq<Modality>)
    ensures var l := Run(BLANK, calls, expected);
            && |l.received| == |l.history| + l.raised
            && (l.raised == 0 <==> l.received == Modalities(l.history))
  {
    if calls != [] {
      ReceivedIffNoneRaised(calls[..|calls| - 1], expected);
      OneCallBalances(Run(BLANK, calls[..|calls| - 1], expected), calls[|calls| - 1], expected);
    }
  }

  /** With the start set before the first chunk, each modality was noted as received exactly as
      often as it was recorded. */
  lemma {:induction false} ReceivedAsOftenAsRecorded(calls: seq<Call>, expected: seq<Modality>, m: Modality)
    requires Run(BLANK, calls, expected).raised == 0
    ensures var l := Run(BLANK, calls, expected);
            Times(l.received, m) == |Of(l.history, m)|
  {
    ReceivedIffNoneRaised(calls, expected);
    TimesIsCount(Run(BLANK, calls, expected).history, m);
  }

  /** Share of audio chunks that came before the previous one had played out. */
  function Viability(a: seq<Playback.Chunk>): Option<real> {
    if |a| < 2 then None
    else Some((|a| - 1 - Playback.Dropouts(a, |a|)) as real / (|a| - 1) as real)
  }

  /** A player with any prebuffer stalls at most once per chunk that is not viable; viability
      1.0 means it never stalls. */
  lemma ViabilityBoundsStalls(a: seq<Playback.Chunk>, prebuffer: real, minStall: real)
    requires |a| >= 2 && prebuffer >= 0.0
    ensures var stalls := Playback.Stalls(a, prebuffer, minStall, |a|).count;
            && Viability(a).Some?
            && stalls as real <= (1.0 - Viability(a).value) * (|a| - 1) as real
            && (Viability(a).value == 1.0 ==> stalls == 0)
  {
    Playback.StallsAreDropouts(a, prebuffer, minStall, |a|);
    var n, d := (|a| - 1) as real, Playback.Dropouts(a, |a|) as real;
    assert Viability(a).value == (n - d) / n;
    assert (1.0 - (n - d) / n) * n == d;
  }

  /** The gap before each chunk but the first. */
  function Gaps(chunks: seq<Chunk>): seq<real> {
    if |chunks| < 2 then []
    else Gaps(chunks[..|chunks| - 1]) + [GapBefore(chunks, |chunks| - 1)]
  }

  function GapBefore(chunks: seq<Chunk>, i: nat): real
    requires 0 < i < |chunks|
  {
    chunks[i].arrival - chunks[i - 1].arrival
  }

  lemma {:induction false} GapsAt(chunks: seq<Chunk>, i: nat)
    requires i + 1 < |chunks|
    ensures |Gaps(chunks)| == |chunks| - 1 && Gaps(chunks)[i] == GapBefore(chunks, i + 1)
  {
    var rest := chunks[..|chunks| - 1];
    if |rest| >= 2 {
      GapsAt(rest, if i + 1 < |rest| then i else 0);
    }
  }

  /** `[x] * n`. */
  function Repeat(x: real, n: nat): (s: seq<real>)
    ensures |s| == n
  {
    if n == 0 then [] else Repeat(x, n - 1) + [x]
  }

  /** The first `n` gaps, each split over the tokens of the chunk it led to. */
  function Spread(chunks: seq<Chunk>, count: bytes -> int, n: nat): seq<real>
    requires n < |chunks|
  {
    if n == 0 then []
    else
      var tokens := count(chunks[n].data);
      Spread(chunks, count, n - 1)
      + if tokens > 0 then Repeat(GapBefore(chunks, n) / tokens as real, tokens) else []
  }

  function PerToken(chunks: seq<Chunk>, count: Option<bytes -> int>): Option<seq<real>> {
    if |chunks| < 2 then None
    else if count == None then Some(Gaps(chunks))
    else
      var out := Spread(chunks, count.value, |chunks| - 1);
      if out == [] then None else Some(out)
  }

  /** Gaps that led to a chunk without tokens, among the first `n`. */
  function LostGaps(chunks: seq<Chunk>, count: bytes -> int, n: nat): real
    requires n < |chunks|
  {
    if n == 0 then 0.0
    else LostGaps(chunks, count, n - 1)
         + if count(chunks[n].data) > 0 then 0.0 else GapBefore(chunks, n)
  }

  lemma {:induction false} SumJoin(a: seq<real>, b: seq<real>)
    ensures Sum(a + b) == Sum(a) + Sum(b)
  {
    if b == [] {
      assert a + b == a;
    } else {
      SumJoin(a, b[..|b| - 1]);
      assert (a + b)[..|a + b| - 1] == a + b[..|b| - 1];
    }
  }

  lemma OneMoreShare(x: real, n: nat)
    requires n > 0
    ensures (n - 1) as real * x + x == n as real * x
  {
    var m := (n - 1) as real;
    assert n as real == m + 1.0;
  }

  lemma RepeatDrops(x: real, n: nat)
    requires n > 0
    ensures Repeat(x, n) != [] && Repeat(x, n)[..|Repeat(x, n)| - 1] == Repeat(x, n - 1)
    ensures Repeat(x, n)[|Repeat(x, n)| - 1] == x
  {
  }

  lemma {:induction false} SumRepeated(x: real, n: nat)
    ensures Sum(Repeat(x, n)) == n as real * x
  {
    if n > 0 {
      SumRepeated(x, n - 1);
      RepeatDrops(x, n);
      OneMoreShare(x, n);
    }
  }

  lemma SumShares(tokens: nat, gap: real)
    requires tokens > 0
    ensures Sum(Repeat(gap / tokens as real, tokens)) == gap
  {
    SumRepeated(gap / tokens as real, tokens);
    assert tokens as real * (gap / tokens as real) == gap;
  }

  lemma {:induction false} OneMoreGap(chunks: seq<Chunk>, count: bytes -> int, n: nat)
    requires 0 < n < |chunks|
    ensures Sum(Spread(chunks, count, n))
         == Sum(Spread(chunks, count, n - 1)) + if count(chunks[n].data) > 0 then GapBefore(chunks, n) else 0.0
  {
    var tokens, gap := count(chunks[n].data), GapBefore(chunks, n);
    if tokens > 0 {
      SumJoin(Spread(chunks, count, n - 1), Repeat(gap / tokens as real, tokens));
      SumShares(tokens, gap);
    } else {
      assert Spread(chunks, count, n - 1) + [] == Spread(chunks, count, n - 1);
    }
  }

  /** The gaps that led to a chunk with tokens, among the first `n`. */
  function KeptGaps(chunks: seq<Chunk>, count: bytes -> int, n: nat): real
    requires n < |chunks|
  {
    if n == 0 then 0.0
    else KeptGaps(chunks, count, n - 1) + if count(chunks[n].data) > 0 then GapBefore(chunks, n) else 0.0
  }

  lemma {:induction false} SumIsKept(chunks: seq<Chunk>, count: bytes -> int, n: nat, sum: real, kept: real)
    requires n < |chunks| && sum == Sum(Spread(chunks, count, n)) && kept == KeptGaps(chunks, count, n)
    ensures sum == kept
  {
    if n > 0 {
      var (sum', kept') := (Sum(Spread(chunks, count, n - 1)), KeptGaps(chunks, count, n - 1));
      SumIsKept(chunks, count, n - 1, sum', kept');
      OneMoreGap(chunks, count, n);
    }
  }

  lemma {:induction false} KeptAndLost(chunks: seq<Chunk>, count: bytes -> int, n: nat)
    requires n < |chunks|
    ensures KeptGaps(chunks, count, n) + LostGaps(chunks, count, n) == chunks[n].arrival - chunks[0].arrival
  {
    if n > 0 {
      KeptAndLost(chunks, count, n - 1);
    }
  }

  /** The per-token latencies add up to last minus first arrival, less the gaps of chunks
      without tokens. */
  lemma {:induction false} LatenciesAddUp(chunks: seq<Chunk>, count: bytes -> int, n: nat)
    requires n < |chunks|
    ensures Sum(Spread(chunks, count, n))
         == chunks[n].arrival - chunks[0].arrival - LostGaps(chunks, count, n)
  {
    SumIsKept(chunks, count, n, Sum(Spread(chunks, count, n)), KeptGaps(chunks, count, n));
    KeptAndLost(chunks, count, n);
  }

  // ---------------------------------------------------------------- token by token

  /** The tokens of the chunks after the first and before chunk `i`. */
  function TokensBefore(chunks: seq<Chunk>, count: bytes -> int, i: nat): nat
    requires 0 < i <= |chunks|
  {
    if i == 1 then 0
    else TokensBefore(chunks, count, i - 1) + if count(chunks[i - 1].data) > 0 then count(chunks[i - 1].data) else 0
  }

  lemma {:induction false} RepeatIs(x: real, n: nat)
    ensures forall j :: 0 <= j < n ==> Repeat(x, n)[j] == x
  {
    if n > 0 {
      RepeatIs(x, n - 1);
    }
  }

  lemma SpreadLast(chunks: seq<Chunk>, count: bytes -> int, n: nat, j: nat)
    requires 0 < n < |chunks| && j < count(chunks[n].data)
    ensures |Spread(chunks, count, n)| == |Spread(chunks, count, n - 1)| + count(chunks[n].data)
    ensures Spread(chunks, count, n)[|Spread(chunks, count, n - 1)| + j]
         == GapBefore(chunks, n) / count(chunks[n].data) as real
  {
    var tokens := count(chunks[n].data);
    RepeatIs(GapBefore(chunks, n) / tokens as real, tokens);
  }

  lemma {:induction false} SpreadLength(chunks: seq<Chunk>, count: bytes -> int, n: nat)
    requires n < |chunks|
    ensures |Spread(chunks, count, n)| == TokensBefore(chunks, count, n + 1)
    ensures n > 0 ==> Spread(chunks, count, n - 1) <= Spread(chunks, count, n)
  {
    if n > 0 {
      SpreadLength(chunks, count, n - 1);
    }
  }

  lemma {:induction false} SpreadExtends(chunks: seq<Chunk>, count: bytes -> int, i: nat, n: nat)
    requires i <= n < |chunks|
    ensures Spread(chunks, count, i) <= Spread(chunks, count, n)
    decreases n
  {
    if i < n {
      SpreadExtends(chunks, count, i, n - 1);
      SpreadLength(chunks, count, n);
    }
  }

  /** Token by token: the `j`-th token of chunk `i` took an even share of the gap before the chunk,
      and comes after the tokens of the chunks before. */
  lemma TokenLatency(chunks: seq<Chunk>, count: bytes -> int, n: nat, i: nat, j: nat)
    requires 0 < i <= n < |chunks| && j < count(chunks[i].data)
    ensures |Spread(chunks, count, n)| == TokensBefore(chunks, count, n + 1)
    ensures TokensBefore(chunks, count, i) + j < |Spread(chunks, count, n)|
    ensures Spread(chunks, count, n)[TokensBefore(chunks, count, i) + j]
         == (chunks[i].arrival - chunks[i - 1].arrival) / count(chunks[i].data) as real
  {
    SpreadLength(chunks, count, n);
    SpreadLength(chunks, count, i);
    SpreadLength(chunks, count, i - 1);
    SpreadExtends(chunks, count, i, n);
    SpreadLast(chunks, count, i, j);
  }

  /** What is reported: nothing for fewer than two chunks or no tokens, the plain gaps without a
      tokenizer, else one latency per token. */
  lemma PerTokenIs(chunks: seq<Chunk>, count: bytes -> int)
    ensures |chunks| < 2 ==> PerToken(chunks, None) == PerToken(chunks, Some(count)) == None
    ensures |chunks| >= 2 ==> PerToken(chunks, None).Some? && |PerToken(chunks, None).value| == |chunks| - 1
    ensures |chunks| >= 2 ==>
              forall i :: 0 <= i < |chunks| - 1 ==>
                PerToken(chunks, None).value[i] == chunks[i + 1].arrival - chunks[i].arrival
    ensures |chunks| >= 2 ==>
              PerToken(chunks, Some(count)) == if TokensBefore(chunks, count, |chunks|) == 0 then None
                                               else Some(Spread(chunks, count, |chunks| - 1))
  {
    if |chunks| >= 2 {
      SpreadLength(chunks, count, |chunks| - 1);
      GapsAt(chunks, 0);
      forall i | 0 <= i < |chunks| - 1
        ensures Gaps(chunks)[i] == chunks[i + 1].arrival - chunks[i].arrival
      {
        GapsAt(chunks, i);
      }
    }
  }

  // ---------------------------------------------------------------- viability

  /** Chunk `i` came before the one before it had played out. */
  predicate InTime(a: seq<Playback.Chunk>, i: nat) {
    0 < i < |a| && a[i].arrival - a[i - 1].arrival < a[i - 1].seconds
  }

  lemma {:induction false} CountInTime(a: seq<Playback.Chunk>, n: nat)
    requires 0 < n <= |a|
    ensures Playback.Dropouts(a, n) + |set i: nat | i < n && InTime(a, i)| == n - 1
  {
    if n > 1 {
      CountInTime(a, n - 1);
      OneMoreIndex((set i: nat | i < n - 1 && InTime(a, i)),
                   (set i: nat | i < n && InTime(a, i)), n - 1, InTime(a, n - 1));
    } else {
      assert !InTime(a, 0);
      assert (set i: nat | i < n && InTime(a, i)) == {};
    }
  }

  /** Viability is the share of chunks, after the first, that came in time. */
  lemma ViabilityIs(a: seq<Playback.Chunk>)
    ensures Viability(a) == None <==> |a| < 2
    ensures |a| >= 2 ==>
              Viability(a).value == |set i: nat | i < |a| && InTime(a, i)| as real / (|a| - 1) as real
  {
    if |a| >= 2 {
      CountInTime(a, |a|);
    }
  }
}
