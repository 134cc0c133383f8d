# Verified models of the benchmark harness

The harness under `benchmark/` decides what is reported about the serving engine: word error rates,
playback stalls, latencies, which runs count. This project models its algorithms and state machines in
Dafny and proves what they promise. `dafny verify dfyconfig.toml` checks everything.

| module | part of the harness |
|---|---|
| `EditDistance` | word error count: the two-row dynamic program, its optimality, the metric laws |
| `Playback` | player simulation: stalls as a max-plus recursion, effect of a prebuffer |
| `Bytes`, `Wave` | RIFF/WAVE: the header walker against a grammar of files, and the two WAV writers |
| `HeaderStrip` | removal of the WAV header from a stream that arrives in arbitrary pieces |
| `Sse` | server-sent events cut out of a stream that arrives in arbitrary pieces |
| `Whitespace`, `SseStandard`, `SseStreams` | the event framing of section 9.2 of the WHATWG HTML standard, and when the reader agrees with it |
| `Retokenize` | the oracle's re-tokenization loop |
| `Percentile` | the latency statistics and both interpolation formulas |
| `FakeEngine`, `EnginePacing`, `EngineSafety`, `EngineListing`, `EngineReuse`, `EngineTraffic` | the fake step engine: loop, step rate, per-request contract, when it dies, ids that come back, what it answers |
| `Speech` | energy VAD: runs, bridging, dropping |
| `Watermark` | the step loop that feeds staggered streams in chunks to a stateful marker |
| `RequestMetrics`, `RequestOutcome` | the per-request metrics object over any sequence of calls, and what it reports in the end |
| `Cells`, `RoundStore`, `RoundHistory`, `RoundSession` | resumable timed rounds: verdicts, cells, markers, crashes, skipped engines |
| `Wrappers` | options and sequence idioms |

Loops that update state are methods proved against a function of their inputs; objects whose methods
update fields are classes. Whole runs are folds over arbitrary call, message or write sequences. Clock
readings, received bytes, server replies and what a server process does to a run are arbitrary inputs.
Times, durations and percentiles are exact reals. JSON parsing, the tokenizer and the oracle are function
parameters: the parser may do anything except accept the empty string, the oracle sees only the prefix
before a position, and text theorems about the tokenizer assume that decoding distributes over
concatenation and undoes encoding.

## Where the code differs from its comments or from what one expects

* `http_e2e.py:80` says "never burst". A late engine ticks up to three times at one instant
  (`EnginePacing.ThreeTicksAtOnce`). A tick is followed by a full period without ticks, whatever comes
  next, iff it came on time or more than two periods late (`EnginePacing.TickIsFollowedByPeriodIff`). Over
  `k` consecutive ticks the bound `(k - 3) * period` always holds and is tight.
* The engine dies of a KeyError when an id is listed twice and completes (`EngineListing.TickCrashesIff`).
  No id is ever listed twice iff none arrives while it is still in the order list
  (`EngineListing.ListedOnceIff`); an id that does is fatal to an engine left alone, one that comes back
  after it has left the list is served like a new one (`EngineReuse.ReuseKeepsContract`).
* The oracle loop is meant to adopt another spelling of the same text. The text is kept iff the last
  re-split made neither spells past the end of the text nor loses spelled tokens to the 440-token limit
  (`Retokenize.TextKeptIff`); starting, as the program does, from the encoding of the text, it can do the
  one (`Retokenize.OvershootExample`) and the other (`Retokenize.TruncationExample`).
* The buffered stripper drops 44 bytes from anything that starts with `RIFF` and keeps nothing of a body
  under 44 bytes. On a body the parser accepts that leaves the samples iff they start at byte 44 or, in a
  shorter body, at its end (`HeaderStrip.StripIsHeaderIff`; `HeaderStrip.LongHeaderStays` is a file where they do not); the
  counting stripper agrees with it iff the body starts with `RIFF` or is shorter than 44 bytes.
* A request that fails because an expected modality is missing can still turn into a success when the
  chunk arrives later; only a recorded error is final (`RequestMetrics.MissingModalityIsNotFinal`). An
  in-band error with an empty message is dropped, and a chunk before the start raises but leaves its
  modality noted as received.
* The SSE reader cuts messages at LF LF and takes everything after a leading `data:` as one payload. For
  one message this is the data of section 9.2 of the WHATWG HTML standard iff the message has one visible
  line, an unindented `data` field whose value is trimmed but for one leading space, or carries no data for
  either reader (`SseStandard.MessageIsReadIff`). So a payload over two lines is recorded with the line end
  in it, and a `data` field after another field is dropped. CR LF never separates: a stream of single-line
  payloads with CR LF line ends is read as the standard says iff it holds at most one event
  (`SseStreams.FramedIsReadIff`). An event the stream breaks off in is recorded where the standard discards
  it (`SseStreams.UnterminatedIsRead`).
* Re-judging never withdraws a valid verdict. It agrees with judging afresh iff the cell was invalid under
  the old set, or no reply forgiven then is unforgiven now; in particular whenever the reference-bad set
  grows (`Cells.RejudgeMatchesIff`, `Cells.GrowingSetsAgree`; `Cells.ShrinkingSetDiffers` is an input where
  it does not).
* A done marker promises valid concurrency cells and a long-form cell of any verdict; re-judging asks more
  before it marks (every file valid). The round's marker promises that an engine is complete iff the engine
  was in the session that wrote it (`RoundHistory.MarkerCoversItsSession`), that is, iff it is configured and
  its server was not in `SKIP_ENGINES` (`RoundSession.MarkerMeansIff`).

## Model

| member | source | states |
|---|---|---|
| EditDistance.WordErrors | benchmark/tts_speech_wer.py:21-33 | the two-row loop returns the least cost of any script of substitutions, insertions and deletions turning reference into hypothesis |
| EditDistance.DistanceIsLowerBound | benchmark/tts_speech_wer.py:26-31 | no edit script, however chosen, is cheaper than the matrix recurrence |
| EditDistance.CheapestScript | benchmark/tts_speech_wer.py:26-31 | some script between the two lists costs exactly what the recurrence says |
| EditDistance.DistanceIsCheapest | benchmark/tts_speech_wer.py:22 | the recurrence is the cheapest cost and the only number that is |
| EditDistance.ZeroIffEqual | benchmark/tts_speech_wer.py:21-33 | no errors exactly for equal lists |
| EditDistance.Symmetric | benchmark/tts_speech_wer.py:21-33 | swapping reference and hypothesis changes nothing |
| EditDistance.Compose | benchmark/tts_speech_wer.py:21-33 | scripts a to b and b to c fuse into a script a to c that costs no more than both together |
| EditDistance.Triangle | benchmark/tts_speech_wer.py:21-33 | triangle inequality over all word lists |
| Playback.PlaybackStalls | benchmark/eval/audio.py:110-133 | count, total and longest of the counted gaps; the final playhead is first arrival plus prebuffer plus all audio plus all waiting |
| Playback.BacklogIsMaximum | benchmark/eval/audio.py:122-132 | the waiting time is the maximum lateness of any chunk, or zero: attained and an upper bound |
| Playback.TotalIsBacklog | benchmark/eval/audio.py:122-132 | with no ignored gaps the stall total equals that maximum, and there is a stall iff it is positive |
| Playback.NoStallIffPrebufferCovers | benchmark/eval/audio.py:115-117 | no stall iff the prebuffer is at least every chunk's arrival minus the audio before it |
| Playback.CountIs | benchmark/eval/audio.py:125-128 | for every threshold the number of stalls is the number of gaps above it and above zero |
| Playback.TotalIs | benchmark/eval/audio.py:125-132 | for every threshold counted and ignored silence together is all the waiting |
| Playback.LongestIs | benchmark/eval/audio.py:130 | the longest stall is the attained maximum of the counted gaps, zero when there is none |
| Playback.GapShrinks | benchmark/eval/audio.py:125-131 | at each chunk a larger prebuffer has no larger gap, and its stalls are stalls of the smaller prebuffer, for every threshold |
| Playback.PrebufferNeverHurts | benchmark/eval/audio.py:122-133 | for every threshold a larger prebuffer raises neither count, total nor longest |
| Playback.PrebufferSavesAtMostItself | benchmark/eval/audio.py:122-133 | extra prebuffer removes at most its own length of stall time |
| Playback.StallsAreDropouts | benchmark/request.py:361-371 | with a non-negative prebuffer there are at most as many stalls as gaps not covered by the previous chunk |
| Playback.StallIff | benchmark/eval/audio.py:124-132 | a later chunk stalls the player iff the gap before it exceeds the previous chunk's duration by more than the backlog less that chunk's lateness, which is never negative |
| Playback.DropoutNeedNotStall | benchmark/request.py:361-371 | the converse fails on a concrete stream |
| Wave.ParseWavHeader | benchmark/eval/audio.py:26-49 | the loop is the chunk walk, whose meaning the four rows below give |
| Wave.ParseInvertsFile | benchmark/eval/audio.py:26-49 | on any file of the grammar (any chunks, padded, before the samples; any size fields) it finds the last format and the sample offset, or nothing when there is no format |
| Wave.UnknownChunkMovesOffset | benchmark/eval/audio.py:36-48 | an unknown padded chunk inserted anywhere before the samples moves the offset by its size and changes nothing else |
| Wave.ParseIsPrefixStable | benchmark/eval/audio.py:27-31 | success on a prefix is unchanged by more bytes, and exactly the prefixes with the bytes the walk reads succeed |
| Wave.WalkSucceedsIff | benchmark/eval/audio.py:36-48 | those bytes end with the `data` header or up to 8 bytes later, later only where a `fmt ` chunk is declared shorter than its 16 bytes |
| Wave.FilePrefixIff | benchmark/eval/audio.py:27-31 | on a file of the grammar exactly the prefixes that reach the samples succeed |
| Wave.WalkExtends | benchmark/eval/audio.py:36-48 | the walk from any position is unchanged by more bytes once it succeeds |
| Wave.WalkReaches | benchmark/eval/audio.py:36-48 | a walk that succeeds on the whole succeeds on any prefix that reaches 8 bytes past the offset |
| Wave.WritePcm | benchmark/utils.py:8-28 | the file written parses to 24 kHz, mono, 16 bits, offset 44 with the samples intact, iff the size field fits; otherwise only the tag is in the file |
| Wave.RoundTrip | benchmark/tts_speech_bench.py:120-127 | parsing inverts both writers for every rate and all PCM whose sizes fit 32 bits |
| Wave.AnyFormatIsRead | benchmark/eval/audio.py:39-43 | whatever the format, plain or extended: channels, rate and sample width are those of the header |
| Wave.HeaderFields | benchmark/utils.py:14-28 | the fields nothing here reads: both sizes, format tag, byte rate and frame size |
| HeaderStrip.StripBuffered | benchmark/request.py:1664-1684 | for every cutting into reads, what is recorded is nothing under 44 bytes, the body after byte 44 if it starts with a RIFF tag, and else all of it; the completing read and then every later read as it came |
| HeaderStrip.StripCounted | benchmark/tts_speech_bench.py:138-164 | for every cutting, the bytes kept are the body minus its header; first audio is timed at the read that brings the first byte past it |
| HeaderStrip.RecordedIsStripped | benchmark/request.py:1669-1684 | the chunks recorded join to the stripped body, independently of which read completed the header |
| HeaderStrip.StrippersAgreeIff | benchmark/request.py:1673-1674 | both strippers keep the same bytes iff the body starts with a RIFF tag or is shorter than a header |
| HeaderStrip.StripIsHeaderIff | benchmark/request.py:1673-1674 | on a body the parser accepts, exactly the samples are recorded iff the parsed offset is 44, or the length of a body under 44 bytes |
| HeaderStrip.LongHeaderStays | benchmark/request.py:1673-1674 | a file with one more chunk before its samples, of which eight header bytes are recorded as audio |
| HeaderStrip.StripUndoesWriter | benchmark/tts_speech_bench.py:120-164 | both strippers recover the samples of any file the writers make |
| Sse.ReadStream | benchmark/request.py:1152-1183 | what is recorded, and whether handling raised, depends only on the concatenated bytes, however reads cut them |
| Sse.PiecesExtend | benchmark/request.py:1156-1158 | more bytes touch only the unterminated piece: no message already cut changes |
| Sse.TailIsLikeLoop | benchmark/request.py:1173-1183 | the flush at the end treats the rest exactly as the loop treats a message |
| Sse.OutcomeComposes | benchmark/request.py:1157-1169 | two streams joined by a separator record what the first records, then what the second does unless the first raised |
| Sse.FinalSeparatorIsOptional | benchmark/request.py:1171-1172 | a missing final separator makes no difference |
| Sse.FramingRoundTrip | benchmark/request.py:910-924 | a stream framed one payload per message records exactly the payloads' bodies in order, without the terminator |
| Whitespace.StripIs | benchmark/request.py:915-918 | stripping takes off exactly the bytes 9 to 13 and 32 at both ends |
| SseStandard.OutcomeDelivers | benchmark/request.py:1157-1183 | what a stream records is what its messages' payloads record, one after the other: documents their chunks, anything else nothing, or an exception for what is no object or no text |
| SseStandard.MessageIsReadIff | benchmark/request.py:915-922 | for one message the reader hands on exactly the data the standard does iff its lines meet a stated condition |
| SseStreams.LfStreamIsRead | benchmark/request.py:1157-1169 | on an LF stream whose messages all meet it, reader and standard hand on the same data |
| SseStreams.FramedIsReadIff | benchmark/request.py:1157-1158 | with one single-line payload per event the standard reads the payloads under LF, CR LF and CR; the reader does iff lines end with LF or there is at most one event |
| SseStreams.TwoLinesAreRead | benchmark/request.py:915-918 | an event over two lines is recorded with both, of which the standard has the first |
| SseStreams.LoneCrLfIsRead | benchmark/request.py:1171-1181 | a lone event with CR LF line ends is read alike by both |
| SseStreams.NamedEventIsDropped | benchmark/request.py:915-917 | a data field after an event name is dropped, and read by the standard |
| SseStreams.UnterminatedIsRead | benchmark/request.py:1171-1181 | an event the stream breaks off in is recorded, and discarded by the standard |
| Retokenize.Realign | benchmark/asr318_run/oracle.py:370-388 | the number of re-splits, and the ids after that many; stopping before the cap means no disagreement can be re-spelled and the arrays describe the final ids |
| Retokenize.RepairsIncrease | benchmark/asr318_run/oracle.py:376-386 | the first re-spellable position strictly increases with every re-split |
| Retokenize.RepairIs | benchmark/asr318_run/oracle.py:376-386 | the loop repairs the first position where the oracle disagrees with a token that spells at least one character and fits the text, and adopts that token |
| Retokenize.ResplitsAreBounded | benchmark/asr318_run/oracle.py:362-388 | re-splits and the starting position together stay within 440: the loop stops without its cap |
| Retokenize.ResplitKeepsIff | benchmark/asr318_run/oracle.py:379-383 | one re-split gives tokens that spell the served text iff it neither spells past it nor loses spelled tokens to the limit, whatever the tokens spelled before |
| Retokenize.TextKeptIff | benchmark/asr318_run/oracle.py:372-388 | after any number of passes the tokens spell the text iff the last re-split made meets that condition; with no re-split, iff they did before |
| Retokenize.TextStaysComparable | benchmark/asr318_run/oracle.py:381-383 | in every case, truncation included, the text stays a prefix or an extension of the served text |
| Retokenize.OvershootSettles | benchmark/asr318_run/oracle.py:381-388 | an overshoot ends the loop: the next pass finds full agreement on re-spellable positions |
| Retokenize.OvershootExample | benchmark/asr318_run/oracle.py:381-383 | a concrete tokenizer, oracle and text, started from its encoding, whose text is extended |
| Retokenize.TruncationExample | benchmark/asr318_run/oracle.py:382-383 | a tokenizer and oracle with which every text of 441 characters that starts with the token "ab", started from its 440-token encoding, loses its last character without any overshoot |
| Percentile.SortedIsUnique | benchmark/request.py:50 | a multiset has one sorted list, so the sort used does not matter |
| Percentile.SortKeepsDominance | benchmark/request.py:50 | raising values pointwise raises the sorted list pointwise |
| Percentile.FormulasAgree | benchmark/runner.py:242-250 | on every list, both formulas give the percentile: `1 - w` of one value and `w` of the next where `p` percent of the way falls `w` of the way between them, and the value itself when there is one |
| Percentile.PercentileFalls | benchmark/request.py:52-54 | every percentile of two or more values falls between two neighbours |
| Percentile.PercentileBetweenExtremes | benchmark/request.py:52-55 | a percentile lies within any bounds of the values |
| Percentile.PercentileIsMonotone | benchmark/request.py:52-55 | a higher percentile is no smaller |
| Percentile.PercentileIgnoresOrder | benchmark/request.py:50-55 | the order of the samples does not matter |
| Percentile.PercentileIsDominated | benchmark/request.py:50-55 | latencies raised pointwise never lower a percentile |
| Percentile.TailsAreOrdered | benchmark/request.py:46-70 | the reported percentiles of either direction are present and in order |
| Percentile.SlowerRunIsSlowerThroughout | benchmark/request.py:65-70 | a run with pointwise larger values has no smaller mean or percentile, in either direction of report |
| Percentile.StatsAre | benchmark/request.py:46-70 | what is reported is the mean and the percentiles, in the sense above, 50 and 95, 99 or 5, 10 of the sorted values; the fields of the other direction stay unset |
| FakeEngine.Engine.Iterate | benchmark/api_output_path/http_e2e.py:64-105 | one turn of the loop, with its messages, clock and outbox, is the state machine's step; the KeyError is its crash |
| FakeEngine.Engine.RunAll | benchmark/api_output_path/http_e2e.py:63-105 | the loop over any turns is the state machine's run |
| EnginePacing.NextDueIsNear | benchmark/api_output_path/http_e2e.py:79-81 | after a tick the deadline is within one period of now, and at least a period past the old one |
| EnginePacing.NoDriftIff | benchmark/api_output_path/http_e2e.py:78-80 | from any state on, the deadline is exactly one period per tick further iff no tick came more than two periods after its place in the rhythm; otherwise it is behind for good |
| EnginePacing.DeadlineIs | benchmark/api_output_path/http_e2e.py:59-80 | after n ticks of a run the deadline is n periods past the start iff no tick was too late |
| EnginePacing.LateTickResets | benchmark/api_output_path/http_e2e.py:78-80 | after a tick more than two periods late the deadline is a period after the clock, after any other a period after the old deadline |
| EnginePacing.TickKeepsPace | benchmark/api_output_path/http_e2e.py:75-81 | one tick keeps the rate bound, in the normal and in the reset branch |
| EnginePacing.EveryRunIsPaced | benchmark/api_output_path/http_e2e.py:75-81 | in every run any k consecutive ticks span at least (k - 3) periods |
| EnginePacing.ThreeTicksAtOnce | benchmark/api_output_path/http_e2e.py:79-81 | three ticks can fall on one instant |
| EnginePacing.BoundIsAttained | benchmark/api_output_path/http_e2e.py:79-81 | for every k from 3 on some run attains the bound exactly |
| EnginePacing.DeadlineIsAheadIff | benchmark/api_output_path/http_e2e.py:79-81 | the deadline set by a tick is a full period away iff the tick was on time or more than two periods late |
| EnginePacing.TickIsFollowedByPeriodIff | benchmark/api_output_path/http_e2e.py:75-81 | at any tick of any run: every continuation waits a full period for the next tick iff the tick was on time, more than two periods late, or ended the process |
| EngineSafety.EveryRunIsGood | benchmark/api_output_path/http_e2e.py:63-105 | every run with distinct ids keeps the books: containers agree with the trace, every event is in order, nothing crashes |
| EngineSafety.RequestContract | benchmark/api_output_path/http_e2e.py:86-105 | each request gets loop indices 0, 1, 2, ... without gap or repeat, at most its quota, and one completion exactly when it has its quota and was not aborted |
| EngineSafety.EventContract | benchmark/api_output_path/http_e2e.py:82-105 | each frame lists every live request once in arrival order; completions report what was sent iff a token was asked for; a request gone is silent from then on |
| EngineSafety.RowContract | benchmark/api_output_path/http_e2e.py:86-97 | row by row: the live request in that place, its next index, and the vocabulary token for index and place |
| EngineSafety.GoneIsSilent | benchmark/api_output_path/http_e2e.py:73-105 | after completion or abort no later event names the request in a frame or completion |
| EngineSafety.EveryFrameCounts | benchmark/api_output_path/http_e2e.py:89-93 | a request has been sent as many tokens as there were frames while it was live |
| EngineSafety.EveryRequestEndsOnce | benchmark/api_output_path/http_e2e.py:64-105 | conservation: a request that arrived is live, or was completed once, or was aborted once |
| EngineSafety.RequestProgress | benchmark/api_output_path/http_e2e.py:82-105 | a request is completed exactly when its quota-th frame since it arrived has been sent, and until then is live unless aborted |
| EngineListing.TickCrashesIff | benchmark/api_output_path/http_e2e.py:82-101 | a tick ends in the KeyError iff some id is listed twice among the live ones and the frame brings it to its tokens |
| EngineListing.ListedOnceIff | benchmark/api_output_path/http_e2e.py:63-105 | over every run: no id is ever listed twice iff none arrives while it is still listed, and then nothing crashes |
| EngineListing.RelistingIsFatal | benchmark/api_output_path/http_e2e.py:66-101 | from any state, an id that arrives while it is still listed ends the process if nothing more is received |
| EngineListing.ReusedIdSurvives | benchmark/api_output_path/http_e2e.py:66-83 | for every configuration some run sends an id again after it has left the list and does not crash |
| EngineListing.RepeatedIdCrashes | benchmark/api_output_path/http_e2e.py:66-101 | for every quota some run with one id sent twice ends in the KeyError |
| EngineReuse.ReuseKeepsContract | benchmark/api_output_path/http_e2e.py:63-105 | over every run in which no id arrives while it is still listed: each frame lists every live request once in arrival order, indices and quota count from the latest arrival, nothing crashes |
| EngineReuse.DistinctIsNoneRelisted | benchmark/api_output_path/http_e2e.py:63-105 | runs with distinct ids are among those |
| EngineTraffic.EveryRunCounts | benchmark/api_output_path/http_e2e.py:63-106 | over any run: steps and rows counted are those of the frames sent, and every message has been taken in order unless the engine died |
| EngineTraffic.EveryRunAnswers | benchmark/api_output_path/http_e2e.py:69-98 | while none is relisted: each tick with live requests is followed by a frame at once, each finished read by its removal, and neither comes otherwise |
| Speech.SpeechSegments | benchmark/eval/audio.py:163-179 | the loops over frames, runs and bridged segments return the detected segments: frame numbers times the frame length |
| Speech.RunsAreRuns | benchmark/eval/audio.py:163-172 | the first loop finds exactly the maximal runs of active frames |
| Speech.RunsAreUnique | benchmark/eval/audio.py:163-172 | a mask has one list of maximal runs |
| Speech.BridgeIsApart | benchmark/eval/audio.py:173-178 | bridged segments are ordered, keep both ends, and leave no short silence between them |
| Speech.SameSegmentIff | benchmark/eval/audio.py:173-178 | two active frames share a bridged segment iff every silence between them lasts less than the minimum |
| Speech.DetectSeparates | benchmark/eval/audio.py:157-159 | reported segments are ordered, at least the minimum silence apart and at least the minimum speech long |
| Speech.DetectIff | benchmark/eval/audio.py:179 | a segment is reported iff it is a bridged segment that lasts at least the minimum |
| Speech.ReportedIff | benchmark/eval/audio.py:157-179 | of the mask alone: a frame is in a reported segment iff it lies between two active frames, or is one, that span the minimum and have no silence of the minimum length between them |
| Speech.DetectIsIdempotent | benchmark/eval/audio.py:157-179 | detecting on a mask painted from the output returns the output |
| Watermark.ChunkEdges | benchmark/audio_watermark_check.py:244-249 | edges start at 0, follow the schedule, end at the length |
| Watermark.EdgeIs | benchmark/audio_watermark_check.py:244-249 | the edges are at 1, 4, 12 and 28 frames of 1920 samples, then every 25, cut off by the length |
| Watermark.LiveFiles | benchmark/audio_watermark_check.py:212 | exactly the files with a chunk due in the step, once each, in name order |
| Watermark.ServeCall | benchmark/audio_watermark_check.py:214-224 | a call serves the next chunk of exactly its files and marks each in its own stream's state |
| Watermark.ServeStep | benchmark/audio_watermark_check.py:211-224 | the calls of a step serve every live file once, all but the last with 32 rows |
| Watermark.Stream | benchmark/audio_watermark_check.py:203-229 | every chunk of every file is processed once, in order, at its step, flagged iff last, and nothing else; within a step in name order, in calls of 32 rows but the last; the slices of a file join to it; its parts are those of the file marked alone; it fails iff there is no file or an empty one |
| Watermark.ExpectedAt | benchmark/audio_watermark_check.py:211-222 | chunk i of the k-th file is due at step k % 5 + i, from edge to edge, flagged iff last |
| Watermark.MarkedAt | benchmark/audio_watermark_check.py:206-226 | each part is its chunk marked in the state the chunk before left |
| Watermark.MarkedLength | benchmark/audio_watermark_check.py:217-229 | a marker that keeps chunk lengths keeps the length of every file |
| Watermark.SlicesJoin | benchmark/audio_watermark_check.py:217-219 | the first n slices join to the file up to the n-th edge |
| Watermark.WholeFile | benchmark/audio_watermark_check.py:217-229 | all slices join to the whole file |
| RequestMetrics.ErrorIsFinal | benchmark/request.py:149-161 | once an error is recorded no later calls yield anything but failure |
| RequestMetrics.LedgerOfCalls | benchmark/request.py:133-250 | over any calls: started, failed and noted modalities are exactly what the calls contain |
| RequestMetrics.SuccessIff | benchmark/request.py:219-250 | completion succeeds iff the start was set, no error was recorded and every expected modality arrived |
| RequestMetrics.MissingModalityIsNotFinal | benchmark/request.py:240-250 | a request failed only for a missing modality succeeds when the chunk comes and completion is recorded again |
| RequestMetrics.FirstTimesAgree | benchmark/request.py:198-199 | time to first token is first arrival minus start, for exactly the modalities seen |
| RequestMetrics.ArrivalTimesAgree | benchmark/request.py:200 | the arrival list of each modality is that of its chunks, in order |
| RequestMetrics.ChunkCountsAgree | benchmark/request.py:202 | the chunk count of each modality is the number of its chunks |
| RequestMetrics.ByteCountsAgree | benchmark/request.py:203 | the byte count of each modality is the sum of its payloads |
| RequestMetrics.BuffersAgree | benchmark/request.py:172-181 | each output buffer holds the payloads of its modality in order |
| RequestMetrics.AudioAgrees | benchmark/request.py:205-217 | the audio log has one entry per consecutive pair of audio chunks; the token count is the sum over text chunks |
| RequestMetrics.Metrics.RecordOutputChunk | benchmark/request.py:133-181 | the fields follow the ledger of calls: empty chunks ignored, error chunks recorded as failure, chunks before the start noted and raising, others counted and kept |
| RequestMetrics.Metrics.RecordCompletion | benchmark/request.py:219-250 | the fields follow the ledger through all four ways to complete |
| RequestMetrics.Metrics.RecordFailure | benchmark/request.py:306-312 | the fields follow the ledger through an error, before or after the start |
| RequestMetrics.Metrics.DictionariesAgree | benchmark/request.py:85-101 | at any point the object's dictionaries are those of the chunks recorded so far |
| RequestMetrics.Metrics.StreamingViability | benchmark/request.py:361-371 | the share of audio chunks whose gap the previous chunk covers, none with fewer than two |
| RequestMetrics.Metrics.ItlPerTokenText | benchmark/request.py:324-359 | every text gap spread over the tokens of the chunk that ended it; raw gaps without a tokenizer |
| RequestMetrics.ReceivedIffNoneRaised | benchmark/request.py:163-170 | modalities noted and chunks recorded differ exactly by the chunks that raised |
| RequestMetrics.ReceivedAsOftenAsRecorded | benchmark/request.py:163-202 | when none raised, each modality was noted as often as its chunks were recorded |
| RequestMetrics.ViabilityBoundsStalls | benchmark/request.py:361-371 | player stalls are at most the chunks that are not viable, for every non-negative prebuffer and threshold; viability 1 means no stall |
| RequestMetrics.LatenciesAddUp | benchmark/request.py:344-358 | per-token latencies sum to last minus first arrival less the gaps of chunks without tokens |
| RequestMetrics.TokenLatency | benchmark/request.py:344-358 | each token of a chunk takes an even share of the gap before the chunk, in the chunks' order |
| RequestMetrics.PerTokenIs | benchmark/request.py:338-359 | nothing for fewer than two chunks or no tokens, the plain gaps without a tokenizer, else one latency per token |
| RequestMetrics.ViabilityIs | benchmark/request.py:361-371 | viability is the share of later chunks that came before the one before had played out |
| RequestOutcome.LatencyOfCalls | benchmark/request.py:219-238 | over any calls: no latency iff neither an error nor a completion was recorded; else that of the last call that settles one, 0 without a start, else the time since the last start before it |
| RequestOutcome.ErrorOfCalls | benchmark/request.py:219-312 | over any calls: the error reported is the last one recorded, or that no request was sent when a completion found no start and no message |
| RequestOutcome.StatusOfCalls | benchmark/request.py:219-312 | over any calls: in progress until an error or completion is recorded, then the last of them decides |
| RequestOutcome.ChunksOfCalls | benchmark/request.py:133-181 | over any calls: the chunks the dictionaries and buffers are about are the non-empty ones after the start, in order |
| RequestOutcome.AudioPlaysAsWritten | benchmark/request.py:373-378 | a chunk of audio plays for as long as the header of the file it is written to says |
| Cells.MakeCell | benchmark/asr318_run/run.py:640-665 | the loop over replies yields the cell that the rows below characterise |
| Cells.ValidIff | benchmark/asr318_run/run.py:307-665 | a cell is valid iff every reply succeeded, has words where the reference has, and is long enough and close enough or short or of an utterance the reference fails on; so errors and empty replies are never forgiven |
| Cells.JudgeIs | benchmark/asr318_run/run.py:307-321 | each verdict in terms of the reply: failed, empty, under half the words, error rate above a half |
| Cells.CountsAre | benchmark/asr318_run/run.py:642-665 | the two numbers of a cell count the failed replies and the replies that do not pass |
| Cells.RecordsAre | benchmark/asr318_run/run.py:645-646 | one record per reply, in order, with its verdict |
| Cells.ValidIsMonotone | benchmark/asr318_run/run.py:648-652 | a larger reference-bad set never invalidates |
| Cells.RejudgeCell | benchmark/asr318_run/run.py:604-622 | the loop over records rewrites a cell iff it becomes valid |
| Cells.RejudgedIff | benchmark/asr318_run/run.py:604-622 | a cell becomes valid iff it has records, no errors, and no bad verdict but those the reference shares; otherwise it stays as it is |
| Cells.RejudgeMatchesIff | benchmark/asr318_run/run.py:599-622 | re-judging leaves the verdict of judging afresh iff not all replies passed under the old set, or each is plausible or of an utterance of the new set |
| Cells.ShrinkingSetDiffers | benchmark/asr318_run/run.py:604-613 | a reply and two sets where re-judging keeps a verdict a new cell would not get |
| Cells.GrowingSetsAgree | benchmark/asr318_run/run.py:599-622 | with a growing set any number of re-judgings leaves the verdict `cell` would give with the last set |
| RoundStore.Process.MeasureConcs | benchmark/asr318_run/run.py:1082-1109 | measures exactly the unsettled levels up to where it stops; ends clean iff all levels are valid iff it recorded no failure |
| RoundStore.Process.RunEngineRound | benchmark/asr318_run/run.py:1051-1142 | all cells it leaves; a marker iff it got through with every concurrency cell valid; no failure and no exception means marked; a marked engine is left alone |
| RoundStore.Process.RejudgeCells | benchmark/asr318_run/run.py:599-637 | each file becomes its own re-judgement; engines are marked iff marked before or left with the expected files all valid |
| RoundStore.Process.PhaseRound | benchmark/asr318_run/run.py:1145-1188 | status 0 iff cleared, GPUs free and no failure recorded; then every engine and the round are marked, and each engine was marked before, re-judged complete, or ran clean; otherwise the round's marker is untouched |
| RoundStore.TasksAt | benchmark/asr318_run/run.py:1082-1136 | file by file: valid cells and realtime results of any kind are left alone, every other cell of the engine's own tasks, long-form ones included, is replaced by the cell of this launch's replies |
| RoundStore.CompleteIff | benchmark/asr318_run/run.py:1082-1142 | a run through all tasks completes the engine iff each of the four levels was valid before or all its new replies pass |
| RoundStore.TasksAre | benchmark/asr318_run/run.py:1082-1130 | which files a run of an engine has: four levels, one or two long-form modes, two realtime sessions for one model in rounds 1 and 2 |
| RoundStore.MarkedIff | benchmark/asr318_run/run.py:1082-1142 | a marker promises four valid concurrency cells and a long-form cell |
| RoundStore.AllValidIff | benchmark/asr318_run/run.py:629-637 | re-judging marks an engine iff its five expected files are there and every file it has is valid |
| RoundHistory.AnyCrashIsLegal | benchmark/asr318_run/run.py:157-161 | a process killed after any of its writes is a legal step of a history |
| RoundHistory.EveryHistoryIsSound | benchmark/asr318_run/run.py:177-186 | over any runs, crashes and re-judgings an engine's marker implies four valid concurrency cells and a long-form cell |
| RoundHistory.ValidCellsSurvive | benchmark/asr318_run/run.py:1083-1085 | a cell once valid is that same cell ever after |
| RoundHistory.FinishedMeansComplete | benchmark/asr318_run/run.py:1186-1187 | once the round's marker is written, every engine of that session is complete whatever happens later |
| RoundHistory.MarkerCoversItsSession | benchmark/asr318_run/run.py:1179-1188 | for every session and engine: the round's marker written by that session means that the engine is complete, over all legal sound histories, iff the engine is in the session |
| RoundSession.SessionOrder | benchmark/asr318_run/run.py:1151-1156 | the loop over the models returns the session's engines, rotated by the round, or fails iff a model has none left |
| RoundSession.OrderHolds | benchmark/asr318_run/run.py:189-194 | whatever the round, a session visits an engine once if it is not skipped, SGLang never for the realtime model, and no other |
| RoundSession.OrderIs | benchmark/asr318_run/run.py:1151-1156 | the order is model by model, each model's engines read round and round from the place the round says |
| RoundSession.EnginesOfIs | benchmark/asr318_run/run.py:193-194 | the engines of a model are those not skipped, in configured order |
| RoundSession.MarkerMeansIff | benchmark/asr318_run/run.py:1151-1188 | the round's marker of a session means that an engine is complete iff its server is not skipped and serves the model |

## Left out

- HTTP, WebSocket and subprocess plumbing, dataset downloads, argument parsing, reports and printing.
- The serving engine, model code, tokenizer, JSON and base64 internals: parameters, or not part of this model.
- IEEE rounding: times, rates, thresholds and percentiles are exact reals.
- The watermark model itself: any state machine per stream, under which rows marked in one call do not see each other.
- The oracle's statistics after the loop, and what the loop leaves in its arrays when it stops at the 32-pass cap; `Retokenize.Realign` says how many re-splits happened then, not that the arrays are current.
- Frame energies: `Speech` starts from the mask of active frames.
- What an SSE document's choices decode to: a document is the chunks recorded from it, in order, and whether recording raised after them. Comments, event names, ids and retry times carry no data; a byte order mark is not modelled.
- `usage` totals that overwrite the text-token count, `input_tokens`, and the files `RequestMetrics` writes.
- Warm-up requests, collection, stress and realtime measurements: only whether they raise, what they record as failures, and that their files exist.
- Verdict message texts, and the numbers in a cell besides error and bad counts.
- `Server.bench_config`, the gate, tuning and summaries; dry runs, which write nothing.
- Torn writes: a write is atomic, which is what renaming a temporary file provides.
- RoundStore.Process.RejudgeCells: visits files and engines in no fixed order where the program sorts them; each is treated on its own, so the files left are the same.
- VoxServe's first-chunk skip, which depends on how reads are cut by design.
