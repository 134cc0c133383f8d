/** What a request ends up reporting (benchmark/request.py), read off the calls made on it: how
    long it took, why it failed, and whether it did. */
module RequestOutcome {
  import opened Bytes
  import opened RequestMetrics
  import Wave
  import opened Wrappers

  lemma LastCall(calls: seq<Call>)
    requires calls != []
    ensures calls[..|calls| - 1] == DropLast(calls) && calls[|calls| - 1] == Last(calls)
    ensures forall i :: 0 <= i < |calls| ==>
              calls[..i] == (if i < |calls| - 1 then DropLast(calls)[..i] else DropLast(calls))
  {
  }

  // ---------------------------------------------------------------- the last call of a kind

  /** The last time the start was set. */
  function LastStart(calls: seq<Call>): (i: Option<nat>)
    ensures i == None <==> !Started(calls)
    ensures i != None ==> i.value < |calls| && calls[i.value].SetStart?
    ensures i != None ==> forall k :: i.value < k < |calls| ==> !calls[k].SetStart?
  {
    if calls == [] then None
    else if Last(calls).SetStart? then Some(|calls| - 1)
    else LastStart(DropLast(calls))
  }

  /** The call settles how long the request took: it records an error, or a completion that has
      no start or no error before it. */
  ghost predicate SetsLatency(calls: seq<Call>, i: nat)
    requires i < |calls|
  {
    IsError(calls[i]) || (calls[i].RecordCompletion? && (!Started(calls[..i]) || !AnyError(calls[..i])))
  }

  ghost function LastLatency(calls: seq<Call>): (i: Option<nat>)
    ensures i == None <==> forall k :: 0 <= k < |calls| ==> !SetsLatency(calls, k)
    ensures i != None ==> i.value < |calls| && SetsLatency(calls, i.value)
    ensures i != None ==> forall k :: i.value < k < |calls| ==> !SetsLatency(calls, k)
  {
    if calls == [] then None
    else
      LastCall(calls);
      assert forall k :: 0 <= k < |calls| - 1 ==> (SetsLatency(calls, k) <==> SetsLatency(DropLast(calls), k));
      if SetsLatency(calls, |calls| - 1) then Some(|calls| - 1) else LastLatency(DropLast(calls))
  }

  /** From the start last set before the call, if any. */
  function LatencyAt(calls: seq<Call>, i: nat): real
    requires i < |calls|
  {
    match LastStart(calls[..i])
    case None => 0.0
    case Some(k) => calls[i].now - calls[k].now
  }

  /** That of the last call that settles one. */
  ghost function Latency(calls: seq<Call>): Option<real> {
    match LastLatency(calls)
    case None => None
    case Some(i) => Some(LatencyAt(calls, i))
  }

  /** The start in force. */
  function StartSet(calls: seq<Call>): Option<real> {
    match LastStart(calls)
    case None => None
    case Some(k) => Some(calls[k].now)
  }

  lemma {:induction false} StartOfCalls(calls: seq<Call>, expected: seq<Modality>)
    ensures Run(BLANK, calls, expected).start == StartSet(calls)
  {
    if calls != [] {
      LastCall(calls);
      StartOfCalls(DropLast(calls), expected);
    }
  }

  lemma {:induction false} LatencyStays(calls: seq<Call>, call: Call, i: nat)
    requires i < |calls|
    ensures LatencyAt(calls + [call], i) == LatencyAt(calls, i)
  {
    assert (calls + [call])[..i] == calls[..i] && (calls + [call])[i] == calls[i];
    var start := LastStart(calls[..i]);
    if start != None {
      assert (calls + [call])[start.value] == calls[start.value];
    }
  }

  /** The latency that call would settle. */
  lemma {:induction false} LatencyHere(calls: seq<Call>, call: Call)
    ensures LatencyAt(calls + [call], |calls|)
         == if StartSet(calls) == None then 0.0 else call.now - StartSet(calls).value
  {
    PrefixOfSnoc(calls, call);
    var start := LastStart(calls);
    if start != None {
      assert (calls + [call])[start.value] == calls[start.value];
    }
  }

  lemma {:induction false} LastLatencyNext(calls: seq<Call>, call: Call)
    ensures LastLatency(calls + [call])
         == if IsError(call) || (call.RecordCompletion? && (!Started(calls) || !AnyError(calls)))
            then Some(|calls|) else LastLatency(calls)
  {
    var all := calls + [call];
    PrefixOfSnoc(calls, call);
    assert DropLast(all) == calls && Last(all) == call;
    assert SetsLatency(all, |all| - 1)
      <==> IsError(call) || (call.RecordCompletion? && (!Started(calls) || !AnyError(calls)));
  }

  /** One more call, in terms of what the calls before it hold. */
  lemma {:induction false} LatencyNext(calls: seq<Call>, call: Call)
    ensures Latency(calls + [call])
         == if IsError(call) || (call.RecordCompletion? && (!Started(calls) || !AnyError(calls)))
            then Some(if StartSet(calls) == None then 0.0 else call.now - StartSet(calls).value)
            else Latency(calls)
  {
    LastLatencyNext(calls, call);
    LatencyHere(calls, call);
    if LastLatency(calls) != None {
      LatencyStays(calls, call, LastLatency(calls).value);
    }
  }

  lemma CallLatency(l: Ledger, call: Call, expected: seq<Modality>)
    ensures Apply(l, call, expected).e2e
         == if IsError(call) || (call.RecordCompletion? && (l.start == None || l.error == None))
            then Some(if l.start == None then 0.0 else call.now - l.start.value)
            else l.e2e
  {
  }

  /** No error and no completion, no latency: the first of either settles one. */
  lemma {:induction false} SettledIff(calls: seq<Call>)
    ensures LastLatency(calls) == None
       <==> forall k :: 0 <= k < |calls| ==> !IsError(calls[k]) && !calls[k].RecordCompletion?
  {
    if forall k :: 0 <= k < |calls| ==> !SetsLatency(calls, k) {
      NothingSettled(calls, |calls|);
    }
  }

  lemma {:induction false} NothingSettled(calls: seq<Call>, n: nat)
    requires n <= |calls| && forall k :: 0 <= k < |calls| ==> !SetsLatency(calls, k)
    ensures forall k :: 0 <= k < n ==> !IsError(calls[k]) && !calls[k].RecordCompletion?
  {
    if n > 0 {
      NothingSettled(calls, n - 1);
      assert !SetsLatency(calls, n - 1);
      assert forall k :: 0 <= k < n - 1 ==> calls[..n - 1][k] == calls[k];
      assert !AnyError(calls[..n - 1]);
    }
  }

  /** Over any calls, from the calls alone: no latency iff neither an error nor a completion was
      recorded; otherwise that of the last call that settles one, from the last start before it. */
  lemma {:induction false} LatencyOfCalls(calls: seq<Call>, expected: seq<Modality>)
    ensures Run(BLANK, calls, expected).e2e == Latency(calls)
    ensures Latency(calls) == None
       <==> forall k :: 0 <= k < |calls| ==> !IsError(calls[k]) && !calls[k].RecordCompletion?
  {
    SettledIff(calls);
    if calls != [] {
      var rest, call := DropLast(calls), Last(calls);
      LatencyOfCalls(rest, expected);
      StartOfCalls(rest, expected);
      LedgerOfCalls(rest, expected);
      Snoc(calls);
      RunAppend(BLANK, rest, call, expected);
      CallLatency(Run(BLANK, rest, expected), call, expected);
      LatencyNext(rest, call);
    }
  }

  // ---------------------------------------------------------------- the error

  /** What an error call says went wrong. */
  function Said(call: Call): Failure
    requires IsError(call)
  {
    if call.RecordError? then Raised(call.message) else InBand(call.status, call.chunk.data)
  }

  function LastError(calls: seq<Call>): (i: Option<nat>)
    ensures i == None <==> forall k :: 0 <= k < |calls| ==> !IsError(calls[k])
    ensures i != None ==> i.value < |calls| && IsError(calls[i.value])
    ensures i != None ==> forall k :: i.value < k < |calls| ==> !IsError(calls[k])
  {
    if calls == [] then None
    else if IsError(Last(calls)) then Some(|calls| - 1)
    else LastError(DropLast(calls))
  }

  /** Some completion from call `i` on found no start. */
  ghost predicate UnstartedFrom(calls: seq<Call>, i: nat) {
    exists k :: i <= k < |calls| && CompletesUnstarted(calls, k)
  }

  /** The last error that was recorded; one without a message gives way to the complaint of a
      later completion that the request was never sent. */
  ghost function Reported(calls: seq<Call>): Option<Failure> {
    match LastError(calls)
    case None => if UnstartedFrom(calls, 0) then Some(NeverStarted) else None
    case Some(i) =>
      if Said(calls[i]) == Raised("") && UnstartedFrom(calls, i + 1) then Some(NeverStarted)
      else Some(Said(calls[i]))
  }

  lemma UnstartedNext(calls: seq<Call>, call: Call, i: nat)
    requires i <= |calls|
    ensures UnstartedFrom(calls + [call], i)
       <==> UnstartedFrom(calls, i) || (call.RecordCompletion? && !Started(calls))
  {
    var all, n := calls + [call], |calls|;
    PrefixOfSnoc(calls, call);
    assert forall k :: 0 <= k < n ==> all[..k] == calls[..k] && all[k] == calls[k];
    if UnstartedFrom(calls, i) {
      var k :| i <= k < n && CompletesUnstarted(calls, k);
      assert CompletesUnstarted(all, k);
    }
    if UnstartedFrom(all, i) {
      var k :| i <= k < n + 1 && CompletesUnstarted(all, k);
      assert k < n ==> CompletesUnstarted(calls, k);
    }
    if call.RecordCompletion? && !Started(calls) {
      assert CompletesUnstarted(all, n);
    }
  }

  lemma {:induction false} ReportedNext(calls: seq<Call>, call: Call)
    ensures Reported(calls + [call])
         == if IsError(call) then Some(Said(call))
            else if call.RecordCompletion? && !Started(calls)
                    && (Reported(calls) == None || Reported(calls) == Some(Raised(""))) then Some(NeverStarted)
            else Reported(calls)
  {
    var all, n := calls + [call], |calls|;
    PrefixOfSnoc(calls, call);
    LastCall(all);
    UnstartedNext(calls, call, 0);
    if IsError(call) {
      assert !UnstartedFrom(all, n + 1);
    } else if LastError(calls) != None {
      UnstartedNext(calls, call, LastError(calls).value + 1);
    }
  }

  lemma CallError(l: Ledger, call: Call, expected: seq<Modality>)
    ensures Apply(l, call, expected).error
         == if IsError(call) then Some(Said(call))
            else if call.RecordCompletion? && l.start == None && (l.error == None || l.error == Some(Raised("")))
            then Some(NeverStarted)
            else l.error
  {
  }

  /** Over any calls, from the calls alone: which error is reported, if any. */
  lemma {:induction false} ErrorOfCalls(calls: seq<Call>, expected: seq<Modality>)
    ensures Run(BLANK, calls, expected).error == Reported(calls)
  {
    if calls == [] {
      assert !UnstartedFrom(calls, 0);
    } else {
      var rest, call := DropLast(calls), Last(calls);
      ErrorOfCalls(rest, expected);
      LedgerOfCalls(rest, expected);
      Snoc(calls);
      RunAppend(BLANK, rest, call, expected);
      CallError(Run(BLANK, rest, expected), call, expected);
      ReportedNext(rest, call);
    }
  }

  // ---------------------------------------------------------------- the status

  /** The last error or completion. */
  function LastVerdict(calls: seq<Call>): (i: Option<nat>)
    ensures i == None <==> forall k :: 0 <= k < |calls| ==> !IsError(calls[k]) && !calls[k].RecordCompletion?
    ensures i != None ==> i.value < |calls| && (IsError(calls[i.value]) || calls[i.value].RecordCompletion?)
    ensures i != None ==>
              forall k :: i.value < k < |calls| ==> !IsError(calls[k]) && !calls[k].RecordCompletion?
  {
    if calls == [] then None
    else if IsError(Last(calls)) || Last(calls).RecordCompletion? then Some(|calls| - 1)
    else LastVerdict(DropLast(calls))
  }

  /** A completion that succeeds: started, without an error, every expected modality received. */
  ghost predicate Succeeds(calls: seq<Call>, i: nat, expected: seq<Modality>)
    requires i < |calls|
  {
    && calls[i].RecordCompletion? && Started(calls[..i]) && !AnyError(calls[..i])
    && forall m <- expected :: Noted(calls[..i], m)
  }

  ghost function Verdict(calls: seq<Call>, expected: seq<Modality>): Status {
    match LastVerdict(calls)
    case None => InProgress
    case Some(i) => if Succeeds(calls, i, expected) then Success else Failed
  }

  lemma {:induction false} VerdictNext(calls: seq<Call>, call: Call, expected: seq<Modality>)
    ensures Verdict(calls + [call], expected)
         == if IsError(call) then Failed
            else if call.RecordCompletion?
            then (if Started(calls) && !AnyError(calls) && (forall m <- expected :: Noted(calls, m))
                  then Success else Failed)
            else Verdict(calls, expected)
  {
    var all, n := calls + [call], |calls|;
    PrefixOfSnoc(calls, call);
    LastCall(all);
    if LastVerdict(calls) != None {
      var i := LastVerdict(calls).value;
      assert all[..i] == calls[..i] && all[i] == calls[i];
    }
  }

  lemma CallStatus(l: Ledger, call: Call, expected: seq<Modality>)
    ensures Apply(l, call, expected).status
         == if IsError(call) then Failed
            else if call.RecordCompletion?
            then (if l.start != None && l.error == None && Covers(l.received, expected) then Success else Failed)
            else l.status
  {
  }

  /** Over any calls, from the calls alone: the last error or completion decides. */
  lemma {:induction false} StatusOfCalls(calls: seq<Call>, expected: seq<Modality>)
    requires Error !in expected
    ensures Run(BLANK, calls, expected).status == Verdict(calls, expected)
  {
    if calls != [] {
      var rest, call := DropLast(calls), Last(calls);
      StatusOfCalls(rest, expected);
      LedgerOfCalls(rest, expected);
      Snoc(calls);
      RunAppend(BLANK, rest, call, expected);
      CallStatus(Run(BLANK, rest, expected), call, expected);
      VerdictNext(rest, call, expected);
    }
  }

  // ---------------------------------------------------------------- the chunks

  /** The chunks that count: not empty, not an error, after the start. */
  function Recorded(calls: seq<Call>): seq<Chunk> {
    if calls == [] then []
    else
      Recorded(DropLast(calls)) + match Last(calls)
                                  case Output(chunk, _, _) =>
                                    if chunk.data != [] && chunk.modality != Error && Started(DropLast(calls))
                                    then [chunk] else []
                                  case _ => []
  }

  /** Over any calls, from the calls alone: the history the dictionaries and buffers are about. */
  lemma {:induction false} ChunksOfCalls(calls: seq<Call>, expected: seq<Modality>)
    ensures Run(BLANK, calls, expected).history == Recorded(calls)
  {
    if calls != [] {
      var rest, call := DropLast(calls), Last(calls);
      ChunksOfCalls(rest, expected);
      LedgerOfCalls(rest, expected);
      Snoc(calls);
      RunAppend(BLANK, rest, call, expected);
    }
  }

  function BytesPerSecond(f: Wave.WavFormat): nat {
    f.sampleRate * f.channels * (f.bitsPerSample / 8)
  }

  lemma SecondsOfBytes(n: nat)
    ensures PcmSeconds(n) * 48000.0 == n as real
  {
  }

  /** A chunk of audio plays for as long as the file it is written to says: samples, channels and
      rate are those of the header. */
  lemma AudioPlaysAsWritten(pcm: bytes)
    requires 36 + |pcm| < U32_LIMIT
    ensures var f := Wave.Parse(Wave.WavBytes(24000, pcm));
            f.Some? && PcmSeconds(|pcm|) * BytesPerSecond(f.value) as real == |pcm| as real
  {
    Wave.RoundTrip(24000, pcm);
    var f := Wave.Parse(Wave.WavBytes(24000, pcm));
    assert BytesPerSecond(f.value) == 48000;
    SecondsOfBytes(|pcm|);
  }
}
