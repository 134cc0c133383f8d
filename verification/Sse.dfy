/** Server-sent events read from arbitrary network reads (`VLLMOmni.send_request` and
    `_parse_sse_chunk` of benchmark/request.py). Bytes are concrete; JSON is a parameter. */
module Sse {
  import opened Bytes
  import opened Wrappers

  const LF: byte := 10
  const SEPARATOR: bytes := [LF, LF]
  const DATA: bytes := [0x64, 0x61, 0x74, 0x61, 0x3a]               // data:
  const DONE: bytes := [0x5b, 0x44, 0x4f, 0x4e, 0x45, 0x5d]         // [DONE]

  /** What a payload is to the reader. `json.loads` gives any of these; `Done` is an object
      whose `_done` is set, `Scalar` a value without `get`, `Undecodable` bytes that are not
      text, which raise where `Malformed` JSON does not. Of a `Document` the recorder takes
      the chunks of its choices in order, and raises after the last of them if it is `broken`. */
  datatype Json<T> = Malformed | Undecodable | Null | Scalar | Done | Document(chunks: seq<T>, broken: bool)

  /** What was recorded, and whether an exception ended it: of a message, or of a request. */
  datatype Session<T> = Session(recorded: seq<T>, raised: bool)

  function Nothing<T>(): Session<T> {
    Session([], false)
  }

  function Continue<T>(first: Session<T>, second: Session<T>): Session<T> {
    if first.raised then first else Session(first.recorded + second.recorded, second.raised)
  }

  // ---------------------------------------------------------------- bytes.strip and bytes.split

  predicate IsSpace(b: byte) {
    b == 32 || 9 <= b <= 13
  }

  function Strip(s: bytes): bytes {
    if s == [] then []
    else if IsSpace(s[0]) then Strip(s[1..])
    else if IsSpace(s[|s| - 1]) then Strip(s[..|s| - 1])
    else s
  }

  predicate StartsWith(s: bytes, prefix: bytes) {
    |prefix| <= |s| && s[..|prefix|] == prefix
  }

  /** A separator starts at `i`. */
  predicate SeparatorAt(s: bytes, i: nat) {
    i + 2 <= |s| && s[i] == LF && s[i + 1] == LF
  }

  /** The first separator at or after `i`, `|s|` when there is none. */
  function FindFrom(s: bytes, i: nat): (at: nat)
    requires i <= |s|
    ensures i <= at <= |s|
    decreases |s| - i
  {
    if i == |s| || SeparatorAt(s, i) then i else FindFrom(s, i + 1)
  }

  function FirstSeparator(s: bytes): (at: nat)
    ensures at <= |s|
  {
    FindFrom(s, 0)
  }

  ghost predicate IsFirst(s: bytes, at: nat) {
    && at <= |s|
    && (at < |s| ==> SeparatorAt(s, at))
    && forall j: nat :: j < at ==> !SeparatorAt(s, j)
  }

  lemma {:induction false} FindFromIs(s: bytes, i: nat, at: nat)
    requires i <= at && IsFirst(s, at)
    ensures FindFrom(s, i) == at
    decreases at - i
  {
    if i < at {
      FindFromIs(s, i + 1, at);
    }
  }

  lemma {:induction false} FindFromFinds(s: bytes, i: nat)
    requires i <= |s| && forall j: nat :: j < i ==> !SeparatorAt(s, j)
    ensures IsFirst(s, FindFrom(s, i))
    decreases |s| - i
  {
    if i < |s| && !SeparatorAt(s, i) {
      FindFromFinds(s, i + 1);
    }
  }

  /** `FirstSeparator` is the first separator, and nothing else is. */
  lemma FirstSeparatorIs(s: bytes, at: nat)
    ensures FirstSeparator(s) == at <==> IsFirst(s, at)
  {
    FindFromFinds(s, 0);
    if IsFirst(s, at) {
      FindFromIs(s, 0, at);
    }
  }

  /** All separated pieces of a stream, the last one unterminated. */
  function Pieces(s: bytes): (pieces: seq<bytes>)
    ensures pieces != []
    decreases |s|
  {
    var i := FirstSeparator(s);
    if i + 2 > |s| then [s] else [s[..i]] + Pieces(s[i + 2..])
  }

  // ---------------------------------------------------------------- one message

  /** `_parse_sse_chunk`: `Null` stands for None, which malformed JSON also gives. */
  function ParseSseChunk<T>(json: bytes -> Json<T>, raw: bytes): Json<T> {
    var line := Strip(raw);
    if !StartsWith(line, DATA) then Null
    else
      var payload := Strip(line[|DATA|..]);
      if payload == DONE then Json.Done
      else if json(payload) == Malformed then Null
      else json(payload)
  }

  function Handle<T>(chunk: Json<T>): Session<T> {
    match chunk
    case Document(chunks, broken) => Session(chunks, broken)
    case Scalar => Session([], true)
    case Undecodable => Session([], true)
    case _ => Nothing()
  }

  /** A message cut off by a separator. */
  function LoopEffect<T>(json: bytes -> Json<T>, message: bytes): Session<T> {
    var m := Strip(message);
    if m == [] then Nothing() else Handle(ParseSseChunk(json, m))
  }

  /** What is left in the buffer when the stream ends: the flush parses it its own way. */
  function TailEffect<T>(json: bytes -> Json<T>, buffer: bytes): Session<T> {
    var tail := Strip(buffer);
    if !StartsWith(tail, DATA) then Nothing()
    else
      var payload := Strip(tail[|DATA|..]);
      if payload == [] || payload == DONE then Nothing()
      else
        match json(payload)
        case Malformed => Nothing()
        case Undecodable => Session([], true)
        case _ => Handle(ParseSseChunk(json, tail))
  }

  lemma {:induction false} StripIsTight(s: bytes)
    ensures Strip(s) != [] ==> !IsSpace(Strip(s)[0]) && !IsSpace(Strip(s)[|Strip(s)| - 1])
    ensures Strip(Strip(s)) == Strip(s)
    decreases |s|
  {
    if s != [] {
      if IsSpace(s[0]) {
        StripIsTight(s[1..]);
      } else if IsSpace(s[|s| - 1]) {
        StripIsTight(s[..|s| - 1]);
      }
    }
  }

  /** The flush handles what is left exactly as the loop would; the empty payload is the one
      place they read differently, and it is not JSON. */
  lemma TailIsLikeLoop<T>(json: bytes -> Json<T>, buffer: bytes)
    requires json([]) == Malformed
    ensures TailEffect(json, buffer) == LoopEffect(json, buffer)
  {
    StripIsTight(buffer);
  }

  // ---------------------------------------------------------------- a whole stream

  /** Handles messages in order until one raises. */
  function Run<T>(json: bytes -> Json<T>, messages: seq<bytes>): Session<T> {
    if messages == [] then Nothing()
    else Continue(Run(json, DropLast(messages)), LoopEffect(json, Last(messages)))
  }

  /** What a stream records: a function of its bytes alone. */
  function Outcome<T>(json: bytes -> Json<T>, stream: bytes): Session<T> {
    Run(json, Pieces(stream))
  }

  lemma ContinueIsAssociative<T>(a: Session<T>, b: Session<T>, c: Session<T>)
    ensures Continue(a, Continue(b, c)) == Continue(Continue(a, b), c)
  {
  }

  lemma {:induction false} RunSplit<T>(json: bytes -> Json<T>, a: seq<bytes>, b: seq<bytes>)
    ensures Run(json, a + b) == Continue(Run(json, a), Run(json, b))
    decreases |b|
  {
    if b == [] {
      assert a + b == a;
    } else {
      RunSplit(json, a, DropLast(b));
      LastOfJoin(a, b);
      ContinueIsAssociative(Run(json, a), Run(json, DropLast(b)), LoopEffect(json, Last(b)));
    }
  }

  lemma CutFirst(s: bytes, i: nat)
    requires IsFirst(s, i) && i < |s|
    ensures FirstSeparator(s) == i && Pieces(s) == [s[..i]] + Pieces(s[i + 2..])
  {
    FirstSeparatorIs(s, i);
  }

  lemma NothingToCut(s: bytes)
    requires FirstSeparator(s) == |s|
    ensures Pieces(s) == [s]
  {
  }

  lemma DropLastCons<T>(x: T, s: seq<T>)
    requires s != []
    ensures DropLast([x] + s) == [x] + DropLast(s) && Last([x] + s) == Last(s)
  {
  }

  /** More bytes do not move a separator. */
  lemma FirstStays(s: bytes, more: bytes)
    requires FirstSeparator(s) < |s|
    ensures var i := FirstSeparator(s);
            && i + 2 <= |s| && IsFirst(s, i) && IsFirst(s + more, i)
            && (s + more)[..i] == s[..i] && (s + more)[i + 2..] == s[i + 2..] + more
  {
    var i := FirstSeparator(s);
    FirstSeparatorIs(s, i);
    forall j: nat | j < i
      ensures !SeparatorAt(s + more, j)
    {
      assert !SeparatorAt(s, j);
    }
  }

  /** More bytes only touch the unterminated piece. */
  lemma {:induction false} PiecesExtend(s: bytes, more: bytes)
    ensures Pieces(s + more) == DropLast(Pieces(s)) + Pieces(Last(Pieces(s)) + more)
    decreases |s|
  {
    var i := FirstSeparator(s);
    if i == |s| {
      NothingToCut(s);
      assert DropLast([s]) == [];
    } else {
      FirstStays(s, more);
      CutFirst(s, i);
      CutFirst(s + more, i);
      PiecesExtend(s[i + 2..], more);
      DropLastCons(s[..i], Pieces(s[i + 2..]));
    }
  }

  lemma {:induction false} LastPieceIsOpen(s: bytes)
    ensures FirstSeparator(Last(Pieces(s))) == |Last(Pieces(s))|
    decreases |s|
  {
    var i := FirstSeparator(s);
    if i == |s| {
      NothingToCut(s);
    } else {
      FirstSeparatorIs(s, i);
      CutFirst(s, i);
      LastPieceIsOpen(s[i + 2..]);
      DropLastCons(s[..i], Pieces(s[i + 2..]));
    }
  }

  /** What the loop knows after some reads: `handled` messages are cut off, `buffer` is not. */
  ghost predicate Progress<T>(json: bytes -> Json<T>, stream: bytes, handled: seq<bytes>, buffer: bytes,
                              recorded: seq<T>)
  {
    && Pieces(stream) == handled + Pieces(buffer)
    && Run(json, handled) == Session(recorded, false)
  }

  lemma Receive<T>(json: bytes -> Json<T>, stream: bytes, handled: seq<bytes>, buffer: bytes, recorded: seq<T>,
                   raw: bytes)
    requires Progress(json, stream, handled, buffer, recorded) && FirstSeparator(buffer) == |buffer|
    ensures Progress(json, stream + raw, handled, buffer + raw, recorded)
  {
    PiecesExtend(stream, raw);
    NothingToCut(buffer);
    assert DropLast(handled + [buffer]) == handled;
  }

  lemma RunNext<T>(json: bytes -> Json<T>, handled: seq<bytes>, message: bytes)
    ensures Run(json, handled + [message]) == Continue(Run(json, handled), LoopEffect(json, message))
  {
    assert DropLast(handled + [message]) == handled;
  }

  lemma CutMessage<T>(json: bytes -> Json<T>, stream: bytes, handled: seq<bytes>, buffer: bytes, recorded: seq<T>)
    requires Progress(json, stream, handled, buffer, recorded) && FirstSeparator(buffer) < |buffer|
    ensures var at := FirstSeparator(buffer);
            && at + 2 <= |buffer|
            && Pieces(stream) == handled + [buffer[..at]] + Pieces(buffer[at + 2..])
            && Run(json, handled + [buffer[..at]])
               == Continue(Session(recorded, false), LoopEffect(json, buffer[..at]))
  {
    var at := FirstSeparator(buffer);
    FirstSeparatorIs(buffer, at);
    CutFirst(buffer, at);
    RunNext(json, handled, buffer[..at]);
    assert handled + ([buffer[..at]] + Pieces(buffer[at + 2..]))
        == handled + [buffer[..at]] + Pieces(buffer[at + 2..]);
  }

  lemma SplitLast<T>(a: seq<T>, b: seq<T>, tail: seq<T>)
    requires b != []
    ensures Last(a + b) == Last(b) && DropLast(a + b) + tail == a + (DropLast(b) + tail)
  {
  }

  lemma RaiseIsFinal<T>(json: bytes -> Json<T>, stream: bytes, more: bytes, handled: seq<bytes>, rest: seq<bytes>)
    requires Run(json, handled).raised && rest != []
    requires Pieces(stream) == handled + rest
    ensures Outcome(json, stream + more) == Run(json, handled)
  {
    PiecesExtend(stream, more);
    var tail := Pieces(Last(rest) + more);
    SplitLast(handled, rest, tail);
    RunSplit(json, handled, DropLast(rest) + tail);
  }

  /** The same inside `ReadStream`, where the rest of the stream is still to be received. */
  lemma RaiseEnds<T>(json: bytes -> Json<T>, pieces: seq<bytes>, n: nat, handled: seq<bytes>, rest: seq<bytes>)
    requires n <= |pieces| && Run(json, handled).raised && rest != []
    requires Pieces(Concat(pieces[..n])) == handled + rest
    ensures Outcome(json, Concat(pieces)) == Run(json, handled)
  {
    assert pieces == pieces[..n] + pieces[n..];
    ConcatJoin(pieces[..n], pieces[n..]);
    RaiseIsFinal(json, Concat(pieces[..n]), Concat(pieces[n..]), handled, rest);
  }

  lemma Finish<T>(json: bytes -> Json<T>, stream: bytes, handled: seq<bytes>, buffer: bytes, recorded: seq<T>)
    requires json([]) == Malformed
    requires Progress(json, stream, handled, buffer, recorded) && FirstSeparator(buffer) == |buffer|
    ensures Outcome(json, stream) == Continue(Session(recorded, false), TailEffect(json, buffer))
  {
    NothingToCut(buffer);
    RunNext(json, handled, buffer);
    TailIsLikeLoop(json, buffer);
  }

  /** The stream loop of `send_request`: append a read, cut off every complete message,
      flush the rest. The result is that of the concatenated bytes, so no two ways of
      cutting the same bytes into reads differ. */
  method ReadStream<T(==)>(json: bytes -> Json<T>, pieces: seq<bytes>) returns (recorded: seq<T>, raised: bool)
    requires json([]) == Malformed
    ensures Session(recorded, raised) == Outcome(json, Concat(pieces))
  {
    recorded, raised := [], false;
    var buffer: bytes := [];
    ghost var handled: seq<bytes> := [];
    for i := 0 to |pieces|
      invariant Progress(json, Concat(pieces[..i]), handled, buffer, recorded)
      invariant FirstSeparator(buffer) == |buffer|
    {
      var raw := pieces[i];
      ConcatPrefix(pieces, i);
      ghost var stream := Concat(pieces[..i + 1]);
      Receive(json, Concat(pieces[..i]), handled, buffer, recorded, raw);
      if raw == [] {
        assert buffer + raw == buffer;
        continue;
      }
      buffer := buffer + raw;
      while FirstSeparator(buffer) < |buffer|
        invariant Progress(json, stream, handled, buffer, recorded)
        decreases |buffer|
      {
        CutMessage(json, stream, handled, buffer, recorded);
        var at := FirstSeparator(buffer);
        var message := buffer[..at];
        buffer := buffer[at + 2..];
        handled := handled + [message];
        message := Strip(message);
        if message == [] {
          continue;
        }
        var effect := Handle(ParseSseChunk(json, message));
        recorded := recorded + effect.recorded;
        if effect.raised {
          RaiseEnds(json, pieces, i + 1, handled, Pieces(buffer));
          return recorded, true;
        }
      }
    }
    assert pieces[..|pieces|] == pieces;
    Finish(json, Concat(pieces), handled, buffer, recorded);
    var effect := TailEffect(json, buffer);
    recorded := recorded + effect.recorded;
    raised := effect.raised;
  }

  // ---------------------------------------------------------------- composing streams

  lemma {:induction false} StripTrailing(s: bytes)
    ensures Strip(s + [LF]) == Strip(s)
    decreases |s|
  {
    if s == [] {
      assert s + [LF] == [LF];
      assert Strip([LF]) == Strip([LF][1..]);
    } else if IsSpace(s[0]) {
      assert (s + [LF])[1..] == s[1..] + [LF];
      StripTrailing(s[1..]);
    } else {
      assert (s + [LF])[..|s|] == s;
    }
  }

  lemma RunOne<T>(json: bytes -> Json<T>, message: bytes, more: seq<bytes>)
    ensures Run(json, [message] + more) == Continue(Run(json, [message]), Run(json, more))
  {
    RunSplit(json, [message], more);
  }

  lemma SameEffect<T>(json: bytes -> Json<T>, a: bytes, b: bytes)
    requires Strip(a) == Strip(b)
    ensures Run(json, [a]) == Run(json, [b])
  {
    assert [a][..0] == [] == [b][..0];
  }

  lemma BlankIsSkipped<T>(json: bytes -> Json<T>)
    ensures Run(json, [[]]) == Session([], false)
  {
    var none: seq<bytes> := [[]];
    assert none[..0] == [];
  }

  lemma LoneNewline<T>(json: bytes -> Json<T>)
    ensures Outcome(json, [LF] + []) == Outcome(json, [])
  {
    var line: bytes := [LF];
    assert [LF] + [] == line && line[1..] == [] && Strip(line) == Strip([]);
    SameEffect(json, line, []);
  }

  /** A separator in front cuts off an empty message. */
  lemma LeadingSeparator<T>(json: bytes -> Json<T>, s: bytes)
    ensures Outcome(json, [LF] + [LF] + s) == Outcome(json, s)
  {
    var t := [LF] + [LF] + s;
    assert SeparatorAt(t, 0) && t[2..] == s && t[..0] == [];
    CutFirst(t, 0);
    RunOne(json, [], Pieces(s));
    BlankIsSkipped(json);
  }

  /** A newline in front of a stream is as good as none, even when it completes a separator. */
  lemma {:induction false} LeadingNewline<T>(json: bytes -> Json<T>, s: bytes)
    ensures Outcome(json, [LF] + s) == Outcome(json, s)
    decreases |s|
  {
    if s == [] {
      LoneNewline(json);
    } else if s[0] == LF {
      assert s == [LF] + s[1..];
      LeadingNewline(json, s[1..]);
      LeadingSeparator(json, s[1..]);
      Associate([LF], [LF], s[1..]);
    } else {
      NewlineInFront(json, s);
    }
  }

  lemma NewlineInFront<T>(json: bytes -> Json<T>, s: bytes)
    requires s != [] && s[0] != LF
    ensures Outcome(json, [LF] + s) == Outcome(json, s)
  {
    var t, i := [LF] + s, FirstSeparator(s);
    assert Strip(t) == Strip(s) by {
      assert t[1..] == s;
    }
    FirstSeparatorIs(s, i);
    ShiftFirst(s, i);
    if i == |s| {
      NothingToCut(s);
      NothingToCut(t);
      SameEffect(json, t, s);
    } else {
      CutFirst(s, i);
      CutFirst(t, i + 1);
      assert t[..i + 1] == [LF] + s[..i] && t[i + 3..] == s[i + 2..];
      assert ([LF] + s[..i])[1..] == s[..i];
      SameEffect(json, t[..i + 1], s[..i]);
      RunOne(json, t[..i + 1], Pieces(s[i + 2..]));
      RunOne(json, s[..i], Pieces(s[i + 2..]));
    }
  }

  lemma ShiftFirst(s: bytes, i: nat)
    requires s != [] && s[0] != LF && IsFirst(s, i)
    ensures IsFirst([LF] + s, i + 1) && FirstSeparator([LF] + s) == i + 1
  {
    var t := [LF] + s;
    forall j: nat | j < i + 1
      ensures !SeparatorAt(t, j)
    {
      assert j > 0 ==> !SeparatorAt(s, j - 1);
    }
    FirstSeparatorIs(t, i + 1);
  }

  /** An open piece, a separator, and more stream. */
  lemma CloseLastPiece<T>(json: bytes -> Json<T>, open: bytes, s: bytes)
    requires FirstSeparator(open) == |open|
    ensures Outcome(json, open + SEPARATOR + s) == Continue(Run(json, [open]), Outcome(json, s))
  {
    NothingToCut(open);
    if open != [] && Last(open) == LF {
      var q := DropLast(open);
      assert open == q + [LF] && open + SEPARATOR + s == q + SEPARATOR + ([LF] + s);
      CutAfter(open, q, [LF] + s);
      StripTrailing(q);
      SameEffect(json, q, open);
      LeadingNewline(json, s);
      RunOne(json, q, Pieces([LF] + s));
    } else {
      CutAfter(open, open, s);
      RunOne(json, open, Pieces(s));
    }
  }

  lemma CutAfter(open: bytes, q: bytes, s: bytes)
    requires FirstSeparator(open) == |open|
    requires open == q + [LF] || (open == q && (q == [] || Last(q) != LF))
    ensures Pieces(q + SEPARATOR + s) == [q] + Pieces(s)
  {
    var t := q + SEPARATOR + s;
    FirstSeparatorIs(open, |open|);
    forall j: nat | j < |q|
      ensures !SeparatorAt(t, j)
    {
      assert !SeparatorAt(open, j);
    }
    assert SeparatorAt(t, |q|);
    CutFirst(t, |q|);
    assert t[..|q|] == q && t[|q| + 2..] == s;
  }

  /** Two streams joined by a separator record what the first records and then what the
      second does, unless the first raised. */
  lemma OutcomeComposes<T>(json: bytes -> Json<T>, s: bytes, t: bytes)
    ensures Outcome(json, s + SEPARATOR + t) == Continue(Outcome(json, s), Outcome(json, t))
    ensures Outcome(json, s).raised ==> Outcome(json, s + SEPARATOR + t) == Outcome(json, s)
    ensures !Outcome(json, s).raised ==>
              Outcome(json, s + SEPARATOR + t)
              == Session(Outcome(json, s).recorded + Outcome(json, t).recorded, Outcome(json, t).raised)
  {
    var done, open := DropLast(Pieces(s)), Last(Pieces(s));
    var more := open + SEPARATOR + t;
    assert Pieces(s + SEPARATOR + t) == done + Pieces(more) by {
      assert s + SEPARATOR + t == s + (SEPARATOR + t) && open + (SEPARATOR + t) == more;
      PiecesExtend(s, SEPARATOR + t);
    }
    assert Outcome(json, more) == Continue(Run(json, [open]), Outcome(json, t)) by {
      LastPieceIsOpen(s);
      CloseLastPiece(json, open, t);
    }
    assert Outcome(json, s) == Continue(Run(json, done), Run(json, [open])) by {
      assert Pieces(s) == done + [open];
      RunSplit(json, done, [open]);
    }
    RunSplit(json, done, Pieces(more));
    ContinueIsAssociative(Run(json, done), Run(json, [open]), Outcome(json, t));
  }

  /** A missing final separator is equivalent to a present one. */
  lemma FinalSeparatorIsOptional<T>(json: bytes -> Json<T>, s: bytes)
    ensures Outcome(json, s + SEPARATOR) == Outcome(json, s)
  {
    OutcomeComposes(json, s, []);
    assert s + SEPARATOR + [] == s + SEPARATOR;
    BlankIsSkipped(json);
  }

  // ---------------------------------------------------------------- round trip

  const SPACE: bytes := [32]

  /** The line a server sends for one payload. */
  function Line(payload: bytes): bytes {
    DATA + SPACE + payload
  }

  function Encode(payloads: seq<bytes>): bytes {
    if payloads == [] then [] else Line(payloads[0]) + SEPARATOR + Encode(payloads[1..])
  }

  /** A payload that can be framed: trimmed, free of blank lines, and a document or `[DONE]`. */
  ghost predicate Framable<T>(json: bytes -> Json<T>, payload: bytes) {
    && payload != [] && Strip(payload) == payload && FirstSeparator(payload) == |payload|
    && (payload == DONE || (json(payload).Document? && !json(payload).broken))
  }

  function Recordings<T>(json: bytes -> Json<T>, payloads: seq<bytes>): seq<T>
    requires forall p <- payloads :: p == DONE || json(p).Document?
  {
    if payloads == [] then []
    else (if payloads[0] == DONE then [] else json(payloads[0]).chunks) + Recordings(json, payloads[1..])
  }

  lemma TrimmedEnds(s: bytes)
    requires s != [] && Strip(s) == s
    ensures !IsSpace(s[0]) && !IsSpace(s[|s| - 1])
  {
    StripIsTight(s);
  }

  lemma LineIsOnePiece<T>(json: bytes -> Json<T>, payload: bytes)
    requires Framable(json, payload)
    ensures Pieces(Line(payload)) == [Line(payload)]
  {
    var line := Line(payload);
    FirstSeparatorIs(payload, |payload|);
    forall j: nat | j < |line|
      ensures !SeparatorAt(line, j)
    {
      assert j >= 6 ==> !SeparatorAt(payload, j - 6);
    }
    FirstSeparatorIs(line, |line|);
    NothingToCut(line);
  }

  lemma LineEffect<T>(json: bytes -> Json<T>, payload: bytes)
    requires Framable(json, payload)
    ensures LoopEffect(json, Line(payload)) == Session(if payload == DONE then [] else json(payload).chunks, false)
  {
    var line := Line(payload);
    TrimmedEnds(payload);
    assert line[|line| - 1] == payload[|payload| - 1];
    assert Strip(line) == line;
    assert line[..|DATA|] == DATA;
    var rest := line[|DATA|..];
    assert rest == SPACE + payload && rest[1..] == payload;
    assert Strip(rest) == payload;
  }

  /** Framed payloads come back in order, and `[DONE]` does not end the stream. With
      `ReadStream` this holds for every way of cutting the bytes into reads. */
  lemma {:induction false} FramingRoundTrip<T>(json: bytes -> Json<T>, payloads: seq<bytes>)
    requires forall p <- payloads :: Framable(json, p)
    ensures forall p <- payloads :: p == DONE || json(p).Document?
    ensures Outcome(json, Encode(payloads)) == Session(Recordings(json, payloads), false)
  {
    if payloads == [] {
      BlankIsSkipped(json);
    } else {
      var line, rest := Line(payloads[0]), payloads[1..];
      FramingRoundTrip(json, rest);
      OutcomeComposes(json, line, Encode(rest));
      assert Outcome(json, line)
          == Session(if payloads[0] == DONE then [] else json(payloads[0]).chunks, false) by {
        LineIsOnePiece(json, payloads[0]);
        LineEffect(json, payloads[0]);
        RunNext(json, [], line);
        assert [] + [line] == [line];
      }
    }
  }
}
