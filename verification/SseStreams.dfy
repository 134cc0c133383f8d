/** Whole streams: when the reader of benchmark/request.py hands on the data that section 9.2 of
    the WHATWG HTML standard does, with LF, CR LF or CR line endings. */
module SseStreams {
  import opened Bytes
  import opened Sse
  import opened SseStandard
  import opened Whitespace
  import opened Wrappers

  const CRLF: bytes := [CR, LF]

  ghost predicate IsLineEnding(eol: bytes) {
    eol == [LF] || eol == [CR] || eol == CRLF
  }

  /** Messages, each followed by a blank line. */
  function Frames(eol: bytes, messages: seq<bytes>): bytes {
    if messages == [] then [] else messages[0] + eol + (eol + Frames(eol, messages[1..]))
  }

  // ---------------------------------------------------------------- lines of a joined stream

  lemma {:induction false} EolJoin(m: bytes, y: bytes)
    requires y != [] && IsEol(y[0])
    ensures EolAt(m + y) == EolAt(m)
  {
    if m == [] {
      assert m + y == y;
    } else if !IsEol(m[0]) {
      assert (m + y)[1..] == m[1..] + y;
      EolJoin(m[1..], y);
    }
  }

  /** `eol` really ends the last line of `m`. */
  ghost predicate Ends(m: bytes, eol: bytes, x: bytes) {
    && IsLineEnding(eol)
    && (eol == [LF] ==> m == [] || Last(m) != CR)
    && (eol == [CR] ==> x == [] || x[0] != LF)
  }

  lemma LastLineEnds(m: bytes, eol: bytes, x: bytes)
    requires Ends(m, eol, x) && EolAt(m) == |m|
    ensures Lines(m + eol + x) == Lines(m) + Lines(x)
  {
    var t := m + eol + x;
    Associate(m, eol, x);
    EolJoin(m, eol + x);
    OutOfThree(m, eol, x);
    EndLength(m, eol, x);
  }

  lemma EndLength(m: bytes, eol: bytes, x: bytes)
    requires Ends(m, eol, x) && EolAt(m + eol + x) == |m|
    ensures EolLength(m + eol + x) == |eol|
  {
    var t := m + eol + x;
    assert t[|m|] == eol[0];
    if |eol| == 2 {
      assert t[|m| + 1] == eol[1];
    } else if x != [] {
      assert t[|m| + 1] == x[0];
    }
  }

  lemma EarlierLineStays(m: bytes, eol: bytes, x: bytes)
    requires Ends(m, eol, x) && EolAt(m) < |m|
    ensures EolAt(m + eol + x) == EolAt(m) && (m + eol + x)[..EolAt(m)] == m[..EolAt(m)]
    ensures AfterLine(m + eol + x) == AfterLine(m) + eol + x
    ensures Ends(AfterLine(m), eol, x)
  {
    Associate(m, eol, x);
    EolJoin(m, eol + x);
    SameLength(m, eol, x);
    WithinFirst(m, eol, x, EolAt(m));
    WithinFirst(m, eol, x, EolAt(m) + EolLength(m));
    EndsLater(m, eol, x, EolAt(m) + EolLength(m));
  }

  lemma EndsLater(m: bytes, eol: bytes, x: bytes, n: nat)
    requires Ends(m, eol, x) && n <= |m|
    ensures Ends(m[n..], eol, x)
  {
    if n < |m| {
      TailEnds(m, n);
    }
  }

  lemma SameLength(m: bytes, eol: bytes, x: bytes)
    requires Ends(m, eol, x) && EolAt(m) < |m| && EolAt(m + eol + x) == EolAt(m)
    ensures EolLength(m + eol + x) == EolLength(m)
  {
    WithinFirst(m, eol, x, |m|);
    if EolAt(m) + 1 == |m| {
      assert (m + eol + x)[|m|] == eol[0];
    }
  }

  lemma {:induction false} LinesJoin(m: bytes, eol: bytes, x: bytes)
    requires Ends(m, eol, x)
    ensures Lines(m + eol + x) == Lines(m) + Lines(x)
    decreases |m|
  {
    if EolAt(m) == |m| {
      LastLineEnds(m, eol, x);
    } else {
      EarlierLineStays(m, eol, x);
      LinesJoin(AfterLine(m), eol, x);
      FrontJoins(m[..EolAt(m)], Lines(AfterLine(m)), Lines(x));
      OneMoreLine(m);
      OneMoreLine(m + eol + x);
    }
  }

  lemma FrontJoins<T>(x: T, a: seq<T>, b: seq<T>)
    ensures [x] + (a + b) == ([x] + a) + b
  {
  }

  lemma OneMoreLine(s: bytes)
    requires EolAt(s) < |s|
    ensures Lines(s) == [s[..EolAt(s)]] + Lines(AfterLine(s))
  {
  }

  lemma {:induction false} EventsJoin(a: seq<bytes>, b: seq<bytes>, values: seq<bytes>)
    requires a != [] && Last(a) == []
    ensures Events(a + b, values) == Events(a, values) + Events(b, [])
    decreases |a|
  {
    var rest := a[1..];
    assert (a + b)[0] == a[0] && (a + b)[1..] == rest + b;
    if rest == [] {
      assert rest + b == b && Events(rest, []) == [];
    } else {
      assert Last(rest) == [];
      if a[0] == [] {
        EventsJoin(rest, b, []);
      } else {
        EventsJoin(rest, b, values + if IsData(a[0]) then [Value(a[0])] else []);
      }
    }
  }

  lemma Regroup(lines: seq<bytes>, more: seq<bytes>)
    requires more != []
    ensures DropLast(lines + ([[]] + more)) == (lines + [[]]) + DropLast(more)
  {
  }

  /** A blank line ends the events before it. */
  lemma EventsNext(lines: seq<bytes>, more: seq<bytes>)
    requires more != []
    ensures Events(DropLast(lines + ([[]] + more)), []) == Events(lines + [[]], []) + Events(DropLast(more), [])
  {
    Regroup(lines, more);
    EventsJoin(lines + [[]], DropLast(more), []);
  }

  lemma BlankLine(eol: bytes, rest: bytes)
    requires Ends([], eol, rest)
    ensures Lines(eol + rest) == [[]] + Lines(rest)
  {
    LinesJoin([], eol, rest);
    assert [] + eol + rest == eol + rest && Lines([]) == [[]];
  }

  lemma LinesNext(m: bytes, eol: bytes, rest: bytes)
    requires Ends(m, eol, eol + rest) && Ends([], eol, rest)
    ensures Lines(m + eol + (eol + rest)) == Lines(m) + ([[]] + Lines(rest))
  {
    LinesJoin(m, eol, eol + rest);
    BlankLine(eol, rest);
  }

  /** The standard, message by message. */
  lemma StandardNext(m: bytes, eol: bytes, rest: bytes)
    requires Ends(m, eol, eol + rest) && Ends([], eol, rest)
    ensures StandardData(m + eol + (eol + rest)) == StandardOfMessage(m) + StandardData(rest)
  {
    LinesNext(m, eol, rest);
    EventsNext(Lines(m), Lines(rest));
  }

  // ---------------------------------------------------------------- the reader, message by message

  lemma {:induction false} PayloadsJoin(a: seq<bytes>, b: seq<bytes>)
    ensures Payloads(a + b) == Payloads(a) + Payloads(b)
    decreases |b|
  {
    if b == [] {
      assert a + b == a;
    } else {
      LastOfJoin(a, b);
      PayloadsJoin(a, DropLast(b));
    }
  }

  lemma PayloadsOne(m: bytes)
    ensures Payloads([m]) == Payload(m)
  {
    assert DropLast([m]) == [];
  }

  /** A message that a separator ends cleanly. */
  ghost predicate Closed(m: bytes) {
    FirstSeparator(m) == |m| && (m == [] || !IsEol(Last(m)))
  }

  lemma ReaderNext(m: bytes, rest: bytes)
    requires Closed(m)
    ensures ReaderData(m + [LF] + ([LF] + rest)) == Payload(m) + ReaderData(rest)
  {
    assert m + [LF] + ([LF] + rest) == m + SEPARATOR + rest;
    CutAfter(m, m, rest);
    PayloadsJoin([m], Pieces(rest));
    PayloadsOne(m);
  }

  lemma EmptyStream()
    ensures ReaderData([]) == [] == StandardData([])
  {
    PayloadsOne([]);
    NothingToCut([]);
    assert Lines([]) == [[]] && |DropLast(Lines([]))| == 0;
  }

  /** LF streams: if the lines of every message meet the condition, the reader hands on exactly
      what the standard does. */
  lemma {:induction false} LfStreamIsRead(messages: seq<bytes>)
    requires forall m <- messages :: Closed(m) && ReadAsStandard(Lines(m))
    ensures ReaderData(Frames([LF], messages)) == StandardData(Frames([LF], messages))
  {
    if messages == [] {
      EmptyStream();
    } else {
      var m, rest := messages[0], Frames([LF], messages[1..]);
      LfStreamIsRead(messages[1..]);
      MessageIsReadIff(m);
      ReaderNext(m, rest);
      StandardNext(m, [LF], rest);
    }
  }

  // ---------------------------------------------------------------- one payload per event

  /** A payload on one line. */
  ghost predicate Plain(p: bytes) {
    p != [] && Strip(p) == p && forall b <- p :: !IsEol(b)
  }

  function Framed(eol: bytes, payloads: seq<bytes>): bytes {
    if payloads == [] then [] else Line(payloads[0]) + eol + (eol + Framed(eol, payloads[1..]))
  }

  lemma {:induction false} NoEol(s: bytes)
    requires forall b <- s :: !IsEol(b)
    ensures EolAt(s) == |s| && Lines(s) == [s]
  {
    if s != [] {
      assert !IsEol(s[0]);
      NoEol(s[1..]);
    }
  }

  lemma LineBytes(p: bytes)
    requires Plain(p)
    ensures var l := Line(p);
            && |l| == |p| + 6 && l[0] == DATA[0] && l[5] == 32 && l[..5] == DATA && l[5..] == SPACE + p && l[6..] == p
            && (forall b <- l :: !IsEol(b)) && Last(l) == Last(p) && !IsEol(Last(l))
  {
    assert Last(p) in p;
  }

  lemma StandardOfLine(p: bytes)
    requires Plain(p)
    ensures StandardOfMessage(Line(p)) == [p]
  {
    var l, none: seq<bytes> := Line(p), [];
    LineBytes(p);
    NoEol(l);
    var lines := [l] + [[]];
    assert lines[0] == l && lines[1..] == [[]];
    assert none + [p] == [p];
    assert Events([[]], [p]) == [p] by {
      assert [[]][1..] == none;
      assert [p] + none == [p];
    }
  }

  lemma PayloadOfLine(p: bytes, w: bytes)
    requires Plain(p) && Blank(w)
    ensures Payload(Line(p) + w) == [p]
  {
    assert Line(p) + w == [] + (DATA + (SPACE + p + w));
    PayloadOfField([], SPACE + p + w);
    StripTrails(SPACE + p, w);
    StripLeads(SPACE, p);
  }

  lemma FramedStart(eol: bytes, payloads: seq<bytes>)
    requires forall p <- payloads :: Plain(p)
    ensures payloads != [] ==> Framed(eol, payloads) != [] && Framed(eol, payloads)[0] == DATA[0]
  {
    if payloads != [] {
      LineBytes(payloads[0]);
    }
  }

  /** The standard reads every such stream, whatever its line ending. */
  lemma {:induction false} StandardReadsFramed(eol: bytes, payloads: seq<bytes>)
    requires IsLineEnding(eol) && forall p <- payloads :: Plain(p)
    ensures StandardData(Framed(eol, payloads)) == payloads
  {
    if payloads == [] {
      EmptyStream();
    } else {
      var p, rest := payloads[0], Framed(eol, payloads[1..]);
      StandardReadsFramed(eol, payloads[1..]);
      LineBytes(p);
      FramedStart(eol, payloads[1..]);
      StandardNext(Line(p), eol, rest);
      StandardOfLine(p);
    }
  }

  /** No two LF in a row. */
  ghost predicate Single(s: bytes) {
    forall j: nat :: !SeparatorAt(s, j)
  }

  lemma SingleJoin(a: bytes, b: bytes)
    requires Single(a) && Single(b) && (a != [] && b != [] ==> Last(a) != LF || b[0] != LF)
    ensures Single(a + b)
  {
    forall j: nat
      ensures !SeparatorAt(a + b, j)
    {
      if j + 2 <= |a| {
        assert !SeparatorAt(a, j);
      } else if j >= |a| {
        assert !SeparatorAt(b, j - |a|);
      }
    }
  }

  lemma LineIsSingle(p: bytes)
    requires Plain(p)
    ensures Single(Line(p)) && FirstSeparator(Line(p)) == |Line(p)|
  {
    LineBytes(p);
    forall j: nat
      ensures !SeparatorAt(Line(p), j)
    {
      if j < |Line(p)| {
        assert Line(p)[j] in Line(p);
      }
    }
    FirstSeparatorIs(Line(p), |Line(p)|);
  }

  lemma {:induction false} FramedIsSingle(eol: bytes, payloads: seq<bytes>)
    requires (eol == [CR] || eol == CRLF) && forall p <- payloads :: Plain(p)
    ensures Single(Framed(eol, payloads))
  {
    if payloads != [] {
      var l, rest := Line(payloads[0]), Framed(eol, payloads[1..]);
      FramedIsSingle(eol, payloads[1..]);
      FramedStart(eol, payloads[1..]);
      LineIsSingle(payloads[0]);
      SingleJoin(eol, rest);
      assert eol + rest != [] && (eol + rest)[0] == CR;
      SingleJoin(l, eol);
      SingleJoin(l + eol, eol + rest);
    }
  }

  /** CR LF (or CR) never separates: the reader takes the whole stream for one message. */
  lemma OneMessage(eol: bytes, payloads: seq<bytes>)
    requires (eol == [CR] || eol == CRLF) && forall p <- payloads :: Plain(p)
    ensures ReaderData(Framed(eol, payloads)) == Payload(Framed(eol, payloads))
  {
    var s := Framed(eol, payloads);
    FramedIsSingle(eol, payloads);
    FirstSeparatorIs(s, |s|);
    NothingToCut(s);
    PayloadsOne(s);
  }

  lemma {:induction false} LfIsRead(payloads: seq<bytes>)
    requires forall p <- payloads :: Plain(p)
    ensures ReaderData(Framed([LF], payloads)) == payloads
  {
    if payloads == [] {
      EmptyStream();
    } else {
      LfIsRead(payloads[1..]);
      LfReadsOne(payloads[0], Framed([LF], payloads[1..]));
    }
  }

  lemma LfReadsOne(p: bytes, rest: bytes)
    requires Plain(p)
    ensures ReaderData(Line(p) + [LF] + ([LF] + rest)) == [p] + ReaderData(rest)
  {
    LineBytes(p);
    LineIsSingle(p);
    ReaderNext(Line(p), rest);
    PayloadOfLine(p, []);
    assert Line(p) + [] == Line(p);
  }

  lemma OnlyOneIsRead(eol: bytes, p: bytes)
    requires (eol == [CR] || eol == CRLF) && Plain(p)
    ensures ReaderData(Framed(eol, [p])) == [p]
  {
    OneMessage(eol, [p]);
    assert [p][1..] == [];
    assert Framed(eol, [p]) == Line(p) + (eol + eol);
    PayloadOfLine(p, eol + eol);
  }

  /** With one single-line payload per event, the reader hands on what the standard does, which
      is the payloads, iff lines end with LF or there is at most one event: from two events on a
      CR LF stream is one garbled message. */
  lemma FramedIsReadIff(eol: bytes, payloads: seq<bytes>)
    requires IsLineEnding(eol) && forall p <- payloads :: Plain(p)
    ensures StandardData(Framed(eol, payloads)) == payloads
    ensures ReaderData(Framed(eol, payloads)) == StandardData(Framed(eol, payloads))
            <==> eol == [LF] || |payloads| <= 1
  {
    StandardReadsFramed(eol, payloads);
    if eol == [LF] {
      LfIsRead(payloads);
    } else if payloads == [] {
      EmptyStream();
    } else if |payloads| == 1 {
      assert payloads == [payloads[0]];
      OnlyOneIsRead(eol, payloads[0]);
    } else {
      OneMessage(eol, payloads);
    }
  }

  // ---------------------------------------------------------------- inputs

  const BRACES: bytes := [0x7b, 0x7d]                               // {}
  const EVENT: bytes := [0x65, 0x76, 0x65, 0x6e, 0x74, 0x3a, 0x78]  // event:x

  /** An event the stream breaks off in: the standard discards it, the reader's flush records it. */
  lemma UnterminatedIsRead(p: bytes)
    requires Plain(p)
    ensures ReaderData(Line(p)) == [p] && StandardData(Line(p)) == []
  {
    LineBytes(p);
    LineIsSingle(p);
    NothingToCut(Line(p));
    PayloadsOne(Line(p));
    PayloadOfLine(p, []);
    assert Line(p) + [] == Line(p);
    NoEol(Line(p));
    assert |DropLast(Lines(Line(p)))| == 0;
  }

  /** A message and its separator, alone in a stream. */
  lemma AloneInStream(m: bytes)
    requires Closed(m)
    ensures ReaderData(m + [LF] + ([LF] + [])) == Payload(m)
    ensures StandardData(m + [LF] + ([LF] + [])) == StandardOfMessage(m)
  {
    ReaderNext(m, []);
    StandardNext(m, [LF], []);
    EmptyStream();
  }

  lemma {:induction false} BracesArePlain()
    ensures Plain(BRACES) && Plain([0x7b]) && Plain([0x7d])
  {
  }

  /** `data: {` and `}` on two lines: recorded as the document `{ }`, of which the standard
      only has `{`. */
  lemma TwoLinesAreRead() returns (stream: bytes)
    ensures stream == Line([0x7b]) + [LF] + [0x7d] + [LF] + ([LF] + [])
    ensures ReaderData(stream) == [[0x7b, LF, 0x7d]] && StandardData(stream) == [[0x7b]]
  {
    var l, y: bytes := Line([0x7b]), [0x7d];
    var m := l + [LF] + y;
    stream := m + [LF] + ([LF] + []);
    BracesArePlain();
    LineBytes([0x7b]);
    LineIsSingle([0x7b]);
    NoEol(l);
    NoEol(y);
    LinesJoin(l, [LF], y);
    TwoLinesAreClosed(l, y);
    AloneInStream(m);
    TwoLinePayload(l, y);
    TwoLineEvents(l, y);
  }

  lemma TwoLinesAreClosed(l: bytes, y: bytes)
    requires l != [] && Last(l) != LF && Single(l) && y == [0x7d]
    ensures Closed(l + [LF] + y)
  {
    var m := l + [LF] + y;
    SingleJoin(l, [LF]);
    SingleJoin(l + [LF], y);
    FirstSeparatorIs(m, |m|);
  }

  lemma TwoLinePayload(l: bytes, y: bytes)
    requires l == Line([0x7b]) && y == [0x7d]
    ensures Payload(l + [LF] + y) == [[0x7b, LF, 0x7d]]
  {
    var document: bytes := [0x7b, LF, 0x7d];
    assert l + [LF] + y == [] + (DATA + (SPACE + document));
    PayloadOfField([], SPACE + document);
    StripLeads(SPACE, document);
  }

  lemma TwoLineEvents(l: bytes, y: bytes)
    requires l == Line([0x7b]) && y == [0x7d]
    ensures Events([l] + [y] + [[]], []) == [[0x7b]]
  {
    BracesArePlain();
    LineBytes([0x7b]);
    var lines, none: seq<bytes> := [l] + [y] + [[]], [];
    assert lines[0] == l && lines[1..] == [y] + [[]] && ([y] + [[]])[0] == y && ([y] + [[]])[1..] == [[]];
    assert !HasData([y] + [[]]);
    OnlyPending([y] + [[]], [[0x7b]]);
    assert none + [[0x7b]] == [[0x7b]];
  }

  /** A lone event with CR LF line ends: both read it, the reader by the flush at the end. */
  lemma LoneCrLfIsRead() returns (stream: bytes)
    ensures stream == Line(BRACES) + CRLF + CRLF
    ensures ReaderData(stream) == [BRACES] == StandardData(stream)
  {
    BracesArePlain();
    stream := Framed(CRLF, [BRACES]);
    assert [BRACES][1..] == [];
    assert stream == Line(BRACES) + CRLF + (CRLF + Framed(CRLF, []));
    assert CRLF + Framed(CRLF, []) == CRLF;
    FramedIsReadIff(CRLF, [BRACES]);
  }

  lemma NamedEventIsClosed(l: bytes)
    requires l == Line(BRACES)
    ensures Closed(EVENT + [LF] + l) && Lines(EVENT + [LF] + l) == [EVENT] + [l]
  {
    var m := EVENT + [LF] + l;
    BracesArePlain();
    LineBytes(BRACES);
    LineIsSingle(BRACES);
    SingleJoin(EVENT, [LF]);
    SingleJoin(EVENT + [LF], l);
    FirstSeparatorIs(m, |m|);
    NoEol(EVENT);
    NoEol(l);
    LinesJoin(EVENT, [LF], l);
  }

  lemma NamedEventHasNoPayload(l: bytes)
    ensures Payload(EVENT + [LF] + l) == []
  {
    assert EVENT + [LF] + l == [] + EVENT + ([LF] + l);
    NoFieldNoPayload([], EVENT, [LF] + l);
  }

  /** A data field after a named event: the standard has it, the reader drops it. */
  lemma NamedEventIsDropped() returns (stream: bytes)
    ensures stream == EVENT + [LF] + Line(BRACES) + [LF] + ([LF] + [])
    ensures ReaderData(stream) == [] && StandardData(stream) == [BRACES]
  {
    var l := Line(BRACES);
    stream := EVENT + [LF] + l + [LF] + ([LF] + []);
    NamedEventIsClosed(l);
    NamedEventHasNoPayload(l);
    AloneInStream(EVENT + [LF] + l);
    SkipNamedEvent(l);
    BracesArePlain();
    StandardOfLine(BRACES);
  }

  lemma SkipNamedEvent(l: bytes)
    ensures Events([EVENT] + [l] + [[]], []) == Events([l] + [[]], [])
  {
    var lines, none: seq<bytes> := [EVENT] + [l] + [[]], [];
    assert lines[0] == EVENT && lines[1..] == [l] + [[]];
    assert none + none == none;
    assert EVENT[..5][0] != DATA[0] && |EVENT| != |NAME|;
  }
}
