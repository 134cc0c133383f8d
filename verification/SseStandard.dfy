/** The event framing of section 9.2 of the WHATWG HTML standard (Server-sent events) beside the
    reader of benchmark/request.py: which data each of them hands on, and when it is the same.
    Event names, ids and retry times carry no data; a byte order mark is not modelled. */
module SseStandard {
  import opened Bytes
  import opened Sse
  import opened Whitespace
  import opened Wrappers

  const CR: byte := 13
  const NAME: bytes := DATA[..4]

  // ---------------------------------------------------------------- the standard

  predicate IsEol(b: byte) {
    b == LF || b == CR
  }

  /** Where the first line ends. */
  function EolAt(s: bytes): (i: nat)
    ensures i <= |s| && (i < |s| ==> IsEol(s[i]))
  {
    if s == [] || IsEol(s[0]) then 0 else 1 + EolAt(s[1..])
  }

  /** The length of its LF, CR LF or CR. */
  function EolLength(s: bytes): (n: nat)
    requires EolAt(s) < |s|
    ensures 1 <= n <= 2 && EolAt(s) + n <= |s|
  {
    var i := EolAt(s);
    if s[i] == CR && i + 1 < |s| && s[i + 1] == LF then 2 else 1
  }

  function AfterLine(s: bytes): (rest: bytes)
    requires EolAt(s) < |s|
    ensures |rest| < |s|
  {
    s[EolAt(s) + EolLength(s)..]
  }

  /** The lines of a stream, the last one unterminated. */
  function Lines(s: bytes): (lines: seq<bytes>)
    ensures lines != []
    decreases |s|
  {
    var i := EolAt(s);
    if i == |s| then [s] else [s[..i]] + Lines(AfterLine(s))
  }

  /** A `data` field, with a colon or without. */
  predicate IsData(line: bytes) {
    StartsWith(line, DATA) || line == NAME
  }

  /** Its value: one leading space is not part of it. */
  function Value(line: bytes): bytes
    requires IsData(line)
  {
    if line == NAME then []
    else if |line| > 5 && line[5] == 32 then line[6..]
    else line[5..]
  }

  function JoinLf(values: seq<bytes>): bytes {
    if values == [] then []
    else if |values| == 1 then values[0]
    else JoinLf(DropLast(values)) + [LF] + Last(values)
  }

  /** The data of the events dispatched by `lines`, when the values of the event under way are
      `values`: a blank line dispatches it if it has a data field; without one it is lost. */
  function Events(lines: seq<bytes>, values: seq<bytes>): seq<bytes> {
    if lines == [] then []
    else if lines[0] == [] then (if values == [] then [] else [JoinLf(values)]) + Events(lines[1..], [])
    else Events(lines[1..], values + if IsData(lines[0]) then [Value(lines[0])] else [])
  }

  /** What the standard makes of a whole stream; its unterminated last line counts for nothing. */
  function StandardData(stream: bytes): seq<bytes> {
    Events(DropLast(Lines(stream)), [])
  }

  /** What it makes of one message and the blank line that ends it. */
  function StandardOfMessage(message: bytes): seq<bytes> {
    Events(Lines(message) + [[]], [])
  }

  // ---------------------------------------------------------------- what the reader hands on

  /** The payload of one message, if it has one. */
  function Payload(message: bytes): seq<bytes> {
    var m := Strip(message);
    if StartsWith(m, DATA) then [Strip(m[|DATA|..])] else []
  }

  function Payloads(messages: seq<bytes>): seq<bytes> {
    if messages == [] then [] else Payloads(DropLast(messages)) + Payload(Last(messages))
  }

  /** All payloads of a stream. */
  function ReaderData(stream: bytes): seq<bytes> {
    Payloads(Pieces(stream))
  }

  /** What one payload does: `[DONE]`, what is not JSON, and null do nothing; what is no object, or
      not even text, raises; a document records its chunks. */
  function Effect<T>(json: bytes -> Json<T>, payload: bytes): Session<T> {
    if payload == [0x5b, 0x44, 0x4f, 0x4e, 0x45, 0x5d] then Session([], false)
    else
      match json(payload)
      case Document(chunks, broken) => Session(chunks, broken)
      case Scalar => Session([], true)
      case Undecodable => Session([], true)
      case Malformed => Session([], false)
      case Null => Session([], false)
      case Done => Session([], false)
  }

  function Deliver<T>(json: bytes -> Json<T>, data: seq<bytes>): Session<T> {
    if data == [] then Nothing() else Continue(Deliver(json, DropLast(data)), Effect(json, Last(data)))
  }

  lemma DeliverOne<T>(json: bytes -> Json<T>, p: bytes)
    ensures Deliver(json, [p]) == Effect(json, p)
  {
    assert DropLast([p]) == [];
  }

  /** What the loop does with a message is a matter of its payload alone. */
  lemma LoopDelivers<T>(json: bytes -> Json<T>, message: bytes)
    ensures LoopEffect(json, message) == Deliver(json, Payload(message))
  {
    StripIsTight(message);
    var m := Strip(message);
    if StartsWith(m, DATA) {
      DeliverOne(json, Strip(m[|DATA|..]));
    }
  }

  lemma DeliverMore<T>(json: bytes -> Json<T>, a: seq<bytes>, b: seq<bytes>)
    requires |b| <= 1
    ensures Deliver(json, a + b) == Continue(Deliver(json, a), Deliver(json, b))
  {
    if b == [] {
      assert a + b == a;
    } else {
      LastOfJoin(a, b);
      DeliverOne(json, b[0]);
      assert b == [b[0]] && DropLast(b) == [] && a + [] == a;
    }
  }

  lemma {:induction false} RunDelivers<T>(json: bytes -> Json<T>, messages: seq<bytes>)
    ensures Run(json, messages) == Deliver(json, Payloads(messages))
  {
    if messages != [] {
      RunDelivers(json, DropLast(messages));
      LoopDelivers(json, Last(messages));
      DeliverMore(json, Payloads(DropLast(messages)), Payload(Last(messages)));
    }
  }

  /** What a stream records is what its payloads record, one after the other. */
  lemma OutcomeDelivers<T>(json: bytes -> Json<T>, stream: bytes)
    ensures Outcome(json, stream) == Deliver(json, ReaderData(stream))
  {
    RunDelivers(json, Pieces(stream));
  }

  // ---------------------------------------------------------------- a field and its payload

  /** After the field name, only the value and what follows it matter. */
  lemma {:induction false} StripField(x: bytes)
    ensures StartsWith(Strip(DATA + x), DATA) && Strip(Strip(DATA + x)[5..]) == Strip(x)
    decreases |x|
  {
    var s := DATA + x;
    if x != [] && IsSpace(x[|x| - 1]) {
      var rest := x[..|x| - 1];
      assert s[..|s| - 1] == DATA + rest;
      StripField(rest);
      StripOneTrailing(rest, x[|x| - 1]);
      assert x == rest + [x[|x| - 1]];
    } else {
      assert Strip(s) == s;
      assert s[..5] == DATA && s[5..] == x;
    }
  }

  /** The payload of whitespace, a field name and anything. */
  lemma PayloadOfField(w: bytes, x: bytes)
    requires Blank(w)
    ensures Payload(w + (DATA + x)) == [Strip(x)]
  {
    StripLeads(w, DATA + x);
    StripField(x);
  }

  lemma StripStarts(s: bytes)
    requires s != [] && !IsSpace(s[0])
    ensures StartsWith(Strip(s), DATA) <==> StartsWith(s, DATA)
  {
    if StartsWith(s, DATA) {
      assert s == DATA + s[5..];
      StripField(s[5..]);
    }
    StripIsPrefix(s);
  }

  // ---------------------------------------------------------------- counting ink

  lemma {:induction false} JoinKeepsInk(values: seq<bytes>)
    ensures Ink(JoinLf(values)) == TotalInk(values)
  {
    if values != [] {
      JoinKeepsInk(DropLast(values));
      if |values| == 1 {
        assert DropLast(values) == [];
      } else {
        InkJoin(JoinLf(DropLast(values)) + [LF], Last(values));
        InkJoin(JoinLf(DropLast(values)), [LF]);
        InkOne(LF);
      }
    }
  }

  function Ending(s: bytes): bytes
    requires EolAt(s) < |s|
  {
    s[EolAt(s)..EolAt(s) + EolLength(s)]
  }

  lemma Cut(s: bytes, i: nat, j: nat)
    requires i <= j <= |s|
    ensures s == s[..i] + s[i..j] + s[j..]
  {
  }

  lemma LineParts(s: bytes)
    requires EolAt(s) < |s|
    ensures Blank(Ending(s)) && s == s[..EolAt(s)] + Ending(s) + AfterLine(s)
  {
    Cut(s, EolAt(s), EolAt(s) + EolLength(s));
    EndingIsBlank(s, EolAt(s), EolLength(s));
  }

  lemma EndingIsBlank(s: bytes, i: nat, n: nat)
    requires 1 <= n <= 2 && i + n <= |s| && IsEol(s[i]) && (n == 2 ==> s[i + 1] == LF)
    ensures Blank(s[i..i + n])
  {
    forall b <- s[i..i + n]
      ensures IsSpace(b)
    {
      var k :| 0 <= k < n && s[i..i + n][k] == b;
      assert b == s[i + k];
    }
  }

  /** The line ending is not ink. */
  lemma LineInk(s: bytes)
    requires EolAt(s) < |s|
    ensures Ink(s) == Ink(s[..EolAt(s)]) + Ink(AfterLine(s))
  {
    var l, eol := s[..EolAt(s)], Ending(s);
    LineParts(s);
    BlankIff(eol);
    InkJoin(l + eol, AfterLine(s));
    InkJoin(l, eol);
  }

  lemma InkOfOne(line: bytes)
    ensures TotalInk([line]) == Ink(line)
  {
    TotalAppend([], line);
    assert [] + [line] == [line];
  }

  lemma {:induction false} LinesKeepInk(s: bytes)
    ensures TotalInk(Lines(s)) == Ink(s)
    decreases |s|
  {
    if EolAt(s) == |s| {
      InkOfOne(s);
    } else {
      LinesKeepInk(AfterLine(s));
      LineInk(s);
      TotalFront(s[..EolAt(s)], Lines(AfterLine(s)));
    }
  }

  /** The field name itself is ink that the value does not have. */
  lemma ValueInk(line: bytes)
    requires IsData(line)
    ensures Ink(Value(line)) < Ink(line)
    ensures StartsWith(line, DATA) ==> Ink(Value(line)) == Ink(line[5..])
  {
    if line == NAME {
      assert line[..3] + [line[3]] == line;
      InkJoin(line[..3], [line[3]]);
      InkOne(line[3]);
    } else {
      assert line == line[..5] + line[5..];
      InkJoin(line[..5], line[5..]);
      assert line[..5] == DATA && DATA == DATA[..4] + [DATA[4]];
      InkJoin(DATA[..4], [DATA[4]]);
      InkOne(DATA[4]);
      if |line| > 5 && line[5] == 32 {
        assert line[5..] == [line[5]] + line[6..];
        InkJoin([line[5]], line[6..]);
        InkOne(line[5]);
      }
    }
  }

  ghost predicate HasData(lines: seq<bytes>) {
    exists l <- lines :: IsData(l)
  }

  /** Events carry no more ink than their lines, and less as soon as a line is a data field. */
  lemma {:induction false} EventsInk(lines: seq<bytes>, values: seq<bytes>)
    ensures TotalInk(Events(lines, values)) <= TotalInk(values) + TotalInk(lines)
    ensures HasData(lines) ==> TotalInk(Events(lines, values)) < TotalInk(values) + TotalInk(lines)
    decreases |lines|
  {
    if lines != [] {
      var l, rest := lines[0], lines[1..];
      assert lines == [l] + rest;
      TotalFront(l, rest);
      if l == [] {
        EventsInk(rest, []);
        JoinKeepsInk(values);
        if values != [] {
          TotalFront(JoinLf(values), Events(rest, []));
        } else {
          assert [] + Events(rest, []) == Events(rest, []);
        }
      } else if IsData(l) {
        EventsInk(rest, values + [Value(l)]);
        TotalAppend(values, Value(l));
        ValueInk(l);
      } else {
        EventsInk(rest, values);
        assert values + [] == values;
      }
    }
  }

  /** Lines without a data field, the last one blank, dispatch just what was under way. */
  lemma {:induction false} OnlyPending(lines: seq<bytes>, values: seq<bytes>)
    requires lines != [] && Last(lines) == [] && !HasData(lines)
    ensures Events(lines, values) == if values == [] then [] else [JoinLf(values)]
    decreases |lines|
  {
    var rest := lines[1..];
    assert lines == [lines[0]] + rest;
    if rest == [] {
      assert Events(rest, []) == [];
    } else {
      assert Last(rest) == [];
      assert values + [] == values;
      OnlyPending(rest, if lines[0] == [] then [] else values);
    }
  }

  // ---------------------------------------------------------------- one message

  /** The lines with something on them. */
  function Visible(lines: seq<bytes>): seq<bytes> {
    if lines == [] then []
    else (if Ink(lines[0]) > 0 then [lines[0]] else []) + Visible(lines[1..])
  }

  /** The condition: if the first visible line is a data field (indented or not), it is not
      indented, it is the only visible line, and but for one leading space its value is trimmed;
      otherwise no line is a data field. */
  ghost predicate ReadAsStandard(lines: seq<bytes>) {
    var seen := Visible(lines);
    if seen != [] && StartsWith(Strip(seen[0]), DATA) then
      |seen| == 1 && StartsWith(seen[0], DATA) && Value(seen[0]) == Strip(seen[0][5..])
    else !HasData(lines)
  }

  lemma {:induction false} NoneVisible(lines: seq<bytes>)
    ensures Visible(lines) == [] <==> TotalInk(lines) == 0
    ensures TotalInk(lines) == 0 ==> !HasData(lines)
  {
    if lines != [] {
      NoneVisible(lines[1..]);
      assert lines == [lines[0]] + lines[1..];
      TotalFront(lines[0], lines[1..]);
      if IsData(lines[0]) {
        ValueInk(lines[0]);
      }
    }
  }

  /** A first line without ink changes nothing. */
  lemma SkipBlankLine(l: bytes, rest: seq<bytes>)
    requires Ink(l) == 0
    ensures Events([l] + rest, []) == Events(rest, [])
    ensures ReadAsStandard([l] + rest) <==> ReadAsStandard(rest)
  {
    var lines := [l] + rest;
    assert lines[1..] == rest && lines[0] == l;
    if IsData(l) {
      ValueInk(l);
    }
    var none: seq<bytes> := [];
    assert none + none == none && none + Events(rest, none) == Events(rest, none);
    assert [] + Visible(rest) == Visible(rest);
    assert HasData(lines) <==> HasData(rest) by {
      if HasData(rest) {
        var x :| x in rest && IsData(x);
        assert x in lines;
      }
    }
  }

  /** The message proper: its first line has ink. `rest` is the lines after it. */
  lemma FirstVisible(l: bytes, tail: bytes, rest: seq<bytes>)
    requires Ink(l) > 0 && TotalInk(rest) == Ink(tail)
    requires tail != [] ==> IsEol(tail[0])
    ensures Payload(l + tail) == Events([l] + rest + [[]], []) <==> ReadAsStandard([l] + rest)
  {
    var w, y := l[..Lead(l)], l[Lead(l)..];
    LeadIsBlank(l);
    if StartsWith(y, DATA) {
      assert y == DATA + y[5..];
      VisibleField(w, y[5..], tail, rest);
    } else {
      VisibleOther(w, y, tail, rest);
    }
  }

  lemma FirstIsSeen(l: bytes, rest: seq<bytes>)
    requires Ink(l) > 0
    ensures Visible([l] + rest) == [l] + Visible(rest)
  {
    assert ([l] + rest)[1..] == rest;
  }

  lemma VisibleField(w: bytes, x: bytes, tail: bytes, rest: seq<bytes>)
    requires Blank(w) && Ink(w + (DATA + x)) > 0 && TotalInk(rest) == Ink(tail)
    ensures var l := w + (DATA + x);
            Payload(l + tail) == Events([l] + rest + [[]], []) <==> ReadAsStandard([l] + rest)
  {
    var l := w + (DATA + x);
    FirstIsSeen(l, rest);
    StripLeads(w, DATA + x);
    StripField(x);
    FieldIsReadIff(w, x, tail, rest);
  }

  lemma VisibleOther(w: bytes, y: bytes, tail: bytes, rest: seq<bytes>)
    requires Blank(w) && y != [] && !IsSpace(y[0]) && !StartsWith(y, DATA) && Ink(w + y) > 0
    requires tail != [] ==> IsEol(tail[0])
    ensures var l := w + y;
            Payload(l + tail) == Events([l] + rest + [[]], []) <==> ReadAsStandard([l] + rest)
  {
    FirstIsSeen(w + y, rest);
    StripLeads(w, y);
    StripStarts(y);
    NoFieldNoPayload(w, y, tail);
    NothingFromStandardIff([w + y] + rest);
  }

  lemma NothingFromStandardIff(lines: seq<bytes>)
    ensures Events(lines + [[]], []) == [] <==> !HasData(lines)
  {
    var all := lines + [[]];
    assert HasData(all) <==> HasData(lines) by {
      if HasData(lines) {
        var x :| x in lines && IsData(x);
        assert x in all;
      }
    }
    if HasData(lines) {
      SomethingFromStandard(lines, []);
    } else {
      OnlyPending(all, []);
    }
  }

  lemma {:induction false} SomethingFromStandard(lines: seq<bytes>, values: seq<bytes>)
    requires HasData(lines) || values != []
    ensures Events(lines + [[]], values) != []
    decreases |lines|
  {
    var all := lines + [[]];
    if lines == [] {
      assert all[0] == [];
    } else {
      var rest := lines[1..];
      assert all[1..] == rest + [[]] && lines == [lines[0]] + rest;
      if lines[0] == [] {
        if values == [] {
          assert HasData(rest);
          SomethingFromStandard(rest, []);
        }
      } else {
        var more := if IsData(lines[0]) then [Value(lines[0])] else [];
        SomethingFromStandard(rest, values + more);
      }
    }
  }

  lemma NoFieldNoPayload(w: bytes, y: bytes, tail: bytes)
    requires Blank(w) && y != [] && !IsSpace(y[0]) && !StartsWith(y, DATA)
    requires tail != [] ==> IsEol(tail[0])
    ensures Payload(w + y + tail) == []
  {
    assert w + y + tail == w + (y + tail);
    StripLeads(w, y + tail);
    StripStarts(y + tail);
    if |y| >= 5 {
      assert (y + tail)[..5] == y[..5];
    } else {
      CutName(y, tail);
    }
  }

  lemma CutName(y: bytes, tail: bytes)
    requires |y| < 5 && (tail != [] ==> IsEol(tail[0]))
    ensures !StartsWith(y + tail, DATA)
  {
    if |y + tail| >= 5 {
      assert (y + tail)[..5][|y|] == tail[0];
    }
  }

  lemma Front<T>(x: T, s: seq<T>, y: T)
    ensures [x] + s + [y] == [x] + (s + [y]) && ([x] + (s + [y]))[0] == x && ([x] + (s + [y]))[1..] == s + [y]
  {
  }

  /** The ink on both sides: the payload has that of the value and of everything after it. */
  lemma PayloadInk(x: bytes, tail: bytes, rest: seq<bytes>)
    requires TotalInk(rest) == Ink(tail)
    ensures TotalInk([Strip(x + tail)]) == Ink(x) + Ink(tail) && TotalInk(rest + [[]]) == TotalInk(rest)
  {
    TotalAppend(rest, []);
    StripKeepsInk(x + tail);
    InkJoin(x, tail);
    TotalAppend([], Strip(x + tail));
    assert [] + [Strip(x + tail)] == [Strip(x + tail)];
  }

  lemma FieldParts(w: bytes, x: bytes, tail: bytes)
    ensures w + (DATA + x) + tail == w + (DATA + (x + tail))
    ensures w == [] ==> (w + (DATA + x))[..5] == DATA && (w + (DATA + x))[5..] == x
  {
    assert w == [] ==> w + (DATA + x) == DATA + x;
  }

  /** A message that begins with a data field. */
  lemma FieldIsReadIff(w: bytes, x: bytes, tail: bytes, rest: seq<bytes>)
    requires Blank(w) && TotalInk(rest) == Ink(tail)
    ensures var l := w + (DATA + x);
            Payload(l + tail) == Events([l] + rest + [[]], [])
            <==> Visible(rest) == [] && StartsWith(l, DATA) && Value(l) == Strip(l[5..])
  {
    var l := w + (DATA + x);
    FieldParts(w, x, tail);
    PayloadOfField(w, x + tail);
    Front(l, rest, []);
    PayloadInk(x, tail, rest);
    NoneVisible(rest);
    if w == [] {
      FieldOnly(l, x, tail, rest);
    } else {
      IndentedIsNoField(w, DATA + x);
      IndentedIsLost(l, x, tail, rest);
    }
  }

  lemma IndentedIsNoField(w: bytes, s: bytes)
    requires w != [] && Blank(w)
    ensures !StartsWith(w + s, DATA) && w + s != NAME
  {
    assert (w + s)[0] == w[0] && IsSpace(w[0]) && NAME[0] == DATA[0];
    if |w + s| >= 5 {
      assert (w + s)[..5][0] == w[0];
    }
  }

  lemma FieldOnly(l: bytes, x: bytes, tail: bytes, rest: seq<bytes>)
    requires StartsWith(l, DATA) && l[5..] == x && TotalInk(rest) == Ink(tail)
    requires TotalInk(rest + [[]]) == TotalInk(rest)
    requires Visible(rest) == [] <==> TotalInk(rest) == 0
    requires TotalInk([Strip(x + tail)]) == Ink(x) + Ink(tail)
    ensures [Strip(x + tail)] == Events([l] + (rest + [[]]), [])
            <==> Visible(rest) == [] && Value(l) == Strip(x)
  {
    var v := Value(l);
    var lines := [l] + (rest + [[]]);
    assert lines[1..] == rest + [[]] && lines[0] == l;
    assert Events(lines, []) == Events(rest + [[]], [v]) by {
      assert [] + [v] == [v];
    }
    TotalAppend([], v);
    ValueInk(l);
    EventsInk(rest + [[]], [v]);
    if HasData(rest) {
      var d :| d in rest && IsData(d);
      assert d in rest + [[]];
      NoneVisible(rest);
    } else {
      assert !HasData(rest + [[]]);
      OnlyPending(rest + [[]], [v]);
      assert TotalInk([v]) == Ink(x);
      if Ink(tail) == 0 {
        BlankIff(tail);
        StripTrails(x, tail);
      }
    }
  }

  lemma IndentedIsLost(l: bytes, x: bytes, tail: bytes, rest: seq<bytes>)
    requires l != [] && !StartsWith(l, DATA) && l != NAME && TotalInk(rest) == Ink(tail)
    requires TotalInk(rest + [[]]) == TotalInk(rest)
    requires TotalInk([Strip(x + tail)]) == Ink(x) + Ink(tail)
    ensures [Strip(x + tail)] != Events([l] + (rest + [[]]), [])
  {
    var lines := [l] + (rest + [[]]);
    assert lines[1..] == rest + [[]] && lines[0] == l;
    var none: seq<bytes> := [];
    assert none + [] == none;
    assert Events(lines, none) == Events(rest + [[]], none);
    EventsInk(rest + [[]], []);
    if !HasData(rest) {
      assert !HasData(rest + [[]]);
      OnlyPending(rest + [[]], []);
    } else {
      var d :| d in rest && IsData(d);
      assert d in rest + [[]];
    }
  }

  /** The reader hands on the bytes the standard does, for one message, iff its lines meet the
      condition. */
  lemma {:induction false} MessageIsReadIff(message: bytes)
    ensures Payload(message) == StandardOfMessage(message) <==> ReadAsStandard(Lines(message))
    decreases |message|
  {
    var i := EolAt(message);
    var l := message[..i];
    if i == |message| {
      assert l == message && l + [] == l && Lines(message) == [l] && [l] + [] == [l];
      if Ink(l) > 0 {
        FirstVisible(l, [], []);
      } else {
        BlankMessage(l);
      }
    } else if Ink(l) > 0 {
      TailInk(message);
      InkCut(message, i);
      VisibleMessage(message, l, message[i..], Lines(AfterLine(message)));
    } else {
      MessageIsReadIff(AfterLine(message));
      SkipLine(message);
    }
  }

  lemma VisibleMessage(message: bytes, l: bytes, tail: bytes, rest: seq<bytes>)
    requires message == l + tail && Lines(message) == [l] + rest && Ink(l) > 0
    requires TotalInk(rest) == Ink(tail) && (tail != [] ==> IsEol(tail[0]))
    ensures Payload(message) == StandardOfMessage(message) <==> ReadAsStandard(Lines(message))
  {
    FirstVisible(l, tail, rest);
  }

  lemma TailInk(message: bytes)
    requires EolAt(message) < |message|
    ensures TotalInk(Lines(AfterLine(message))) == Ink(message[EolAt(message)..])
  {
    LineInk(message);
    LinesKeepInk(AfterLine(message));
    InkCut(message, EolAt(message));
  }

  lemma SkipLine(message: bytes)
    requires EolAt(message) < |message| && Ink(message[..EolAt(message)]) == 0
    ensures Payload(message) == Payload(AfterLine(message))
    ensures StandardOfMessage(message) == StandardOfMessage(AfterLine(message))
    ensures ReadAsStandard(Lines(message)) <==> ReadAsStandard(Lines(AfterLine(message)))
  {
    SkipInPayload(message);
    SkipBlankLine(message[..EolAt(message)], Lines(AfterLine(message)));
    SkipInEvents(message[..EolAt(message)], Lines(AfterLine(message)), Lines(message));
  }

  lemma SkipInPayload(message: bytes)
    requires EolAt(message) < |message| && Ink(message[..EolAt(message)]) == 0
    ensures Payload(message) == Payload(AfterLine(message))
  {
    LineParts(message);
    BlankIff(message[..EolAt(message)]);
    StripLeads(message[..EolAt(message)] + Ending(message), AfterLine(message));
  }

  lemma SkipInEvents(l: bytes, rest: seq<bytes>, lines: seq<bytes>)
    requires Ink(l) == 0 && lines == [l] + rest
    ensures Events(lines + [[]], []) == Events(rest + [[]], [])
  {
    SkipBlankLine(l, rest + [[]]);
    assert lines + [[]] == [l] + (rest + [[]]);
  }

  lemma BlankMessage(l: bytes)
    requires Ink(l) == 0
    ensures Payload(l) == Events([l] + [[]], []) && ReadAsStandard([l])
  {
    BlankIff(l);
    StripLeads(l, []);
    assert l + [] == l;
    SkipBlankLine(l, []);
    SkipBlankLine(l, [[]]);
    assert [l] + [] == [l];
    assert Events([[]], []) == [] by {
      OnlyPending([[]], []);
    }
  }
}
