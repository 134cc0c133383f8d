/** The stream scheduler of benchmark/audio_watermark_check.py: every file is cut into the
    codec's chunks and streamed staggered, several files to a call. The watermarker is
    any state machine over the chunks of one stream. */
module Watermark {

  import opened Wrappers

  const FRAME: nat := 1920
  const SCHEDULE: seq<nat> := [1, 3, 8, 16]
  const CHUNK: nat := 25
  const MAX_ROWS: nat := 32

  type Samples = seq<int>

  // ---------------------------------------------------------------- chunk edges

  /** Samples in chunk `i` unless the file ends first: the ramp, then full windows. */
  function Width(i: nat): (w: nat)
    ensures w >= FRAME
  {
    if i < |SCHEDULE| then SCHEDULE[i] * FRAME else CHUNK * FRAME
  }

  /** The edges of a file of `n` samples: from 0 to `n`, each chunk as wide as it is due. */
  ghost predicate AreEdges(edges: seq<nat>, n: nat) {
    && edges != [] && edges[0] == 0 && edges[|edges| - 1] == n
    && forall i :: 0 <= i < |edges| - 1 ==> edges[i] < n && edges[i + 1] == Min(n, edges[i] + Width(i))
  }

  method ChunkEdges(n: nat) returns (edges: seq<nat>)
    ensures AreEdges(edges, n)
  {
    edges := [0];
    var pos, sizes: seq<nat> := 0, seq(|SCHEDULE|, i requires 0 <= i < |SCHEDULE| => SCHEDULE[i] * FRAME);
    while pos < n
      invariant edges != [] && edges[0] == 0 && edges[|edges| - 1] == pos <= n
      invariant forall i :: 0 <= i < |edges| - 1 ==>
                  edges[i] < n && edges[i + 1] == Min(n, edges[i] + Width(i))
      invariant |sizes| == if |edges| - 1 < |SCHEDULE| then |SCHEDULE| - (|edges| - 1) else 0
      invariant forall i :: 0 <= i < |sizes| ==> sizes[i] == Width(|edges| - 1 + i)
      decreases n - pos
    {
      var size := CHUNK * FRAME;
      if sizes != [] {
        size := sizes[0];
        sizes := sizes[1..];
      }
      pos := Min(n, pos + size);
      edges := edges + [pos];
    }
  }

  lemma {:induction false} EdgesRise(edges: seq<nat>, n: nat, i: nat, j: nat)
    requires AreEdges(edges, n) && i <= j < |edges|
    ensures edges[i] <= edges[j] <= n && (i < j ==> edges[i] < edges[j])
    decreases j
  {
    if i < j {
      EdgesRise(edges, n, i, j - 1);
    }
  }

  /** In samples at 24 kHz, 1920 to a codec frame: ramp edges after 1, 4, 12 and 28 frames, then one
      every 25, cut off by the end of the file. */
  lemma {:induction false} EdgeIs(edges: seq<nat>, n: nat, i: nat)
    requires AreEdges(edges, n) && i < |edges|
    ensures edges[i] == Min(n, 1920 * if i < 5 then [0, 1, 4, 12, 28][i] else 28 + 25 * (i - 4))
    decreases i
  {
    if i > 0 {
      EdgeIs(edges, n, i - 1);
    }
  }

  /** A file is non-empty iff it has a chunk. */
  lemma HasChunkIff(edges: seq<nat>, n: nat)
    requires AreEdges(edges, n)
    ensures |edges| > 1 <==> n > 0
  {
  }

  // ---------------------------------------------------------------- the schedule

  /** One chunk of one file as it goes into a call. */
  datatype Row = Row(name: string, index: nat, samples: Samples, last: bool)

  /** One `apply_pcm16` call. */
  datatype Call = Call(step: nat, rows: seq<Row>)

  /** A row with the step it was processed at. */
  datatype Entry = Entry(step: nat, row: Row)

  function IndexOf(names: seq<string>, n: string): (k: nat)
    requires n in names
    ensures k < |names| && names[k] == n
  {
    if names[0] == n then 0 else 1 + IndexOf(names[1..], n)
  }

  ghost predicate Distinct(names: seq<string>) {
    forall i, j :: 0 <= i < j < |names| ==> names[i] != names[j]
  }

  datatype Plan = Plan(names: seq<string>, files: map<string, Samples>, edges: map<string, seq<nat>>) {
    ghost predicate Valid() {
      && Distinct(names)
      && forall n <- names :: n in files && n in edges && AreEdges(edges[n], |files[n]|)
    }

    function Offset(n: string): nat
      requires n in names
    {
      IndexOf(names, n) % 5
    }

    ghost function Chunks(n: string): nat
      requires Valid() && n in names
    {
      |edges[n]| - 1
    }

    ghost predicate IsLive(n: string, step: nat)
      requires Valid() && n in names
    {
      0 <= step - Offset(n) < Chunks(n)
    }

    /** Chunk `i` of a file: its slice, flagged when it is the last. */
    ghost function RowAt(n: string, i: nat): Row
      requires Valid() && n in names && i < Chunks(n)
    {
      EdgesRise(edges[n], |files[n]|, i, i + 1);
      Row(n, i, files[n][edges[n][i]..edges[n][i + 1]], i + 1 == Chunks(n))
    }

    /** The first `count` chunks of a file, each at its step. */
    ghost function Expected(n: string, count: nat): (e: seq<Entry>)
      requires Valid() && n in names && count <= Chunks(n)
      ensures |e| == count
    {
      if count == 0 then []
      else Expected(n, count - 1) + [Entry(Offset(n) + count - 1, RowAt(n, count - 1))]
    }

    /** What the log holds of a file within `step`, before or after the file was served. */
    ghost function Served(n: string, step: nat, served: bool): seq<Entry>
      requires Valid() && n in names
    {
      Expected(n, Due(n, if served then step + 1 else step))
    }

    /** How many chunks of a file are due before `step`. */
    ghost function Due(n: string, step: nat): (d: nat)
      requires Valid() && n in names
      ensures d <= Chunks(n)
    {
      if step < Offset(n) then 0 else Min(step - Offset(n), Chunks(n))
    }
  }

  /** All rows of a list of calls, in order, with their steps. */
  function Entries(step: nat, rows: seq<Row>): (e: seq<Entry>)
    ensures |e| == |rows|
  {
    if rows == [] then [] else Entries(step, rows[..|rows| - 1]) + [Entry(step, rows[|rows| - 1])]
  }

  function Flatten(calls: seq<Call>): seq<Entry> {
    if calls == [] then []
    else Flatten(calls[..|calls| - 1]) + Entries(calls[|calls| - 1].step, calls[|calls| - 1].rows)
  }

  /** What a log holds of one file. */
  function Of(log: seq<Entry>, n: string): seq<Entry> {
    if log == [] then []
    else Of(log[..|log| - 1], n) + if log[|log| - 1].row.name == n then [log[|log| - 1]] else []
  }

  function Slices(log: seq<Entry>): (s: seq<Samples>) {
    if log == [] then [] else Slices(log[..|log| - 1]) + [log[|log| - 1].row.samples]
  }

  function Join(parts: seq<Samples>): Samples {
    if parts == [] then [] else Join(parts[..|parts| - 1]) + parts[|parts| - 1]
  }

  lemma OfAppend(log: seq<Entry>, e: Entry, n: string)
    ensures Of(log + [e], n) == if e.row.name == n then Of(log, n) + [e] else Of(log, n)
  {
    assert (log + [e])[..|log|] == log;
  }

  lemma SlicesAppend(log: seq<Entry>, e: Entry)
    ensures Slices(log + [e]) == Slices(log) + [e.row.samples]
  {
    assert (log + [e])[..|log|] == log;
  }

  lemma JoinAppend(parts: seq<Samples>, part: Samples)
    ensures Join(parts + [part]) == Join(parts) + part
  {
    assert (parts + [part])[..|parts|] == parts;
  }

  lemma EntriesAppend(step: nat, rows: seq<Row>, r: Row)
    ensures Entries(step, rows + [r]) == Entries(step, rows) + [Entry(step, r)]
  {
    assert (rows + [r])[..|rows|] == rows;
  }

  lemma FlattenAppend(calls: seq<Call>, c: Call)
    ensures Flatten(calls + [c]) == Flatten(calls) + Entries(c.step, c.rows)
  {
    assert (calls + [c])[..|calls|] == calls;
  }

  lemma {:induction false} IndexOfIs(names: seq<string>, k: nat)
    requires Distinct(names) && k < |names|
    ensures IndexOf(names, names[k]) == k
  {
    if k > 0 {
      assert names[0] != names[k];
      assert names[1..][k - 1] == names[k];
      IndexOfIs(names[1..], k - 1);
    }
  }

  /** Sorted by their place among all names. */
  ghost predicate InNameOrder(names: seq<string>, some: seq<string>) {
    && (forall n <- some :: n in names)
    && forall i, j :: 0 <= i < j < |some| ==> IndexOf(names, some[i]) < IndexOf(names, some[j])
  }

  /** Within a step the files are served in name order. */
  ghost predicate NamesRise(p: Plan, log: seq<Entry>) {
    && (forall e <- log :: e.row.name in p.names)
    && forall i, j :: 0 <= i < j < |log| && log[i].step == log[j].step ==>
         IndexOf(p.names, log[i].row.name) < IndexOf(p.names, log[j].row.name)
  }

  /** The files still to be served in a step are one chunk behind the files served. */
  ghost predicate Progress(p: Plan, log: seq<Entry>, step: nat, live: seq<string>, x: nat)
    requires p.Valid() && x <= |live|
  {
    forall n <- p.names :: Of(log, n) == p.Served(n, step, n in live[..x])
  }

  /** `live` lists exactly the live files of a step, once each. */
  ghost predicate IsLiveList(p: Plan, step: nat, live: seq<string>)
    requires p.Valid()
  {
    && Distinct(live) && (forall n <- live :: n in p.names)
    && (forall n <- p.names :: n in live <==> p.IsLive(n, step))
  }

  /** Serving a live file adds its next chunk; a file that is not live has nothing due. */
  lemma ServedNext(p: Plan, n: string, step: nat)
    requires p.Valid() && n in p.names
    ensures p.IsLive(n, step) ==>
              p.Served(n, step, true)
              == p.Served(n, step, false) + [Entry(step, p.RowAt(n, step - p.Offset(n)))]
    ensures !p.IsLive(n, step) ==> p.Served(n, step, true) == p.Served(n, step, false)
    ensures p.Served(n, step + 1, false) == p.Served(n, step, true)
  {
  }

  lemma {:induction false} OfHas(log: seq<Entry>, e: Entry)
    requires e in log
    ensures e in Of(log, e.row.name)
  {
    var rest := log[..|log| - 1];
    assert log == rest + [log[|log| - 1]];
    if e in rest {
      OfHas(rest, e);
    }
  }

  lemma {:induction false} ExpectedIsBefore(p: Plan, n: string, count: nat, e: Entry)
    requires p.Valid() && n in p.names && count <= p.Chunks(n) && e in p.Expected(n, count)
    ensures e.step < p.Offset(n) + count
  {
    if e in p.Expected(n, count - 1) {
      ExpectedIsBefore(p, n, count - 1, e);
    }
  }

  /** What the log holds of the current step is of files already served. */
  lemma EntryIsServed(p: Plan, log: seq<Entry>, step: nat, live: seq<string>, x: nat, e: Entry)
    requires p.Valid() && x <= |live| && Progress(p, log, step, live, x)
    requires e in log && e.row.name in p.names && e.step == step
    ensures e.row.name in live[..x]
  {
    var n := e.row.name;
    OfHas(log, e);
    assert e in p.Served(n, step, n in live[..x]);
    ExpectedIsBefore(p, n, p.Due(n, if n in live[..x] then step + 1 else step), e);
  }

  lemma NextNameRises(p: Plan, log: seq<Entry>, step: nat, live: seq<string>, x: nat, e: Entry)
    requires p.Valid() && x < |live| && InNameOrder(p.names, live) && Progress(p, log, step, live, x)
    requires NamesRise(p, log) && e.step == step && e.row.name == live[x]
    ensures NamesRise(p, log + [e])
  {
    var all := log + [e];
    assert live[x] in live;
    forall i, j | 0 <= i < j < |all| && all[i].step == all[j].step
      ensures IndexOf(p.names, all[i].row.name) < IndexOf(p.names, all[j].row.name)
    {
      if j == |log| {
        assert log[i] in log;
        EntryIsServed(p, log, step, live, x, log[i]);
        var k :| 0 <= k < x && live[k] == log[i].row.name;
      }
    }
  }

  lemma OneMoreServed(live: seq<string>, x: nat, m: string)
    requires x < |live| && Distinct(live)
    ensures m in live[..x + 1] <==> m in live[..x] || m == live[x]
    ensures live[x] !in live[..x]
  {
    assert live[..x + 1] == live[..x] + [live[x]];
  }

  lemma LiveAt(p: Plan, step: nat, live: seq<string>, x: nat)
    requires p.Valid() && IsLiveList(p, step, live) && x < |live|
    ensures live[x] in p.names && p.IsLive(live[x], step)
  {
    assert live[x] in live;
  }

  lemma NextOf(p: Plan, log: seq<Entry>, step: nat, n: string, e: Entry)
    requires p.Valid() && n in p.names && p.IsLive(n, step) && e == Entry(step, p.RowAt(n, step - p.Offset(n)))
    requires Of(log, n) == p.Served(n, step, false)
    ensures Of(log + [e], n) == p.Served(n, step, true)
  {
    ServedNext(p, n, step);
    OfAppend(log, e, n);
  }

  /** One file's log after live file `x` was served, be it that file or another. */
  lemma ServeRowAt(p: Plan, log: seq<Entry>, step: nat, live: seq<string>, x: nat, m: string, e: Entry)
    requires p.Valid() && x < |live| && Distinct(live) && live[x] in p.names && p.IsLive(live[x], step)
    requires e == Entry(step, p.RowAt(live[x], step - p.Offset(live[x])))
    requires m in p.names && Of(log, m) == p.Served(m, step, m in live[..x])
    ensures Of(log + [e], m) == p.Served(m, step, m in live[..x + 1])
  {
    OneMoreServed(live, x, m);
    if m == live[x] {
      NextOf(p, log, step, m, e);
    } else {
      OfAppend(log, e, m);
    }
  }

  lemma ServeRow(p: Plan, log: seq<Entry>, step: nat, live: seq<string>, x: nat, e: Entry)
    requires p.Valid() && x < |live| && IsLiveList(p, step, live) && Progress(p, log, step, live, x)
    requires live[x] in p.names && p.IsLive(live[x], step) ==>
               e == Entry(step, p.RowAt(live[x], step - p.Offset(live[x])))
    ensures live[x] in p.names && p.IsLive(live[x], step)
    ensures Progress(p, log + [e], step, live, x + 1)
  {
    LiveAt(p, step, live, x);
    forall m <- p.names
      ensures Of(log + [e], m) == p.Served(m, step, m in live[..x + 1])
    {
      ServeRowAt(p, log, step, live, x, m, e);
    }
  }

  /** After every live file was served the step is over. */
  lemma EndStep(p: Plan, log: seq<Entry>, step: nat, live: seq<string>)
    requires p.Valid() && IsLiveList(p, step, live) && Progress(p, log, step, live, |live|)
    ensures Progress(p, log, step + 1, [], 0)
  {
    assert live[..|live|] == live;
    forall n <- p.names
      ensures Of(log, n) == p.Served(n, step + 1, false)
    {
      ServedNext(p, n, step);
    }
  }

  /** The slices of a file join to the file. */
  lemma {:induction false} SlicesJoin(p: Plan, n: string, count: nat)
    requires p.Valid() && n in p.names && count <= p.Chunks(n)
    ensures p.edges[n][count] <= |p.files[n]|
    ensures Join(Slices(p.Expected(n, count))) == p.files[n][..p.edges[n][count]]
  {
    EdgesRise(p.edges[n], |p.files[n]|, count, count);
    if count > 0 {
      SlicesJoin(p, n, count - 1);
      EdgesRise(p.edges[n], |p.files[n]|, count - 1, count);
      var had, row := p.Expected(n, count - 1), p.RowAt(n, count - 1);
      SlicesAppend(had, Entry(p.Offset(n) + count - 1, row));
      JoinAppend(Slices(had), row.samples);
      LongerPrefix(p.files[n], p.edges[n][count - 1], p.edges[n][count]);
    }
  }

  /** Chunk by chunk: the file in place `k` has its chunk `i` at step `k % 5 + i`, from edge to edge,
      flagged iff it is the last. */
  lemma {:induction false} ExpectedAt(p: Plan, k: nat, count: nat, i: nat)
    requires p.Valid() && k < |p.names| && i < count < |p.edges[p.names[k]]|
    ensures var n := p.names[k];
            && p.edges[n][i] <= p.edges[n][i + 1] <= |p.files[n]|
            && p.Expected(n, count)[i]
               == Entry(k % 5 + i, Row(n, i, p.files[n][p.edges[n][i]..p.edges[n][i + 1]], i + 2 == |p.edges[n]|))
  {
    var n := p.names[k];
    IndexOfIs(p.names, k);
    EdgesRise(p.edges[n], |p.files[n]|, i, i + 1);
    if i < count - 1 {
      ExpectedAt(p, k, count - 1, i);
    }
  }

  lemma WholeFile(p: Plan, n: string)
    requires p.Valid() && n in p.names
    ensures Join(Slices(p.Expected(n, p.Chunks(n)))) == p.files[n]
  {
    SlicesJoin(p, n, p.Chunks(n));
    assert p.files[n][..|p.files[n]|] == p.files[n];
  }

  // ---------------------------------------------------------------- the loops

  /** `some` lists the ones of the first `k` names that are in `chosen`, in order. */
  ghost predicate Lists(names: seq<string>, chosen: set<string>, some: seq<string>, k: nat)
    requires k <= |names|
  {
    && (forall n <- some :: n in names && n in chosen && IndexOf(names, n) < k)
    && (forall i :: 0 <= i < k && names[i] in chosen ==> names[i] in some)
    && InNameOrder(names, some)
  }

  lemma OneMoreInOrder(names: seq<string>, some: seq<string>, n: string)
    requires InNameOrder(names, some) && n in names
    requires forall m <- some :: IndexOf(names, m) < IndexOf(names, n)
    ensures InNameOrder(names, some + [n])
  {
    var all := some + [n];
    forall m <- all
      ensures m in names
    {
      assert m in some || m == n;
    }
    forall i, j | 0 <= i < j < |all|
      ensures IndexOf(names, all[i]) < IndexOf(names, all[j])
    {
      assert all[i] == some[i] && some[i] in some;
    }
  }

  lemma OneMoreListed(names: seq<string>, chosen: set<string>, some: seq<string>, k: nat)
    requires Distinct(names) && k < |names| && Lists(names, chosen, some, k)
    ensures Lists(names, chosen, if names[k] in chosen then some + [names[k]] else some, k + 1)
  {
    IndexOfIs(names, k);
    var n := names[k];
    if n in chosen {
      OneMoreInOrder(names, some, n);
      forall m <- some + [n]
        ensures m in names && m in chosen && IndexOf(names, m) < k + 1
      {
        assert m in some || m == n;
      }
      forall i | 0 <= i < k + 1 && names[i] in chosen
        ensures names[i] in some + [n]
      {
        assert i < k ==> names[i] in some;
      }
    }
  }

  ghost function LiveSet(p: Plan, step: nat): (live: set<string>)
    requires p.Valid()
    ensures forall n :: n in live <==> n in p.names && p.IsLive(n, step)
  {
    set n <- p.names | p.IsLive(n, step)
  }

  lemma LiveIsListed(p: Plan, step: nat, live: seq<string>)
    requires p.Valid() && Lists(p.names, LiveSet(p, step), live, |p.names|)
    ensures IsLiveList(p, step, live) && InNameOrder(p.names, live)
  {
    forall i, j | 0 <= i < j < |live|
      ensures live[i] != live[j]
    {
      assert IndexOf(p.names, live[i]) < IndexOf(p.names, live[j]);
    }
  }

  lemma LiveIff(p: Plan, step: nat, k: nat)
    requires p.Valid() && k < |p.names|
    ensures p.names[k] in LiveSet(p, step) <==> 0 <= step - k % 5 < |p.edges[p.names[k]]| - 1
  {
    IndexOfIs(p.names, k);
  }

  /** The files live at a step, in name order. */
  method LiveFiles(p: Plan, step: nat) returns (live: seq<string>)
    requires p.Valid()
    ensures IsLiveList(p, step, live) && InNameOrder(p.names, live)
  {
    live := [];
    for k := 0 to |p.names|
      invariant Lists(p.names, LiveSet(p, step), live, k)
    {
      var n := p.names[k];
      LiveIff(p, step, k);
      OneMoreListed(p.names, LiveSet(p, step), live, k);
      if 0 <= step - k % 5 < |p.edges[n]| - 1 {
        live := live + [n];
      }
    }
    LiveIsListed(p, step, live);
  }

  /** How many steps it takes: the last chunk of the latest file. */
  method Steps(p: Plan) returns (steps: nat)
    requires p.Valid()
    ensures forall n <- p.names :: p.Offset(n) + p.Chunks(n) <= steps
  {
    steps := 0;
    for k := 0 to |p.names|
      invariant forall n <- p.names[..k] :: p.Offset(n) + p.Chunks(n) <= steps
    {
      IndexOfIs(p.names, k);
      assert p.names[..k + 1] == p.names[..k] + [p.names[k]];
      var s := k % 5 + |p.edges[p.names[k]]| - 1;
      if steps < s {
        steps := s;
      }
    }
    assert p.names[..|p.names|] == p.names;
  }

  // ---------------------------------------------------------------- the marker

  /** A watermarker of streams: each chunk of a stream is marked in the state the stream's earlier
      chunks have left; chunks marked in one call do not see each other. */
  datatype Marker<!S> = Marker(start: S, mark: (S, Samples, bool) -> (Samples, S))

  /** The state of one stream after its rows. */
  function StateAfter<S>(mk: Marker<S>, log: seq<Entry>): S {
    if log == [] then mk.start
    else
      var row := log[|log| - 1].row;
      mk.mark(StateAfter(mk, log[..|log| - 1]), row.samples, row.last).1
  }

  /** What marking the rows of one stream gives, with no other stream around. */
  function Marked<S>(mk: Marker<S>, log: seq<Entry>): (parts: seq<Samples>)
    ensures |parts| == |log|
  {
    if log == [] then []
    else
      var before, row := log[..|log| - 1], log[|log| - 1].row;
      Marked(mk, before) + [mk.mark(StateAfter(mk, before), row.samples, row.last).0]
  }

  lemma MarkAppend<S>(mk: Marker<S>, log: seq<Entry>, e: Entry)
    ensures var (part, state) := mk.mark(StateAfter(mk, log), e.row.samples, e.row.last);
            Marked(mk, log + [e]) == Marked(mk, log) + [part] && StateAfter(mk, log + [e]) == state
  {
    assert (log + [e])[..|log|] == log;
  }

  /** Each part is its row marked in the state the row before left, the first in the initial state. */
  lemma {:induction false} MarkedAt<S>(mk: Marker<S>, log: seq<Entry>, i: nat)
    requires i < |log|
    ensures var (part, state) := mk.mark(StateAfter(mk, log[..i]), log[i].row.samples, log[i].row.last);
            Marked(mk, log)[i] == part && StateAfter(mk, log[..i + 1]) == state
    ensures StateAfter(mk, []) == mk.start
  {
    assert log[..i + 1][..i] == log[..i];
    var before := log[..|log| - 1];
    if i < |before| {
      MarkedAt(mk, before, i);
      assert before[..i] == log[..i] && before[..i + 1] == log[..i + 1];
    } else {
      assert log[..i + 1] == log;
    }
  }

  /** A file's parts and stream state are those of the file marked alone. */
  ghost predicate PartOk<S>(mk: Marker<S>, parts: map<string, seq<Samples>>, streams: map<string, S>,
                            log: seq<Entry>, n: string)
  {
    && n in parts && n in streams
    && parts[n] == Marked(mk, Of(log, n)) && streams[n] == StateAfter(mk, Of(log, n))
  }

  /** This holds of all files, and only files are served. */
  ghost predicate PartsMatch<S>(p: Plan, mk: Marker<S>, parts: map<string, seq<Samples>>, streams: map<string, S>,
                                log: seq<Entry>)
  {
    && (forall n <- p.names :: PartOk(mk, parts, streams, log, n))
    && (forall e <- log :: e.row.name in p.names)
  }

  /** One file's parts and state after row `e` was added, be it the row's file or another. */
  lemma AddPartAt<S>(mk: Marker<S>, parts: map<string, seq<Samples>>, streams: map<string, S>,
                     log: seq<Entry>, e: Entry, part: Samples, state: S, n: string)
    requires PartOk(mk, parts, streams, log, e.row.name) && PartOk(mk, parts, streams, log, n)
    requires (part, state) == mk.mark(streams[e.row.name], e.row.samples, e.row.last)
    ensures PartOk(mk, parts[e.row.name := parts[e.row.name] + [part]], streams[e.row.name := state], log + [e], n)
  {
    MarkOne(mk, log, e, n);
  }

  /** Only files are served, also after row `e`. */
  lemma AddName(p: Plan, log: seq<Entry>, e: Entry)
    requires (forall x <- log :: x.row.name in p.names) && e.row.name in p.names
    ensures forall x <- log + [e] :: x.row.name in p.names
  {
    forall x <- log + [e]
      ensures x.row.name in p.names
    {
      assert x in log || x == e;
    }
  }

  /** Adding the part `part` of row `e` and the state `state` it leaves. */
  lemma AddPart<S>(p: Plan, mk: Marker<S>, parts: map<string, seq<Samples>>, streams: map<string, S>,
                   log: seq<Entry>, e: Entry, part: Samples, state: S)
    requires PartsMatch(p, mk, parts, streams, log) && e.row.name in p.names
    requires e.row.name in streams && (part, state) == mk.mark(streams[e.row.name], e.row.samples, e.row.last)
    ensures e.row.name in parts
    ensures PartsMatch(p, mk, parts[e.row.name := parts[e.row.name] + [part]], streams[e.row.name := state], log + [e])
  {
    assert PartOk(mk, parts, streams, log, e.row.name);
    forall n <- p.names
      ensures PartOk(mk, parts[e.row.name := parts[e.row.name] + [part]], streams[e.row.name := state], log + [e], n)
    {
      assert PartOk(mk, parts, streams, log, n);
      AddPartAt(mk, parts, streams, log, e, part, state, n);
    }
    AddName(p, log, e);
  }

  lemma MarkOne<S>(mk: Marker<S>, log: seq<Entry>, e: Entry, n: string)
    ensures var (part, state) := mk.mark(StateAfter(mk, Of(log, n)), e.row.samples, e.row.last);
            && Marked(mk, Of(log + [e], n)) == Marked(mk, Of(log, n)) + (if n == e.row.name then [part] else [])
            && StateAfter(mk, Of(log + [e], n)) == if n == e.row.name then state else StateAfter(mk, Of(log, n))
  {
    OfAppend(log, e, n);
    if n == e.row.name {
      MarkAppend(mk, Of(log, n), e);
    } else {
      assert Of(log, n) + [] == Of(log, n);
    }
  }

  /** A marker that keeps lengths keeps those of whole files. */
  lemma {:induction false} MarkedLength<S(!new)>(mk: Marker<S>, log: seq<Entry>)
    requires forall state, x, last :: |mk.mark(state, x, last).0| == |x|
    ensures |Join(Marked(mk, log))| == |Join(Slices(log))|
  {
    if log != [] {
      var before, row := log[..|log| - 1], log[|log| - 1].row;
      MarkedLength(mk, before);
      var part := mk.mark(StateAfter(mk, before), row.samples, row.last).0;
      JoinAppend(Marked(mk, before), part);
      JoinAppend(Slices(before), row.samples);
    }
  }

  // ---------------------------------------------------------------- the step loop

  /** What the log holds up to live file `x` of a step: every file's rows, in name order. */
  ghost predicate Logged(p: Plan, log: seq<Entry>, step: nat, live: seq<string>, x: nat)
    requires p.Valid() && x <= |live|
  {
    Progress(p, log, step, live, x) && NamesRise(p, log)
  }

  lemma LogRow(p: Plan, log: seq<Entry>, step: nat, live: seq<string>, x: nat, row: Row)
    requires p.Valid() && x < |live| && IsLiveList(p, step, live) && InNameOrder(p.names, live)
    requires Logged(p, log, step, live, x)
    requires live[x] in p.names && p.IsLive(live[x], step) ==> row == p.RowAt(live[x], step - p.Offset(live[x]))
    ensures row.name in p.names && Logged(p, log + [Entry(step, row)], step, live, x + 1)
  {
    LiveAt(p, step, live, x);
    ServeRow(p, log, step, live, x, Entry(step, row));
    NextNameRises(p, log, step, live, x, Entry(step, row));
  }

  /** One more row of a call, in the log: `sofar` with `rows` becomes `sofar + [e]`. */
  lemma ServeOne(log: seq<Entry>, sofar: seq<Entry>, rows: seq<Row>, row: Row, step: nat)
    requires sofar == log + Entries(step, rows)
    ensures sofar + [Entry(step, row)] == log + Entries(step, rows + [row])
  {
    EntriesAppend(step, rows, row);
    assert log + (Entries(step, rows) + [Entry(step, row)]) == sofar + [Entry(step, row)];
  }

  /** One row of a call is marked in its stream and its part kept. */
  method MarkRow<S>(p: Plan, mk: Marker<S>, row: Row, parts: map<string, seq<Samples>>, streams: map<string, S>,
                    ghost log: seq<Entry>, ghost e: Entry)
    returns (parts': map<string, seq<Samples>>, streams': map<string, S>)
    requires PartsMatch(p, mk, parts, streams, log) && e.row == row && row.name in p.names
    ensures PartsMatch(p, mk, parts', streams', log + [e])
  {
    assert PartOk(mk, parts, streams, log, row.name);
    var (part, state) := mk.mark(streams[row.name], row.samples, row.last);
    AddPart(p, mk, parts, streams, log, e, part, state);
    parts' := parts[row.name := parts[row.name] + [part]];
    streams' := streams[row.name := state];
  }

  /** A file's chunk for a step, flagged when it is the last. */
  method CutRow(p: Plan, step: nat, n: string) returns (row: Row)
    requires p.Valid() && n in p.names && p.IsLive(n, step)
    ensures row == p.RowAt(n, step - p.Offset(n))
  {
    var i := step - IndexOf(p.names, n) % 5;
    var edges := p.edges[n];
    EdgesRise(edges, |p.files[n]|, i, i + 1);
    row := Row(n, i, p.files[n][edges[i]..edges[i + 1]], i + 1 == |edges| - 1);
  }

  /** What a call has done up to live file `x`. */
  ghost predicate ServedUpTo<S>(p: Plan, mk: Marker<S>, step: nat, live: seq<string>, x: nat, sofar: seq<Entry>,
                            parts: map<string, seq<Samples>>, streams: map<string, S>)
    requires p.Valid() && x <= |live|
  {
    Logged(p, sofar, step, live, x) && PartsMatch(p, mk, parts, streams, sofar)
  }

  /** The row of live file `x`. */
  method NextRow(p: Plan, step: nat, live: seq<string>, x: nat, ghost sofar: seq<Entry>) returns (row: Row)
    requires p.Valid() && IsLiveList(p, step, live) && InNameOrder(p.names, live) && x < |live|
    requires Logged(p, sofar, step, live, x)
    ensures row.name in p.names && Logged(p, sofar + [Entry(step, row)], step, live, x + 1)
  {
    LiveAt(p, step, live, x);
    row := CutRow(p, step, live[x]);
    LogRow(p, sofar, step, live, x, row);
  }

  method ServeLive<S>(p: Plan, mk: Marker<S>, step: nat, live: seq<string>, x: nat,
                      parts: map<string, seq<Samples>>, streams: map<string, S>,
                      ghost log: seq<Entry>, ghost sofar: seq<Entry>, ghost rows: seq<Row>)
    returns (row: Row, parts': map<string, seq<Samples>>, streams': map<string, S>)
    requires p.Valid() && IsLiveList(p, step, live) && InNameOrder(p.names, live) && x < |live|
    requires sofar == log + Entries(step, rows) && ServedUpTo(p, mk, step, live, x, sofar, parts, streams)
    ensures sofar + [Entry(step, row)] == log + Entries(step, rows + [row])
    ensures ServedUpTo(p, mk, step, live, x + 1, sofar + [Entry(step, row)], parts', streams')
  {
    row := NextRow(p, step, live, x, sofar);
    ServeOne(log, sofar, rows, row, step);
    parts', streams' := MarkRow(p, mk, row, parts, streams, sofar, Entry(step, row));
  }

  /** One call: the rows of `live[lo..hi]` are cut, marked together and added to the parts. */
  method ServeCall<S>(p: Plan, mk: Marker<S>, step: nat, live: seq<string>, lo: nat, hi: nat,
                      parts: map<string, seq<Samples>>, streams: map<string, S>, ghost log: seq<Entry>)
    returns (rows: seq<Row>, parts': map<string, seq<Samples>>, streams': map<string, S>)
    requires p.Valid() && IsLiveList(p, step, live) && InNameOrder(p.names, live) && lo <= hi <= |live|
    requires ServedUpTo(p, mk, step, live, lo, log, parts, streams)
    ensures |rows| == hi - lo
    ensures ServedUpTo(p, mk, step, live, hi, log + Entries(step, rows), parts', streams')
  {
    rows, parts', streams' := [], parts, streams;
    ghost var sofar := log;
    assert log + Entries(step, rows) == log;
    for x := lo to hi
      invariant |rows| == x - lo && sofar == log + Entries(step, rows)
      invariant ServedUpTo(p, mk, step, live, x, sofar, parts', streams')
    {
      var row;
      row, parts', streams' := ServeLive(p, mk, step, live, x, parts', streams', log, sofar, rows);
      sofar := sofar + [Entry(step, row)];
      rows := rows + [row];
    }
  }

  /** `calls` is `before` and some calls of `step`, none empty or over the cap. */
  ghost predicate CallsOf(before: seq<Call>, calls: seq<Call>, step: nat) {
    && before <= calls
    && forall k :: |before| <= k < |calls| ==> calls[k].step == step && 0 < |calls[k].rows| <= MAX_ROWS
  }

  /** The calls from `n` on are as big as they may be, up to call `m`. */
  ghost predicate Full(calls: seq<Call>, n: nat, m: int) {
    forall k :: n <= k < m && k < |calls| ==> |calls[k].rows| == MAX_ROWS
  }

  lemma OneMoreCall(before: seq<Call>, calls: seq<Call>, c: Call, step: nat)
    requires CallsOf(before, calls, step) && c.step == step && 0 < |c.rows| <= MAX_ROWS
    requires Full(calls, |before|, |calls|)
    ensures CallsOf(before, calls + [c], step) && Full(calls + [c], |before|, |calls|)
    ensures |c.rows| == MAX_ROWS ==> Full(calls + [c], |before|, |calls| + 1)
  {
  }

  /** One step: the live files in name order, in calls of 32 rows but the last. */
  method ServeStep<S>(p: Plan, mk: Marker<S>, step: nat, calls: seq<Call>,
                      parts: map<string, seq<Samples>>, streams: map<string, S>)
    returns (calls': seq<Call>, parts': map<string, seq<Samples>>, streams': map<string, S>)
    requires p.Valid() && ServedUpTo(p, mk, step, [], 0, Flatten(calls), parts, streams)
    ensures ServedUpTo(p, mk, step + 1, [], 0, Flatten(calls'), parts', streams')
    ensures CallsOf(calls, calls', step) && Full(calls', |calls|, |calls'| - 1)
  {
    var live := LiveFiles(p, step);
    calls', parts', streams' := calls, parts, streams;
    var lo := 0;
    while lo < |live|
      invariant lo <= |live| && CallsOf(calls, calls', step)
      invariant Full(calls', |calls|, if lo < |live| then |calls'| else |calls'| - 1)
      invariant ServedUpTo(p, mk, step, live, lo, Flatten(calls'), parts', streams')
    {
      var hi := Min(lo + MAX_ROWS, |live|);
      var rows;
      rows, parts', streams' := ServeCall(p, mk, step, live, lo, hi, parts', streams', Flatten(calls'));
      FlattenAppend(calls', Call(step, rows));
      OneMoreCall(calls, calls', Call(step, rows), step);
      calls' := calls' + [Call(step, rows)];
      lo := hi;
    }
    EndStep(p, Flatten(calls'), step, live);
  }

  /** No call is empty or over the cap, steps only go up, and a step's calls but the last are full. */
  ghost predicate InOrder(calls: seq<Call>, steps: nat) {
    && (forall c <- calls :: 0 < |c.rows| <= MAX_ROWS && c.step < steps)
    && (forall i, j :: 0 <= i < j < |calls| ==>
          calls[i].step < calls[j].step || (calls[i].step == calls[j].step && |calls[i].rows| == MAX_ROWS))
  }

  lemma StepIsInOrder(before: seq<Call>, calls: seq<Call>, step: nat)
    requires InOrder(before, step) && CallsOf(before, calls, step) && Full(calls, |before|, |calls| - 1)
    ensures InOrder(calls, step + 1)
  {
    assert forall k :: 0 <= k < |before| ==> calls[k] == before[k] && before[k] in before;
  }

  method AllSteps<S>(p: Plan, mk: Marker<S>, parts: map<string, seq<Samples>>, streams: map<string, S>)
    returns (calls: seq<Call>, parts': map<string, seq<Samples>>)
    requires p.Valid() && p.names != [] && PartsMatch(p, mk, parts, streams, [])
    ensures NamesRise(p, Flatten(calls))
    ensures forall n <- p.names :: Of(Flatten(calls), n) == p.Expected(n, p.Chunks(n))
    ensures forall n <- p.names :: n in parts' && parts'[n] == Marked(mk, p.Expected(n, p.Chunks(n)))
    ensures forall e <- Flatten(calls) :: e.row.name in p.names
    ensures exists steps: nat :: InOrder(calls, steps)
  {
    calls, parts' := [], parts;
    var streams' := streams;
    var steps := Steps(p);
    for step := 0 to steps
      invariant ServedUpTo(p, mk, step, [], 0, Flatten(calls), parts', streams')
      invariant InOrder(calls, step)
    {
      ghost var before := calls;
      calls, parts', streams' := ServeStep(p, mk, step, calls, parts', streams');
      StepIsInOrder(before, calls, step);
    }
    forall n <- p.names
      ensures Of(Flatten(calls), n) == p.Expected(n, p.Chunks(n))
    {
      assert p.Due(n, steps) == p.Chunks(n);
    }
    forall n <- p.names
      ensures n in parts' && parts'[n] == Marked(mk, p.Expected(n, p.Chunks(n)))
    {
      assert PartOk(mk, parts', streams', Flatten(calls), n);
    }
  }

  method CutFiles(names: seq<string>, files: map<string, Samples>) returns (p: Plan)
    requires Distinct(names) && forall n <- names :: n in files
    ensures p.names == names && p.files == files && p.Valid()
  {
    var edges: map<string, seq<nat>> := map[];
    for k := 0 to |names|
      invariant forall n <- names[..k] :: n in edges && AreEdges(edges[n], |files[n]|)
    {
      var e := ChunkEdges(|files[names[k]]|);
      edges := edges[names[k] := e];
      assert names[..k + 1] == names[..k] + [names[k]];
    }
    assert names[..|names|] == names;
    p := Plan(names, files, edges);
  }

  method OpenStreams<S>(p: Plan, mk: Marker<S>) returns (parts: map<string, seq<Samples>>, streams: map<string, S>)
    ensures PartsMatch(p, mk, parts, streams, [])
  {
    parts, streams := map[], map[];
    for k := 0 to |p.names|
      invariant forall n <- p.names[..k] :: n in parts && parts[n] == [] && n in streams && streams[n] == mk.start
    {
      parts := parts[p.names[k] := []];
      streams := streams[p.names[k] := mk.start];
      assert p.names[..k + 1] == p.names[..k] + [p.names[k]];
    }
    assert p.names[..|p.names|] == p.names;
    forall n <- p.names
      ensures PartOk(mk, parts, streams, [], n)
    {
    }
  }

  /** `torch.cat` fails on a file without parts. */
  method AllHaveParts(names: seq<string>, parts: map<string, seq<Samples>>) returns (ok: bool)
    requires forall n <- names :: n in parts
    ensures ok <==> forall n <- names :: parts[n] != []
  {
    ok := true;
    for k := 0 to |names|
      invariant ok <==> forall n <- names[..k] :: parts[n] != []
    {
      assert names[..k + 1] == names[..k] + [names[k]];
      if parts[names[k]] == [] {
        ok := false;
      }
    }
    assert names[..|names|] == names;
  }

  /** `stream` between reading the files and writing the results. Every chunk of every file is
      in the calls exactly once, in order, at step `k % 5 + i` and flagged exactly when it is
      the file's last; no call is empty or over the cap; nothing else is in them. The parts of
      each file are those of the file marked on its own: neither the stagger nor the batching
      shows. It fails only for no files or an empty one (`max` or `torch.cat` of nothing). */
  method Stream<S>(mk: Marker<S>, names: seq<string>, files: map<string, Samples>)
    returns (ok: bool, calls: seq<Call>, parts: map<string, seq<Samples>>, ghost plan: Plan)
    requires Distinct(names) && forall n <- names :: n in files
    ensures ok <==> names != [] && forall n <- names :: files[n] != []
    ensures plan.names == names && plan.files == files && plan.Valid()
    ensures forall n <- names :: Of(Flatten(calls), n) == plan.Expected(n, plan.Chunks(n))
    ensures forall e <- Flatten(calls) :: e.row.name in names
    ensures forall n <- names :: Join(Slices(Of(Flatten(calls), n))) == files[n]
    ensures forall c <- calls :: 0 < |c.rows| <= 32
    ensures forall i, j :: 0 <= i < j < |calls| ==>
              calls[i].step < calls[j].step || (calls[i].step == calls[j].step && |calls[i].rows| == 32)
    ensures NamesRise(plan, Flatten(calls))
    ensures forall n <- names :: n in parts && parts[n] == Marked(mk, plan.Expected(n, plan.Chunks(n)))
  {
    var p := CutFiles(names, files);
    plan := p;
    var streams;
    parts, streams := OpenStreams(p, mk);
    calls, ok := [], false;
    if names == [] {
      return;
    }
    calls, parts := AllSteps(p, mk, parts, streams);
    ok := AllHaveParts(names, parts);
    forall n <- names
      ensures Join(Slices(p.Expected(n, p.Chunks(n)))) == files[n] && (parts[n] != [] <==> files[n] != [])
    {
      WholeFile(p, n);
      HasChunkIff(p.edges[n], |files[n]|);
    }
  }
}
