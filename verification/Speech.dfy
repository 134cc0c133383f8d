/** The energy VAD of benchmark/eval/audio.py from the frame decisions on: runs of speech
    frames, bridged over short silences, short segments dropped. Which frames are speech
    (the RMS threshold) is an input. */
module Speech {

  import opened Wrappers

  /** Frames `[from, to)`. */
  datatype Seg = Seg(from: nat, to: nat)

  /** Frame length, and the two limits, in seconds. */
  datatype Params = Params(frame: real, minSpeech: real, minSilence: real) {
    function Time(k: nat): real {
      k as real * frame
    }

    function Times(segs: seq<Seg>): (t: seq<(real, real)>)
      ensures |t| == |segs|
      ensures forall i :: 0 <= i < |segs| ==> t[i] == (Time(segs[i].from), Time(segs[i].to))
    {
      seq(|segs|, i requires 0 <= i < |segs| => (Time(segs[i].from), Time(segs[i].to)))
    }

    lemma TimesAppend(segs: seq<Seg>, s: Seg)
      ensures Times(segs + [s]) == Times(segs) + [(Time(s.from), Time(s.to))]
    {
    }

    /** One more run after the segments merged so far, in seconds. */
    function Bridged(merged: seq<(real, real)>, next: (real, real)): seq<(real, real)> {
      if merged != [] && next.0 - Last(merged).1 < minSilence
      then DropLast(merged) + [(Last(merged).0, next.1)] else merged + [next]
    }

    /** A silence from `a` to `b` is bridged. */
    predicate Short(a: nat, b: nat) {
      Time(b) - Time(a) < minSilence
    }

    predicate LongEnough(s: Seg) {
      Time(s.to) - Time(s.from) >= minSpeech
    }
  }

  // ---------------------------------------------------------------- the three passes

  datatype Scan = Scan(segs: seq<Seg>, start: int)

  /** The runs closed within the first `n` frames, and where an open one started (or -1). */
  function ScanTo(active: seq<bool>, n: nat): Scan
    requires n <= |active|
  {
    if n == 0 then Scan([], -1)
    else
      var s := ScanTo(active, n - 1);
      if active[n - 1] && s.start < 0 then s.(start := n - 1)
      else if !active[n - 1] && s.start >= 0 then Scan(s.segs + [Seg(s.start, n - 1)], -1)
      else s
  }

  function Runs(active: seq<bool>): seq<Seg> {
    var s := ScanTo(active, |active|);
    if s.start >= 0 then s.segs + [Seg(s.start, |active|)] else s.segs
  }

  function Bridge(p: Params, runs: seq<Seg>): seq<Seg> {
    if runs == [] then []
    else
      var (m, seg) := (Bridge(p, DropLast(runs)), Last(runs));
      if m != [] && p.Short(Last(m).to, seg.from) then DropLast(m) + [Last(m).(to := seg.to)] else m + [seg]
  }

  function KeepLong(p: Params, segs: seq<Seg>): seq<Seg> {
    if segs == [] then []
    else KeepLong(p, DropLast(segs)) + if p.LongEnough(Last(segs)) then [Last(segs)] else []
  }

  function Detect(p: Params, active: seq<bool>): seq<Seg> {
    KeepLong(p, Bridge(p, Runs(active)))
  }

  /** `times` are the ends of the segments: frame numbers times the frame length. */
  ghost predicate InSeconds(p: Params, times: seq<(real, real)>, segs: seq<Seg>) {
    && |times| == |segs|
    && forall i :: 0 <= i < |segs| ==>
         times[i].0 == segs[i].from as real * p.frame && times[i].1 == segs[i].to as real * p.frame
  }

  lemma TimesAreSeconds(p: Params, segs: seq<Seg>)
    ensures InSeconds(p, p.Times(segs), segs)
  {
  }

  /** `speech_segments` on the frame decisions, in seconds throughout as in the source. */
  method SpeechSegments(p: Params, active: seq<bool>) returns (out: seq<(real, real)>)
    ensures InSeconds(p, out, Detect(p, active))
  {
    var segs := FindRuns(p, active);
    var merged := BridgeShort(p, Runs(active), segs);
    out := FilterLong(p, Bridge(p, Runs(active)), merged);
    TimesAreSeconds(p, Detect(p, active));
  }

  /** The first pass, over the frames. */
  method FindRuns(p: Params, active: seq<bool>) returns (segs: seq<(real, real)>)
    ensures segs == p.Times(Runs(active))
  {
    segs := [];
    var start := -1;
    for i := 0 to |active|
      invariant -1 <= start < i || start == -1
      invariant start == ScanTo(active, i).start && segs == p.Times(ScanTo(active, i).segs)
    {
      if active[i] && start < 0 {
        start := i;
      } else if !active[i] && start >= 0 {
        p.TimesAppend(ScanTo(active, i).segs, Seg(start, i));
        segs := segs + [(p.Time(start), p.Time(i))];
        start := -1;
      }
    }
    if start >= 0 {
      p.TimesAppend(ScanTo(active, |active|).segs, Seg(start, |active|));
      segs := segs + [(p.Time(start), p.Time(|active|))];
    }
  }

  /** The pass over one more run, in frames and in seconds. */
  lemma BridgeNext(p: Params, runs: seq<Seg>, i: nat)
    requires i < |runs|
    ensures p.Times(Bridge(p, runs[..i + 1])) == p.Bridged(p.Times(Bridge(p, runs[..i])), p.Times(runs)[i])
  {
    assert DropLast(runs[..i + 1]) == runs[..i] && Last(runs[..i + 1]) == runs[i];
    p.TimesAppend(Bridge(p, runs[..i]), runs[i]);
  }

  /** The second pass, over the runs. */
  method BridgeShort(p: Params, ghost runs: seq<Seg>, segs: seq<(real, real)>) returns (merged: seq<(real, real)>)
    requires segs == p.Times(runs)
    ensures merged == p.Times(Bridge(p, runs))
  {
    merged := [];
    for i := 0 to |segs|
      invariant merged == p.Times(Bridge(p, runs[..i]))
    {
      BridgeNext(p, runs, i);
      if merged != [] && segs[i].0 - merged[|merged| - 1].1 < p.minSilence {
        merged := merged[|merged| - 1 := (merged[|merged| - 1].0, segs[i].1)];
      } else {
        merged := merged + [segs[i]];
      }
    }
    assert runs[..|runs|] == runs;
  }

  /** The third pass, over the bridged segments. */
  method FilterLong(p: Params, ghost bridged: seq<Seg>, merged: seq<(real, real)>) returns (out: seq<(real, real)>)
    requires merged == p.Times(bridged)
    ensures out == p.Times(KeepLong(p, bridged))
  {
    out := [];
    for i := 0 to |merged|
      invariant out == p.Times(KeepLong(p, bridged[..i]))
    {
      assert DropLast(bridged[..i + 1]) == bridged[..i];
      p.TimesAppend(KeepLong(p, bridged[..i]), bridged[i]);
      if merged[i].1 - merged[i].0 >= p.minSpeech {
        out := out + [merged[i]];
      }
    }
    assert bridged[..|bridged|] == bridged;
  }

  // ---------------------------------------------------------------- runs are the speech frames

  /** Non-empty segments, in order, at least one frame apart. */
  ghost predicate Ordered(segs: seq<Seg>) {
    && (forall i :: 0 <= i < |segs| ==> segs[i].from < segs[i].to)
    && (forall i, j :: 0 <= i < j < |segs| ==> segs[i].to < segs[j].from)
  }

  lemma OrderedAt(segs: seq<Seg>, i: nat, j: nat)
    requires Ordered(segs) && i < |segs| && j < |segs|
    ensures i < j ==> segs[i].to < segs[j].from
    ensures j < i ==> segs[j].to < segs[i].from
    ensures i <= j ==> segs[i].from <= segs[j].from && segs[i].to <= segs[j].to
  {
  }

  /** Every segment is on one side of the gap after segment `k`. */
  lemma SideOf(segs: seq<Seg>, i: nat, k: nat)
    requires Ordered(segs) && i < |segs| && k + 1 < |segs|
    ensures segs[i].to <= segs[k].to || segs[k + 1].from <= segs[i].from
  {
    if i < k {
      OrderedAt(segs, i, k);
    } else if k + 1 < i {
      OrderedAt(segs, k + 1, i);
    }
  }

  predicate In(s: Seg, k: nat) {
    s.from <= k < s.to
  }

  ghost predicate Covered(segs: seq<Seg>, k: nat) {
    exists i :: 0 <= i < |segs| && In(segs[i], k)
  }

  /** `segs` are the maximal runs of speech among the first `n` frames. */
  ghost predicate AreRuns(active: seq<bool>, n: nat, segs: seq<Seg>)
    requires n <= |active|
  {
    && Ordered(segs) && (forall i :: 0 <= i < |segs| ==> segs[i].to <= n)
    && (forall k :: 0 <= k < n ==> (active[k] <==> Covered(segs, k)))
  }

  lemma CoveredAppend(segs: seq<Seg>, s: Seg, k: nat)
    ensures Covered(segs + [s], k) <==> Covered(segs, k) || In(s, k)
  {
    if Covered(segs, k) {
      var i :| 0 <= i < |segs| && In(segs[i], k);
      assert In((segs + [s])[i], k);
    }
    assert (segs + [s])[|segs|] == s;
    if Covered(segs + [s], k) && !In(s, k) {
      var i :| 0 <= i < |segs + [s]| && In((segs + [s])[i], k);
      assert In(segs[i], k);
    }
  }

  lemma NotCoveredPast(segs: seq<Seg>, k: nat)
    requires forall i :: 0 <= i < |segs| ==> segs[i].to <= k
    ensures !Covered(segs, k)
  {
  }

  lemma EndIsCovered(segs: seq<Seg>, i: nat)
    requires i < |segs| && segs[i].from < segs[i].to
    ensures Covered(segs, segs[i].to - 1)
  {
    assert In(segs[i], segs[i].to - 1);
  }

  /** The first speech frame after silence opens a run. */
  lemma OpenRun(active: seq<bool>, n: nat, segs: seq<Seg>)
    requires 0 < n <= |active| && active[n - 1] && (n > 1 ==> !active[n - 2])
    requires AreRuns(active, n - 1, segs)
    ensures AreRuns(active, n, segs + [Seg(n - 1, n)])
  {
    forall i | 0 <= i < |segs|
      ensures segs[i].to < n - 1
    {
      EndIsCovered(segs, i);
    }
    NotCoveredPast(segs, n - 1);
    forall k | 0 <= k < n
      ensures active[k] <==> Covered(segs + [Seg(n - 1, n)], k)
    {
      CoveredAppend(segs, Seg(n - 1, n), k);
    }
  }

  /** A frame after an open run stretches it to `n` or leaves it at `n - 1`. */
  lemma NextFrame(active: seq<bool>, n: nat, segs: seq<Seg>, start: nat)
    requires start < n - 1 < |active| && AreRuns(active, n - 1, segs + [Seg(start, n - 1)])
    ensures AreRuns(active, n, segs + [Seg(start, if active[n - 1] then n else n - 1)])
  {
    var old', new' := Seg(start, n - 1), Seg(start, if active[n - 1] then n else n - 1);
    RetimeLast(segs, old', new'.to);
    assert forall i :: 0 <= i < |segs| ==> segs[i] == (segs + [old'])[i];
    NotCoveredPast(segs, n - 1);
    forall k | 0 <= k < n
      ensures active[k] <==> Covered(segs + [new'], k)
    {
      CoveredAppend(segs, old', k);
      CoveredAppend(segs, new', k);
    }
  }

  /** The scan invariant: an open run reaches back to an inactive frame or the beginning. */
  lemma {:induction false} ScanFindsRuns(active: seq<bool>, n: nat)
    requires n <= |active|
    ensures var s := ScanTo(active, n);
            && (s.start < 0 ==> AreRuns(active, n, s.segs) && (n > 0 ==> !active[n - 1]))
            && (s.start >= 0 ==> s.start < n && AreRuns(active, n, s.segs + [Seg(s.start, n)]))
  {
    if n > 0 {
      ScanFindsRuns(active, n - 1);
      var s := ScanTo(active, n - 1);
      if s.start >= 0 {
        NextFrame(active, n, s.segs, s.start);
      } else if active[n - 1] {
        OpenRun(active, n, s.segs);
      } else {
        NotCoveredPast(s.segs, n - 1);
      }
    }
  }

  lemma RetimeLast(segs: seq<Seg>, s: Seg, to: nat)
    requires Ordered(segs + [s]) && s.from < to
    ensures Ordered(segs + [s.(to := to)])
  {
    forall i | 0 <= i < |segs|
      ensures segs[i].to < s.from
    {
      assert (segs + [s])[i].to < (segs + [s])[|segs|].from;
    }
    forall i, j | 0 <= i < j < |segs|
      ensures segs[i].to < segs[j].from
    {
      assert (segs + [s])[i].to < (segs + [s])[j].from;
    }
    forall i | 0 <= i < |segs|
      ensures segs[i].from < segs[i].to
    {
      assert (segs + [s])[i].from < (segs + [s])[i].to;
    }
  }

  lemma RunsAreRuns(active: seq<bool>)
    ensures AreRuns(active, |active|, Runs(active))
  {
    ScanFindsRuns(active, |active|);
  }

  lemma Covering(segs: seq<Seg>, k: nat) returns (i: nat)
    requires Covered(segs, k)
    ensures i < |segs| && In(segs[i], k)
  {
    i :| i < |segs| && In(segs[i], k);
  }

  /** The two lists agree at `i` once they agree before it. */
  lemma SameSeg(active: seq<bool>, n: nat, a: seq<Seg>, b: seq<Seg>, i: nat)
    requires n <= |active| && AreRuns(active, n, a) && AreRuns(active, n, b)
    requires i < |a| && i <= |b| && a[..i] == b[..i]
    ensures i < |b| && a[i] == b[i]
  {
    StartsNoLater(active, n, a, b, i);
    assert b[..i] == a[..i];
    StartsNoLater(active, n, b, a, i);
    EndsNoLater(active, n, a, b, i);
    EndsNoLater(active, n, b, a, i);
  }

  lemma PrefixAgrees(a: seq<Seg>, b: seq<Seg>, i: nat, j: nat)
    requires i <= |a| && i <= |b| && a[..i] == b[..i]
    ensures j < i ==> a[j] == b[j]
  {
    if j < i {
      assert a[..i][j] == b[..i][j];
    }
  }

  /** A frame of `a[i]` is in no earlier segment of `b` when the two agree before `i`. */
  lemma SameBefore(a: seq<Seg>, b: seq<Seg>, i: nat, j: nat, k: nat)
    requires Ordered(a) && Ordered(b) && i < |a| && i <= |b| && a[..i] == b[..i]
    requires j < |b| && In(b[j], k) && k == a[i].from
    ensures i <= j && b[i].from <= k
  {
    PrefixAgrees(a, b, i, j);
    if i <= j {
      OrderedAt(b, i, j);
    }
  }

  lemma StartsNoLater(active: seq<bool>, n: nat, a: seq<Seg>, b: seq<Seg>, i: nat)
    requires n <= |active| && AreRuns(active, n, a) && AreRuns(active, n, b)
    requires i < |a| && i <= |b| && a[..i] == b[..i]
    ensures i < |b| && b[i].from <= a[i].from
  {
    var k := a[i].from;
    assert In(a[i], k) && Covered(a, k);
    var j := Covering(b, k);
    SameBefore(a, b, i, j, k);
  }

  lemma EndsNoLater(active: seq<bool>, n: nat, a: seq<Seg>, b: seq<Seg>, i: nat)
    requires n <= |active| && AreRuns(active, n, a) && AreRuns(active, n, b)
    requires i < |a| && i < |b| && a[i].from == b[i].from
    ensures b[i].to <= a[i].to
  {
    var k := a[i].to;
    if k < b[i].to {
      assert In(b[i], k) && Covered(b, k);
      var j := Covering(a, k);
      OrderedAt(a, i, j);
    }
  }

  /** There is only one list of maximal runs. */
  lemma {:induction false} RunsAreUnique(active: seq<bool>, n: nat, a: seq<Seg>, b: seq<Seg>, i: nat)
    requires n <= |active| && AreRuns(active, n, a) && AreRuns(active, n, b)
    requires i <= |a| && i <= |b| && a[..i] == b[..i]
    ensures a == b
    decreases |a| - i
  {
    if i < |a| {
      SameSeg(active, n, a, b, i);
      assert a[..i + 1] == a[..i] + [a[i]] && b[..i + 1] == b[..i] + [b[i]];
      RunsAreUnique(active, n, a, b, i + 1);
    } else if i < |b| {
      SameSeg(active, n, b, a, i);
    } else {
      assert a == a[..i] && b == b[..i];
    }
  }

  // ---------------------------------------------------------------- bridging

  lemma AfterLast(runs: seq<Seg>)
    requires runs != [] && Ordered(runs)
    ensures Ordered(DropLast(runs)) && Last(runs).from < Last(runs).to
    ensures |runs| > 1 ==> Last(DropLast(runs)).to < Last(runs).from
  {
  }

  /** Segments with the last one's end moved. */
  function Stretch(m: seq<Seg>, to: nat): (r: seq<Seg>)
    requires m != []
    ensures |r| == |m| && Last(r) == Last(m).(to := to) && DropLast(r) == DropLast(m)
  {
    DropLast(m) + [Last(m).(to := to)]
  }

  /** The two ways a run joins the segments before it. */
  lemma BridgeStep(p: Params, runs: seq<Seg>)
    requires runs != []
    ensures var before := Bridge(p, DropLast(runs));
            Bridge(p, runs) == if before != [] && p.Short(Last(before).to, Last(runs).from)
                               then Stretch(before, Last(runs).to) else before + [Last(runs)]
  {
  }

  lemma StretchIsOrdered(m: seq<Seg>, to: nat)
    requires m != [] && Ordered(m) && Last(m).to <= to
    ensures Ordered(Stretch(m, to)) && Stretch(m, to)[0].from == m[0].from
    ensures forall i :: 0 <= i < |m| ==> Stretch(m, to)[i].from == m[i].from
    ensures forall i :: 0 <= i < |m| - 1 ==> Stretch(m, to)[i].to == m[i].to
  {
    var r := Stretch(m, to);
    assert forall i :: 0 <= i < |m| - 1 ==> r[i] == DropLast(r)[i] == DropLast(m)[i] == m[i];
  }

  lemma AppendIsOrdered(m: seq<Seg>, s: Seg)
    requires Ordered(m) && s.from < s.to && (m != [] ==> Last(m).to < s.from)
    ensures Ordered(m + [s])
  {
    forall i | 0 <= i < |m|
      ensures m[i].to < s.from
    {
      OrderedAt(m, i, |m| - 1);
    }
  }

  ghost predicate NoShortGap(p: Params, m: seq<Seg>) {
    forall i :: 0 <= i < |m| - 1 ==> !p.Short(m[i].to, m[i + 1].from)
  }

  /** Bridged segments are ordered, end where the runs end, and are kept apart by silences
      that are not short. */
  lemma {:induction false} BridgeIsApart(p: Params, runs: seq<Seg>)
    requires Ordered(runs)
    ensures var m := Bridge(p, runs);
            && Ordered(m) && (m == [] <==> runs == []) && NoShortGap(p, m)
            && (m != [] ==> Last(m).to == Last(runs).to && m[0].from == runs[0].from)
  {
    if runs != [] {
      var rest, s := DropLast(runs), Last(runs);
      AfterLast(runs);
      BridgeIsApart(p, rest);
      BridgeStep(p, runs);
      var before := Bridge(p, rest);
      if before != [] && p.Short(Last(before).to, s.from) {
        StretchIsOrdered(before, s.to);
      } else {
        AppendIsOrdered(before, s);
      }
    }
  }

  /** Which bridged segment run `k` joins: one further for every silence that is not short. */
  function Group(p: Params, runs: seq<Seg>, k: nat): nat
    requires k < |runs|
  {
    if k == 0 then 0
    else Group(p, runs, k - 1) + if p.Short(runs[k - 1].to, runs[k].from) then 0 else 1
  }

  predicate Holds(s: Seg, run: Seg) {
    s.from <= run.from && run.to <= s.to
  }

  /** Run `k` lies in its group's segment. */
  predicate InGroup(p: Params, runs: seq<Seg>, m: seq<Seg>, k: nat)
    requires k < |runs|
  {
    Group(p, runs, k) < |m| && Holds(m[Group(p, runs, k)], runs[k])
  }

  /** What `Group` promises of the segments made of the first `n` runs. */
  ghost predicate Grouped(p: Params, runs: seq<Seg>, n: nat, m: seq<Seg>)
    requires 0 < n <= |runs|
  {
    && |m| == Group(p, runs, n - 1) + 1
    && forall k :: 0 <= k < n ==> InGroup(p, runs, m, k)
  }

  lemma {:induction false} GroupRises(p: Params, runs: seq<Seg>, a: nat, b: nat)
    requires a <= b < |runs|
    ensures Group(p, runs, a) <= Group(p, runs, b)
    ensures Group(p, runs, a) == Group(p, runs, b) <==> AllShort(p, runs, a, b)
    decreases b
  {
    if a < b {
      GroupRises(p, runs, a, b - 1);
    }
  }

  lemma GroupStretch(p: Params, runs: seq<Seg>, n: nat, before: seq<Seg>)
    requires 0 < n < |runs| && Ordered(runs) && Ordered(before) && Grouped(p, runs, n, before)
    requires Last(before).to == runs[n - 1].to && p.Short(runs[n - 1].to, runs[n].from)
    ensures Grouped(p, runs, n + 1, Stretch(before, runs[n].to))
  {
    StretchIsOrdered(before, runs[n].to);
    var m := Stretch(before, runs[n].to);
    assert Group(p, runs, n) == Group(p, runs, n - 1);
    forall k | 0 <= k < n + 1
      ensures InGroup(p, runs, m, k)
    {
      OrderedAt(runs, k, n);
      OrderedAt(runs, n - 1, n);
      assert InGroup(p, runs, before, if k < n then k else n - 1);
    }
  }

  lemma GroupAppend(p: Params, runs: seq<Seg>, n: nat, before: seq<Seg>)
    requires 0 < n < |runs| && Grouped(p, runs, n, before)
    requires !p.Short(runs[n - 1].to, runs[n].from)
    ensures Grouped(p, runs, n + 1, before + [runs[n]])
  {
    assert Group(p, runs, n) == |before|;
    forall k | 0 <= k < n + 1
      ensures InGroup(p, runs, before + [runs[n]], k)
    {
      if k < n {
        assert InGroup(p, runs, before, k);
      }
    }
  }

  lemma BridgePrefix(p: Params, runs: seq<Seg>, n: nat)
    requires Ordered(runs) && 0 < n < |runs|
    ensures var before := Bridge(p, runs[..n]);
            && Ordered(before) && before != [] && Last(before).to == runs[n - 1].to
            && Bridge(p, runs[..n + 1]) == if p.Short(runs[n - 1].to, runs[n].from)
                                           then Stretch(before, runs[n].to) else before + [runs[n]]
  {
    assert DropLast(runs[..n + 1]) == runs[..n];
    BridgeIsApart(p, runs[..n]);
    BridgeStep(p, runs[..n + 1]);
  }

  lemma {:induction false} BridgeGroups(p: Params, runs: seq<Seg>, n: nat)
    requires Ordered(runs) && 0 < n <= |runs|
    ensures Grouped(p, runs, n, Bridge(p, runs[..n]))
  {
    if n == 1 {
      assert DropLast(runs[..1]) == [] && Bridge(p, []) == [];
      BridgeStep(p, runs[..1]);
    } else {
      var before := Bridge(p, runs[..n - 1]);
      BridgeGroups(p, runs, n - 1);
      BridgePrefix(p, runs, n - 1);
      if p.Short(runs[n - 2].to, runs[n - 1].from) {
        GroupStretch(p, runs, n - 1, before);
      } else {
        GroupAppend(p, runs, n - 1, before);
      }
    }
  }

  // ---------------------------------------------------------------- in terms of frames

  /** A maximal stretch of silence with speech on both sides. */
  ghost predicate SilentRun(active: seq<bool>, x: nat, y: nat) {
    && 0 < x < y < |active| && active[x - 1] && active[y]
    && forall k :: x <= k < y ==> !active[k]
  }

  ghost predicate SameSegment(segs: seq<Seg>, i: nat, j: nat) {
    exists s :: 0 <= s < |segs| && In(segs[s], i) && In(segs[s], j)
  }

  /** Silent runs are exactly the gaps between consecutive runs. */
  lemma GapIsSilent(active: seq<bool>, runs: seq<Seg>, k: nat)
    requires AreRuns(active, |active|, runs) && k + 1 < |runs|
    ensures SilentRun(active, runs[k].to, runs[k + 1].from)
  {
    var x, y := runs[k].to, runs[k + 1].from;
    assert In(runs[k], x - 1) && In(runs[k + 1], y);
    assert Covered(runs, x - 1) && Covered(runs, y);
    forall f: nat | x <= f < y
      ensures !active[f]
    {
      if Covered(runs, f) {
        var i := Covering(runs, f);
        SideOf(runs, i, k);
      }
    }
  }

  lemma SilentIsGap(active: seq<bool>, runs: seq<Seg>, x: nat, y: nat) returns (k: nat)
    requires AreRuns(active, |active|, runs) && SilentRun(active, x, y)
    ensures k + 1 < |runs| && x == runs[k].to && y == runs[k + 1].from
  {
    assert Covered(runs, x - 1) && Covered(runs, y) && !Covered(runs, x) && !Covered(runs, y - 1);
    k := Covering(runs, x - 1);
    var l := Covering(runs, y);
    assert !In(runs[k], x) && !In(runs[l], y - 1);
    assert x == runs[k].to && y == runs[l].from;
    OrderedAt(runs, k, l);
    if k + 1 < |runs| {
      OrderedAt(runs, k, k + 1);
      OrderedAt(runs, k + 1, l);
      var z := runs[k + 1].from;
      assert In(runs[k + 1], z) && Covered(runs, z);
    }
  }

  /** Frames of runs `a` and `b` share a segment iff the runs do. */
  lemma FramesShareGroup(p: Params, runs: seq<Seg>, i: nat, j: nat, a: nat, b: nat)
    requires Ordered(runs) && a < |runs| && b < |runs| && In(runs[a], i) && In(runs[b], j)
    ensures SameSegment(Bridge(p, runs), i, j) <==> Group(p, runs, a) == Group(p, runs, b)
  {
    var m := Bridge(p, runs);
    BridgeIsApart(p, runs);
    BridgeGroups(p, runs, |runs|);
    assert runs[..|runs|] == runs;
    var s, t := Group(p, runs, a), Group(p, runs, b);
    assert InGroup(p, runs, m, a) && InGroup(p, runs, m, b);
    assert In(m[s], i) && In(m[t], j);
    if SameSegment(m, i, j) {
      var u :| 0 <= u < |m| && In(m[u], i) && In(m[u], j);
      OrderedAt(m, u, s);
      OrderedAt(m, u, t);
    }
  }

  /** All silences between runs `a` and `b` are short. */
  ghost predicate AllShort(p: Params, runs: seq<Seg>, a: nat, b: nat)
    requires a <= b < |runs|
  {
    forall k :: a <= k < b ==> p.Short(runs[k].to, runs[k + 1].from)
  }

  /** All silent runs between frames `i` and `j` last less than the minimum. */
  ghost predicate SilencesShort(p: Params, active: seq<bool>, i: nat, j: nat) {
    forall x: nat, y: nat :: i < x && y <= j && SilentRun(active, x, y) ==> (y - x) as real * p.frame < p.minSilence
  }

  /** Durations in frames. */
  lemma Duration(p: Params, a: nat, b: nat)
    ensures p.Time(b) - p.Time(a) == (b - a) as real * p.frame
    ensures p.Short(a, b) <==> (b - a) as real * p.frame < p.minSilence
  {
    assert b as real * p.frame - a as real * p.frame == (b as real - a as real) * p.frame;
  }

  lemma LongGapIsSilence(p: Params, active: seq<bool>, runs: seq<Seg>, i: nat, j: nat, a: nat, b: nat, k: nat)
    requires AreRuns(active, |active|, runs)
    requires a <= k < b < |runs| && In(runs[a], i) && In(runs[b], j)
    requires !p.Short(runs[k].to, runs[k + 1].from)
    ensures !SilencesShort(p, active, i, j)
  {
    GapIsSilent(active, runs, k);
    OrderedAt(runs, a, k);
    OrderedAt(runs, k + 1, b);
    var x: nat, y: nat := runs[k].to, runs[k + 1].from;
    Duration(p, x, y);
    assert i < x && y <= j && SilentRun(active, x, y) && !p.Short(x, y);
  }

  lemma SilenceIsShortGap(p: Params, active: seq<bool>, runs: seq<Seg>, i: nat, j: nat, a: nat, b: nat,
                          x: nat, y: nat)
    requires AreRuns(active, |active|, runs)
    requires a <= b < |runs| && In(runs[a], i) && In(runs[b], j) && AllShort(p, runs, a, b)
    requires i < x && y <= j && SilentRun(active, x, y)
    ensures p.Short(x, y)
  {
    var k := SilentIsGap(active, runs, x, y);
    OrderedAt(runs, k, a);
    OrderedAt(runs, b, k + 1);
  }

  lemma SilencesReachRuns(p: Params, active: seq<bool>, runs: seq<Seg>, i: nat, j: nat, a: nat, b: nat)
    requires AreRuns(active, |active|, runs)
    requires a <= b < |runs| && In(runs[a], i) && In(runs[b], j) && SilencesShort(p, active, i, j)
    ensures AllShort(p, runs, a, b)
  {
    forall k | a <= k < b
      ensures p.Short(runs[k].to, runs[k + 1].from)
    {
      if !p.Short(runs[k].to, runs[k + 1].from) {
        LongGapIsSilence(p, active, runs, i, j, a, b, k);
      }
    }
  }

  lemma AllShortReachesFrames(p: Params, active: seq<bool>, runs: seq<Seg>, i: nat, j: nat, a: nat, b: nat)
    requires AreRuns(active, |active|, runs)
    requires a <= b < |runs| && In(runs[a], i) && In(runs[b], j) && AllShort(p, runs, a, b)
    ensures SilencesShort(p, active, i, j)
  {
    forall x: nat, y: nat | i < x && y <= j && SilentRun(active, x, y)
      ensures (y - x) as real * p.frame < p.minSilence
    {
      SilenceIsShortGap(p, active, runs, i, j, a, b, x, y);
      Duration(p, x, y);
    }
  }

  /** Two speech frames are in one bridged segment iff every silent run between them is
      shorter than the limit. */
  lemma SameSegmentIff(p: Params, active: seq<bool>, i: nat, j: nat)
    requires i < j < |active| && active[i] && active[j]
    ensures SameSegment(Bridge(p, Runs(active)), i, j) <==> SilencesShort(p, active, i, j)
  {
    var runs := Runs(active);
    RunsAreRuns(active);
    var a := Covering(runs, i);
    var b := Covering(runs, j);
    OrderedAt(runs, a, b);
    FramesShareGroup(p, runs, i, j, a, b);
    GroupRises(p, runs, a, b);
    if SilencesShort(p, active, i, j) {
      SilencesReachRuns(p, active, runs, i, j, a, b);
    }
    if AllShort(p, runs, a, b) {
      AllShortReachesFrames(p, active, runs, i, j, a, b);
    }
  }

  // ---------------------------------------------------------------- the result

  /** The separation the result promises. */
  ghost predicate Apart(p: Params, segs: seq<Seg>) {
    && Ordered(segs)
    && (forall i, j :: 0 <= i < j < |segs| ==> !p.Short(segs[i].to, segs[j].from))
  }

  lemma TimeRises(p: Params, a: nat, b: nat)
    requires p.frame > 0.0 && a <= b
    ensures p.Time(a) <= p.Time(b)
  {
  }

  lemma {:induction false} ApartAcross(p: Params, m: seq<Seg>, i: nat, j: nat)
    requires p.frame > 0.0 && Ordered(m) && i < j < |m|
    requires NoShortGap(p, m)
    ensures !p.Short(m[i].to, m[j].from)
    decreases j
  {
    if i + 1 < j {
      ApartAcross(p, m, i, j - 1);
      TimeRises(p, m[j - 1].from, m[j].from);
    }
  }

  lemma {:induction false} KeepLongSelects(p: Params, segs: seq<Seg>, s: Seg)
    requires s in KeepLong(p, segs)
    ensures p.LongEnough(s) && s in segs
  {
    var rest := DropLast(segs);
    assert segs == rest + [Last(segs)];
    if s in KeepLong(p, rest) {
      KeepLongSelects(p, rest, s);
    }
  }

  /** `s` comes after `t`, with a long silence between. */
  predicate Clear(p: Params, t: Seg, s: Seg) {
    t.to < s.from && !p.Short(t.to, s.from)
  }

  lemma LastIsClear(p: Params, segs: seq<Seg>, t: Seg)
    requires Apart(p, segs) && segs != [] && t in DropLast(segs)
    ensures Clear(p, t, Last(segs)) && Apart(p, DropLast(segs))
  {
    var k :| 0 <= k < |segs| - 1 && segs[k] == t;
    OrderedAt(segs, k, |segs| - 1);
  }

  lemma DropKeepsApart(p: Params, segs: seq<Seg>)
    requires Apart(p, segs) && segs != []
    ensures Apart(p, DropLast(segs)) && Last(segs).from < Last(segs).to
  {
  }

  lemma ApartAppend(p: Params, segs: seq<Seg>, s: Seg)
    requires Apart(p, segs) && s.from < s.to && forall t <- segs :: Clear(p, t, s)
    ensures Apart(p, segs + [s])
  {
    assert forall i :: 0 <= i < |segs| ==> segs[i] in segs;
  }

  lemma {:induction false} KeepLongKeepsApart(p: Params, segs: seq<Seg>)
    requires Apart(p, segs)
    ensures Apart(p, KeepLong(p, segs))
    ensures forall s <- KeepLong(p, segs) :: p.LongEnough(s) && s in segs
  {
    forall s <- KeepLong(p, segs)
      ensures p.LongEnough(s) && s in segs
    {
      KeepLongSelects(p, segs, s);
    }
    if segs != [] {
      var rest, s := DropLast(segs), Last(segs);
      DropKeepsApart(p, segs);
      KeepLongKeepsApart(p, rest);
      forall t <- KeepLong(p, rest)
        ensures Clear(p, t, s)
      {
        LastIsClear(p, segs, t);
      }
      ApartAppend(p, KeepLong(p, rest), s);
    }
  }

  lemma DetectIsApart(p: Params, active: seq<bool>)
    requires p.frame > 0.0
    ensures var out := Detect(p, active);
            && Apart(p, out) && (forall s <- out :: p.LongEnough(s) && s.to <= |active|)
  {
    var runs := Runs(active);
    RunsAreRuns(active);
    BridgeIsApart(p, runs);
    var m := Bridge(p, runs);
    forall i, j | 0 <= i < j < |m|
      ensures !p.Short(m[i].to, m[j].from)
    {
      ApartAcross(p, m, i, j);
    }
    KeepLongKeepsApart(p, m);
    forall i | 0 <= i < |m|
      ensures m[i].to <= |active|
    {
      assert i < |m| - 1 ==> m[i].to < Last(m).from < Last(m).to;
      assert Last(m).to == Last(runs).to;
    }
  }

  /** Frames `[a, b)` last long enough. */
  ghost predicate LastsEnough(p: Params, a: int, b: int) {
    (b - a) as real * p.frame >= p.minSpeech
  }

  /** Segments in order, at least `minSilence` apart and at least `minSpeech` long. */
  ghost predicate Separate(p: Params, segs: seq<Seg>) {
    && Ordered(segs)
    && (forall i, j :: 0 <= i < j < |segs| ==> (segs[j].from - segs[i].to) as real * p.frame >= p.minSilence)
    && (forall s <- segs :: LastsEnough(p, s.from, s.to))
  }

  lemma ApartIsSeparate(p: Params, segs: seq<Seg>)
    requires Apart(p, segs) && forall s <- segs :: p.LongEnough(s)
    ensures Separate(p, segs)
  {
    forall s <- segs
      ensures LastsEnough(p, s.from, s.to)
    {
      Duration(p, s.from, s.to);
    }
    forall i, j | 0 <= i < j < |segs|
      ensures (segs[j].from - segs[i].to) as real * p.frame >= p.minSilence
    {
      Duration(p, segs[i].to, segs[j].from);
    }
  }

  /** The result is separated, and within the recording. */
  lemma DetectSeparates(p: Params, active: seq<bool>)
    requires p.frame > 0.0
    ensures Separate(p, Detect(p, active)) && forall s <- Detect(p, active) :: s.to <= |active|
  {
    DetectIsApart(p, active);
    ApartIsSeparate(p, Detect(p, active));
  }

  // ---------------------------------------------------------------- exactly what is reported

  lemma {:induction false} KeepLongIff(p: Params, segs: seq<Seg>, s: Seg)
    ensures s in KeepLong(p, segs) <==> s in segs && LastsEnough(p, s.from, s.to)
  {
    Duration(p, s.from, s.to);
    if segs != [] {
      Snoc(segs);
      KeepLongIff(p, DropLast(segs), s);
    }
  }

  /** A segment is reported iff it is a bridged segment and long enough. */
  lemma DetectIff(p: Params, active: seq<bool>, s: Seg)
    ensures s in Detect(p, active)
       <==> s in Bridge(p, Runs(active)) && LastsEnough(p, s.from, s.to)
  {
    KeepLongIff(p, Bridge(p, Runs(active)), s);
  }

  lemma StretchKeeps(m: seq<Seg>, to: nat, i: nat)
    requires i < |m|
    ensures i < |m| - 1 ==> Stretch(m, to)[i] == m[i]
  {
    if i < |m| - 1 {
      assert Stretch(m, to)[i] == DropLast(Stretch(m, to))[i] == DropLast(m)[i];
    }
  }

  /** The segment begins where a run begins and ends where one of the first `n` ends. */
  ghost predicate RunToRun(runs: seq<Seg>, n: nat, s: Seg)
    requires n <= |runs|
  {
    exists a: nat, b: nat :: a <= b < n && s == Seg(runs[a].from, runs[b].to)
  }

  lemma MoreRuns(runs: seq<Seg>, n: nat, s: Seg)
    requires n < |runs| && RunToRun(runs, n, s)
    ensures RunToRun(runs, n + 1, s) && RunToRun(runs, n + 1, s.(to := runs[n].to))
  {
    var a: nat, b: nat :| a <= b < n && s == Seg(runs[a].from, runs[b].to);
    assert a <= b < n + 1 && s == Seg(runs[a].from, runs[b].to);
    assert a <= n < n + 1 && s.(to := runs[n].to) == Seg(runs[a].from, runs[n].to);
  }

  lemma OwnRun(runs: seq<Seg>, n: nat)
    requires n < |runs|
    ensures RunToRun(runs, n + 1, runs[n])
  {
    assert n <= n < n + 1 && runs[n] == Seg(runs[n].from, runs[n].to);
  }

  lemma EndsNext(p: Params, runs: seq<Seg>, n: nat, before: seq<Seg>, m: seq<Seg>, i: nat)
    requires n < |runs| && i < |m| && (i < |before| ==> RunToRun(runs, n, before[i]))
    requires m == before + [runs[n]] || (before != [] && m == Stretch(before, runs[n].to))
    ensures RunToRun(runs, n + 1, m[i])
  {
    OwnRun(runs, n);
    if i < |before| {
      MoreRuns(runs, n, before[i]);
      StretchKeeps(before, runs[n].to, i);
    }
  }

  lemma {:induction false} BridgeEnds(p: Params, runs: seq<Seg>, n: nat, i: nat)
    requires Ordered(runs) && n <= |runs| && i < |Bridge(p, runs[..n])|
    ensures RunToRun(runs, n, Bridge(p, runs[..n])[i])
    decreases n
  {
    if n == 1 {
      assert DropLast(runs[..1]) == [] && Bridge(p, []) == [];
      BridgeStep(p, runs[..1]);
      OwnRun(runs, 0);
    } else if n > 1 {
      var before := Bridge(p, runs[..n - 1]);
      BridgePrefix(p, runs, n - 1);
      if i < |before| {
        BridgeEnds(p, runs, n - 1, i);
      }
      EndsNext(p, runs, n - 1, before, Bridge(p, runs[..n]), i);
    }
  }

  /** The first and the last frame of a bridged segment are speech. */
  lemma EndsAreActive(p: Params, active: seq<bool>, s: Seg)
    requires s in Bridge(p, Runs(active))
    ensures s.from < s.to <= |active| && active[s.from] && active[s.to - 1]
  {
    var runs := Runs(active);
    RunsAreRuns(active);
    assert runs[..|runs|] == runs;
    var i :| 0 <= i < |Bridge(p, runs)| && Bridge(p, runs)[i] == s;
    BridgeEnds(p, runs, |runs|, i);
    var a: nat, b: nat :| a <= b < |runs| && s == Seg(runs[a].from, runs[b].to);
    OrderedAt(runs, a, b);
    assert In(runs[a], s.from) && In(runs[b], s.to - 1);
    assert Covered(runs, s.from) && Covered(runs, s.to - 1);
  }

  /** Every speech frame is in a bridged segment. */
  lemma ActiveIsBridged(p: Params, active: seq<bool>, k: nat)
    requires k < |active| && active[k]
    ensures Covered(Bridge(p, Runs(active)), k)
  {
    var runs := Runs(active);
    RunsAreRuns(active);
    var a := Covering(runs, k);
    BridgeGroups(p, runs, |runs|);
    assert runs[..|runs|] == runs;
    assert InGroup(p, runs, Bridge(p, runs), a);
    assert In(Bridge(p, runs)[Group(p, runs, a)], k);
  }

  /** Speech frames `i` and `j` around `k`, with short silences only between them, span enough. */
  ghost predicate SpeechAround(p: Params, active: seq<bool>, k: nat, i: nat, j: nat) {
    && i <= k <= j < |active| && active[i] && active[j]
    && SilencesShort(p, active, i, j) && LastsEnough(p, i, j + 1)
  }

  lemma LongerIsLonger(p: Params, a: int, b: int, c: int, d: int)
    requires p.frame > 0.0 && c <= a && b <= d && LastsEnough(p, a, b)
    ensures LastsEnough(p, c, d)
  {
    var x, y := (b - a) as real, (d - c) as real;
    assert (y - x) * p.frame >= 0.0;
    assert y * p.frame == x * p.frame + (y - x) * p.frame;
  }

  /** A bridged segment holds short silences only. */
  lemma SegmentIsBridged(p: Params, active: seq<bool>, s: Seg)
    requires s in Bridge(p, Runs(active))
    ensures s.from < s.to <= |active| && active[s.from] && active[s.to - 1]
    ensures SilencesShort(p, active, s.from, s.to - 1)
  {
    EndsAreActive(p, active, s);
    if s.from < s.to - 1 {
      var m := Bridge(p, Runs(active));
      var x :| 0 <= x < |m| && m[x] == s;
      assert In(m[x], s.from) && In(m[x], s.to - 1);
      SameSegmentIff(p, active, s.from, s.to - 1);
    }
  }

  lemma SegmentIsAround(p: Params, active: seq<bool>, s: Seg, k: nat)
    requires s in Bridge(p, Runs(active)) && LastsEnough(p, s.from, s.to) && In(s, k)
    ensures SpeechAround(p, active, k, s.from, s.to - 1)
  {
    SegmentIsBridged(p, active, s);
    var last := s.to - 1;
    assert last + 1 == s.to;
  }

  lemma ReportedHasSpeech(p: Params, active: seq<bool>, k: nat) returns (i: nat, j: nat)
    requires Covered(Detect(p, active), k)
    ensures SpeechAround(p, active, k, i, j)
  {
    var n := Covering(Detect(p, active), k);
    var s := Detect(p, active)[n];
    DetectIff(p, active, s);
    SegmentIsAround(p, active, s, k);
    i, j := s.from, s.to - 1;
  }

  /** Speech frames with short silences only between them share a bridged segment. */
  lemma BridgedAround(p: Params, active: seq<bool>, i: nat, j: nat) returns (s: Seg)
    requires i <= j < |active| && active[i] && active[j] && SilencesShort(p, active, i, j)
    ensures s in Bridge(p, Runs(active)) && s.from <= i && j < s.to
  {
    var m := Bridge(p, Runs(active));
    if i < j {
      SameSegmentIff(p, active, i, j);
      var x :| 0 <= x < |m| && In(m[x], i) && In(m[x], j);
      s := m[x];
    } else {
      ActiveIsBridged(p, active, i);
      var x := Covering(m, i);
      s := m[x];
    }
  }

  lemma InIsCovered(segs: seq<Seg>, s: Seg, k: nat)
    requires s in segs && In(s, k)
    ensures Covered(segs, k)
  {
    var y :| 0 <= y < |segs| && segs[y] == s;
    assert In(segs[y], k);
  }

  lemma SpeechIsReported(p: Params, active: seq<bool>, k: nat, i: nat, j: nat)
    requires p.frame > 0.0 && SpeechAround(p, active, k, i, j)
    ensures Covered(Detect(p, active), k)
  {
    var s := BridgedAround(p, active, i, j);
    LongerIsLonger(p, i, j + 1, s.from, s.to);
    DetectIff(p, active, s);
    InIsCovered(Detect(p, active), s, k);
  }

  /** Of the mask alone: a frame is in a reported segment iff it lies between two speech frames
      (or is one) with no silence of the minimum length between them, that span long enough. */
  lemma ReportedIff(p: Params, active: seq<bool>, k: nat)
    requires p.frame > 0.0
    ensures Covered(Detect(p, active), k) <==> exists i: nat, j: nat :: SpeechAround(p, active, k, i, j)
  {
    if Covered(Detect(p, active), k) {
      var i, j := ReportedHasSpeech(p, active, k);
    }
    if i: nat, j: nat :| SpeechAround(p, active, k, i, j) {
      SpeechIsReported(p, active, k, i, j);
    }
  }

  // ---------------------------------------------------------------- detecting again

  /** The frame decisions a list of segments stands for. */
  function Paint(segs: seq<Seg>, n: nat): (mask: seq<bool>)
    ensures |mask| == n
  {
    seq(n, k requires 0 <= k < n => exists i :: 0 <= i < |segs| && In(segs[i], k))
  }

  lemma {:induction false} BridgeIsIdle(p: Params, segs: seq<Seg>)
    requires Apart(p, segs)
    ensures Bridge(p, segs) == segs
  {
    if segs != [] {
      var rest := DropLast(segs);
      DropKeepsApart(p, segs);
      BridgeIsIdle(p, rest);
      BridgeStep(p, segs);
      Snoc(segs);
      if rest != [] {
        LastIsClear(p, segs, Last(rest));
      }
    }
  }

  lemma {:induction false} KeepLongIsIdle(p: Params, segs: seq<Seg>)
    requires forall s <- segs :: p.LongEnough(s)
    ensures KeepLong(p, segs) == segs
  {
    if segs != [] {
      KeepLongIsIdle(p, DropLast(segs));
    }
  }

  /** Running the detector on a mask painted from its output returns the same segments. */
  lemma DetectIsIdempotent(p: Params, active: seq<bool>)
    requires p.frame > 0.0
    ensures Detect(p, Paint(Detect(p, active), |active|)) == Detect(p, active)
  {
    var out := Detect(p, active);
    var mask := Paint(out, |active|);
    DetectIsApart(p, active);
    assert AreRuns(mask, |mask|, out) by {
      forall k | 0 <= k < |mask|
        ensures mask[k] <==> Covered(out, k)
      {
      }
    }
    RunsAreRuns(mask);
    RunsAreUnique(mask, |mask|, Runs(mask), out, 0);
    BridgeIsIdle(p, out);
    KeepLongIsIdle(p, out);
  }
}
