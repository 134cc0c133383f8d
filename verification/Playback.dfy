/** The player-underrun model (benchmark/eval/audio.py): `PlaybackStalls` simulates a
    player and its statistics are tied to a closed form, the running maximum of how
    late each chunk is. Times are exact reals. */
module Playback {
  import opened Wrappers

  /** A chunk of audio: when it arrived and how long it plays. */
  datatype Chunk = Chunk(arrival: real, seconds: real)

  datatype StallStats = StallStats(count: nat, total: real, longest: real)

  function Max(a: real, b: real): real {
    if a < b then b else a
  }

  // ---------------------------------------------------------------- the closed form

  /** Seconds of audio in the first `i` chunks. */
  function AudioBefore(chunks: seq<Chunk>, i: nat): real
    requires i <= |chunks|
  {
    if i == 0 then 0.0 else AudioBefore(chunks, i - 1) + chunks[i - 1].seconds
  }

  lemma {:induction false} AudioBeforeIs(chunks: seq<Chunk>, i: nat)
    requires i <= |chunks|
    ensures AudioBefore(chunks, i) == Sum(seq(i, k requires 0 <= k < i => chunks[k].seconds))
  {
    var all := seq(i, k requires 0 <= k < i => chunks[k].seconds);
    if i > 0 {
      AudioBeforeIs(chunks, i - 1);
      assert all[..i - 1] == seq(i - 1, k requires 0 <= k < i - 1 => chunks[k].seconds);
    }
  }

  /** How far chunk `i` arrives after a player that never paused would need it. */
  function Lateness(chunks: seq<Chunk>, prebuffer: real, i: nat): real
    requires i < |chunks|
  {
    chunks[i].arrival - chunks[0].arrival - prebuffer - AudioBefore(chunks, i)
  }

  /** The worst lateness among the first `i` chunks, never below zero. */
  function Backlog(chunks: seq<Chunk>, prebuffer: real, i: nat): real
    requires i <= |chunks|
  {
    if i == 0 then 0.0
    else Max(Backlog(chunks, prebuffer, i - 1), Lateness(chunks, prebuffer, i - 1))
  }

  /** The silence right before chunk `i`: how much it raises the backlog. */
  function Gap(chunks: seq<Chunk>, prebuffer: real, i: nat): real
    requires i < |chunks|
  {
    Backlog(chunks, prebuffer, i + 1) - Backlog(chunks, prebuffer, i)
  }

  /** The gap before chunk `i` is a stall that is not ignored. */
  predicate Counted(chunks: seq<Chunk>, prebuffer: real, minStall: real, i: nat)
    requires i < |chunks|
  {
    Gap(chunks, prebuffer, i) > 0.0 && Gap(chunks, prebuffer, i) > minStall
  }

  /** Count, total and longest of the counted gaps before the first `n` chunks. */
  function Stalls(chunks: seq<Chunk>, prebuffer: real, minStall: real, n: nat): StallStats
    requires n <= |chunks|
  {
    if n == 0 then StallStats(0, 0.0, 0.0)
    else
      var s := Stalls(chunks, prebuffer, minStall, n - 1);
      if Counted(chunks, prebuffer, minStall, n - 1) then
        var gap := Gap(chunks, prebuffer, n - 1);
        StallStats(s.count + 1, s.total + gap, Max(s.longest, gap))
      else s
  }

  /** The simulation. `playhead` is where `play_until` ends; the repository drops it. */
  method PlaybackStalls(chunks: seq<Chunk>, prebuffer: real, minStall: real)
    returns (stats: StallStats, ghost playhead: real)
    ensures stats == Stalls(chunks, prebuffer, minStall, |chunks|)
    ensures chunks != [] ==>
              playhead == chunks[0].arrival + prebuffer + AudioBefore(chunks, |chunks|)
                          + Backlog(chunks, prebuffer, |chunks|)
    ensures chunks != [] && minStall <= 0.0 ==>
              playhead == chunks[0].arrival + prebuffer + AudioBefore(chunks, |chunks|) + stats.total
  {
    if chunks == [] {
      return StallStats(0, 0.0, 0.0), 0.0;
    }
    var playUntil := chunks[0].arrival + prebuffer;
    var count: nat, total, longest := 0, 0.0, 0.0;
    for i := 0 to |chunks|
      invariant playUntil == chunks[0].arrival + prebuffer + AudioBefore(chunks, i)
                             + Backlog(chunks, prebuffer, i)
      invariant StallStats(count, total, longest) == Stalls(chunks, prebuffer, minStall, i)
    {
      var Chunk(arrival, seconds) := chunks[i];
      if arrival > playUntil {
        var gap := arrival - playUntil;
        if gap > minStall {
          count := count + 1;
          total := total + gap;
          longest := Max(longest, gap);
        }
        playUntil := arrival;
      }
      playUntil := playUntil + seconds;
    }
    stats, playhead := StallStats(count, total, longest), playUntil;
    if minStall <= 0.0 {
      TotalIsBacklog(chunks, prebuffer, minStall, |chunks|);
    }
  }

  // ---------------------------------------------------------------- total stall time

  /** The backlog is the maximum of zero and every lateness. */
  lemma {:induction false} BacklogIsMaximum(chunks: seq<Chunk>, prebuffer: real, n: nat)
    requires n <= |chunks|
    ensures Backlog(chunks, prebuffer, n) >= 0.0
    ensures forall i :: 0 <= i < n ==> Lateness(chunks, prebuffer, i) <= Backlog(chunks, prebuffer, n)
    ensures Backlog(chunks, prebuffer, n) == 0.0
         || exists i :: 0 <= i < n && Lateness(chunks, prebuffer, i) == Backlog(chunks, prebuffer, n)
  {
    if n > 0 {
      BacklogIsMaximum(chunks, prebuffer, n - 1);
    }
  }

  /** When no stall is ignored, the total is the backlog: the maximum of zero and
      arrival_i - arrival_0 - prebuffer - (audio before i). */
  lemma {:induction false} TotalIsBacklog(chunks: seq<Chunk>, prebuffer: real, minStall: real, n: nat)
    requires n <= |chunks| && minStall <= 0.0
    ensures Stalls(chunks, prebuffer, minStall, n).total == Backlog(chunks, prebuffer, n)
    ensures Stalls(chunks, prebuffer, minStall, n).count == 0 <==> Backlog(chunks, prebuffer, n) == 0.0
  {
    if n > 0 {
      TotalIsBacklog(chunks, prebuffer, minStall, n - 1);
      BacklogIsMaximum(chunks, prebuffer, n - 1);
    }
  }

  /** There is no stall iff the prebuffer covers the worst chunk. */
  lemma NoStallIffPrebufferCovers(chunks: seq<Chunk>, prebuffer: real, minStall: real)
    requires minStall <= 0.0
    ensures Stalls(chunks, prebuffer, minStall, |chunks|).count == 0
       <==> forall i :: 0 <= i < |chunks| ==>
              chunks[i].arrival - chunks[0].arrival - AudioBefore(chunks, i) <= prebuffer
  {
    TotalIsBacklog(chunks, prebuffer, minStall, |chunks|);
    BacklogIsMaximum(chunks, prebuffer, |chunks|);
    if Stalls(chunks, prebuffer, minStall, |chunks|).count == 0 {
      forall i | 0 <= i < |chunks|
        ensures chunks[i].arrival - chunks[0].arrival - AudioBefore(chunks, i) <= prebuffer
      {
        assert Lateness(chunks, prebuffer, i) <= 0.0;
      }
    } else {
      var i :| 0 <= i < |chunks| && Lateness(chunks, prebuffer, i) == Backlog(chunks, prebuffer, |chunks|);
      assert chunks[i].arrival - chunks[0].arrival - AudioBefore(chunks, i) > prebuffer;
    }
  }

  // ---------------------------------------------------------------- what is counted

  /** The silence before chunk `i` is how much later it is than every chunk before, and than in time. */
  lemma GapIs(chunks: seq<Chunk>, prebuffer: real, i: nat)
    requires i < |chunks|
    ensures Gap(chunks, prebuffer, i) == Max(0.0, Lateness(chunks, prebuffer, i) - Backlog(chunks, prebuffer, i))
  {
  }

  /** The gaps that count, and the time of those that are ignored. */
  ghost predicate Stall(chunks: seq<Chunk>, prebuffer: real, minStall: real, i: nat) {
    i < |chunks| && Gap(chunks, prebuffer, i) > 0.0 && Gap(chunks, prebuffer, i) > minStall
  }

  ghost function Ignored(chunks: seq<Chunk>, prebuffer: real, minStall: real, n: nat): real
    requires n <= |chunks|
  {
    if n == 0 then 0.0
    else
      Ignored(chunks, prebuffer, minStall, n - 1)
      + if Stall(chunks, prebuffer, minStall, n - 1) then 0.0 else Gap(chunks, prebuffer, n - 1)
  }

  /** The number of stalls is the number of gaps longer than the threshold. */
  lemma {:induction false} CountIs(chunks: seq<Chunk>, prebuffer: real, minStall: real, n: nat)
    requires n <= |chunks|
    ensures Stalls(chunks, prebuffer, minStall, n).count
         == |set i: nat | i < n && Stall(chunks, prebuffer, minStall, i)|
  {
    if n > 0 {
      CountIs(chunks, prebuffer, minStall, n - 1);
      OneMoreIndex((set i: nat | i < n - 1 && Stall(chunks, prebuffer, minStall, i)),
                   (set i: nat | i < n && Stall(chunks, prebuffer, minStall, i)),
                   n - 1, Stall(chunks, prebuffer, minStall, n - 1));
    } else {
      assert (set i: nat | i < n && Stall(chunks, prebuffer, minStall, i)) == {};
    }
  }

  /** Whatever the threshold, counted and ignored silence together is all the waiting there is. */
  lemma {:induction false} TotalIs(chunks: seq<Chunk>, prebuffer: real, minStall: real, n: nat)
    requires n <= |chunks|
    ensures Stalls(chunks, prebuffer, minStall, n).total + Ignored(chunks, prebuffer, minStall, n)
         == Backlog(chunks, prebuffer, n)
  {
    if n > 0 {
      TotalIs(chunks, prebuffer, minStall, n - 1);
    }
  }

  /** The longest stall is the maximum of the counted gaps: an upper bound, attained, zero for none. */
  lemma {:induction false} LongestIs(chunks: seq<Chunk>, prebuffer: real, minStall: real, n: nat)
    requires n <= |chunks|
    ensures var longest := Stalls(chunks, prebuffer, minStall, n).longest;
            && longest >= 0.0
            && (forall i: nat :: i < n && Stall(chunks, prebuffer, minStall, i) ==>
                  Gap(chunks, prebuffer, i) <= longest)
            && (longest == 0.0
                || exists i: nat :: i < n && Stall(chunks, prebuffer, minStall, i)
                                    && Gap(chunks, prebuffer, i) == longest)
  {
    if n > 0 {
      LongestIs(chunks, prebuffer, minStall, n - 1);
      if Stall(chunks, prebuffer, minStall, n - 1) {
        var before := Stalls(chunks, prebuffer, minStall, n - 1).longest;
        if before != 0.0 {
          var i: nat :| i < n - 1 && Stall(chunks, prebuffer, minStall, i) && Gap(chunks, prebuffer, i) == before;
        }
      }
    }
  }

  // ---------------------------------------------------------------- raising the prebuffer

  /** Coupling of two runs: the larger prebuffer is ahead by at most the difference. */
  lemma {:induction false} BacklogCoupling(chunks: seq<Chunk>, low: real, high: real, n: nat)
    requires n <= |chunks| && low <= high
    ensures Backlog(chunks, low, n) - (high - low) <= Backlog(chunks, high, n) <= Backlog(chunks, low, n)
  {
    if n > 0 {
      BacklogCoupling(chunks, low, high, n - 1);
    }
  }

  /** At each chunk the gap only shrinks, so the stalls of the larger prebuffer are a subset. */
  lemma GapShrinks(chunks: seq<Chunk>, low: real, high: real, i: nat)
    requires i < |chunks| && low <= high
    ensures Gap(chunks, high, i) <= Gap(chunks, low, i)
    ensures forall minStall :: Counted(chunks, high, minStall, i) ==> Counted(chunks, low, minStall, i)
  {
    BacklogCoupling(chunks, low, high, i);
  }

  /** For every `minStall`, a larger prebuffer never raises a statistic. */
  lemma {:induction false} PrebufferNeverHurts(chunks: seq<Chunk>, low: real, high: real, minStall: real, n: nat)
    requires n <= |chunks| && low <= high
    ensures var l, h := Stalls(chunks, low, minStall, n), Stalls(chunks, high, minStall, n);
            0 <= h.count <= l.count && 0.0 <= h.total <= l.total && 0.0 <= h.longest <= l.longest
  {
    if n > 0 {
      PrebufferNeverHurts(chunks, low, high, minStall, n - 1);
      GapShrinks(chunks, low, high, n - 1);
    }
  }

  /** With no stall ignored, a second of prebuffer saves at most a second of stalling. */
  lemma PrebufferSavesAtMostItself(chunks: seq<Chunk>, low: real, high: real)
    requires low <= high
    ensures Stalls(chunks, low, 0.0, |chunks|).total
         <= Stalls(chunks, high, 0.0, |chunks|).total + (high - low)
  {
    BacklogCoupling(chunks, low, high, |chunks|);
    TotalIsBacklog(chunks, low, 0.0, |chunks|);
    TotalIsBacklog(chunks, high, 0.0, |chunks|);
  }

  // ---------------------------------------------------------------- stalls and viability

  /** Chunk `i` came later than the previous chunk lasted: what streaming viability calls not viable. */
  predicate Dropout(chunks: seq<Chunk>, i: nat)
    requires 0 < i < |chunks|
  {
    chunks[i].arrival - chunks[i - 1].arrival >= chunks[i - 1].seconds
  }

  function Dropouts(chunks: seq<Chunk>, n: nat): nat
    requires n <= |chunks|
  {
    if n <= 1 then 0
    else Dropouts(chunks, n - 1) + if Dropout(chunks, n - 1) then 1 else 0
  }

  /** A later chunk stalls the player iff it comes later than the previous chunk lasts by more than
      the previous chunk was early: the backlog before it, less that chunk's own lateness. */
  lemma StallIff(chunks: seq<Chunk>, prebuffer: real, i: nat)
    requires 0 < i < |chunks|
    ensures Gap(chunks, prebuffer, i) > 0.0
       <==> chunks[i].arrival - chunks[i - 1].arrival - chunks[i - 1].seconds
            > Backlog(chunks, prebuffer, i) - Lateness(chunks, prebuffer, i - 1)
    ensures Backlog(chunks, prebuffer, i) >= Lateness(chunks, prebuffer, i - 1)
  {
    assert AudioBefore(chunks, i) == AudioBefore(chunks, i - 1) + chunks[i - 1].seconds;
    assert Lateness(chunks, prebuffer, i) - Lateness(chunks, prebuffer, i - 1)
        == chunks[i].arrival - chunks[i - 1].arrival - chunks[i - 1].seconds;
  }

  /** A stall before a later chunk means that chunk was a dropout; before the first
      chunk there is none when the prebuffer is not negative. */
  lemma StallMeansDropout(chunks: seq<Chunk>, prebuffer: real, i: nat)
    requires i < |chunks| && prebuffer >= 0.0
    requires Gap(chunks, prebuffer, i) > 0.0
    ensures i > 0 && Dropout(chunks, i)
  {
    if i > 0 {
      StallIff(chunks, prebuffer, i);
    }
  }

  lemma {:induction false} StallsAreDropouts(chunks: seq<Chunk>, prebuffer: real, minStall: real, n: nat)
    requires n <= |chunks| && prebuffer >= 0.0
    ensures Stalls(chunks, prebuffer, minStall, n).count <= Dropouts(chunks, n)
  {
    if n > 0 {
      StallsAreDropouts(chunks, prebuffer, minStall, n - 1);
      if Counted(chunks, prebuffer, minStall, n - 1) {
        StallMeansDropout(chunks, prebuffer, n - 1);
      }
    }
  }

  /** The converse fails: audio buffered earlier can carry the player over a dropout. */
  lemma DropoutNeedNotStall(chunks: seq<Chunk>)
    requires chunks == [Chunk(0.0, 4.0), Chunk(1.0, 1.0), Chunk(3.0, 1.0)]
    ensures Dropouts(chunks, 3) == 1
    ensures Stalls(chunks, 0.0, 0.0, 3).count == 0
  {
    assert chunks[0] == Chunk(0.0, 4.0) && chunks[1] == Chunk(1.0, 1.0) && chunks[2] == Chunk(3.0, 1.0);
    assert AudioBefore(chunks, 1) == 4.0;
    assert AudioBefore(chunks, 2) == AudioBefore(chunks, 1) + chunks[1].seconds == 5.0;
    assert Dropouts(chunks, 2) == 0;
    assert Stalls(chunks, 0.0, 0.0, 3).count == 0 by {
      NoStallIffPrebufferCovers(chunks, 0.0, 0.0);
    }
  }
}
