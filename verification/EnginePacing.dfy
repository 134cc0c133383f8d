/** Pacing of the fake engine (benchmark/api_output_path/http_e2e.py): over every run, with
    any clock readings and any messages, ticks keep an average rate and the deadline stays
    within a period of the clock. */
module EnginePacing {
  import opened FakeEngine
  import opened Wrappers

  function TickTimes(trace: seq<Event>): seq<real> {
    if trace == [] then []
    else
      match Last(trace)
      case Ticked(now) => TickTimes(DropLast(trace)) + [now]
      case _ => TickTimes(DropLast(trace))
  }

  /** `n` periods. */
  function Periods(n: int, period: real): real {
    n as real * period
  }

  lemma OneMorePeriod(n: int, period: real)
    ensures Periods(n + 1, period) == Periods(n, period) + period
  {
  }

  /** Each past tick has pushed the deadline on by a period for every later one. */
  ghost predicate DeadlineKeepsUp(ticks: seq<real>, tNext: real, period: real) {
    forall i :: 0 <= i < |ticks| ==> tNext >= ticks[i] - period + Periods(|ticks| - 1 - i, period)
  }

  /** Any two ticks, `j - i` apart: `k` consecutive ticks take at least `k - 3` periods. */
  ghost predicate NeverFaster(ticks: seq<real>, period: real) {
    forall i, j :: 0 <= i < j < |ticks| ==> ticks[j] - ticks[i] >= Periods(j - i - 2, period)
  }

  ghost predicate Paced(c: Config, s: State) {
    DeadlineKeepsUp(TickTimes(s.trace), s.tNext, c.period) && NeverFaster(TickTimes(s.trace), c.period)
  }

  /** After a tick the deadline is within one period of the clock, through both branches,
      and at least a period past the old deadline. */
  lemma NextDueIsNear(due: real, now: real, period: real)
    requires due <= now && period >= 0.0
    ensures now - period <= NextDue(due, now, period) <= now + period
    ensures due + period <= NextDue(due, now, period)
  {
  }

  lemma TickKeepsPace(ticks: seq<real>, due: real, now: real, period: real)
    requires due <= now && period >= 0.0
    requires DeadlineKeepsUp(ticks, due, period) && NeverFaster(ticks, period)
    ensures DeadlineKeepsUp(ticks + [now], NextDue(due, now, period), period)
    ensures NeverFaster(ticks + [now], period)
  {
    var next, n := NextDue(due, now, period), |ticks|;
    NextDueIsNear(due, now, period);
    forall i | 0 <= i < n + 1
      ensures next >= (ticks + [now])[i] - period + Periods(n - i, period)
    {
      if i < n {
        OneMorePeriod(n - 1 - i, period);
      } else {
        assert Periods(0, period) == 0.0;
      }
    }
    forall i, j | 0 <= i < j < n + 1
      ensures (ticks + [now])[j] - (ticks + [now])[i] >= Periods(j - i - 2, period)
    {
      if j == n {
        OneMorePeriod(n - i - 2, period);
      }
    }
  }

  lemma TickTimesAppend(trace: seq<Event>, e: Event)
    ensures TickTimes(trace + [e]) == TickTimes(trace) + if e.Ticked? then [e.now] else []
  {
    assert DropLast(trace + [e]) == trace;
  }

  lemma {:induction false} ReceivingKeepsTicks(s: State, msgs: seq<Message>)
    ensures var t := ReceiveAll(s, msgs); t.tNext == s.tNext && TickTimes(t.trace) == TickTimes(s.trace)
  {
    if msgs != [] {
      ReceivingKeepsTicks(s, DropLast(msgs));
      var t := ReceiveAll(s, DropLast(msgs));
      TickTimesAppend(t.trace, Received(Last(msgs)));
      TickTimesAppend(t.trace + [Received(Last(msgs))], Removed(Last(msgs).id));
    }
  }

  lemma {:induction false} CompletingKeepsTicks(c: Config, s: State, keys: seq<Id>)
    ensures var t := CompleteAll(c, s, keys); t.tNext == s.tNext && TickTimes(t.trace) == TickTimes(s.trace)
  {
    if keys != [] {
      CompletingKeepsTicks(c, s, DropLast(keys));
      TickTimesAppend(CompleteAll(c, s, DropLast(keys)).trace, Completed(Last(keys), c.tokens));
    }
  }

  lemma TickAdds(c: Config, s: State, now: real)
    requires c.Valid()
    ensures var t := Tick(c, s, now);
            t.tNext == NextDue(s.tNext, now, c.period) && TickTimes(t.trace) == TickTimes(s.trace) + [now]
  {
    var t := StartTick(c, s, now);
    TickTimesAppend(s.trace, Ticked(now));
    if t.order != [] {
      var sent := SendFrame(c, t, t.order);
      TickTimesAppend(t.trace, Frame(Emit(c, t.active, t.order, |t.order|).0));
      CompletingKeepsTicks(c, sent, t.order);
    }
  }

  lemma TickIsPaced(c: Config, s: State, now: real)
    requires c.Valid() && Paced(c, s) && s.tNext <= now
    ensures Paced(c, Tick(c, s, now))
    ensures now - c.period <= Tick(c, s, now).tNext <= now + c.period
  {
    TickKeepsPace(TickTimes(s.trace), s.tNext, now, c.period);
    NextDueIsNear(s.tNext, now, c.period);
    TickAdds(c, s, now);
  }

  /** Over every run the ticks are paced: for any k consecutive ticks at n_1..n_k,
      n_k - n_1 >= (k - 3) * period. */
  lemma {:induction false} EveryRunIsPaced(c: Config, now: real, turns: seq<Turn>)
    requires c.Valid()
    ensures Paced(c, Run(c, Start(now), turns))
  {
    if turns != [] {
      EveryRunIsPaced(c, now, DropLast(turns));
      var s := Run(c, Start(now), DropLast(turns));
      if !s.crashed {
        var t := ReceiveAll(s, Last(turns).msgs);
        ReceivingKeepsTicks(s, Last(turns).msgs);
        if t.tNext <= Last(turns).now {
          TickIsPaced(c, t, Last(turns).now);
        }
      }
    }
  }

  // ---------------------------------------------------------------- when a tick is followed by a full period

  /** The guard: the next deadline is a period away iff the tick was on time, or so late that
      the deadline was reset. */
  lemma DeadlineIsAheadIff(due: real, now: real, period: real)
    requires due <= now && period >= 0.0
    ensures NextDue(due, now, period) >= now + period <==> now == due || now - due > 2.0 * period
  {
  }

  lemma StepTicks(c: Config, s: State, turn: Turn)
    requires c.Valid() && !s.crashed
    ensures var t := Step(c, s, turn);
            if turn.now < s.tNext then t.tNext == s.tNext && TickTimes(t.trace) == TickTimes(s.trace)
            else t.tNext == NextDue(s.tNext, turn.now, c.period)
                 && TickTimes(t.trace) == TickTimes(s.trace) + [turn.now]
  {
    ReceivingKeepsTicks(s, turn.msgs);
    var t := ReceiveAll(s, turn.msgs);
    if turn.now >= t.tNext {
      TickAdds(c, t, turn.now);
    }
  }

  /** Whatever comes later, the next tick waits for the deadline. */
  lemma {:induction false} NextTickIsDue(c: Config, s: State, later: seq<Turn>)
    requires c.Valid()
    ensures var (past, t) := (TickTimes(s.trace), Run(c, s, later));
            var all := TickTimes(t.trace);
            && past <= all && (|all| == |past| ==> t.tNext == s.tNext)
            && (|all| > |past| ==> all[|past|] >= s.tNext)
  {
    if later != [] {
      NextTickIsDue(c, s, DropLast(later));
      var t := Run(c, s, DropLast(later));
      if !t.crashed {
        StepTicks(c, t, Last(later));
      }
    }
  }

  /** The ticks of the run that goes on with `later`. */
  function TicksWith(c: Config, t0: real, turns: seq<Turn>, later: seq<Turn>): seq<real>
    requires c.Valid()
  {
    TickTimes(Run(c, Start(t0), turns + later).trace)
  }

  /** The tick after the first `n`, if there is one, comes at `earliest` or later. */
  predicate NextWaits(all: seq<real>, n: nat, earliest: real) {
    n < |all| ==> all[n] >= earliest
  }

  /** When the engine does not burst: a tick is followed by a full period without ticks, in
      every continuation of the run, iff it came on time or more than two periods late (or it
      ended the process). */
  lemma TickIsFollowedByPeriodIff(c: Config, t0: real, turns: seq<Turn>, turn: Turn)
    requires c.Valid() && !Run(c, Start(t0), turns).crashed && Run(c, Start(t0), turns).tNext <= turn.now
    ensures var due := Run(c, Start(t0), turns).tNext;
            var n := |TicksWith(c, t0, turns, [turn])|;
            && n > 0 && TicksWith(c, t0, turns, [turn])[n - 1] == turn.now
            && ((forall later: seq<Turn> :: NextWaits(TicksWith(c, t0, turns + [turn], later), n, turn.now + c.period))
                <==> Run(c, Start(t0), turns + [turn]).crashed || turn.now == due || turn.now - due > 2.0 * c.period)
  {
    var s := Run(c, Start(t0), turns);
    var t := Run(c, Start(t0), turns + [turn]);
    var n := |TicksWith(c, t0, turns, [turn])|;
    RunAppend(c, Start(t0), turns, turn);
    StepTicks(c, s, turn);
    DeadlineIsAheadIff(s.tNext, turn.now, c.period);
    if t.tNext >= turn.now + c.period || t.crashed {
      forall later: seq<Turn>
        ensures NextWaits(TicksWith(c, t0, turns + [turn], later), n, turn.now + c.period)
      {
        RunJoins(c, Start(t0), turns + [turn], later);
        if t.crashed {
          CrashIsFinal(c, t, later);
        } else {
          NextTickIsDue(c, t, later);
        }
      }
    } else {
      var soon := Idle(if t.tNext > turn.now then t.tNext else turn.now);
      RunAppend(c, Start(t0), turns + [turn], soon);
      StepTicks(c, t, soon);
      assert !NextWaits(TicksWith(c, t0, turns + [turn], [soon]), n, turn.now + c.period);
    }
  }

  // ---------------------------------------------------------------- no drift

  /** Each tick comes at most two periods after its place in an even rhythm from `start` on. */
  ghost predicate Punctual(ticks: seq<real>, start: real, period: real) {
    forall i :: 0 <= i < |ticks| ==> ticks[i] <= start + Periods(i + 2, period)
  }

  /** The deadline has kept to the rhythm, or has fallen behind for good. */
  ghost predicate InRhythm(ticks: seq<real>, start: real, due: real, period: real) {
    && due >= start + Periods(|ticks|, period)
    && (due == start + Periods(|ticks|, period) <==> Punctual(ticks, start, period))
  }

  lemma PunctualAppend(ticks: seq<real>, now: real, start: real, period: real)
    ensures Punctual(ticks + [now], start, period)
       <==> Punctual(ticks, start, period) && now <= start + Periods(|ticks| + 2, period)
  {
    var all := ticks + [now];
    assert all[|ticks|] == now;
    assert forall i :: 0 <= i < |ticks| ==> all[i] == ticks[i];
  }

  /** One tick: the deadline moves on by a period, or, more than two periods late, starts anew. */
  lemma NextDueIs(due: real, now: real, period: real)
    requires due <= now && period >= 0.0
    ensures now - due <= 2.0 * period ==> NextDue(due, now, period) == due + period
    ensures now - due > 2.0 * period ==> NextDue(due, now, period) == now + period > due + period
  {
  }

  lemma TickKeepsRhythm(ticks: seq<real>, start: real, due: real, now: real, period: real)
    requires due <= now && period >= 0.0 && InRhythm(ticks, start, due, period)
    ensures InRhythm(ticks + [now], start, NextDue(due, now, period), period)
  {
    var n := |ticks|;
    NextDueIs(due, now, period);
    OneMorePeriod(n, period);
    OneMorePeriod(n + 1, period);
    PunctualAppend(ticks, now, start, period);
  }

  /** `t` has come from `s`, in rhythm with the deadline `s` had. */
  ghost predicate ComesInRhythm(c: Config, s: State, t: State) {
    var (past, all) := (TickTimes(s.trace), TickTimes(t.trace));
    past <= all && InRhythm(all[|past|..], s.tNext, t.tNext, c.period)
  }

  lemma SnocPrefix<T>(past: seq<T>, all: seq<T>, x: T)
    requires past <= all
    ensures past <= all + [x] && (all + [x])[|past|..] == all[|past|..] + [x]
  {
  }

  lemma StepKeepsRhythm(c: Config, s: State, t: State, turn: Turn)
    requires c.Valid() && !t.crashed && ComesInRhythm(c, s, t)
    ensures ComesInRhythm(c, s, Step(c, t, turn))
  {
    var (past, all) := (TickTimes(s.trace), TickTimes(t.trace));
    StepTicks(c, t, turn);
    if turn.now >= t.tNext {
      TickKeepsRhythm(all[|past|..], s.tNext, t.tNext, turn.now, c.period);
      SnocPrefix(past, all, turn.now);
    }
  }

  lemma RhythmStarts(c: Config, s: State)
    ensures ComesInRhythm(c, s, s)
  {
    var past := TickTimes(s.trace);
    assert past[|past|..] == [] && Periods(0, c.period) == 0.0;
  }

  /** The engine does not drift: from any state on, the deadline is exactly one period per tick
      further iff no tick came more than two periods after its place; one that does puts the
      deadline behind for good. */
  lemma {:induction false} NoDriftIff(c: Config, s: State, later: seq<Turn>)
    requires c.Valid()
    ensures ComesInRhythm(c, s, Run(c, s, later))
  {
    if later == [] {
      RhythmStarts(c, s);
    } else {
      NoDriftIff(c, s, DropLast(later));
      var t := Run(c, s, DropLast(later));
      if !t.crashed {
        StepKeepsRhythm(c, s, t, Last(later));
      }
    }
  }

  /** After `n` ticks of a run the deadline is `n` periods past the start, iff none was too late. */
  lemma DeadlineIs(c: Config, t0: real, turns: seq<Turn>)
    requires c.Valid()
    ensures var s := Run(c, Start(t0), turns);
            InRhythm(TickTimes(s.trace), t0, s.tNext, c.period)
  {
    NoDriftIff(c, Start(t0), turns);
    var ticks := TickTimes(Run(c, Start(t0), turns).trace);
    assert ticks[0..] == ticks;
  }

  /** And from a tick that was too late the rhythm starts anew, a period after the clock. */
  lemma LateTickResets(c: Config, s: State, turn: Turn)
    requires c.Valid() && !s.crashed && s.tNext <= turn.now
    ensures Step(c, s, turn).tNext
         == if turn.now - s.tNext > 2.0 * c.period then turn.now + c.period else s.tNext + c.period
  {
    StepTicks(c, s, turn);
    NextDueIs(s.tNext, turn.now, c.period);
  }

  // ---------------------------------------------------------------- the bound is the best possible

  lemma IdleTick(c: Config, s: State, now: real)
    requires c.Valid() && !s.crashed && s.order == [] && s.tNext <= now
    ensures var t := Step(c, s, Idle(now));
            && t.tNext == NextDue(s.tNext, now, c.period) && !t.crashed && t.order == []
            && TickTimes(t.trace) == TickTimes(s.trace) + [now]
  {
    TickTimesAppend(s.trace, Ticked(now));
  }

  /** A run that ends idle after `k` ticks spanning exactly `k - 3` periods. */
  ghost predicate Attains(c: Config, t0: real, k: nat, s: State) {
    var ticks := TickTimes(s.trace);
    && !s.crashed && s.order == [] && |ticks| == k && k > 0
    && ticks[k - 1] == ticks[0] + Periods(k - 3, c.period)
    && s.tNext == ticks[k - 1] + c.period
  }

  /** One more idle tick at the end of an idle run. */
  lemma IdleNext(c: Config, t0: real, turns: seq<Turn>, now: real)
    requires c.Valid()
    requires var s := Run(c, Start(t0), turns); !s.crashed && s.order == [] && s.tNext <= now
    ensures var (s, t) := (Run(c, Start(t0), turns), Run(c, Start(t0), turns + [Idle(now)]));
            && t.tNext == NextDue(s.tNext, now, c.period) && !t.crashed && t.order == []
            && TickTimes(t.trace) == TickTimes(s.trace) + [now]
  {
    RunAppend(c, Start(t0), turns, Idle(now));
    IdleTick(c, Run(c, Start(t0), turns), now);
  }

  lemma ThreeTicksAtOnce(c: Config, t0: real) returns (turns: seq<Turn>)
    requires c.Valid()
    ensures Attains(c, t0, 3, Run(c, Start(t0), turns))
  {
    var now := t0 + c.period + c.period;
    var one, two := [] + [Idle(now)], [] + [Idle(now)] + [Idle(now)];
    IdleNext(c, t0, [], now);
    IdleNext(c, t0, one, now);
    IdleNext(c, t0, two, now);
    assert Periods(0, c.period) == 0.0;
    turns := two + [Idle(now)];
  }

  lemma OneMoreAttains(c: Config, t0: real, k: nat, before: seq<Turn>, next: Turn)
    requires c.Valid() && k >= 4 && Attains(c, t0, k - 1, Run(c, Start(t0), before))
    requires next == Idle(Run(c, Start(t0), before).tNext)
    ensures Attains(c, t0, k, Run(c, Start(t0), before + [next]))
  {
    IdleNext(c, t0, before, next.now);
    StillAttains(c, t0, k - 1, Run(c, Start(t0), before), Run(c, Start(t0), before + [next]));
  }

  lemma StillAttains(c: Config, t0: real, k: nat, s: State, t: State)
    requires k >= 3 && Attains(c, t0, k, s) && !t.crashed && t.order == []
    requires t.tNext == s.tNext + c.period && TickTimes(t.trace) == TickTimes(s.trace) + [s.tNext]
    ensures Attains(c, t0, k + 1, t)
  {
    OneMorePeriod(k - 3, c.period);
  }

  /** "Never burst" is not literally true: an engine first looked at two periods late ticks
      three times at one instant, and every k from there on attains the bound. */
  lemma {:induction false} BoundIsAttained(c: Config, t0: real, k: nat) returns (turns: seq<Turn>)
    requires c.Valid() && k >= 3
    ensures Attains(c, t0, k, Run(c, Start(t0), turns))
    decreases k
  {
    if k == 3 {
      turns := ThreeTicksAtOnce(c, t0);
    } else {
      var before := BoundIsAttained(c, t0, k - 1);
      var next := Idle(Run(c, Start(t0), before).tNext);
      OneMoreAttains(c, t0, k, before, next);
      turns := before + [next];
    }
  }
}
