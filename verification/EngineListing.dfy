/** When the fake engine dies (benchmark/api_output_path/http_e2e.py): its order list may hold
    an id twice, and then completing the id twice is a KeyError. */
module EngineListing {
  import opened EngineSafety
  import opened FakeEngine
  import opened Wrappers

  /** How often `id` is listed. */
  function Occurs(s: seq<Id>, id: Id): nat {
    if s == [] then 0 else Occurs(DropLast(s), id) + if Last(s) == id then 1 else 0
  }

  lemma OccursAppend(s: seq<Id>, x: Id, id: Id)
    ensures Occurs(s + [x], id) == Occurs(s, id) + if x == id then 1 else 0
  {
    assert DropLast(s + [x]) == s;
  }

  lemma {:induction false} OccursIff(s: seq<Id>, id: Id)
    ensures Occurs(s, id) > 0 <==> id in s
  {
    if s != [] {
      OccursIff(DropLast(s), id);
      assert s == DropLast(s) + [Last(s)];
    }
  }

  lemma {:induction false} DistinctOccurs(s: seq<Id>, id: Id)
    requires Distinct(s)
    ensures Occurs(s, id) <= 1
  {
    if s != [] {
      DistinctOccurs(DropLast(s), id);
      OccursIff(DropLast(s), id);
      if Last(s) == id {
        assert id !in DropLast(s);
      }
    }
  }

  lemma {:induction false} KeepOccurs(s: seq<Id>, keep: set<Id>, id: Id)
    requires id in keep
    ensures Occurs(Keep(s, keep), id) == Occurs(s, id)
  {
    if s != [] {
      KeepOccurs(DropLast(s), keep, id);
      OccursAppend(Keep(DropLast(s), keep), Last(s), id);
    }
  }

  // ---------------------------------------------------------------- one tick

  /** A frame moves each request on by the number of times it is listed. */
  lemma {:induction false} EmitCounts(c: Config, active: map<Id, nat>, keys: seq<Id>, n: nat, id: Id)
    requires c.Valid() && n <= |keys| && (forall k <- keys :: k in active) && id in active
    ensures Emit(c, active, keys, n).1[id] == active[id] + Occurs(keys[..n], id)
  {
    if n > 0 {
      EmitCounts(c, active, keys, n - 1, id);
      assert keys[..n] == keys[..n - 1] + [keys[n - 1]];
      OccursAppend(keys[..n - 1], keys[n - 1], id);
    }
  }

  /** Some id is listed twice and has all its tokens. */
  ghost predicate Fatal(c: Config, active: map<Id, nat>, keys: seq<Id>)
    requires forall k <- keys :: k in active
  {
    exists id <- keys :: Occurs(keys, id) >= 2 && active[id] >= c.tokens
  }

  /** What the completion loop leaves of one request, as long as it survives. */
  ghost predicate Completing(c: Config, s: State, keys: seq<Id>, id: Id)
    requires id in s.active
  {
    var t := CompleteAll(c, s, keys);
    if id in keys && s.active[id] >= c.tokens then id !in t.active
    else id in t.active && t.active[id] == s.active[id]
  }

  lemma {:induction false} CompletesOrDies(c: Config, s: State, keys: seq<Id>)
    requires !s.crashed && forall k <- keys :: k in s.active
    ensures CompleteAll(c, s, keys).crashed <==> Fatal(c, s.active, keys)
    ensures !CompleteAll(c, s, keys).crashed ==> forall id <- s.active :: Completing(c, s, keys, id)
    ensures CompleteAll(c, s, keys).order == s.order && CompleteAll(c, s, keys).tNext == s.tNext
  {
    if keys != [] {
      var rest, k := DropLast(keys), Last(keys);
      assert keys == rest + [k];
      CompletesOrDies(c, s, rest);
      OccursIff(rest, k);
      var t := CompleteAll(c, s, rest);
      if t.crashed {
        var id :| id in rest && Occurs(rest, id) >= 2 && s.active[id] >= c.tokens;
        assert id in keys && Occurs(keys, id) >= 2;
      } else if k in t.active {
        assert Completing(c, s, rest, k);
        NotFatal(c, s, rest, k);
        forall id <- s.active
          ensures Completing(c, s, keys, id)
        {
          assert Completing(c, s, rest, id);
        }
      } else {
        assert Completing(c, s, rest, k);
        assert Occurs(keys, k) >= 2 && k in keys;
      }
    }
  }

  lemma NotFatal(c: Config, s: State, rest: seq<Id>, k: Id)
    requires (forall x <- rest :: x in s.active) && k in s.active && !Fatal(c, s.active, rest)
    requires k in rest ==> s.active[k] < c.tokens
    ensures !Fatal(c, s.active, rest + [k])
  {
    forall id | id in rest + [k] && Occurs(rest + [k], id) >= 2
      ensures s.active[id] < c.tokens
    {
      OccursAppend(rest, k, id);
      OccursIff(rest, id);
    }
  }

  /** The exact guard of the KeyError: the tick dies iff some id is listed twice among the live
      ones and the frame brings it to its tokens. */
  lemma TickCrashesIff(c: Config, s: State, now: real)
    requires c.Valid() && !s.crashed
    ensures var keys := Keep(s.order, s.active.Keys);
            Tick(c, s, now).crashed
            <==> exists id <- keys :: Occurs(keys, id) >= 2 && s.active[id] + Occurs(keys, id) >= c.tokens
  {
    var t, keys := StartTick(c, s, now), Keep(s.order, s.active.Keys);
    if keys != [] {
      var sent := SendFrame(c, t, keys);
      CompletesOrDies(c, sent, keys);
      forall id <- keys
        ensures sent.active[id] == s.active[id] + Occurs(keys, id)
      {
        EmitCounts(c, t.active, keys, |keys|, id);
        assert keys[..|keys|] == keys;
      }
    }
  }

  /** An id listed twice comes out of a tick still listed twice, further on, or not at all. */
  lemma TickMovesOn(c: Config, s: State, id: Id, now: real)
    requires c.Valid() && !s.crashed && id in s.active && Occurs(s.order, id) >= 2
    ensures var t := Tick(c, s, now);
            t.crashed || (id in t.active && Occurs(t.order, id) >= 2 && s.active[id] < t.active[id] < c.tokens)
  {
    var t, keys := StartTick(c, s, now), Keep(s.order, s.active.Keys);
    KeepOccurs(s.order, s.active.Keys, id);
    OccursIff(keys, id);
    TickCrashesIff(c, s, now);
    if !Tick(c, s, now).crashed {
      var sent := SendFrame(c, t, keys);
      CompletesOrDies(c, sent, keys);
      assert Completing(c, sent, keys, id);
      EmitCounts(c, t.active, keys, |keys|, id);
      assert keys[..|keys|] == keys;
    }
  }

  // ---------------------------------------------------------------- whole runs

  /** No request of `msgs` arrives while its id is still in the order list. */
  ghost predicate NoneListed(s: State, msgs: seq<Message>) {
    msgs != [] ==>
      && NoneListed(s, DropLast(msgs))
      && (Last(msgs).NewRequest? ==> Last(msgs).id !in ReceiveAll(s, DropLast(msgs)).order)
  }

  ghost predicate NoneRelisted(c: Config, s: State, turns: seq<Turn>)
    requires c.Valid()
  {
    turns != [] ==>
      && NoneRelisted(c, s, DropLast(turns))
      && (Run(c, s, DropLast(turns)).crashed || NoneListed(Run(c, s, DropLast(turns)), Last(turns).msgs))
  }

  /** The order list holds every id at most once after each message. */
  ghost predicate ListedOnceWithin(s: State, msgs: seq<Message>) {
    Distinct(ReceiveAll(s, msgs).order) && (msgs != [] ==> ListedOnceWithin(s, DropLast(msgs)))
  }

  /** The same at every point of a run. */
  ghost predicate ListedOnce(c: Config, s: State, turns: seq<Turn>)
    requires c.Valid()
  {
    && Distinct(Run(c, s, turns).order)
    && (turns != [] ==>
          && ListedOnce(c, s, DropLast(turns))
          && (Run(c, s, DropLast(turns)).crashed || ListedOnceWithin(Run(c, s, DropLast(turns)), Last(turns).msgs)))
  }

  lemma AppendDistinct(s: seq<Id>, x: Id)
    requires Distinct(s)
    ensures Distinct(s + [x]) <==> x !in s
  {
    if x in s {
      var i :| 0 <= i < |s| && s[i] == x;
      assert (s + [x])[i] == (s + [x])[|s|];
    }
  }

  lemma {:induction false} MessagesListOnceIff(s: State, msgs: seq<Message>)
    requires Distinct(s.order)
    ensures ListedOnceWithin(s, msgs) <==> NoneListed(s, msgs)
  {
    if msgs != [] {
      MessagesListOnceIff(s, DropLast(msgs));
      var t := ReceiveAll(s, DropLast(msgs));
      if Last(msgs).NewRequest? && Distinct(t.order) {
        AppendDistinct(t.order, Last(msgs).id);
      }
    }
  }

  /** A tick neither repeats an id nor dies when none is repeated. */
  lemma TickListsOnce(c: Config, s: State, now: real)
    requires c.Valid() && !s.crashed && Distinct(s.order)
    ensures Distinct(Tick(c, s, now).order) && !Tick(c, s, now).crashed
  {
    var t, keys := StartTick(c, s, now), Keep(s.order, s.active.Keys);
    KeepIsDistinct(s.order, s.active.Keys);
    TickCrashesIff(c, s, now);
    forall id <- keys
      ensures Occurs(keys, id) <= 1
    {
      DistinctOccurs(keys, id);
    }
    if keys != [] {
      CompletesOrDies(c, SendFrame(c, t, keys), keys);
    }
  }

  lemma {:induction false} ReceivingIsAlive(s: State, msgs: seq<Message>)
    ensures ReceiveAll(s, msgs).crashed == s.crashed && ReceiveAll(s, msgs).tNext == s.tNext
  {
    if msgs != [] {
      ReceivingIsAlive(s, DropLast(msgs));
    }
  }

  lemma StepListsOnce(c: Config, s: State, turn: Turn)
    requires c.Valid() && !s.crashed && Distinct(ReceiveAll(s, turn.msgs).order)
    ensures Distinct(Step(c, s, turn).order) && !Step(c, s, turn).crashed
  {
    ReceivingIsAlive(s, turn.msgs);
    var t := ReceiveAll(s, turn.msgs);
    if turn.now >= t.tNext {
      TickListsOnce(c, t, turn.now);
    }
  }

  /** Over every run: no id is ever listed twice iff none arrives while it is still listed,
      and then the engine does not die. Ids may come back once they have left the list. */
  lemma {:induction false} ListedOnceIff(c: Config, t0: real, turns: seq<Turn>)
    requires c.Valid()
    ensures ListedOnce(c, Start(t0), turns) <==> NoneRelisted(c, Start(t0), turns)
    ensures NoneRelisted(c, Start(t0), turns) ==> !Run(c, Start(t0), turns).crashed
  {
    if turns != [] {
      ListedOnceIff(c, t0, DropLast(turns));
      var s, turn := Run(c, Start(t0), DropLast(turns)), Last(turns);
      if NoneRelisted(c, Start(t0), DropLast(turns)) {
        MessagesListOnceIff(s, turn.msgs);
        if NoneListed(s, turn.msgs) {
          StepListsOnce(c, s, turn);
        }
      }
    }
  }

  // ---------------------------------------------------------------- what a second listing leads to

  function TokensLeft(c: Config, s: State, id: Id): nat
    requires id in s.active
  {
    if s.active[id] < c.tokens then c.tokens - s.active[id] else 0
  }

  /** Left alone, an engine that lists a live id twice dies. */
  lemma {:induction false} TwiceListedIsFatal(c: Config, s: State, id: Id) returns (later: seq<Turn>)
    requires c.Valid() && !s.crashed && id in s.active && Occurs(s.order, id) >= 2
    ensures (forall turn <- later :: turn.msgs == []) && Run(c, s, later).crashed
    decreases TokensLeft(c, s, id)
  {
    var turn := Idle(s.tNext);
    var t := Step(c, s, turn);
    TickMovesOn(c, s, id, s.tNext);
    RunOne(c, s, turn);
    if t.crashed {
      later := [turn];
    } else {
      var rest := TwiceListedIsFatal(c, t, id);
      later := [turn] + rest;
      RunJoins(c, s, [turn], rest);
    }
  }

  /** The condition of `ListedOnceIff` cannot be relaxed: from any state, a request that arrives
      while its id is still listed, live or not, is fatal unless someone intervenes. */
  lemma RelistingIsFatal(c: Config, s: State, id: Id, now: real) returns (later: seq<Turn>)
    requires c.Valid() && !s.crashed && id in s.order
    ensures forall turn <- later :: turn.msgs == []
    ensures Run(c, s, [Turn([NewRequest(id)], now)] + later).crashed
  {
    var first := Turn([NewRequest(id)], now);
    var t := Receive(s, NewRequest(id));
    assert DropLast([NewRequest(id)]) == [];
    assert ReceiveAll(s, []) == s && ReceiveAll(s, [NewRequest(id)]) == t;
    RunOne(c, s, first);
    OccursIff(s.order, id);
    OccursAppend(s.order, id, id);
    if now >= t.tNext {
      TickMovesOn(c, t, id, now);
    }
    later := [];
    if !Step(c, s, first).crashed {
      later := TwiceListedIsFatal(c, Step(c, s, first), id);
    }
    RunJoins(c, s, [first], later);
  }

  /** A request that arrives and is aborted at once is off the list after the next tick. */
  lemma AbortedIsDropped(c: Config, now: real, id: Id)
    requires c.Valid()
    ensures var t := Step(c, Start(now), Turn([NewRequest(id), AbortRequest(id)], now));
            !t.crashed && t.order == []
  {
    var s, arrive, abort := Start(now), NewRequest(id), AbortRequest(id);
    assert DropLast([arrive]) == [] && DropLast([arrive, abort]) == [arrive];
    assert ReceiveAll(s, [arrive]) == Receive(s, arrive);
    var t := ReceiveAll(s, [arrive, abort]);
    assert t == Receive(Receive(s, arrive), abort);
    assert t.active == map[] && t.order == [id];
    assert DropLast([id]) == [] && Keep([id], {}) == [];
  }

  lemma ArrivesAlone(c: Config, s: State, id: Id, now: real)
    requires c.Valid() && !s.crashed && s.order == []
    ensures !Step(c, s, Turn([NewRequest(id)], now)).crashed
  {
    var turn := Turn([NewRequest(id)], now);
    assert DropLast(turn.msgs) == [];
    assert ReceiveAll(s, turn.msgs) == Receive(s, NewRequest(id));
    StepListsOnce(c, s, turn);
  }

  lemma NewIdsOfOne(id: Id)
    ensures NewIdsOf([NewRequest(id)]) == [id]
  {
    var msgs := [NewRequest(id)];
    assert DropLast(msgs) == [] && Last(msgs) == NewRequest(id);
  }

  /** An abort brings no new id. */
  lemma NewIdsOfTwo(id: Id)
    ensures NewIdsOf([NewRequest(id), AbortRequest(id)]) == [id]
  {
    var msgs := [NewRequest(id), AbortRequest(id)];
    assert DropLast(msgs) == [NewRequest(id)] && Last(msgs) == AbortRequest(id);
    NewIdsOfOne(id);
  }

  lemma NewIdsOfTurn(turn: Turn)
    ensures NewIds([turn]) == NewIdsOf(turn.msgs)
  {
    assert DropLast([turn]) == [] && Last([turn]) == turn;
  }

  lemma {:induction false} NewIdsJoin(a: seq<Turn>, b: seq<Turn>)
    ensures NewIds(a + b) == NewIds(a) + NewIds(b)
    decreases |b|
  {
    if b == [] {
      assert a + b == a;
    } else {
      NewIdsJoin(a, DropLast(b));
      LastOfJoin(a, b);
      Associate(NewIds(a), NewIds(DropLast(b)), NewIdsOf(Last(b).msgs));
    }
  }

  lemma {:induction false} IdleBringsNone(turns: seq<Turn>)
    requires forall turn <- turns :: turn.msgs == []
    ensures NewIds(turns) == []
  {
    if turns != [] {
      IdleBringsNone(DropLast(turns));
    }
  }

  /** A run that sends an id again after it has left the list: nothing dies. */
  lemma ReusedIdSurvives(c: Config, now: real, id: Id) returns (turns: seq<Turn>)
    requires c.Valid()
    ensures NewIds(turns) == [id, id] && !Run(c, Start(now), turns).crashed
  {
    var first, second := Turn([NewRequest(id), AbortRequest(id)], now), Turn([NewRequest(id)], now);
    AbortedIsDropped(c, now, id);
    ArrivesAlone(c, Step(c, Start(now), first), id, now);
    turns := [first] + [second];
    RunOne(c, Start(now), first);
    RunAppend(c, Start(now), [first], second);
    NewIdsJoin([first], [second]);
    NewIdsOfTurn(first);
    NewIdsOfTurn(second);
    NewIdsOfOne(id);
    NewIdsOfTwo(id);
  }

  /** Whatever the token quota, some run in which one id is sent twice ends in the KeyError. */
  lemma RepeatedIdCrashes(c: Config, now: real, id: Id) returns (turns: seq<Turn>)
    requires c.Valid()
    ensures NewIds(turns) == [id, id] && Run(c, Start(now), turns).crashed
  {
    var first, again := Turn([NewRequest(id)], now - 1.0), Turn([NewRequest(id)], now);
    var s := Step(c, Start(now), first);
    assert DropLast(first.msgs) == [] && ReceiveAll(Start(now), []) == Start(now);
    assert ReceiveAll(Start(now), first.msgs) == Receive(Start(now), NewRequest(id));
    assert s == Receive(Start(now), NewRequest(id));
    var later := RelistingIsFatal(c, s, id, now);
    turns := [first] + ([again] + later);
    RunOne(c, Start(now), first);
    RunJoins(c, Start(now), [first], [again] + later);
    NewIdsJoin([first], [again] + later);
    NewIdsJoin([again], later);
    IdleBringsNone(later);
    NewIdsOfTurn(first);
    NewIdsOfTurn(again);
    NewIdsOfOne(id);
  }
}
