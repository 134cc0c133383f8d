/** The fake engine of benchmark/api_output_path/http_e2e.py: continuous batching of
    requests with a paced step. The engine is a state machine over its loop iterations;
    everything it receives and sends is written down in a trace. */
module FakeEngine {

  import opened Wrappers

  type Id = string

  datatype Message = NewRequest(id: Id) | ReadsDone(id: Id) | AbortRequest(id: Id)

  /** One request in a RESULT_TOKENS frame: token value and decode-loop index. */
  datatype Row = Row(id: Id, value: int, loop: nat)

  datatype Event =
    | Received(msg: Message)
    | Removed(id: Id)
    | Ticked(now: real)
    | Frame(rows: seq<Row>)
    | Completed(id: Id, chunks: int)

  datatype Config = Config(vocab: seq<int>, tokens: int, period: real) {
    predicate Valid() {
      vocab != [] && period >= 0.0
    }

    /** The token sent at loop index `j` in row `i`. */
    function TokenAt(j: nat, i: nat): int
      requires Valid()
    {
      vocab[(j + 37 * i) % |vocab|]
    }

    /** How many tokens a request really gets: the check comes after the first token. */
    function Quota(): nat {
      if tokens < 1 then 1 else tokens
    }
  }

  /** What one turn of the loop sees: the messages that have come in, and the clock. */
  datatype Turn = Turn(msgs: seq<Message>, now: real)

  datatype State = State(active: map<Id, nat>, order: seq<Id>, tNext: real, steps: nat, rowsTotal: nat,
                         crashed: bool, trace: seq<Event>)

  function Start(now: real): State {
    State(map[], [], now, 0, 0, false, [])
  }

  // ---------------------------------------------------------------- one turn of the loop

  function Receive(s: State, m: Message): State {
    var t := s.(trace := s.trace + [Received(m)]);
    match m
    case NewRequest(id) => t.(active := t.active[id := 0], order := t.order + [id])
    case ReadsDone(id) => t.(trace := t.trace + [Removed(id)])
    case AbortRequest(id) => t.(active := t.active - {id})
  }

  function ReceiveAll(s: State, msgs: seq<Message>): State {
    if msgs == [] then s else Receive(ReceiveAll(s, DropLast(msgs)), Last(msgs))
  }

  /** The ids of `s` that are in `keep`, in order. */
  function Keep(s: seq<Id>, keep: set<Id>): (r: seq<Id>)
    ensures forall id :: id in r <==> id in s && id in keep
  {
    if s == [] then []
    else
      var r := Keep(DropLast(s), keep);
      assert s == DropLast(s) + [Last(s)];
      if Last(s) in keep then r + [Last(s)] else r
  }

  /** The deadline after a tick: one period on, unless that is already a period late. */
  function NextDue(due: real, now: real, period: real): real {
    if due + period < now - period then now + period else due + period
  }

  /** The rows for the first `n` keys and the loop indices after them. */
  function Emit(c: Config, active: map<Id, nat>, keys: seq<Id>, n: nat): (r: (seq<Row>, map<Id, nat>))
    requires c.Valid() && n <= |keys| && forall k <- keys :: k in active
    ensures |r.0| == n && r.1.Keys == active.Keys
  {
    if n == 0 then ([], active)
    else
      var (rows, a) := Emit(c, active, keys, n - 1);
      var k := keys[n - 1];
      var j := a[k];
      (rows + [Row(k, c.TokenAt(j, n - 1), j)], a[k := j + 1])
  }

  /** Completion of one key: a second look at a key already deleted is a KeyError. */
  function CompleteOne(c: Config, s: State, k: Id): State {
    if s.crashed then s
    else if k !in s.active then s.(crashed := true)
    else if s.active[k] >= c.tokens then
      s.(active := s.active - {k}, trace := s.trace + [Completed(k, c.tokens)])
    else s
  }

  function CompleteAll(c: Config, s: State, keys: seq<Id>): State {
    if keys == [] then s else CompleteOne(c, CompleteAll(c, s, DropLast(keys)), Last(keys))
  }

  /** The tick's frame. */
  function SendFrame(c: Config, s: State, keys: seq<Id>): State
    requires c.Valid() && forall k <- keys :: k in s.active
  {
    var (rows, active) := Emit(c, s.active, keys, |keys|);
    s.(steps := s.steps + 1, rowsTotal := s.rowsTotal + |keys|,
       active := active, trace := s.trace + [Frame(rows)])
  }

  /** The clock part of a tick: next deadline, and stale ids dropped from the order. */
  function StartTick(c: Config, s: State, now: real): State {
    s.(tNext := NextDue(s.tNext, now, c.period), trace := s.trace + [Ticked(now)],
       order := Keep(s.order, s.active.Keys))
  }

  function Tick(c: Config, s: State, now: real): State
    requires c.Valid()
  {
    var t := StartTick(c, s, now);
    if t.order == [] then t else CompleteAll(c, SendFrame(c, t, t.order), t.order)
  }

  function Step(c: Config, s: State, turn: Turn): State
    requires c.Valid()
  {
    if s.crashed then s
    else
      var t := ReceiveAll(s, turn.msgs);
      if turn.now < t.tNext then t else Tick(c, t, turn.now)
  }

  function Run(c: Config, s: State, turns: seq<Turn>): State
    requires c.Valid()
  {
    if turns == [] then s else Step(c, Run(c, s, DropLast(turns)), Last(turns))
  }

  function Idle(now: real): Turn {
    Turn([], now)
  }

  lemma RunAppend(c: Config, s: State, turns: seq<Turn>, turn: Turn)
    requires c.Valid()
    ensures Run(c, s, turns + [turn]) == Step(c, Run(c, s, turns), turn)
  {
    assert DropLast(turns + [turn]) == turns;
  }

  lemma RunOne(c: Config, s: State, turn: Turn)
    requires c.Valid()
    ensures Run(c, s, [turn]) == Step(c, s, turn)
  {
    RunAppend(c, s, [], turn);
    assert [] + [turn] == [turn];
  }

  lemma {:induction false} RunJoins(c: Config, s: State, a: seq<Turn>, b: seq<Turn>)
    requires c.Valid()
    ensures Run(c, s, a + b) == Run(c, Run(c, s, a), b)
    decreases |b|
  {
    if b == [] {
      assert a + b == a;
    } else {
      RunJoins(c, s, a, DropLast(b));
      LastOfJoin(a, b);
    }
  }

  lemma {:induction false} CrashIsFinal(c: Config, s: State, later: seq<Turn>)
    requires c.Valid() && s.crashed
    ensures Run(c, s, later) == s
  {
    if later != [] {
      CrashIsFinal(c, s, DropLast(later));
    }
  }

  /** The loop itself. The outbox is kept as a ghost trace. */
  class Engine {
    const config: Config
    var active: map<Id, nat>
    var order: seq<Id>
    var tNext: real
    var steps: nat
    var rowsTotal: nat
    ghost var trace: seq<Event>

    ghost function Abs(crashed: bool): State
      reads this
    {
      State(active, order, tNext, steps, rowsTotal, crashed, trace)
    }

    constructor (config: Config, now: real)
      requires config.Valid()
      ensures this.config == config && Abs(false) == Start(now)
    {
      this.config := config;
      active, order, tNext, steps, rowsTotal, trace := map[], [], now, 0, 0, [];
    }

    /** One turn; `crashed` is the KeyError that would end the process. */
    method Iterate(turn: Turn) returns (crashed: bool)
      requires config.Valid()
      modifies this
      ensures Abs(crashed) == Step(config, old(Abs(false)), turn)
    {
      ghost var s0 := Abs(false);
      crashed := false;
      for i := 0 to |turn.msgs|
        invariant Abs(false) == ReceiveAll(s0, turn.msgs[..i])
      {
        ghost var before := Abs(false);
        var m := turn.msgs[i];
        trace := trace + [Received(m)];
        match m {
          case NewRequest(id) =>
            active := active[id := 0];
            order := order + [id];
          case ReadsDone(id) => trace := trace + [Removed(id)];
          case AbortRequest(id) => active := active - {id};
        }
        assert DropLast(turn.msgs[..i + 1]) == turn.msgs[..i];
      }
      assert turn.msgs[..|turn.msgs|] == turn.msgs;
      if turn.now < tNext {
        return;
      }
      crashed := RunTick(turn.now);
    }

    /** The next deadline, and the order rid of stale ids. */
    method BeginTick(now: real)
      modifies `tNext, `trace, `order
      ensures Abs(false) == StartTick(config, old(Abs(false)), now)
      ensures forall k <- order :: k in active
    {
      tNext := tNext + config.period;
      if tNext < now - config.period {
        tNext := now + config.period;
      }
      trace := trace + [Ticked(now)];
      order := Keep(order, active.Keys);
    }

    method RunTick(now: real) returns (crashed: bool)
      requires config.Valid()
      modifies this
      ensures Abs(crashed) == Tick(config, old(Abs(false)), now)
    {
      crashed := false;
      BeginTick(now);
      var keys := order;
      if keys == [] {
        return;
      }
      EmitFrame(keys);
      crashed := CompleteKeys(keys);
    }

    /** The tick's frame, and the counts. */
    method EmitFrame(keys: seq<Id>)
      requires config.Valid() && forall k <- keys :: k in active
      modifies `active, `steps, `rowsTotal, `trace
      ensures Abs(false) == SendFrame(config, old(Abs(false)), keys)
    {
      steps := steps + 1;
      rowsTotal := rowsTotal + |keys|;
      var rows := EmitRows(keys);
      trace := trace + [Frame(rows)];
    }

    /** The frame's rows: each key's next token, its loop index advanced. */
    method EmitRows(keys: seq<Id>) returns (rows: seq<Row>)
      requires config.Valid() && forall k <- keys :: k in active
      modifies `active
      ensures (rows, active) == Emit(config, old(active), keys, |keys|)
    {
      rows := [];
      for i := 0 to |keys|
        invariant (rows, active) == Emit(config, old(active), keys, i)
      {
        var k := keys[i];
        var j := active[k];
        rows := rows + [Row(k, config.TokenAt(j, i), j)];
        active := active[k := j + 1];
      }
    }

    /** Completes every key that has all its tokens. */
    method CompleteKeys(keys: seq<Id>) returns (crashed: bool)
      modifies `active, `trace
      ensures Abs(crashed) == CompleteAll(config, old(Abs(false)), keys)
    {
      crashed := false;
      ghost var sent := Abs(false);
      for i := 0 to |keys|
        invariant Abs(false) == CompleteAll(config, sent, keys[..i])
      {
        var k := keys[i];
        assert DropLast(keys[..i + 1]) == keys[..i];
        if k !in active {
          CrashStays(config, sent, keys, i + 1);
          return true;
        }
        if active[k] >= config.tokens {
          active := active - {k};
          trace := trace + [Completed(k, config.tokens)];
        }
      }
      assert keys[..|keys|] == keys;
    }

    /** The loop over turns, until the time is up or the process dies. */
    method RunAll(turns: seq<Turn>) returns (crashed: bool)
      requires config.Valid()
      modifies this
      ensures Abs(crashed) == Run(config, old(Abs(false)), turns)
    {
      crashed := false;
      ghost var s0 := Abs(false);
      for i := 0 to |turns|
        invariant Abs(crashed) == Run(config, s0, turns[..i])
      {
        assert DropLast(turns[..i + 1]) == turns[..i];
        if !crashed {
          crashed := Iterate(turns[i]);
        }
      }
      assert turns[..|turns|] == turns;
    }
  }

  lemma {:induction false} CrashStays(c: Config, s: State, keys: seq<Id>, n: nat)
    requires n <= |keys| && CompleteAll(c, s, keys[..n]).crashed
    ensures CompleteAll(c, s, keys) == CompleteAll(c, s, keys[..n])
    decreases |keys| - n
  {
    if n < |keys| {
      assert DropLast(keys[..n + 1]) == keys[..n];
      CrashStays(c, s, keys, n + 1);
    } else {
      assert keys[..n] == keys;
    }
  }
}
