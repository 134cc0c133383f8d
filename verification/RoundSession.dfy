/** The engines of a session (`engines_of` and the rotation in `phase_round` of
    benchmark/asr318_run/run.py), and for which of them the round's marker speaks. */
module RoundSession {
  import opened Wrappers
  import opened RoundStore
  import opened RoundHistory

  const MODEL_ORDER: seq<Model> := [Turbo, Large, Qasr, QasrRt]

  /** The servers a model is configured for. */
  function Configured(m: Model): seq<Server> {
    if m == QasrRt then [Mstar, Vllm] else [Mstar, Vllm, SglOmni]
  }

  function Without(servers: seq<Server>, skipped: set<Server>): (kept: seq<Server>) {
    if servers == [] then []
    else Without(DropLast(servers), skipped) + if Last(servers) in skipped then [] else [Last(servers)]
  }

  /** `engines_of`. */
  function EnginesOf(m: Model, skipped: set<Server>): seq<Server> {
    Without(Configured(m), skipped)
  }

  /** The list from position `k` on, then the part before. */
  function Rotate(servers: seq<Server>, k: nat): seq<Server>
    requires k <= |servers|
  {
    servers[k..] + servers[..k]
  }

  function Engines(m: Model, servers: seq<Server>): seq<Engine> {
    if servers == [] then [] else Engines(m, DropLast(servers)) + [Engine(m, Last(servers))]
  }

  /** Every model has an engine left; otherwise the rotation divides by zero. */
  predicate AllServed(models: seq<Model>, skipped: set<Server>) {
    forall m <- models :: EnginesOf(m, skipped) != []
  }

  /** Which engines a round visits, and in which order: model by model, rotated by the round. */
  function Order(models: seq<Model>, skipped: set<Server>, round: int): seq<Engine>
    requires AllServed(models, skipped)
  {
    if models == [] then []
    else
      var m := Last(models);
      var servers := EnginesOf(m, skipped);
      Order(DropLast(models), skipped, round) + Engines(m, Rotate(servers, (round - 1) % |servers|))
  }

  lemma {:induction false} WithoutCounts(servers: seq<Server>, skipped: set<Server>, s: Server)
    ensures multiset(Without(servers, skipped))[s] == if s in skipped then 0 else multiset(servers)[s]
  {
    if servers != [] {
      Snoc(servers);
      WithoutCounts(DropLast(servers), skipped, s);
    }
  }

  lemma {:induction false} EnginesCount(m: Model, servers: seq<Server>, e: Engine)
    ensures multiset(Engines(m, servers))[e] == if e.model == m then multiset(servers)[e.server] else 0
  {
    if servers != [] {
      Snoc(servers);
      EnginesCount(m, DropLast(servers), e);
    }
  }

  lemma RotateCounts(servers: seq<Server>, k: nat)
    requires k <= |servers|
    ensures multiset(Rotate(servers, k)) == multiset(servers)
  {
    CutInTwo(servers, k);
  }

  /** The rotation changes the order alone: every round visits each configured engine that is
      not skipped as often as its model is listed. */
  lemma {:induction false} OrderCounts(models: seq<Model>, skipped: set<Server>, round: int, e: Engine)
    requires AllServed(models, skipped)
    ensures multiset(Order(models, skipped, round))[e]
         == if e.server in Configured(e.model) && e.server !in skipped then multiset(models)[e.model] else 0
  {
    if models != [] {
      Snoc(models);
      OrderCounts(DropLast(models), skipped, round, e);
      var m := Last(models);
      var servers := EnginesOf(m, skipped);
      var k := (round - 1) % |servers|;
      EnginesCount(m, Rotate(servers, k), e);
      RotateCounts(servers, k);
      WithoutCounts(Configured(m), skipped, e.server);
    }
  }

  /** SGLang has no realtime server. */
  lemma ConfiguredIs(m: Model, s: Server)
    ensures s in Configured(m) <==> !(m == QasrRt && s == SglOmni)
  {
    assert Configured(m)[0] == Mstar && Configured(m)[1] == Vllm && (m != QasrRt ==> Configured(m)[2] == SglOmni);
  }

  lemma ListedOnce(m: Model)
    ensures multiset(MODEL_ORDER)[m] == 1
  {
    assert MODEL_ORDER == [Turbo] + [Large] + [Qasr] + [QasrRt];
  }

  /** Every round of a session visits each configured engine that is not skipped once. */
  lemma OrderHolds(skipped: set<Server>, round: int, e: Engine)
    requires AllServed(MODEL_ORDER, skipped)
    ensures multiset(Order(MODEL_ORDER, skipped, round))[e]
         == if e.server !in skipped && !(e.model == QasrRt && e.server == SglOmni) then 1 else 0
  {
    OrderCounts(MODEL_ORDER, skipped, round, e);
    ConfiguredIs(e.model, e.server);
    ListedOnce(e.model);
  }

  // ---------------------------------------------------------------- which engine is timed when

  lemma {:induction false} WithoutIs(servers: seq<Server>, skipped: set<Server>)
    ensures |Without(servers, skipped)| <= |servers|
    ensures forall s :: s in Without(servers, skipped) <==> s in servers && s !in skipped
  {
    if servers != [] {
      Snoc(servers);
      WithoutIs(DropLast(servers), skipped);
    }
  }

  function Rank(s: Server): nat {
    match s
    case Mstar => 0
    case Vllm => 1
    case SglOmni => 2
  }

  ghost predicate InOrder(servers: seq<Server>) {
    forall i, j :: 0 <= i < j < |servers| ==> Rank(servers[i]) < Rank(servers[j])
  }

  lemma LastRanksHighest(servers: seq<Server>, s: Server)
    requires servers != [] && InOrder(servers) && s in DropLast(servers)
    ensures Rank(s) < Rank(Last(servers))
  {
    var i :| 0 <= i < |servers| - 1 && servers[i] == s;
  }

  lemma {:induction false} WithoutIsInOrder(servers: seq<Server>, skipped: set<Server>)
    requires InOrder(servers)
    ensures InOrder(Without(servers, skipped))
  {
    if servers != [] {
      var kept := Without(DropLast(servers), skipped);
      WithoutIsInOrder(DropLast(servers), skipped);
      WithoutIs(DropLast(servers), skipped);
      forall i | 0 <= i < |kept|
        ensures Rank(kept[i]) < Rank(Last(servers))
      {
        LastRanksHighest(servers, kept[i]);
      }
    }
  }

  /** The engines left for a model, in configured order. */
  lemma EnginesOfIs(m: Model, skipped: set<Server>)
    ensures InOrder(EnginesOf(m, skipped)) && |EnginesOf(m, skipped)| <= 3
    ensures forall s :: s in EnginesOf(m, skipped) <==> s !in skipped && !(m == QasrRt && s == SglOmni)
  {
    WithoutIsInOrder(Configured(m), skipped);
    WithoutIs(Configured(m), skipped);
    forall s
      ensures s in Configured(m) <==> !(m == QasrRt && s == SglOmni)
    {
      ConfiguredIs(m, s);
    }
  }

  /** The list read from position `a` on, round and round. */
  function Turned(servers: seq<Server>, a: int): seq<Server> {
    seq(|servers|, i requires 0 <= i < |servers| => servers[(i + a) % |servers|])
  }

  /** A model's engines in a round: those left, in configured order, starting one further each round. */
  function Block(m: Model, skipped: set<Server>, round: int): seq<Engine> {
    var servers := Turned(EnginesOf(m, skipped), round - 1);
    seq(|servers|, i requires 0 <= i < |servers| => Engine(m, servers[i]))
  }

  lemma {:induction false} EnginesAt(m: Model, servers: seq<Server>)
    ensures |Engines(m, servers)| == |servers|
    ensures forall i :: 0 <= i < |servers| ==> Engines(m, servers)[i] == Engine(m, servers[i])
  {
    if servers != [] {
      EnginesAt(m, DropLast(servers));
    }
  }

  lemma TurnAround(a: int, i: nat, n: nat)
    requires i < n <= 3
    ensures (i + a) % n == if i + a % n < n then i + a % n else i + a % n - n
  {
    if n == 1 {
    } else if n == 2 {
    } else {
      assert n == 3;
    }
  }

  lemma RotateAt(servers: seq<Server>, a: int, i: nat)
    requires i < |servers| <= 3
    ensures |Rotate(servers, a % |servers|)| == |servers|
    ensures Rotate(servers, a % |servers|)[i] == servers[(i + a) % |servers|]
  {
    TurnAround(a, i, |servers|);
  }

  lemma RotateTurns(servers: seq<Server>, a: int)
    requires 0 < |servers| <= 3
    ensures Rotate(servers, a % |servers|) == Turned(servers, a)
  {
    forall i | 0 <= i < |servers|
      ensures |Rotate(servers, a % |servers|)| == |servers|
      ensures Rotate(servers, a % |servers|)[i] == Turned(servers, a)[i]
    {
      RotateAt(servers, a, i);
    }
  }

  lemma BlockIsRotated(m: Model, skipped: set<Server>, round: int)
    requires EnginesOf(m, skipped) != []
    ensures var servers := EnginesOf(m, skipped);
            Engines(m, Rotate(servers, (round - 1) % |servers|)) == Block(m, skipped, round)
  {
    EnginesOfIs(m, skipped);
    RotateTurns(EnginesOf(m, skipped), round - 1);
    EnginesAt(m, Turned(EnginesOf(m, skipped), round - 1));
  }

  /** The order of a round: model by model, each with its engines rotated by the round. */
  function Blocks(models: seq<Model>, skipped: set<Server>, round: int): seq<Engine> {
    if models == [] then []
    else Blocks(DropLast(models), skipped, round) + Block(Last(models), skipped, round)
  }

  lemma {:induction false} OrderIs(models: seq<Model>, skipped: set<Server>, round: int)
    requires AllServed(models, skipped)
    ensures Order(models, skipped, round) == Blocks(models, skipped, round)
  {
    if models != [] {
      OrderIs(DropLast(models), skipped, round);
      BlockIsRotated(Last(models), skipped, round);
    }
  }

  /** The loop over the models; none is the ZeroDivisionError of a model without engines. */
  method SessionOrder(skipped: set<Server>, round: int) returns (order: Option<seq<Engine>>)
    ensures order == None <==> !AllServed(MODEL_ORDER, skipped)
    ensures order != None ==> order.value == Order(MODEL_ORDER, skipped, round)
  {
    var engines: seq<Engine> := [];
    for i := 0 to |MODEL_ORDER|
      invariant AllServed(MODEL_ORDER[..i], skipped) && engines == Order(MODEL_ORDER[..i], skipped, round)
    {
      var m := MODEL_ORDER[i];
      var servers := EnginesOf(m, skipped);
      if servers == [] {
        return None;
      }
      var k := (round - 1) % |servers|;
      engines := engines + Engines(m, servers[k..] + servers[..k]);
      LongerPrefix(MODEL_ORDER, i, i + 1);
      LastOfJoin(MODEL_ORDER[..i], [m]);
    }
    assert MODEL_ORDER[..|MODEL_ORDER|] == MODEL_ORDER;
    return Some(engines);
  }

  /** What the round's marker promises, in terms of what the session was told to skip: over all
      histories in which such a session wrote it, an engine is complete iff it is configured and
      not skipped. */
  lemma MarkerMeansIff(skipped: set<Server>, round: int, e: Engine)
    requires AllServed(MODEL_ORDER, skipped)
    ensures MarkerMeans(Order(MODEL_ORDER, skipped, round), e)
       <==> e.server !in skipped && !(e.model == QasrRt && e.server == SglOmni)
  {
    OrderHolds(skipped, round, e);
    MarkerCoversItsSession(Order(MODEL_ORDER, skipped, round), e);
  }
}
