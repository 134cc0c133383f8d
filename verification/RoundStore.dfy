/** The resumable timed rounds of the ASR benchmark (benchmark/asr318_run/run.py): result cells
    and done markers on disk, written by processes that may be killed between any two writes.

    Every write replaces one file atomically, so what a killed process leaves behind is the
    effect of a prefix of its writes. One round is modelled; rounds share no file. */
module RoundStore {

  import opened Cells

  datatype Model = Turbo | Large | Qasr | QasrRt
  datatype Server = Mstar | Vllm | SglOmni
  datatype Engine = Engine(model: Model, server: Server)

  /** The name of a result file inside an engine's directory. */
  datatype Stem = Conc(requests: nat) | LongSeq | LongPar | Realtime(sessions: nat)
  datatype Key = Key(engine: Engine, stem: Stem)

  /** The run directory of one round: cells, engine markers, the round's own marker. */
  datatype Disk = Disk(cells: map<Key, Cell>, done: set<Engine>, round: bool)

  const CONCS: seq<Stem> := [Conc(1), Conc(8), Conc(32), Conc(64)]
  const REALTIME: seq<Stem> := [Realtime(1), Realtime(8)]

  // ---------------------------------------------------------------- the disk and its writes

  predicate Good(cells: map<Key, Cell>, k: Key) {
    k in cells && cells[k].valid
  }

  /** A cell no run measures again: a valid one, or any realtime one. */
  predicate Settled(cells: map<Key, Cell>, k: Key) {
    k in cells && (k.stem.Realtime? || cells[k].valid)
  }

  ghost predicate AllGood(cells: map<Key, Cell>, e: Engine, stems: seq<Stem>) {
    forall s <- stems :: Good(cells, Key(e, s))
  }

  ghost predicate AllPresent(cells: map<Key, Cell>, e: Engine, stems: seq<Stem>) {
    forall s <- stems :: Key(e, s) in cells
  }

  ghost predicate Complete(cells: map<Key, Cell>, e: Engine) {
    AllGood(cells, e, CONCS)
  }

  /** What an engine's marker promises: valid concurrency cells and a long-form one. */
  ghost predicate Marked(cells: map<Key, Cell>, e: Engine) {
    Complete(cells, e) && Key(e, LongSeq) in cells
  }

  ghost predicate Sound(d: Disk) {
    forall e <- d.done :: Marked(d.cells, e)
  }

  /** `Finish` carries the engines of the session that wrote the round's marker. */
  datatype Write = Put(key: Key, cell: Cell) | Mark(engine: Engine) | Finish(order: seq<Engine>)

  function Apply(d: Disk, w: Write): Disk {
    match w
    case Put(k, c) => d.(cells := d.cells[k := c])
    case Mark(e) => d.(done := d.done + {e})
    case Finish(_) => d.(round := true)
  }

  function ApplyAll(d: Disk, ws: seq<Write>): Disk {
    if ws == [] then d else Apply(ApplyAll(d, ws[..|ws| - 1]), ws[|ws| - 1])
  }

  ghost predicate Safe(d: Disk, w: Write) {
    match w
    case Put(k, _) => !Good(d.cells, k)
    case Mark(e) => Marked(d.cells, e)
    case Finish(order) => AllIn(order, d.done)
  }

  ghost predicate SafeAll(d: Disk, ws: seq<Write>) {
    ws != [] ==> SafeAll(d, ws[..|ws| - 1]) && Safe(ApplyAll(d, ws[..|ws| - 1]), ws[|ws| - 1])
  }

  lemma OneMoreWrite(d: Disk, ws: seq<Write>, w: Write)
    ensures ApplyAll(d, ws + [w]) == Apply(ApplyAll(d, ws), w)
    ensures SafeAll(d, ws + [w]) <==> SafeAll(d, ws) && Safe(ApplyAll(d, ws), w)
  {
    assert (ws + [w])[..|ws|] == ws;
  }

  // ---------------------------------------------------------------- what the servers do

  datatype Answer = Yes | No | Raised

  /** One timed measurement: lost to an exception before its cell is written, or written; `after`
      is the health check that follows a concurrency cell, or an exception after the write. */
  datatype Measurement = Lost | Measured(replies: seq<Reply>, after: Answer)

  /** Everything one server process does to a run of its engine. */
  datatype Launch = Launch(start: Answer, smoke: Answer, collectRaised: bool, collectFailures: nat,
                           measure: Stem -> Measurement, stressRaised: bool, stressFailures: nat, stopRaised: bool)

  type RefBad = Model -> set<Uid>

  function Result(stem: Stem, replies: seq<Reply>, refBad: set<Uid>): Cell {
    if stem.Realtime? then Cell(false, [], ErrorCount(Records(replies)), 0, false) else CellOf(replies, refBad)
  }

  function AfterTask(cells: map<Key, Cell>, e: Engine, launch: Launch, refBad: set<Uid>, s: Stem): map<Key, Cell> {
    if Settled(cells, Key(e, s)) || launch.measure(s).Lost? then cells
    else cells[Key(e, s) := Result(s, launch.measure(s).replies, refBad)]
  }

  /** Cells after the run went through `tasks`: only unsettled ones are measured. */
  function AfterTasks(cells: map<Key, Cell>, e: Engine, launch: Launch, refBad: set<Uid>, tasks: seq<Stem>)
    : map<Key, Cell>
  {
    if tasks == [] then cells
    else AfterTask(AfterTasks(cells, e, launch, refBad, tasks[..|tasks| - 1]), e, launch, refBad, tasks[|tasks| - 1])
  }

  function LongModes(e: Engine): seq<Stem> {
    if e.server == Mstar && e.model in {Turbo, Large} then [LongSeq, LongPar] else [LongSeq]
  }

  function RealtimeModes(e: Engine, round: nat): seq<Stem> {
    if e.model == QasrRt && round <= 2 then REALTIME else []
  }

  function Tasks(e: Engine, round: nat): seq<Stem> {
    CONCS + LongModes(e) + RealtimeModes(e, round)
  }

  lemma OneMoreTask(cells: map<Key, Cell>, e: Engine, launch: Launch, refBad: set<Uid>, tasks: seq<Stem>, s: Stem)
    ensures AfterTasks(cells, e, launch, refBad, tasks + [s])
         == AfterTask(AfterTasks(cells, e, launch, refBad, tasks), e, launch, refBad, s)
  {
    assert (tasks + [s])[..|tasks|] == tasks;
  }

  lemma {:induction false} TasksCompose(cells: map<Key, Cell>, e: Engine, launch: Launch, refBad: set<Uid>,
                                        a: seq<Stem>, b: seq<Stem>)
    ensures AfterTasks(cells, e, launch, refBad, a + b)
         == AfterTasks(AfterTasks(cells, e, launch, refBad, a), e, launch, refBad, b)
    decreases |b|
  {
    if b == [] {
      assert a + b == a;
    } else {
      var rest, s := b[..|b| - 1], b[|b| - 1];
      TasksCompose(cells, e, launch, refBad, a, rest);
      assert a + b == (a + rest) + [s] && b == rest + [s];
      OneMoreTask(cells, e, launch, refBad, a + rest, s);
      OneMoreTask(AfterTasks(cells, e, launch, refBad, a), e, launch, refBad, rest, s);
    }
  }

  /** File by file: a run leaves alone what is valid and any realtime result, and replaces every
      other cell of its own tasks by the cell of this launch's replies. So an invalid long-form
      cell is measured again, although it fails nothing. */
  lemma {:induction false} TasksAt(cells: map<Key, Cell>, e: Engine, launch: Launch, refBad: set<Uid>,
                                   tasks: seq<Stem>, k: Key)
    ensures var (after, measured) := (AfterTasks(cells, e, launch, refBad, tasks), launch.measure(k.stem));
            if k.engine == e && k.stem in tasks && measured.Measured?
               && !(k in cells && (cells[k].valid || k.stem.Realtime?))
            then
              && k in after
              && after[k] == (if k.stem.Realtime?
                              then Cell(false, [], CellOf(measured.replies, refBad).errors, 0, false)
                              else CellOf(measured.replies, refBad))
            else (k in after <==> k in cells) && (k in cells ==> after[k] == cells[k])
  {
    if tasks != [] {
      var rest, s := tasks[..|tasks| - 1], tasks[|tasks| - 1];
      TasksAt(cells, e, launch, refBad, rest, k);
      assert tasks == rest + [s];
    }
  }

  /** The files of an engine's run: four concurrency levels, the long-form modes, and realtime
      sessions for the one realtime model in the first two rounds. */
  lemma TasksAre(e: Engine, round: nat, s: Stem)
    ensures s in Tasks(e, round)
       <==> || s in {Conc(1), Conc(8), Conc(32), Conc(64), LongSeq}
            || (s == LongPar && e.server == Mstar && (e.model == Turbo || e.model == Large))
            || (s in {Realtime(1), Realtime(8)} && e.model == QasrRt && round <= 2)
  {
    var longs, rts := LongModes(e), RealtimeModes(e, round);
    assert s in Tasks(e, round) <==> s in CONCS || s in longs || s in rts;
  }

  /** The new cell of a level is valid iff all its replies pass. */
  lemma LevelIsGood(cells: map<Key, Cell>, e: Engine, launch: Launch, refBad: set<Uid>, round: nat, s: Stem)
    requires s in CONCS
    ensures Good(AfterTasks(cells, e, launch, refBad, Tasks(e, round)), Key(e, s))
       <==> Good(cells, Key(e, s))
            || (launch.measure(s).Measured? && forall r <- launch.measure(s).replies :: Passes(r, refBad))
  {
    assert s.Conc? && s in Tasks(e, round);
    TasksAt(cells, e, launch, refBad, Tasks(e, round), Key(e, s));
    if launch.measure(s).Measured? {
      ValidIff(launch.measure(s).replies, refBad);
    }
  }

  /** The engine ends the round complete iff every concurrency level was valid before or is now
      measured with every reply passing, or failing on content only where the reference does. */
  lemma CompleteIff(cells: map<Key, Cell>, e: Engine, launch: Launch, refBad: set<Uid>, round: nat)
    ensures Complete(AfterTasks(cells, e, launch, refBad, Tasks(e, round)), e)
       <==> forall s <- [Conc(1), Conc(8), Conc(32), Conc(64)] ::
              Good(cells, Key(e, s))
              || (launch.measure(s).Measured? && forall r <- launch.measure(s).replies :: Passes(r, refBad))
  {
    forall s <- CONCS
      ensures Good(AfterTasks(cells, e, launch, refBad, Tasks(e, round)), Key(e, s))
         <==> Good(cells, Key(e, s))
              || (launch.measure(s).Measured? && forall r <- launch.measure(s).replies :: Passes(r, refBad))
    {
      LevelIsGood(cells, e, launch, refBad, round, s);
    }
  }

  // ---------------------------------------------------------------- re-judging

  /** `rejudge_cells` on one file: long-form cells stay as judged. */
  function RejudgedAt(k: Key, c: Cell, refBad: RefBad): Cell {
    if k.stem.LongSeq? || k.stem.LongPar? then c else Rejudged(c, refBad(k.engine.model))
  }

  /** What re-judging demands before it marks an engine: the expected files, and no invalid one. */
  predicate AllValid(cells: map<Key, Cell>, e: Engine) {
    && (forall s <- CONCS + [LongSeq] :: Key(e, s) in cells)
    && (forall k <- cells.Keys :: k.engine == e ==> cells[k].valid)
  }

  /** Re-judging marks an engine iff its five expected files are there and every file it has is valid. */
  lemma AllValidIff(cells: map<Key, Cell>, e: Engine)
    ensures AllValid(cells, e)
       <==> && (forall s <- {Conc(1), Conc(8), Conc(32), Conc(64), LongSeq} :: Key(e, s) in cells)
            && (forall k <- cells :: k.engine == e ==> cells[k].valid)
  {
    assert forall s :: s in CONCS + [LongSeq] <==> s in {Conc(1), Conc(8), Conc(32), Conc(64), LongSeq};
  }

  /** A marker promises four valid concurrency cells, and a long-form cell of any verdict. */
  lemma MarkedIff(cells: map<Key, Cell>, e: Engine)
    ensures Marked(cells, e)
       <==> && (forall s <- {Conc(1), Conc(8), Conc(32), Conc(64)} :: Key(e, s) in cells && cells[Key(e, s)].valid)
            && Key(e, LongSeq) in cells
  {
    assert forall s :: s in CONCS <==> s in {Conc(1), Conc(8), Conc(32), Conc(64)};
  }

  predicate AllIn(order: seq<Engine>, done: set<Engine>) {
    forall e <- order :: e in done
  }

  lemma OneMoreIn(order: seq<Engine>, i: nat, had: set<Engine>, done: set<Engine>)
    requires i < |order| && had <= done
    ensures AllIn(order[..i], had) && order[i] in done ==> AllIn(order[..i + 1], done)
  {
    assert order[..i + 1] == order[..i] + [order[i]];
  }

  /** The server came up, answered, and nothing raised or failed beside the measurements. */
  predicate RanClean(launch: Launch) {
    && launch.start.Yes? && launch.smoke.Yes? && !launch.stopRaised
    && !launch.collectRaised && launch.collectFailures == 0
    && !launch.stressRaised && launch.stressFailures == 0
  }

  function RejudgedAll(cells: map<Key, Cell>, refBad: RefBad): map<Key, Cell> {
    map k | k in cells :: RejudgedAt(k, cells[k], refBad)
  }

  // ---------------------------------------------------------------- one process

  datatype End = Through(okAll: bool) | Returned | Thrown

  class Process {
    const round: nat
    const refBad: RefBad
    ghost const start: Disk
    var cells: map<Key, Cell>
    var done: set<Engine>
    var finished: bool
    var failures: nat
    ghost var log: seq<Write>

    ghost function Now(): Disk
      reads this
    {
      Disk(cells, done, finished)
    }

    /** Every write so far was safe, and the disk is what they made of the one found. */
    ghost predicate Valid()
      reads this
    {
      SafeAll(start, log) && Now() == ApplyAll(start, log)
    }

    constructor (found: Disk, round: nat, refBad: RefBad)
      ensures Valid() && Now() == found == start && log == [] && failures == 0
      ensures this.round == round && this.refBad == refBad
    {
      this.round, this.refBad, start := round, refBad, found;
      cells, done, finished, failures, log := found.cells, found.done, found.round, 0, [];
    }

    method Put(k: Key, c: Cell)
      requires Valid() && !Good(cells, k)
      modifies this`cells, this`log
      ensures Valid() && cells == old(cells)[k := c] && log == old(log) + [Write.Put(k, c)]
    {
      OneMoreWrite(start, log, Write.Put(k, c));
      cells, log := cells[k := c], log + [Write.Put(k, c)];
    }

    method Mark(e: Engine)
      requires Valid() && Marked(cells, e)
      modifies this`done, this`log
      ensures Valid() && done == old(done) + {e} && log == old(log) + [Write.Mark(e)]
    {
      OneMoreWrite(start, log, Write.Mark(e));
      done, log := done + {e}, log + [Write.Mark(e)];
    }

    method Finish(ghost order: seq<Engine>)
      requires Valid() && AllIn(order, done)
      modifies this`finished, this`log
      ensures Valid() && finished && log == old(log) + [Write.Finish(order)]
    {
      OneMoreWrite(start, log, Write.Finish(order));
      finished, log := true, log + [Write.Finish(order)];
    }

    /** One pass of a measuring loop: nothing for a settled cell, else measure and write. */
    method MeasureOne(e: Engine, launch: Launch, s: Stem) returns (after: Answer, ok: bool)
      requires Valid()
      modifies this`cells, this`log
      ensures Valid() && old(log) <= log
      ensures cells == AfterTask(old(cells), e, launch, refBad(e.model), s)
      ensures !after.Raised? ==> Key(e, s) in cells
      ensures !after.Raised? && s.Conc? ==> (ok <==> Good(cells, Key(e, s)))
    {
      if Settled(cells, Key(e, s)) {
        return Yes, true;
      }
      var m := launch.measure(s);
      if m.Lost? {
        return Raised, false;
      }
      if s.Realtime? {
        Put(Key(e, s), Cell(false, [], ErrorCount(Records(m.replies)), 0, false));
        return m.after, true;
      }
      var res := MakeCell(m.replies, refBad(e.model));
      Put(Key(e, s), res);
      return m.after, res.valid;
    }

    /** One concurrency level: an invalid cell and a failed health check are failures. */
    method MeasureLevel(e: Engine, launch: Launch, s: Stem) returns (after: Answer, ok: bool)
      requires Valid() && s.Conc?
      modifies this`cells, this`failures, this`log
      ensures Valid() && old(log) <= log
      ensures cells == AfterTask(old(cells), e, launch, refBad(e.model), s)
      ensures !after.Raised? ==> (ok <==> Good(cells, Key(e, s)))
      ensures failures == old(failures) + (if after.Raised? || ok then 0 else 1) + (if after.No? then 1 else 0)
    {
      after, ok := MeasureOne(e, launch, s);
      if after.Raised? {
        return;
      }
      if !ok {
        failures := failures + 1;
      }
      if after.No? {
        failures := failures + 1;
      }
    }

    /** The loop over concurrency levels; `reached` levels were passed, or written last. */
    method MeasureConcs(e: Engine, launch: Launch, levels: seq<Stem>) returns (end: End, ghost reached: nat)
      requires Valid()
      requires forall i, j | 0 <= i < j < |levels| :: levels[i] != levels[j]
      requires forall s <- levels :: s.Conc?
      modifies this`cells, this`failures, this`log
      ensures Valid() && old(log) <= log && reached <= |levels|
      ensures cells == AfterTasks(old(cells), e, launch, refBad(e.model), levels[..reached])
      ensures failures >= old(failures)
      ensures end.Through? ==> reached == |levels|
      ensures end.Through? ==> (end.okAll <==> AllGood(cells, e, levels))
      ensures end.Through? ==> (end.okAll <==> failures == old(failures))
      ensures end.Returned? ==> failures > old(failures)
    {
      ghost var before := cells;
      var okAll := true;
      reached := 0;
      for i := 0 to |levels|
        invariant Valid() && old(log) <= log && reached == i
        invariant cells == AfterTasks(before, e, launch, refBad(e.model), levels[..i])
        invariant failures >= old(failures)
        invariant okAll <==> AllGood(cells, e, levels[..i])
        invariant okAll <==> failures == old(failures)
      {
        var s := levels[i];
        NextLevel(before, e, launch, refBad(e.model), levels, i);
        var after, ok := MeasureLevel(e, launch, s);
        if after.Raised? {
          return Thrown, i + 1;
        }
        if after.No? {
          return Returned, i + 1;
        }
        okAll := okAll && ok;
        reached := i + 1;
      }
      assert levels[..|levels|] == levels;
      end := Through(okAll);
    }

    /** The loops over long-form modes and realtime sessions: verdicts there fail nothing. */
    method MeasureOthers(e: Engine, launch: Launch, stems: seq<Stem>) returns (raised: bool, ghost reached: nat)
      requires Valid() && forall s <- stems :: !s.Conc?
      modifies this`cells, this`log
      ensures Valid() && old(log) <= log && reached <= |stems|
      ensures cells == AfterTasks(old(cells), e, launch, refBad(e.model), stems[..reached])
      ensures !raised ==> reached == |stems| && AllPresent(cells, e, stems)
      ensures old(cells.Keys) <= cells.Keys && (Complete(cells, e) <==> old(Complete(cells, e)))
    {
      ghost var before := cells;
      raised, reached := false, 0;
      for i := 0 to |stems|
        invariant Valid() && old(log) <= log && reached == i && !raised
        invariant cells == AfterTasks(before, e, launch, refBad(e.model), stems[..i])
        invariant AllPresent(cells, e, stems[..i])
      {
        NextStem(before, e, launch, refBad(e.model), stems, i);
        var after, ok := MeasureOne(e, launch, stems[i]);
        reached := i + 1;
        if after.Raised? {
          raised := true;
          break;
        }
      }
      assert stems[..|stems|] == stems;
      TasksKeepConcs(before, e, launch, refBad(e.model), stems[..reached]);
    }

    /** The long-form loop, then the realtime loop. */
    method MeasureRest(e: Engine, launch: Launch) returns (raised: bool, ghost reached: seq<Stem>)
      requires Valid()
      modifies this`cells, this`log
      ensures Valid() && old(log) <= log && reached <= LongModes(e) + RealtimeModes(e, round)
      ensures cells == AfterTasks(old(cells), e, launch, refBad(e.model), reached)
      ensures !raised ==> reached == LongModes(e) + RealtimeModes(e, round) && Key(e, LongSeq) in cells
      ensures Complete(cells, e) <==> old(Complete(cells, e))
    {
      ghost var before, longs, rts := cells, LongModes(e), RealtimeModes(e, round);
      ghost var n;
      raised, n := MeasureOthers(e, launch, LongModes(e));
      reached := longs[..n];
      if raised {
        TasksArePrefix(reached, longs, rts);
        return;
      }
      assert reached == longs && LongSeq in longs;
      raised, n := MeasureOthers(e, launch, RealtimeModes(e, round));
      TasksCompose(before, e, launch, refBad(e.model), longs, rts[..n]);
      reached := longs + rts[..n];
      assert n == |rts| ==> rts[..n] == rts;
    }

    /** The three measuring loops, in order. */
    method MeasureAll(e: Engine, launch: Launch) returns (end: End, ghost reached: seq<Stem>)
      requires Valid()
      modifies this`cells, this`failures, this`log
      ensures Valid() && old(log) <= log && failures >= old(failures)
      ensures reached <= Tasks(e, round)
      ensures cells == AfterTasks(old(cells), e, launch, refBad(e.model), reached)
      ensures end.Through? ==> reached == Tasks(e, round) && Key(e, LongSeq) in cells
      ensures end.Through? ==> (end.okAll <==> Complete(cells, e)) && (end.okAll <==> failures == old(failures))
      ensures end.Returned? ==> failures > old(failures)
    {
      ghost var before, levels, more := cells, CONCS, LongModes(e) + RealtimeModes(e, round);
      assert Tasks(e, round) == levels + more;
      ghost var n;
      end, n := MeasureConcs(e, launch, CONCS);
      reached := levels[..n];
      if !end.Through? {
        TasksArePrefix(reached, levels, more);
        return;
      }
      assert reached == levels && Complete(cells, e) == end.okAll;
      ghost var rest;
      var raised;
      raised, rest := MeasureRest(e, launch);
      TasksCompose(before, e, launch, refBad(e.model), levels, rest);
      reached := levels + rest;
      if raised {
        end := Thrown;
      }
    }

    /** The body of the `with serving(...)` block. */
    method Serve(e: Engine, launch: Launch) returns (end: End, ghost reached: seq<Stem>)
      requires Valid()
      modifies this`cells, this`failures, this`log
      ensures Valid() && old(log) <= log && failures >= old(failures)
      ensures reached <= Tasks(e, round)
      ensures cells == AfterTasks(old(cells), e, launch, refBad(e.model), reached)
      ensures end.Through? ==> reached == Tasks(e, round) && Key(e, LongSeq) in cells
      ensures end.Through? ==> (end.okAll <==> Complete(cells, e))
      ensures end.Through? && failures == old(failures) ==> end.okAll
      ensures end.Through? ==> launch.start.Yes? && launch.smoke.Yes? && !launch.collectRaised && !launch.stressRaised
      ensures end.Through? ==> failures >= old(failures) + launch.collectFailures + launch.stressFailures
      ensures end.Returned? ==> failures > old(failures)
    {
      reached := [];
      if launch.start.Raised? {
        return Thrown, [];
      }
      if launch.start.No? {
        failures := failures + 1;
        return Returned, [];
      }
      if launch.smoke.Raised? {
        return Thrown, [];
      }
      if launch.smoke.No? {
        failures := failures + 1;
        return Returned, [];
      }
      failures := failures + launch.collectFailures;
      if launch.collectRaised {
        return Thrown, [];
      }
      end, reached := MeasureAll(e, launch);
      if end.Through? {
        failures := failures + launch.stressFailures;
        if launch.stressRaised {
          end := Thrown;
        }
      }
    }

    /** `run_engine_round`: the cells it leaves, and a marker exactly when it got through and
        every concurrency cell on disk is valid. A run that neither raises nor records a failure
        marks its engine. */
    method RunEngineRound(e: Engine, launch: Launch)
      returns (raised: bool, ghost through: bool, ghost reached: seq<Stem>)
      requires Valid()
      modifies this`cells, this`done, this`failures, this`log
      ensures Valid() && old(log) <= log && failures >= old(failures)
      ensures reached <= Tasks(e, round) && (through ==> reached == Tasks(e, round))
      ensures cells == AfterTasks(old(cells), e, launch, refBad(e.model), reached)
      ensures done == if through && Complete(cells, e) then old(done) + {e} else old(done)
      ensures old(e in done) ==> log == old(log) && !raised && failures == old(failures)
      ensures !raised && failures == old(failures) ==> e in done && (e in old(done) || RanClean(launch))
    {
      raised, through, reached := false, false, [];
      if e in done {
        return;
      }
      var end;
      end, reached := Serve(e, launch);
      if end.Thrown? || launch.stopRaised {
        raised := true;
        return;
      }
      if end.Returned? {
        return;
      }
      through := true;
      if end.okAll {
        Mark(e);
      }
    }

    /** One pass of the session's loop: an exception is a failure. */
    method RunOne(e: Engine, launch: Launch)
      requires Valid()
      modifies this`cells, this`done, this`failures, this`log
      ensures Valid() && old(log) <= log && failures >= old(failures) && old(done) <= done
      ensures done <= old(done) + {e}
      ensures failures == old(failures) ==> e in done && (e in old(done) || RanClean(launch))
    {
      var raised;
      ghost var through, reached;
      raised, through, reached := RunEngineRound(e, launch);
      if raised {
        failures := failures + 1;
      }
    }

    /** The loop over the session's engines. */
    method RunSession(order: seq<Engine>, launches: Engine -> Launch)
      requires Valid()
      modifies this`cells, this`done, this`failures, this`log
      ensures Valid() && old(log) <= log && failures >= old(failures)
      ensures failures == old(failures) ==> AllIn(order, done)
      ensures failures == old(failures) ==> forall e <- order :: e in old(done) || RanClean(launches(e))
    {
      for i := 0 to |order|
        invariant Valid() && old(log) <= log && failures >= old(failures)
        invariant failures == old(failures) ==> AllIn(order[..i], done)
        invariant failures == old(failures) ==> forall e <- done :: e in old(done) || RanClean(launches(e))
      {
        ghost var had := done;
        RunOne(order[i], launches(order[i]));
        OneMoreIn(order, i, had, done);
      }
      assert order[..|order|] == order;
    }

    /** `phase_round`: re-judge, run the session's engines in order, and write the round's marker
        iff this process has recorded no failure. Exit status 0 means every engine is marked. */
    method PhaseRound(order: seq<Engine>, launches: Engine -> Launch, cleared: bool, gpusFree: bool) returns (rc: nat)
      requires Valid()
      modifies this`cells, this`done, this`finished, this`failures, this`log
      ensures Valid() && old(log) <= log && failures >= old(failures)
      ensures rc == 2 <==> !cleared || !gpusFree
      ensures !cleared ==> log == old(log)
      ensures rc != 0 ==> finished == old(finished)
      ensures rc == 0 <==> cleared && gpusFree && failures == 0
      ensures rc == 0 ==> finished && AllIn(order, done)
      ensures rc == 0 ==> forall e <- order ::
                e in old(done) || AllValid(RejudgedAll(old(cells), refBad), e) || RanClean(launches(e))
      ensures rc == 0 || rc == 2 || rc == 3
    {
      if !cleared {
        return 2;
      }
      RejudgeCells();
      if !gpusFree {
        return 2;
      }
      ghost var marked := done;
      RunSession(order, launches);
      assert forall e <- marked :: e in old(done) || AllValid(RejudgedAll(old(cells), refBad), e);
      if failures == 0 {
        Finish(order);
        return 0;
      }
      return 3;
    }

    /** `rejudge_cells`: every file is re-judged on its own; then the engines left with the
        expected files and nothing invalid are marked. */
    method RejudgeCells()
      requires Valid()
      modifies this`cells, this`done, this`log
      ensures Valid() && old(log) <= log
      ensures cells == map k | k in old(cells) ::
                if k.stem == LongSeq || k.stem == LongPar then old(cells)[k]
                else Rejudged(old(cells)[k], refBad(k.engine.model))
      ensures forall e :: e in done <==> e in old(done) || AllValid(cells, e)
    {
      RejudgeFiles();
      var left := set k | k in cells :: k.engine;
      ghost var before, files := done, cells;
      forall e | AllValid(cells, e)
        ensures e in left
      {
        HasDirectory(cells, e);
      }
      while left != {}
        invariant Valid() && old(log) <= log && cells == files
        invariant forall e :: e in done <==> e in before || (AllValid(cells, e) && e !in left)
        decreases |left|
      {
        var e :| e in left;
        left := left - {e};
        if e !in done && AllValid(cells, e) {
          AllValidIsMarked(cells, e);
          Mark(e);
        }
      }
    }

    method RejudgeFiles()
      requires Valid()
      modifies this`cells, this`log
      ensures Valid() && old(log) <= log
      ensures cells == map k | k in old(cells) :: RejudgedAt(k, old(cells)[k], refBad)
    {
      ghost var before := cells;
      var left := cells.Keys;
      while left != {}
        invariant Valid() && old(log) <= log
        invariant cells.Keys == before.Keys && left <= cells.Keys
        invariant forall k <- cells.Keys ::
                    cells[k] == if k in left then before[k] else RejudgedAt(k, before[k], refBad)
        decreases |left|
      {
        var k :| k in left;
        left := left - {k};
        if !k.stem.LongSeq? && !k.stem.LongPar? {
          var c := RejudgeCell(cells[k], refBad(k.engine.model));
          if c.valid && !cells[k].valid {
            Put(k, c);
          }
        }
      }
    }
  }

  lemma OneMoreGood(had: map<Key, Cell>, cells: map<Key, Cell>, e: Engine, launch: Launch, refBad: set<Uid>,
                    stems: seq<Stem>, s: Stem)
    requires cells == AfterTask(had, e, launch, refBad, s) && s !in stems
    ensures AllGood(cells, e, stems + [s]) <==> AllGood(had, e, stems) && Good(cells, Key(e, s))
  {
    forall t <- stems
      ensures Good(cells, Key(e, t)) <==> Good(had, Key(e, t))
    {
      assert Key(e, t) != Key(e, s);
    }
    if AllGood(cells, e, stems + [s]) {
      forall t | t in stems || t == s
        ensures Good(cells, Key(e, t))
      {
        assert t in stems + [s];
      }
    }
  }

  lemma NextLevel(before: map<Key, Cell>, e: Engine, launch: Launch, refBad: set<Uid>, levels: seq<Stem>, i: nat)
    requires i < |levels| && forall j | 0 <= j < i :: levels[j] != levels[i]
    ensures var (had, cells) := (AfterTasks(before, e, launch, refBad, levels[..i]),
                                 AfterTasks(before, e, launch, refBad, levels[..i + 1]));
            && cells == AfterTask(had, e, launch, refBad, levels[i])
            && (AllGood(cells, e, levels[..i + 1]) <==> AllGood(had, e, levels[..i]) && Good(cells, Key(e, levels[i])))
  {
    var had := AfterTasks(before, e, launch, refBad, levels[..i]);
    assert levels[..i + 1] == levels[..i] + [levels[i]];
    OneMoreTask(before, e, launch, refBad, levels[..i], levels[i]);
    OneMoreGood(had, AfterTask(had, e, launch, refBad, levels[i]), e, launch, refBad, levels[..i], levels[i]);
  }

  lemma NextStem(before: map<Key, Cell>, e: Engine, launch: Launch, refBad: set<Uid>, stems: seq<Stem>, i: nat)
    requires i < |stems|
    ensures var (had, cells) := (AfterTasks(before, e, launch, refBad, stems[..i]),
                                 AfterTasks(before, e, launch, refBad, stems[..i + 1]));
            && cells == AfterTask(had, e, launch, refBad, stems[i])
            && (AllPresent(had, e, stems[..i]) && Key(e, stems[i]) in cells ==> AllPresent(cells, e, stems[..i + 1]))
  {
    assert stems[..i + 1] == stems[..i] + [stems[i]];
    OneMoreTask(before, e, launch, refBad, stems[..i], stems[i]);
  }

  /** Tasks without a concurrency level lose no file and leave the levels alone. */
  lemma TasksKeepConcs(cells: map<Key, Cell>, e: Engine, launch: Launch, refBad: set<Uid>, tasks: seq<Stem>)
    requires forall s <- tasks :: !s.Conc?
    ensures var after := AfterTasks(cells, e, launch, refBad, tasks);
            cells.Keys <= after.Keys && (Complete(after, e) <==> Complete(cells, e))
  {
    var after := AfterTasks(cells, e, launch, refBad, tasks);
    forall k <- cells.Keys
      ensures k in after
    {
      TasksAt(cells, e, launch, refBad, tasks, k);
    }
    forall s <- CONCS
      ensures Good(after, Key(e, s)) <==> Good(cells, Key(e, s))
    {
      assert s.Conc?;
      TasksAt(cells, e, launch, refBad, tasks, Key(e, s));
    }
  }

  lemma TasksArePrefix(part: seq<Stem>, whole: seq<Stem>, more: seq<Stem>)
    requires part <= whole
    ensures part <= whole + more
  {
  }

  lemma AllValidIsMarked(cells: map<Key, Cell>, e: Engine)
    requires AllValid(cells, e)
    ensures Marked(cells, e)
  {
    var long := LongSeq;
    assert long in CONCS + [LongSeq];
    forall s <- CONCS
      ensures Good(cells, Key(e, s))
    {
      assert s in CONCS + [LongSeq];
      assert Key(e, s).engine == e;
    }
  }

  lemma HasDirectory(cells: map<Key, Cell>, e: Engine)
    requires AllValid(cells, e)
    ensures exists k <- cells.Keys :: k.engine == e
  {
    var s := LongSeq;
    assert s in CONCS + [LongSeq];
    assert Key(e, s) in cells.Keys && Key(e, s).engine == e;
  }
}
