/** What survives on disk over any sequence of processes (benchmark/asr318_run/run.py), each killed
    between any two of its writes or not at all. */
module RoundHistory {
  import opened Cells
  import opened RoundStore

  lemma {:induction false} PrefixIsSafe(d: Disk, ws: seq<Write>, n: nat)
    requires SafeAll(d, ws) && n <= |ws|
    ensures SafeAll(d, ws[..n])
    decreases |ws|
  {
    if n < |ws| {
      var rest := ws[..|ws| - 1];
      PrefixIsSafe(d, rest, n);
      assert rest[..n] == ws[..n];
    } else {
      assert ws[..n] == ws;
    }
  }

  /** Later disk `b` keeps everything valid or marked on earlier disk `a`. */
  ghost predicate Keeps(a: Disk, b: Disk) {
    && a.done <= b.done
    && a.cells.Keys <= b.cells.Keys
    && (a.round ==> b.round)
    && (forall k <- a.cells.Keys :: a.cells[k].valid ==> b.cells[k] == a.cells[k])
  }

  lemma MarkedStays(a: Disk, b: Disk, e: Engine)
    requires Keeps(a, b) && Marked(a.cells, e)
    ensures Marked(b.cells, e)
  {
    forall s <- CONCS
      ensures Good(b.cells, Key(e, s))
    {
      assert Good(a.cells, Key(e, s));
    }
  }

  lemma StepKeeps(d: Disk, w: Write)
    requires Safe(d, w)
    ensures Keeps(d, Apply(d, w)) && (Sound(d) ==> Sound(Apply(d, w)))
  {
    var after := Apply(d, w);
    if Sound(d) {
      forall e <- after.done
        ensures Marked(after.cells, e)
      {
        MarkedStays(d, after, e);
      }
    }
  }

  lemma {:induction false} WritesKeep(d: Disk, ws: seq<Write>)
    requires SafeAll(d, ws)
    ensures Keeps(d, ApplyAll(d, ws)) && (Sound(d) ==> Sound(ApplyAll(d, ws)))
  {
    if ws != [] {
      WritesKeep(d, ws[..|ws| - 1]);
      StepKeeps(ApplyAll(d, ws[..|ws| - 1]), ws[|ws| - 1]);
    }
  }

  /** A process that was killed after `kept` of the writes it made, or would have made. */
  datatype Life = Life(writes: seq<Write>, kept: nat)

  function DiskAfter(d: Disk, lives: seq<Life>): Disk
    requires forall l <- lives :: l.kept <= |l.writes|
  {
    if lives == [] then d
    else
      var last := lives[|lives| - 1];
      ApplyAll(DiskAfter(d, lives[..|lives| - 1]), last.writes[..last.kept])
  }

  /** Every process wrote safely from the disk it found. */
  ghost predicate Legal(d: Disk, lives: seq<Life>) {
    && (forall l <- lives :: l.kept <= |l.writes|)
    && (lives != [] ==> Legal(d, lives[..|lives| - 1])
                        && SafeAll(DiskAfter(d, lives[..|lives| - 1]), lives[|lives| - 1].writes))
  }

  /** Any process of this model may be the next one, killed at any point. */
  lemma AnyCrashIsLegal(d: Disk, lives: seq<Life>, p: Process, kept: nat)
    requires Legal(d, lives) && p.Valid() && p.start == DiskAfter(d, lives) && kept <= |p.log|
    ensures Legal(d, lives + [Life(p.log, kept)])
    ensures DiskAfter(d, lives + [Life(p.log, kept)]) == ApplyAll(p.start, p.log[..kept])
  {
    assert (lives + [Life(p.log, kept)])[..|lives|] == lives;
  }

  lemma {:induction false} HistoryKeeps(d: Disk, lives: seq<Life>, n: nat)
    requires Legal(d, lives) && n <= |lives|
    ensures Legal(d, lives[..n])
    ensures Keeps(DiskAfter(d, lives[..n]), DiskAfter(d, lives))
    decreases |lives|
  {
    if n == |lives| {
      assert lives[..n] == lives;
    } else {
      var rest, last := lives[..|lives| - 1], lives[|lives| - 1];
      HistoryKeeps(d, rest, n);
      assert rest[..n] == lives[..n];
      PrefixIsSafe(DiskAfter(d, rest), last.writes, last.kept);
      WritesKeep(DiskAfter(d, rest), last.writes[..last.kept]);
    }
  }

  /** Over any sequence of runs, crashes and re-judgings, an engine's marker implies that all its
      concurrency cells on disk are valid. */
  lemma {:induction false} EveryHistoryIsSound(d: Disk, lives: seq<Life>)
    requires Legal(d, lives) && Sound(d)
    ensures Sound(DiskAfter(d, lives))
    ensures forall e <- DiskAfter(d, lives).done ::
              && Key(e, LongSeq) in DiskAfter(d, lives).cells
              && forall s <- {Conc(1), Conc(8), Conc(32), Conc(64)} :: Good(DiskAfter(d, lives).cells, Key(e, s))
  {
    if lives != [] {
      var rest, last := lives[..|lives| - 1], lives[|lives| - 1];
      EveryHistoryIsSound(d, rest);
      PrefixIsSafe(DiskAfter(d, rest), last.writes, last.kept);
      WritesKeep(DiskAfter(d, rest), last.writes[..last.kept]);
    }
    forall e <- DiskAfter(d, lives).done
      ensures Marked(DiskAfter(d, lives).cells, e)
    {
      MarkedIff(DiskAfter(d, lives).cells, e);
    }
  }

  /** A cell once valid on disk is that same cell ever after: never overwritten, re-timed or lost. */
  lemma ValidCellsSurvive(d: Disk, lives: seq<Life>, n: nat, k: Key)
    requires Legal(d, lives) && n <= |lives|
    requires Legal(d, lives[..n]) && Good(DiskAfter(d, lives[..n]).cells, k)
    ensures Good(DiskAfter(d, lives).cells, k)
    ensures DiskAfter(d, lives).cells[k] == DiskAfter(d, lives[..n]).cells[k]
  {
    HistoryKeeps(d, lives, n);
  }

  /** Whenever the round's marker was written, every engine of that session is complete from
      then on, whatever happens later. */
  lemma FinishedMeansComplete(d: Disk, lives: seq<Life>, n: nat, j: nat, e: Engine)
    requires Legal(d, lives) && Sound(d) && n < |lives| && j < lives[n].kept
    requires lives[n].writes[j].Finish? && e in lives[n].writes[j].order
    ensures DiskAfter(d, lives).round && Marked(DiskAfter(d, lives).cells, e)
  {
    HistoryKeeps(d, lives, n + 1);
    HistoryKeeps(d, lives, n);
    var l, before := lives[n], DiskAfter(d, lives[..n]);
    assert lives[..n + 1][..n] == lives[..n];
    EveryHistoryIsSound(d, lives[..n + 1]);
    FinishedIsDone(before, l.writes, l.kept, j, e);
    MarkedStays(DiskAfter(d, lives[..n + 1]), DiskAfter(d, lives), e);
  }

  lemma {:induction false} FinishedIsDone(d: Disk, ws: seq<Write>, kept: nat, j: nat, e: Engine)
    requires SafeAll(d, ws) && j < kept <= |ws| && ws[j].Finish? && e in ws[j].order
    ensures e in ApplyAll(d, ws[..kept]).done && ApplyAll(d, ws[..kept]).round
    decreases kept
  {
    PrefixIsSafe(d, ws, kept);
    var now, rest := ws[..kept], ws[..kept - 1];
    assert now[..kept - 1] == rest;
    StepKeeps(ApplyAll(d, rest), now[kept - 1]);
    if j < kept - 1 {
      FinishedIsDone(d, ws, kept - 1, j, e);
    }
  }

  /** Some process of the history, for a session of `order`, wrote the round's marker and was not
      killed before. */
  ghost predicate SessionFinished(lives: seq<Life>, order: seq<Engine>) {
    exists n, j :: 0 <= n < |lives| && 0 <= j < lives[n].kept <= |lives[n].writes|
                   && lives[n].writes[j] == Finish(order)
  }

  /** The round's marker, written by a session of `order`, means that engine `e` is complete:
      over every history in which it was. */
  ghost predicate MarkerMeans(order: seq<Engine>, e: Engine) {
    forall d: Disk, lives: seq<Life> ::
      Legal(d, lives) && Sound(d) && SessionFinished(lives, order) ==> Marked(DiskAfter(d, lives).cells, e)
  }

  const FINE_REPLY: Reply := Reply("utterance", false, 1, 1, 0.0)

  /** A valid cell: its one reply passes the content check. */
  ghost function FineCell(): (c: Cell)
    ensures c.valid
  {
    ValidIff([FINE_REPLY], {});
    CellOf([FINE_REPLY], {})
  }

  /** A disk that holds what the markers of exactly the engines of `order` promise. */
  ghost function DiskOf(order: seq<Engine>): (d: Disk)
    ensures Sound(d) && AllIn(order, d.done) && forall k <- d.cells.Keys :: k.engine in order
  {
    var keys := set e <- order, s <- CONCS + [LongSeq] :: Key(e, s);
    var d := Disk(map k <- keys :: FineCell(), set e | e in order, false);
    assert forall e <- order, s <- CONCS + [LongSeq] :: Key(e, s) in d.cells.Keys;
    assert forall s <- CONCS :: s in CONCS + [LongSeq];
    assert LongSeq in CONCS + [LongSeq];
    d
  }

  /** The history of one process that finds every engine of its session done and marks the round. */
  ghost function JustFinish(order: seq<Engine>): seq<Life> {
    [Life([Finish(order)], 1)]
  }

  lemma JustFinishIsLegal(order: seq<Engine>)
    ensures Legal(DiskOf(order), JustFinish(order)) && SessionFinished(JustFinish(order), order)
    ensures DiskAfter(DiskOf(order), JustFinish(order)) == DiskOf(order).(round := true)
  {
    var d, writes, lives := DiskOf(order), [Write.Finish(order)], JustFinish(order);
    assert writes[..0] == [] && writes[..1] == writes && lives[..0] == [];
    assert lives[0].writes[0] == Finish(order);
    assert ApplyAll(d, writes) == Apply(d, writes[0]);
  }

  /** The round's marker speaks for exactly the engines of the session that wrote it: for an engine
      left out, some history ends with the marker and without a single cell of it. */
  lemma MarkerCoversItsSession(order: seq<Engine>, e: Engine)
    ensures MarkerMeans(order, e) <==> e in order
  {
    if e in order {
      forall d: Disk, lives: seq<Life> | Legal(d, lives) && Sound(d) && SessionFinished(lives, order)
        ensures Marked(DiskAfter(d, lives).cells, e)
      {
        var n, j :| 0 <= n < |lives| && 0 <= j < lives[n].kept <= |lives[n].writes|
                    && lives[n].writes[j] == Finish(order);
        FinishedMeansComplete(d, lives, n, j, e);
      }
    } else {
      JustFinishIsLegal(order);
      assert Key(e, LongSeq) !in DiskOf(order).cells;
    }
  }
}
