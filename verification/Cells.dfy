/** Verdicts on replies and cells of the ASR benchmark (benchmark/asr318_run/run.py): `judge`,
    `cell` and the re-judging of a finished cell when the reference's own failures are known. */
module Cells {
  import Wrappers

  type Uid = string

  /** Why a transcript is bad. Counts and error rates come with the verdict and are not kept. */
  datatype Verdict = Fine | Errored | Empty | Truncated | Garbage

  /** A reply as the content check sees it: whether it failed, normalised word counts of
      reference and hypothesis, and the utterance error rate. */
  datatype Reply = Reply(uid: Uid, failed: bool, refWords: nat, hypWords: nat, wer: real)

  datatype Record = Record(uid: Uid, failed: bool, bad: Verdict)

  /** A result file; realtime results have neither records nor a verdict. */
  datatype Cell = Cell(hasRecords: bool, records: seq<Record>, errors: nat, bad: nat, valid: bool)

  /** `judge`: the first test that fails decides. */
  function Judge(r: Reply): Verdict {
    if r.failed then Errored
    else if r.refWords > 0 && r.hypWords == 0 then Empty
    else if r.refWords >= 5 && 2 * r.hypWords < r.refWords then Truncated
    else if r.refWords >= 5 && r.wer > 0.5 then Garbage
    else Fine
  }

  function RecordOf(r: Reply): Record {
    Record(r.uid, r.failed, Judge(r))
  }

  /** The reference implementation fails the content check on this utterance too. */
  predicate Shared(r: Record, refBad: set<Uid>) {
    (r.bad == Truncated || r.bad == Garbage) && r.uid in refBad
  }

  /** A verdict that counts against the cell. */
  predicate CountsAsBad(r: Record, refBad: set<Uid>) {
    r.bad != Fine && !Shared(r, refBad)
  }

  function Records(replies: seq<Reply>): seq<Record> {
    if replies == [] then [] else Records(replies[..|replies| - 1]) + [RecordOf(replies[|replies| - 1])]
  }

  function BadCount(records: seq<Record>, refBad: set<Uid>): nat {
    if records == [] then 0
    else BadCount(records[..|records| - 1], refBad) + if CountsAsBad(records[|records| - 1], refBad) then 1 else 0
  }

  function ErrorCount(records: seq<Record>): nat {
    if records == [] then 0
    else ErrorCount(records[..|records| - 1]) + if records[|records| - 1].failed then 1 else 0
  }

  function CellOf(replies: seq<Reply>, refBad: set<Uid>): Cell {
    var records := Records(replies);
    var (errors, bad) := (ErrorCount(records), BadCount(records, refBad));
    Cell(true, records, errors, bad, errors == 0 && bad == 0)
  }

  lemma AppendRecord(records: seq<Record>, r: Record, refBad: set<Uid>)
    ensures BadCount(records + [r], refBad) == BadCount(records, refBad) + if CountsAsBad(r, refBad) then 1 else 0
    ensures ErrorCount(records + [r]) == ErrorCount(records) + if r.failed then 1 else 0
  {
    assert (records + [r])[..|records|] == records;
  }

  /** `cell` on the replies it collected. */
  method MakeCell(replies: seq<Reply>, refBad: set<Uid>) returns (c: Cell)
    ensures c == CellOf(replies, refBad)
  {
    var records: seq<Record>, bad: nat, errors: nat := [], 0, 0;
    for i := 0 to |replies|
      invariant records == Records(replies[..i])
      invariant bad == BadCount(records, refBad) && errors == ErrorCount(records)
    {
      assert replies[..i + 1][..i] == replies[..i];
      var r := replies[i];
      var why := Judge(r);
      var record := Record(r.uid, r.failed, why);
      AppendRecord(records, record, refBad);
      if (why == Truncated || why == Garbage) && r.uid in refBad {
        // recorded with the reference's own failures, does not count
      } else if why != Fine {
        bad := bad + 1;
      }
      if r.failed {
        errors := errors + 1;
      }
      records := records + [record];
    }
    assert replies[..|replies|] == replies;
    c := Cell(true, records, errors, bad, errors == 0 && bad == 0);
  }

  /** `rejudge_cells` on one short cell: only verdicts the reference shares are forgiven, and
      only a cell that becomes valid is rewritten. */
  method RejudgeCell(c: Cell, refBad: set<Uid>) returns (r: Cell)
    ensures r == Rejudged(c, refBad)
  {
    if c.valid || c.errors > 0 || !c.hasRecords {
      return c;
    }
    var bad := 0;
    for i := 0 to |c.records|
      invariant bad == BadCount(c.records[..i], refBad)
    {
      assert c.records[..i + 1][..i] == c.records[..i];
      var record := c.records[i];
      if (record.bad == Truncated || record.bad == Garbage) && record.uid in refBad {
      } else if record.bad != Fine {
        bad := bad + 1;
      }
    }
    assert c.records[..|c.records|] == c.records;
    return if bad > 0 then c else c.(bad := 0, valid := true);
  }

  function Rejudged(c: Cell, refBad: set<Uid>): Cell {
    if c.valid || c.errors > 0 || !c.hasRecords || BadCount(c.records, refBad) > 0 then c
    else c.(bad := 0, valid := true)
  }

  // ---------------------------------------------------------------- what the verdicts mean

  lemma {:induction false} NoneBadIff(replies: seq<Reply>, refBad: set<Uid>)
    ensures BadCount(Records(replies), refBad) == 0
       <==> forall r <- replies :: !CountsAsBad(RecordOf(r), refBad)
    ensures ErrorCount(Records(replies)) == 0 <==> forall r <- replies :: !r.failed
  {
    if replies != [] {
      var rest, last := replies[..|replies| - 1], replies[|replies| - 1];
      NoneBadIff(rest, refBad);
      AppendRecord(Records(rest), RecordOf(last), refBad);
      assert replies == rest + [last];
    }
  }

  /** The transcript is about as long as the reference and not too far from it; short references
      are not judged. */
  predicate Plausible(r: Reply) {
    r.refWords < 5 || (2 * r.hypWords >= r.refWords && r.wer <= 0.5)
  }

  /** Nothing came back though something was said. */
  predicate IsEmpty(r: Reply) {
    r.refWords > 0 && r.hypWords == 0
  }

  /** What a valid cell asks of a reply, in terms of the reply alone. */
  predicate Passes(r: Reply, refBad: set<Uid>) {
    !r.failed && !IsEmpty(r) && (r.uid in refBad || Plausible(r))
  }

  /** The verdict on a reply: the test order shows only where several tests fail. */
  lemma JudgeIs(r: Reply)
    ensures Judge(r) == Errored <==> r.failed
    ensures Judge(r) == Empty <==> !r.failed && IsEmpty(r)
    ensures Judge(r) == Truncated <==> !r.failed && !IsEmpty(r) && r.refWords >= 5 && 2 * r.hypWords < r.refWords
    ensures Judge(r) == Garbage
       <==> !r.failed && !IsEmpty(r) && r.refWords >= 5 && 2 * r.hypWords >= r.refWords && r.wer > 0.5
    ensures Judge(r) == Fine <==> !r.failed && !IsEmpty(r) && Plausible(r)
  {
  }

  lemma CountsAsBadIff(r: Reply, refBad: set<Uid>)
    ensures CountsAsBad(RecordOf(r), refBad) <==> !Passes(r, refBad)
  {
    JudgeIs(r);
  }

  /** A cell is valid iff every reply succeeded, is not empty, and is plausible or of an utterance
      the reference fails on too: a failed or empty reply is never forgiven. */
  lemma ValidIff(replies: seq<Reply>, refBad: set<Uid>)
    ensures CellOf(replies, refBad).valid <==> forall r <- replies :: Passes(r, refBad)
  {
    NoneBadIff(replies, refBad);
    forall r <- replies
      ensures CountsAsBad(RecordOf(r), refBad) <==> !Passes(r, refBad)
    {
      CountsAsBadIff(r, refBad);
    }
  }

  /** Both numbers count replies. */
  lemma {:induction false} CountsAre(replies: seq<Reply>, refBad: set<Uid>)
    ensures CellOf(replies, refBad).errors == |set i: nat | i < |replies| && replies[i].failed|
    ensures CellOf(replies, refBad).bad == |set i: nat | i < |replies| && !Passes(replies[i], refBad)|
  {
    if replies != [] {
      var n, rest, last := |replies| - 1, replies[..|replies| - 1], replies[|replies| - 1];
      CountsAre(rest, refBad);
      AppendRecord(Records(rest), RecordOf(last), refBad);
      CountsAsBadIff(last, refBad);
      Wrappers.OneMoreIndex((set i: nat | i < n && rest[i].failed),
                   (set i: nat | i < n + 1 && replies[i].failed), n, last.failed);
      Wrappers.OneMoreIndex((set i: nat | i < n && !Passes(rest[i], refBad)),
                   (set i: nat | i < n + 1 && !Passes(replies[i], refBad)), n, !Passes(last, refBad));
    }
  }

  /** A cell has one record per reply, in order. */
  lemma {:induction false} RecordsAre(replies: seq<Reply>, i: nat)
    requires i < |replies|
    ensures |Records(replies)| == |replies|
    ensures Records(replies)[i] == Record(replies[i].uid, replies[i].failed, Judge(replies[i]))
  {
    var rest := replies[..|replies| - 1];
    if rest != [] {
      RecordsAre(rest, if i < |rest| then i else 0);
    }
  }

  /** Forgiving more never invalidates. */
  lemma ValidIsMonotone(replies: seq<Reply>, less: set<Uid>, more: set<Uid>)
    requires less <= more && CellOf(replies, less).valid
    ensures CellOf(replies, more).valid
  {
    ValidIff(replies, less);
    ValidIff(replies, more);
  }

  /** Re-judging leaves exactly the verdict the cell would have got with the new set, unless
      the cell had been valid under the old set and would not be under the new one. */
  lemma RejudgeMatchesIff(replies: seq<Reply>, before: set<Uid>, after: set<Uid>)
    ensures Rejudged(CellOf(replies, before), after).valid == CellOf(replies, after).valid
       <==> ((forall r <- replies :: Passes(r, before)) ==> forall r <- replies :: Plausible(r) || r.uid in after)
  {
    ValidIff(replies, before);
    ValidIff(replies, after);
    if CellOf(replies, before).valid {
      assert forall r <- replies :: Passes(r, before);
      if r :| r in replies && !(Plausible(r) || r.uid in after) {
        assert !Passes(r, after);
      } else {
        assert forall r <- replies :: Passes(r, after);
      }
    }
  }

  /** A cell is rewritten exactly when no reply failed and every bad verdict on record is one the
      reference shares. */
  lemma RejudgedIff(c: Cell, refBad: set<Uid>)
    ensures Rejudged(c, refBad)
         == if !c.valid && c.errors == 0 && c.hasRecords
               && forall r <- c.records :: r.bad == Fine || (r.bad in {Truncated, Garbage} && r.uid in refBad)
            then c.(bad := 0, valid := true) else c
  {
    NoBadRecordIff(c.records, refBad);
  }

  lemma {:induction false} NoBadRecordIff(records: seq<Record>, refBad: set<Uid>)
    ensures BadCount(records, refBad) == 0
       <==> forall r <- records :: r.bad == Fine || (r.bad in {Truncated, Garbage} && r.uid in refBad)
  {
    if records != [] {
      var rest, last := records[..|records| - 1], records[|records| - 1];
      NoBadRecordIff(rest, refBad);
      AppendRecord(rest, last, refBad);
      assert records == rest + [last];
    }
  }

  /** A set that shrinks: re-judging keeps a verdict that a new cell would not get. */
  lemma ShrinkingSetDiffers() returns (replies: seq<Reply>, before: set<Uid>, after: set<Uid>)
    ensures after < before
    ensures Rejudged(CellOf(replies, before), after).valid && !CellOf(replies, after).valid
  {
    var r := Reply("1089-134686-0000", false, 10, 2, 0.8);
    replies, before, after := [r], {r.uid}, {};
    assert Judge(r) == Truncated && r in replies;
    ValidIff(replies, before);
    ValidIff(replies, after);
  }

  function RejudgedBy(c: Cell, sets: seq<set<Uid>>): Cell {
    if sets == [] then c else Rejudged(RejudgedBy(c, sets[..|sets| - 1]), sets[|sets| - 1])
  }

  ghost predicate Growing(sets: seq<set<Uid>>) {
    forall i, j :: 0 <= i <= j < |sets| ==> sets[i] <= sets[j]
  }

  /** When the reference-bad set only grows, any number of re-judgings leaves the verdict that
      `cell` would have given with the last set. */
  lemma {:induction false} GrowingSetsAgree(replies: seq<Reply>, first: set<Uid>, sets: seq<set<Uid>>)
    requires Growing([first] + sets)
    ensures var c := RejudgedBy(CellOf(replies, first), sets);
            && c.valid == CellOf(replies, Last(first, sets)).valid
            && c.hasRecords && c.records == Records(replies) && c.errors == ErrorCount(Records(replies))
  {
    if sets != [] {
      var rest, last := sets[..|sets| - 1], sets[|sets| - 1];
      var all := [first] + sets;
      assert ([first] + rest) == all[..|all| - 1];
      assert Growing([first] + rest);
      GrowingSetsAgree(replies, first, rest);
      assert Last(first, rest) == all[|all| - 2] && last == all[|all| - 1];
      if CellOf(replies, Last(first, rest)).valid {
        ValidIsMonotone(replies, Last(first, rest), last);
      }
    }
  }

  function Last(first: set<Uid>, sets: seq<set<Uid>>): set<Uid> {
    if sets == [] then first else sets[|sets| - 1]
  }
}
