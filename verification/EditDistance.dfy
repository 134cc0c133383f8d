/** Word-level edit distance (benchmark/tts_speech_wer.py): the two-row loop
    `WordErrors` returns the cost of a cheapest edit script, and that cost is a
    metric on word lists. */
module EditDistance {

  import opened Wrappers

  /** One step of a script that turns a reference into a hypothesis, left to right. */
  datatype Edit<T> =
    | Copy(word: T)
    | Substitute(from: T, to: T)
    | Insert(word: T)
    | Delete(word: T)
  {
    /** The reference words this step consumes. */
    function Reads(): seq<T> {
      match this
      case Copy(w) => [w]
      case Substitute(f, _) => [f]
      case Insert(_) => []
      case Delete(w) => [w]
    }

    /** The hypothesis words this step produces. */
    function Writes(): seq<T> {
      match this
      case Copy(w) => [w]
      case Substitute(_, t) => [t]
      case Insert(w) => [w]
      case Delete(_) => []
    }

    function Cost(): nat {
      if Copy? then 0 else 1
    }
  }

  type Script<T> = seq<Edit<T>>

  function Input<T>(script: Script<T>): seq<T> {
    if script == [] then [] else Input(script[..|script| - 1]) + script[|script| - 1].Reads()
  }

  function Output<T>(script: Script<T>): seq<T> {
    if script == [] then [] else Output(script[..|script| - 1]) + script[|script| - 1].Writes()
  }

  function TotalCost<T>(script: Script<T>): nat {
    if script == [] then 0 else TotalCost(script[..|script| - 1]) + script[|script| - 1].Cost()
  }

  ghost predicate Transforms<T>(script: Script<T>, reference: seq<T>, hypothesis: seq<T>) {
    Input(script) == reference && Output(script) == hypothesis
  }

  /** `cost` is the least cost of any script turning `reference` into `hypothesis`. */
  ghost predicate IsCheapest<T(!new)>(cost: int, reference: seq<T>, hypothesis: seq<T>) {
    && (exists script: Script<T> :: Transforms(script, reference, hypothesis) && TotalCost(script) == cost)
    && (forall script: Script<T> :: Transforms(script, reference, hypothesis) ==> cost <= TotalCost(script))
  }

  lemma Extend<T>(script: Script<T>, e: Edit<T>)
    ensures Input(script + [e]) == Input(script) + e.Reads()
    ensures Output(script + [e]) == Output(script) + e.Writes()
    ensures TotalCost(script + [e]) == TotalCost(script) + e.Cost()
  {
    assert (script + [e])[..|script|] == script;
  }

  // ---------------------------------------------------------------- the full matrix

  function Min3(a: int, b: int, c: int): int {
    var ab := if b < a then b else a;
    if c < ab then c else ab
  }

  /** The least of deleting, inserting, and copying or substituting. */
  function Next(up: nat, left: nat, diagonal: nat, same: bool): nat {
    Min3(up + 1, left + 1, diagonal + if same then 0 else 1)
  }

  /** The Levenshtein recurrence: the cell of the full matrix for two prefixes. */
  function Distance<T(==)>(a: seq<T>, b: seq<T>): nat
    decreases |a| + |b|
  {
    if a == [] then |b|
    else if b == [] then |a|
    else
      var (n, m) := (|a| - 1, |b| - 1);
      Next(Distance(a[..n], b), Distance(a, b[..m]), Distance(a[..n], b[..m]), a[n] == b[m])
  }

  lemma {:induction false} CellIs<T>(p: seq<T>, a: seq<T>, x: T, q: seq<T>, b: seq<T>, y: T)
    requires |p| == |a| + 1 && p[..|a|] == a && p[|a|] == x
    requires |q| == |b| + 1 && q[..|b|] == b && q[|b|] == y
    ensures Distance(p, q) == Next(Distance(a, q), Distance(p, b), Distance(a, b), x == y)
  {
    var d := Distance(p, q);
    var up, left, diagonal := Distance(a, q), Distance(p, b), Distance(a, b);
    assert d == Next(up, left, diagonal, x == y);
  }

  lemma {:induction false} LastCell<T>(a: seq<T>, x: T, b: seq<T>, y: T)
    ensures Distance(a + [x], b + [y]) == Min3(Distance(a, b + [y]) + 1, Distance(a + [x], b) + 1,
                                               Distance(a, b) + if x != y then 1 else 0)
  {
    PrefixOfSnoc(a, x);
    PrefixOfSnoc(b, y);
    CellIs(a + [x], a, x, b + [y], b, y);
  }

  lemma InsertBound<T>(a: seq<T>, b: seq<T>, w: T)
    ensures Distance(a, b + [w]) <= Distance(a, b) + 1
  {
    if a != [] {
      Snoc(a);
      LastCell(DropLast(a), Last(a), b, w);
    }
  }

  lemma DeleteBound<T>(a: seq<T>, w: T, b: seq<T>)
    ensures Distance(a + [w], b) <= Distance(a, b) + 1
  {
    if b != [] {
      Snoc(b);
      LastCell(a, w, DropLast(b), Last(b));
    }
  }

  /** Appending one step to a script raises the distance by at most the step's cost. */
  lemma StepBound<T>(a: seq<T>, b: seq<T>, e: Edit<T>)
    ensures Distance(a + e.Reads(), b + e.Writes()) <= Distance(a, b) + e.Cost()
  {
    match e
    case Copy(w) => LastCell(a, w, b, w);
    case Substitute(f, t) => LastCell(a, f, b, t);
    case Insert(w) =>
      assert a + [] == a;
      InsertBound(a, b, w);
    case Delete(w) =>
      assert b + [] == b;
      DeleteBound(a, w, b);
  }

  /** No script is cheaper than the recurrence. */
  lemma {:induction false} DistanceIsLowerBound<T>(script: Script<T>)
    ensures Distance(Input(script), Output(script)) <= TotalCost(script)
  {
    if script != [] {
      var rest, e := script[..|script| - 1], script[|script| - 1];
      DistanceIsLowerBound(rest);
      StepBound(Input(rest), Output(rest), e);
    }
  }

  /** The last step of a cheapest script, read off the recurrence. */
  lemma LastStep<T>(a: seq<T>, b: seq<T>) returns (a': seq<T>, b': seq<T>, e: Edit<T>)
    requires a != [] || b != []
    ensures a == a' + e.Reads() && b == b' + e.Writes() && |a'| + |b'| < |a| + |b|
    ensures Distance(a, b) == Distance(a', b') + e.Cost()
  {
    if a == [] {
      Snoc(b);
      return [], b[..|b| - 1], Insert(b[|b| - 1]);
    }
    Snoc(a);
    if b == [] {
      return a[..|a| - 1], [], Delete(a[|a| - 1]);
    }
    Snoc(b);
    var (x, y) := (a[|a| - 1], b[|b| - 1]);
    a', b' := a[..|a| - 1], b[..|b| - 1];
    if Distance(a, b) == Distance(a, b') + 1 {
      return a, b', Insert(y);
    }
    if Distance(a, b) == Distance(a', b) + 1 {
      return a', b, Delete(x);
    }
    e := if x != y then Substitute(x, y) else Copy(x);
  }

  /** A script that attains the recurrence. */
  lemma {:induction false} CheapestScript<T>(a: seq<T>, b: seq<T>) returns (script: Script<T>)
    ensures Transforms(script, a, b) && TotalCost(script) == Distance(a, b)
    decreases |a| + |b|
  {
    script := [];
    if a != [] || b != [] {
      var a', b', e := LastStep(a, b);
      var rest := CheapestScript(a', b');
      Extend(rest, e);
      script := rest + [e];
    }
  }

  /** The recurrence is the cheapest cost, and the only one. */
  lemma {:induction false} DistanceIsCheapest<T(!new)>(a: seq<T>, b: seq<T>)
    ensures IsCheapest(Distance(a, b), a, b)
    ensures forall cost: int :: IsCheapest(cost, a, b) ==> cost == Distance(a, b)
  {
    var best := CheapestScript(a, b);
    assert Transforms(best, a, b);
    forall script: Script<T> | Transforms(script, a, b)
      ensures Distance(a, b) <= TotalCost(script)
    {
      DistanceIsLowerBound(script);
    }
  }

  // ---------------------------------------------------------------- the two-row loop

  /** The matrix cell for the first `i` reference and the first `j` hypothesis words. */
  ghost function Cell(reference: seq<string>, hypothesis: seq<string>, i: nat, j: nat): nat
    requires i <= |reference| && j <= |hypothesis|
  {
    Distance(reference[..i], hypothesis[..j])
  }

  /** `row` is the first `n` cells of matrix row `i`. */
  ghost predicate IsRow(row: seq<nat>, reference: seq<string>, hypothesis: seq<string>, i: nat, n: nat)
    requires i <= |reference| && n <= |hypothesis| + 1
  {
    |row| == n && forall j :: 0 <= j < n ==> row[j] == Cell(reference, hypothesis, i, j)
  }

  lemma CellStep(reference: seq<string>, hypothesis: seq<string>, i: nat, j: nat)
    requires 0 < i <= |reference| && 0 < j <= |hypothesis|
    ensures Cell(reference, hypothesis, i, j)
         == Min3(Cell(reference, hypothesis, i - 1, j) + 1, Cell(reference, hypothesis, i, j - 1) + 1,
                 Cell(reference, hypothesis, i - 1, j - 1)
                 + if reference[i - 1] != hypothesis[j - 1] then 1 else 0)
  {
    assert reference[..i] == reference[..i - 1] + [reference[i - 1]];
    assert hypothesis[..j] == hypothesis[..j - 1] + [hypothesis[j - 1]];
    LastCell(reference[..i - 1], reference[i - 1], hypothesis[..j - 1], hypothesis[j - 1]);
  }

  lemma ExtendRow(row: seq<nat>, above: seq<nat>, reference: seq<string>, hypothesis: seq<string>, i: nat, j: nat)
    requires 0 < i <= |reference| && 0 < j <= |hypothesis|
    requires IsRow(above, reference, hypothesis, i - 1, |hypothesis| + 1)
    requires IsRow(row, reference, hypothesis, i, j)
    ensures IsRow(row + [Min3(above[j] + 1, row[j - 1] + 1,
                              above[j - 1] + if reference[i - 1] != hypothesis[j - 1] then 1 else 0)],
                  reference, hypothesis, i, j + 1)
  {
    CellStep(reference, hypothesis, i, j);
  }

  lemma LastRowIsCheapest(row: seq<nat>, reference: seq<string>, hypothesis: seq<string>)
    requires IsRow(row, reference, hypothesis, |reference|, |hypothesis| + 1)
    ensures IsCheapest(row[|row| - 1], reference, hypothesis)
  {
    assert reference[..|reference|] == reference && hypothesis[..|hypothesis|] == hypothesis;
    DistanceIsCheapest(reference, hypothesis);
  }

  /** `previous` holds one row of the matrix at a time; only two rows are ever live. */
  method WordErrors(reference: seq<string>, hypothesis: seq<string>) returns (errors: nat)
    ensures IsCheapest(errors, reference, hypothesis)
  {
    var previous: seq<nat> := seq(|hypothesis| + 1, j => j);
    for i := 1 to |reference| + 1
      invariant IsRow(previous, reference, hypothesis, i - 1, |hypothesis| + 1)
    {
      var refWord := reference[i - 1];
      var current: seq<nat> := [i];
      for j := 1 to |hypothesis| + 1
        invariant IsRow(current, reference, hypothesis, i, j)
      {
        var hypWord := hypothesis[j - 1];
        ExtendRow(current, previous, reference, hypothesis, i, j);
        current := current + [Min3(previous[j] + 1,
                                   current[j - 1] + 1,
                                   previous[j - 1] + if refWord != hypWord then 1 else 0)];
      }
      previous := current;
    }
    errors := previous[|previous| - 1];
    LastRowIsCheapest(previous, reference, hypothesis);
  }

  // ---------------------------------------------------------------- a metric

  /** A script of cost 0 only copies. */
  lemma {:induction false} FreeScriptCopies<T>(script: Script<T>)
    requires TotalCost(script) == 0
    ensures Input(script) == Output(script)
  {
    if script != [] {
      FreeScriptCopies(script[..|script| - 1]);
    }
  }

  lemma {:induction false} CopyScript<T>(a: seq<T>) returns (script: Script<T>)
    ensures Transforms(script, a, a) && TotalCost(script) == 0
  {
    if a == [] {
      script := [];
    } else {
      var rest := CopyScript(a[..|a| - 1]);
      assert a[..|a| - 1] + [a[|a| - 1]] == a;
      Extend(rest, Copy(a[|a| - 1]));
      script := rest + [Copy(a[|a| - 1])];
    }
  }

  /** Zero errors exactly for equal word lists. */
  lemma {:induction false} ZeroIffEqual<T>(a: seq<T>, b: seq<T>)
    ensures Distance(a, b) == 0 <==> a == b
  {
    if a == b {
      var script := CopyScript(a);
      DistanceIsLowerBound(script);
    } else {
      var script := CheapestScript(a, b);
      if Distance(a, b) == 0 {
        FreeScriptCopies(script);
      }
    }
  }

  /** Every script can be undone at the same cost. */
  ghost function Inverse<T>(script: Script<T>): (inv: Script<T>)
    ensures Transforms(inv, Output(script), Input(script))
    ensures TotalCost(inv) == TotalCost(script)
  {
    if script == [] then []
    else
      var rest := Inverse(script[..|script| - 1]);
      var e := match script[|script| - 1]
               case Copy(w) => Copy(w)
               case Substitute(f, t) => Substitute(t, f)
               case Insert(w) => Delete(w)
               case Delete(w) => Insert(w);
      Extend(rest, e);
      rest + [e]
  }

  lemma {:induction false} Symmetric<T>(a: seq<T>, b: seq<T>)
    ensures Distance(a, b) == Distance(b, a)
  {
    var there := CheapestScript(a, b);
    var back := CheapestScript(b, a);
    DistanceIsLowerBound(Inverse(there));
    DistanceIsLowerBound(Inverse(back));
  }

  /** What two consecutive steps on the same middle word amount to: the steps
      that read `x` and write `z`, at most one of them. */
  function Fuse<T(==)>(e: Edit<T>, f: Edit<T>): (steps: Script<T>)
    requires e.Writes() == f.Reads() != []
  {
    if e.Insert? && f.Delete? then []
    else if e.Insert? then [Insert(f.Writes()[0])]
    else if f.Delete? then [Delete(e.Reads()[0])]
    else
      var (x, z) := (e.Reads()[0], f.Writes()[0]);
      if x == z then [Copy(x)] else [Substitute(x, z)]
  }

  lemma FusesToOne<T>(e: Edit<T>, f: Edit<T>)
    requires e.Writes() == f.Reads() != []
    ensures Fuse(e, f) == [] ==> e.Reads() == f.Writes() == []
    ensures Fuse(e, f) != [] ==>
              var step := Fuse(e, f)[0];
              && Fuse(e, f) == [step] && step.Cost() <= e.Cost() + f.Cost()
              && step.Reads() == e.Reads() && step.Writes() == f.Writes()
  {
  }

  lemma {:induction false} FuseAppends<T>(rest: Script<T>, e: Edit<T>, f: Edit<T>)
    requires e.Writes() == f.Reads() != []
    ensures var whole := rest + Fuse(e, f);
            && Input(whole) == Input(rest) + e.Reads()
            && Output(whole) == Output(rest) + f.Writes()
            && TotalCost(whole) <= TotalCost(rest) + e.Cost() + f.Cost()
  {
    FusesToOne(e, f);
    if Fuse(e, f) == [] {
      assert rest + Fuse(e, f) == rest;
    } else {
      Extend(rest, Fuse(e, f)[0]);
    }
  }

  /** Runs one script after another, meeting at the middle word list. */
  ghost function Compose<T>(s: Script<T>, t: Script<T>): (whole: Script<T>)
    requires Output(s) == Input(t)
    ensures Transforms(whole, Input(s), Output(t))
    ensures TotalCost(whole) <= TotalCost(s) + TotalCost(t)
    decreases |s| + |t|
  {
    if s != [] && s[|s| - 1].Delete? then
      var rest := Compose(s[..|s| - 1], t);
      Extend(rest, s[|s| - 1]);
      rest + [s[|s| - 1]]
    else if t != [] && t[|t| - 1].Insert? then
      var rest := Compose(s, t[..|t| - 1]);
      Extend(rest, t[|t| - 1]);
      rest + [t[|t| - 1]]
    else if s == [] || t == [] then
      []
    else
      var (s', e) := (s[..|s| - 1], s[|s| - 1]);
      var (t', f) := (t[..|t| - 1], t[|t| - 1]);
      MeetsLast(Output(s'), e.Writes(), Input(t'), f.Reads());
      var rest := Compose(s', t');
      FuseAppends(rest, e, f);
      rest + Fuse(e, f)
  }

  lemma MeetsLast<T>(a: seq<T>, x: seq<T>, b: seq<T>, y: seq<T>)
    requires a + x == b + y && |x| == |y| == 1
    ensures a == b && x == y
  {
    assert (a + x)[..|a|] == a && (b + y)[..|b|] == b;
    assert (a + x)[|a|] == x[0] && (b + y)[|b|] == y[0];
  }

  /** The triangle inequality: going through any third word list costs at least as much. */
  lemma {:induction false} Triangle<T>(a: seq<T>, b: seq<T>, c: seq<T>)
    ensures Distance(a, c) <= Distance(a, b) + Distance(b, c)
  {
    var first := CheapestScript(a, b);
    var second := CheapestScript(b, c);
    var whole := Compose(first, second);
    DistanceIsLowerBound(whole);
  }
}
