/** Whitespace around byte strings: what `bytes.strip` takes off, and the ink that is left. */
module Whitespace {
  import opened Bytes
  import opened Sse
  import opened Wrappers

  ghost predicate Blank(s: bytes) {
    forall b <- s :: IsSpace(b)
  }

  /** What is stripped is exactly the spaces, tabs, line ends, vertical tabs and form feeds around. */
  lemma {:induction false} StripIs(s: bytes) returns (i: nat, j: nat)
    ensures i <= j <= |s| && Strip(s) == s[i..j]
    ensures forall k :: 0 <= k < i || j <= k < |s| ==> s[k] in {9, 10, 11, 12, 13, 32}
    ensures i < j ==> s[i] !in {9, 10, 11, 12, 13, 32} && s[j - 1] !in {9, 10, 11, 12, 13, 32}
    decreases |s|
  {
    if s == [] {
      i, j := 0, 0;
    } else if IsSpace(s[0]) {
      i, j := StripIs(s[1..]);
      SliceOfTail(s, i, j);
      i, j := i + 1, j + 1;
      assert forall k :: 0 < k < |s| ==> s[k] == s[1..][k - 1];
    } else if IsSpace(s[|s| - 1]) {
      i, j := StripIs(s[..|s| - 1]);
      SliceOfFront(s, i, j);
      assert forall k :: 0 <= k < |s| - 1 ==> s[k] == s[..|s| - 1][k];
    } else {
      i, j := 0, |s|;
    }
  }

  /** The bytes that are not whitespace. */
  function Ink(s: bytes): nat {
    if s == [] then 0 else Ink(s[..|s| - 1]) + if IsSpace(s[|s| - 1]) then 0 else 1
  }

  lemma {:induction false} InkJoin(a: bytes, b: bytes)
    ensures Ink(a + b) == Ink(a) + Ink(b)
    decreases |b|
  {
    if b == [] {
      assert a + b == a;
    } else {
      InkJoin(a, b[..|b| - 1]);
      assert (a + b)[..|a + b| - 1] == a + b[..|b| - 1];
    }
  }

  lemma InkCut(s: bytes, i: nat)
    requires i <= |s|
    ensures s == s[..i] + s[i..] && Ink(s) == Ink(s[..i]) + Ink(s[i..])
  {
    CutInTwo(s, i);
    InkJoin(s[..i], s[i..]);
  }

  lemma InkOne(b: byte)
    ensures Ink([b]) == if IsSpace(b) then 0 else 1
  {
    assert [b][..0] == [];
  }

  lemma {:induction false} BlankIff(s: bytes)
    ensures Ink(s) == 0 <==> Blank(s)
  {
    if s != [] {
      BlankIff(s[..|s| - 1]);
      assert s == s[..|s| - 1] + [s[|s| - 1]];
    }
  }

  lemma {:induction false} StripKeepsInk(s: bytes)
    ensures Ink(Strip(s)) == Ink(s)
    decreases |s|
  {
    if s != [] {
      if IsSpace(s[0]) {
        StripKeepsInk(s[1..]);
        InkJoin([s[0]], s[1..]);
        InkOne(s[0]);
        assert s == [s[0]] + s[1..];
      } else if IsSpace(s[|s| - 1]) {
        StripKeepsInk(s[..|s| - 1]);
      }
    }
  }

  lemma {:induction false} StripLeads(w: bytes, s: bytes)
    requires Blank(w)
    ensures Strip(w + s) == Strip(s)
  {
    if w == [] {
      assert w + s == s;
    } else {
      assert (w + s)[1..] == w[1..] + s && (w + s)[0] == w[0];
      assert Blank(w[1..]);
      StripLeads(w[1..], s);
    }
  }

  lemma {:induction false} StripOneTrailing(s: bytes, b: byte)
    requires IsSpace(b)
    ensures Strip(s + [b]) == Strip(s)
    decreases |s|
  {
    if s == [] {
      assert s + [b] == [b];
      assert Strip([b]) == Strip([b][1..]);
    } else if IsSpace(s[0]) {
      assert (s + [b])[1..] == s[1..] + [b];
      StripOneTrailing(s[1..], b);
    } else {
      assert (s + [b])[..|s|] == s;
    }
  }

  lemma {:induction false} StripTrails(s: bytes, w: bytes)
    requires Blank(w)
    ensures Strip(s + w) == Strip(s)
    decreases |w|
  {
    if w == [] {
      assert s + w == s;
    } else {
      var rest := w[..|w| - 1];
      assert s + w == (s + rest) + [w[|w| - 1]];
      assert Blank(rest);
      StripTrails(s, rest);
      StripOneTrailing(s + rest, w[|w| - 1]);
    }
  }

  lemma {:induction false} StripIsPrefix(s: bytes)
    requires s == [] || !IsSpace(s[0])
    ensures Strip(s) <= s
    decreases |s|
  {
    if s != [] && IsSpace(s[|s| - 1]) {
      StripIsPrefix(s[..|s| - 1]);
    }
  }

  /** How many whitespace bytes come first. */
  ghost function Lead(s: bytes): (n: nat)
    ensures n <= |s| && Blank(s[..n]) && (n < |s| ==> !IsSpace(s[n]))
  {
    if s == [] || !IsSpace(s[0]) then 0
    else
      var n := Lead(s[1..]);
      assert s[..n + 1] == [s[0]] + s[1..][..n];
      n + 1
  }

  lemma LeadIsBlank(l: bytes)
    requires Ink(l) > 0
    ensures Lead(l) < |l| && l == l[..Lead(l)] + l[Lead(l)..]
  {
    BlankIff(l[..Lead(l)]);
    InkCut(l, Lead(l));
  }

  function TotalInk(parts: seq<bytes>): nat {
    if parts == [] then 0 else TotalInk(DropLast(parts)) + Ink(Last(parts))
  }

  lemma TotalAppend(parts: seq<bytes>, x: bytes)
    ensures TotalInk(parts + [x]) == TotalInk(parts) + Ink(x)
  {
    assert DropLast(parts + [x]) == parts;
  }

  lemma {:induction false} TotalFront(x: bytes, parts: seq<bytes>)
    ensures TotalInk([x] + parts) == Ink(x) + TotalInk(parts)
  {
    if parts == [] {
      assert [x] + parts == [] + [x];
      TotalAppend([], x);
    } else {
      assert [x] + parts == ([x] + DropLast(parts)) + [Last(parts)];
      TotalAppend([x] + DropLast(parts), Last(parts));
      TotalFront(x, DropLast(parts));
    }
  }
}
