/** Small things every module needs. */
module Wrappers {

  datatype Option<+T> = None | Some(value: T)

  function Min(a: int, b: int): int {
    if a < b then a else b
  }

  function DropLast<T>(s: seq<T>): seq<T>
    requires s != []
  {
    s[..|s| - 1]
  }

  function Last<T>(s: seq<T>): T
    requires s != []
  {
    s[|s| - 1]
  }

  function Sum(s: seq<real>): real {
    if s == [] then 0.0 else Sum(s[..|s| - 1]) + s[|s| - 1]
  }

  lemma Snoc<T>(s: seq<T>)
    requires s != []
    ensures s == DropLast(s) + [Last(s)]
  {
  }

  lemma PrefixOfSnoc<T>(s: seq<T>, x: T)
    ensures |s + [x]| == |s| + 1 && (s + [x])[..|s|] == s && (s + [x])[|s|] == x
  {
  }

  lemma LastOfJoin<T>(a: seq<T>, b: seq<T>)
    requires b != []
    ensures a + b != [] && Last(a + b) == Last(b) && DropLast(a + b) == a + DropLast(b)
  {
  }

  lemma CutInTwo<T>(s: seq<T>, i: nat)
    requires i <= |s|
    ensures s == s[..i] + s[i..]
  {
  }

  lemma SliceOfTail<T>(s: seq<T>, i: nat, j: nat)
    requires i <= j < |s|
    ensures s[1..][i..j] == s[i + 1..j + 1]
  {
    forall k | 0 <= k < j - i
      ensures s[1..][i..j][k] == s[i + 1..j + 1][k]
    {
    }
  }

  lemma SliceOfFront<T>(s: seq<T>, i: nat, j: nat)
    requires i <= j < |s|
    ensures s[..|s| - 1][i..j] == s[i..j]
  {
    forall k | 0 <= k < j - i
      ensures s[..|s| - 1][i..j][k] == s[i..j][k]
    {
    }
  }

  lemma LongerPrefix<T>(s: seq<T>, i: nat, j: nat)
    requires i <= j <= |s|
    ensures s[..j] == s[..i] + s[i..j]
  {
  }

  /** Counting indices one by one. */
  lemma OneMoreIndex(below: set<nat>, more: set<nat>, n: nat, counts: bool)
    requires forall i <- below :: i < n
    requires forall i: nat :: i in more <==> i in below || (counts && i == n)
    ensures |more| == |below| + if counts then 1 else 0
  {
    assert more == if counts then below + {n} else below;
  }

  lemma Associate<T>(a: seq<T>, b: seq<T>, c: seq<T>)
    ensures (a + b) + c == a + (b + c)
  {
  }

  lemma OutOfThree<T>(a: seq<T>, b: seq<T>, c: seq<T>)
    ensures (a + b + c)[..|a|] == a && (a + b + c)[|a| + |b|..] == c
  {
  }

  lemma WithinFirst<T>(a: seq<T>, b: seq<T>, c: seq<T>, i: nat)
    requires i <= |a|
    ensures (a + b + c)[..i] == a[..i] && (a + b + c)[i..] == a[i..] + b + c
    ensures forall k :: 0 <= k < |a| ==> (a + b + c)[k] == a[k]
  {
  }

  lemma TailEnds<T>(s: seq<T>, n: nat)
    requires n < |s|
    ensures s[n..] != [] && Last(s[n..]) == Last(s)
  {
  }
}
