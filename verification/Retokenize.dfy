/** The re-tokenization loop of the teacher-forcing oracle (`cmd_tf` of
    benchmark/asr318_run/oracle.py). The reference model is any function from a prefix to
    the token it would emit next; the tokenizer is an abstract encode/decode pair. */
module Retokenize {

  import opened Wrappers

  type Token = int

  datatype Tokenizer = Tokenizer(decode: seq<Token> -> string, encode: string -> seq<Token>) {
    /** Decoding is token by token and undoes encoding. */
    ghost predicate Lawful() {
      && (forall a: seq<Token>, b: seq<Token> :: decode(a + b) == decode(a) + decode(b))
      && (forall s: string :: decode(encode(s)) == s)
    }
  }

  type Oracle = seq<Token> -> Token

  /** What a run is about: tokenizer, oracle and the text that was served. */
  datatype Task = Task(tok: Tokenizer, oracle: Oracle, full: string)

  const LIMIT: nat := 440
  const PASSES: nat := 32

  /** Causal logits: row `k` sees the first `k` tokens only; one more row than tokens. */
  function Top(oracle: Oracle, ids: seq<Token>): (top: seq<Token>)
    ensures |top| == |ids| + 1
  {
    seq(|ids| + 1, k requires 0 <= k <= |ids| => oracle(ids[..k]))
  }

  function Comparable(a: string, b: string): bool {
    a <= b || b <= a
  }

  function Rest(full: string, alt: string): string {
    if |alt| <= |full| then full[|alt|..] else ""
  }

  // ---------------------------------------------------------------- one pass

  /** The prefix up to `k` as the oracle would spell it. */
  function Alternative(t: Task, ids: seq<Token>, k: nat): seq<Token>
    requires k < |ids|
  {
    ids[..k] + [t.oracle(ids[..k])]
  }

  /** The oracle disagrees at `k` and its token spells something that fits the text. */
  predicate Respellable(t: Task, ids: seq<Token>, k: nat)
    requires k < |ids|
  {
    var alt := t.tok.decode(Alternative(t, ids, k));
    && t.oracle(ids[..k]) != ids[k]
    && alt != t.tok.decode(ids[..k])
    && Comparable(alt, t.full)
  }

  /** The first respellable position at or after `k`. */
  function FirstFrom(t: Task, ids: seq<Token>, k: nat): (at: nat)
    requires k <= |ids|
    ensures k <= at <= |ids|
    ensures at < |ids| ==> Respellable(t, ids, at)
    ensures forall j :: k <= j < at ==> !Respellable(t, ids, j)
    decreases |ids| - k
  {
    if k == |ids| || Respellable(t, ids, k) then k else FirstFrom(t, ids, k + 1)
  }

  function First(t: Task, ids: seq<Token>): nat {
    FirstFrom(t, ids, 0)
  }

  lemma FirstIs(t: Task, ids: seq<Token>, k: nat)
    requires k < |ids| && Respellable(t, ids, k)
    requires forall j :: 0 <= j < k ==> !Respellable(t, ids, j)
    ensures First(t, ids) == k
  {
    var at := FirstFrom(t, ids, 0);
  }

  /** Adopt the oracle's token at `k` and re-encode what is left of the text. */
  function Untruncated(t: Task, ids: seq<Token>, k: nat): seq<Token>
    requires k < |ids|
  {
    var rest := Rest(t.full, t.tok.decode(Alternative(t, ids, k)));
    Alternative(t, ids, k) + if rest != "" then t.tok.encode(rest) else []
  }

  function Resplit(t: Task, ids: seq<Token>, k: nat): (r: seq<Token>)
    requires k < |ids| <= LIMIT
    ensures k < |r| <= LIMIT && r[..k + 1] == Alternative(t, ids, k)
  {
    var r := Untruncated(t, ids, k);
    r[..Min(LIMIT, |r|)]
  }

  /** The repaired positions strictly increase: what was not respellable before `k` still is
      not, since its prefix is untouched, and at `k` the oracle now agrees. */
  lemma RepairsIncrease(t: Task, ids: seq<Token>)
    requires First(t, ids) < |ids| <= LIMIT
    ensures First(t, ids) < First(t, Resplit(t, ids, First(t, ids)))
  {
    var k := First(t, ids);
    var next := Resplit(t, ids, k);
    forall j | 0 <= j <= k
      ensures !Respellable(t, next, j)
    {
      assert next[..j] == next[..k + 1][..j] == ids[..j];
      assert next[j] == next[..k + 1][j];
      if j < k {
        assert next[j] == ids[j] && Alternative(t, next, j) == Alternative(t, ids, j);
        assert !Respellable(t, ids, j);
      }
    }
  }

  // ---------------------------------------------------------------- the whole loop

  /** How many re-splits it takes until none is left; the position of the next repair is
      the measure, so this is well defined without any cap on passes. */
  function Resplits(t: Task, ids: seq<Token>): nat
    requires |ids| <= LIMIT
    decreases LIMIT - First(t, ids)
  {
    if First(t, ids) == |ids| then 0
    else
      RepairsIncrease(t, ids);
      1 + Resplits(t, Resplit(t, ids, First(t, ids)))
  }

  /** The tokens after `n` re-splits, fewer if none is left. */
  function After(t: Task, ids: seq<Token>, n: nat): (r: seq<Token>)
    requires |ids| <= LIMIT
    ensures |r| <= LIMIT && (ids != [] ==> r != [])
    decreases n
  {
    if n == 0 || First(t, ids) == |ids| then ids
    else After(t, Resplit(t, ids, First(t, ids)), n - 1)
  }

  /** The loop stops within the token limit, cap or no cap. */
  lemma {:induction false} ResplitsAreBounded(t: Task, ids: seq<Token>)
    requires |ids| <= LIMIT
    ensures Resplits(t, ids) + First(t, ids) <= LIMIT
    decreases LIMIT - First(t, ids)
  {
    if First(t, ids) < |ids| {
      RepairsIncrease(t, ids);
      ResplitsAreBounded(t, Resplit(t, ids, First(t, ids)));
    }
  }

  lemma {:induction false} AfterOneMore(t: Task, ids: seq<Token>, n: nat)
    requires |ids| <= LIMIT
    ensures var r := After(t, ids, n);
            && After(t, ids, n + 1) == (if First(t, r) == |r| then r else Resplit(t, r, First(t, r)))
            && (First(t, r) == |r| <==> Resplits(t, ids) <= n)
    decreases n
  {
    if n > 0 && First(t, ids) < |ids| {
      AfterOneMore(t, Resplit(t, ids, First(t, ids)), n - 1);
    }
  }

  /** Nothing that still disagrees can be re-spelled. */
  ghost predicate Settled(t: Task, ids: seq<Token>) {
    forall k :: 0 <= k < |ids| ==> !Respellable(t, ids, k)
  }

  /** `cmd_tf` between the served tokens and the statistics: at most 32 passes, each forcing
      the current tokens and re-splitting at the first position that can be re-spelled. The
      loop leaves by `break` exactly when fewer than 32 re-splits are needed, and then the
      rows, the agreement and the tokens belong together. */
  method Realign(t: Task, served: seq<Token>)
    returns (ids: seq<Token>, top: seq<Token>, agree: seq<bool>, artifacts: nat, settled: bool)
    requires 0 < |served| <= LIMIT
    ensures settled <==> Resplits(t, served) < 32
    ensures artifacts == Min(32, Resplits(t, served))
    ensures ids == After(t, served, artifacts) && 0 < |ids| <= 440
    ensures settled ==> Settled(t, ids)
    ensures settled ==> top == Top(t.oracle, ids) && |agree| == |ids|
    ensures settled ==> forall k :: 0 <= k < |ids| ==> (agree[k] <==> t.oracle(ids[..k]) == ids[k])
  {
    ids, artifacts, settled := served, 0, false;
    top, agree := [], [];
    for pass := 0 to PASSES
      invariant ids == After(t, served, artifacts) && 0 < |ids| <= LIMIT
      invariant artifacts == pass <= Resplits(t, served)
    {
      top := Top(t.oracle, ids);
      agree := seq(|ids|, k requires 0 <= k < |ids| => top[k] == ids[k]);
      var realigned, k := false, 0;
      AfterOneMore(t, served, artifacts);
      while k < |ids|
        invariant k <= |ids|
        invariant forall j :: 0 <= j < k ==> !Respellable(t, ids, j)
      {
        if !agree[k] {
          var altIds := ids[..k] + [top[k]];
          var alt := t.tok.decode(altIds);
          if alt != t.tok.decode(ids[..k]) && (alt <= t.full || t.full <= alt) {
            assert altIds == Alternative(t, ids, k);
            FirstIs(t, ids, k);
            var rest := Rest(t.full, alt);
            var respelled := altIds + if rest != "" then t.tok.encode(rest) else [];
            ids := respelled[..Min(LIMIT, |respelled|)];
            artifacts := artifacts + 1;
            realigned := true;
            break;
          }
        }
        k := k + 1;
      }
      if !realigned {
        assert First(t, ids) == |ids|;
        settled := true;
        return;
      }
    }
  }

  // ---------------------------------------------------------------- which token is adopted

  /** The token spells something, and what it makes of the prefix fits the text. */
  ghost predicate Spells(t: Task, prefix: seq<Token>, token: Token) {
    var (spelled, more) := (t.tok.decode(prefix), t.tok.decode([token]));
    more != "" && (spelled + more <= t.full || t.full <= spelled + more)
  }

  lemma RespellableIff(t: Task, ids: seq<Token>, k: nat)
    requires t.tok.Lawful() && k < |ids|
    ensures Respellable(t, ids, k) <==> t.oracle(ids[..k]) != ids[k] && Spells(t, ids[..k], t.oracle(ids[..k]))
  {
    var prefix, token := ids[..k], t.oracle(ids[..k]);
    DecodeJoins(t, prefix, [token]);
    NothingMore(t.tok.decode(prefix), t.tok.decode([token]));
  }

  lemma NothingMore(a: string, b: string)
    ensures a + b == a <==> b == ""
  {
    assert b != "" ==> |a + b| > |a|;
  }

  /** With a tokenizer that decodes token by token: the loop repairs the first position where the
      oracle disagrees with a token that spells at least one character and fits the text, and stops
      when there is none. The tokens before stay, and the oracle's comes next. */
  lemma RepairIs(t: Task, ids: seq<Token>)
    requires t.tok.Lawful() && |ids| <= LIMIT
    ensures forall j :: 0 <= j < First(t, ids) ==>
              t.oracle(ids[..j]) == ids[j] || !Spells(t, ids[..j], t.oracle(ids[..j]))
    ensures var k := First(t, ids);
            k <= |ids| && (k < |ids| ==>
              && t.oracle(ids[..k]) != ids[k] && Spells(t, ids[..k], t.oracle(ids[..k]))
              && k < |Resplit(t, ids, k)| && Resplit(t, ids, k)[..k] == ids[..k]
              && Resplit(t, ids, k)[k] == t.oracle(ids[..k]))
  {
    var k := First(t, ids);
    forall j | 0 <= j < k
      ensures t.oracle(ids[..j]) == ids[j] || !Spells(t, ids[..j], t.oracle(ids[..j]))
    {
      RespellableIff(t, ids, j);
    }
    if k < |ids| {
      RespellableIff(t, ids, k);
      var next := Resplit(t, ids, k);
      assert next[..k + 1] == ids[..k] + [t.oracle(ids[..k])];
      assert next[..k] == next[..k + 1][..k] && next[k] == next[..k + 1][k];
    }
  }

  // ---------------------------------------------------------------- the text

  /** The re-split at the current position spells past the end of the text. */
  predicate Overshoots(t: Task, ids: seq<Token>)
    requires First(t, ids) < |ids|
  {
    !(t.tok.decode(Alternative(t, ids, First(t, ids))) <= t.full)
  }

  /** The re-spelled tokens that the limit cuts off. */
  function CutOff(t: Task, ids: seq<Token>): seq<Token>
    requires First(t, ids) < |ids| <= LIMIT
  {
    Untruncated(t, ids, First(t, ids))[|Resplit(t, ids, First(t, ids))|..]
  }

  /** The next re-split neither spells past the text nor loses spelled tokens to the limit. */
  predicate KeepsText(t: Task, ids: seq<Token>)
    requires First(t, ids) < |ids| <= LIMIT
  {
    !Overshoots(t, ids) && t.tok.decode(CutOff(t, ids)) == ""
  }

  lemma DecodeUntruncated(t: Task, ids: seq<Token>, k: nat)
    requires t.tok.Lawful() && k < |ids| && Respellable(t, ids, k)
    ensures var alt := t.tok.decode(Alternative(t, ids, k));
            t.tok.decode(Untruncated(t, ids, k)) == if alt <= t.full then t.full else alt
  {
    var altIds := Alternative(t, ids, k);
    var alt := t.tok.decode(altIds);
    var rest := Rest(t.full, alt);
    if rest != "" {
      assert t.tok.decode(altIds + t.tok.encode(rest)) == alt + rest;
    } else {
      assert altIds + [] == altIds;
    }
  }

  /** An overshooting re-split is the last one: it ends at its own token. */
  lemma OvershootSettles(t: Task, ids: seq<Token>)
    requires First(t, ids) < |ids| <= LIMIT && Overshoots(t, ids)
    ensures var next := Resplit(t, ids, First(t, ids));
            next == Alternative(t, ids, First(t, ids)) && First(t, next) == |next|
  {
    RepairsIncrease(t, ids);
    assert Rest(t.full, t.tok.decode(Alternative(t, ids, First(t, ids)))) == "";
    var altIds := Alternative(t, ids, First(t, ids));
    assert altIds + [] == altIds && altIds[..|altIds|] == altIds;
  }

  /** One re-split, from tokens that need not spell the text themselves. */
  lemma ResplitKeepsIff(t: Task, ids: seq<Token>)
    requires t.tok.Lawful() && First(t, ids) < |ids| <= LIMIT
    ensures t.tok.decode(Resplit(t, ids, First(t, ids))) == t.full <==> KeepsText(t, ids)
  {
    var k := First(t, ids);
    var whole, next := Untruncated(t, ids, k), Resplit(t, ids, k);
    DecodeUntruncated(t, ids, k);
    if Overshoots(t, ids) {
      OvershootSettles(t, ids);
    } else {
      CutInTwo(whole, |next|);
      DecodeJoins(t, next, CutOff(t, ids));
      WholeIff(t.tok.decode(next), t.tok.decode(CutOff(t, ids)), t.full);
    }
  }

  lemma DecodeJoins(t: Task, a: seq<Token>, b: seq<Token>)
    requires t.tok.Lawful()
    ensures t.tok.decode(a + b) == t.tok.decode(a) + t.tok.decode(b)
  {
  }

  lemma WholeIff(a: string, b: string, whole: string)
    requires a + b == whole
    ensures a == whole <==> b == ""
  {
    assert |a| + |b| == |whole|;
  }

  /** Passes beyond the last re-split change nothing. */
  lemma {:induction false} AfterLast(t: Task, ids: seq<Token>, n: nat)
    requires |ids| <= LIMIT
    ensures After(t, ids, n) == After(t, ids, Min(n, Resplits(t, ids)))
    decreases n
  {
    if n > 0 && First(t, ids) < |ids| {
      AfterLast(t, Resplit(t, ids, First(t, ids)), n - 1);
    }
  }

  /** After any number of passes the tokens spell the served text iff the last re-split made
      neither overshot the text nor lost spelled tokens to the limit; with no re-split, iff
      they did before. Earlier losses do not matter: every re-split spells the rest anew. */
  lemma TextKeptIff(t: Task, ids: seq<Token>, n: nat)
    requires t.tok.Lawful() && |ids| <= LIMIT
    ensures var m := Min(n, Resplits(t, ids));
            var last := After(t, ids, if m == 0 then 0 else m - 1);
            && (m > 0 ==> First(t, last) < |last|)
            && (t.tok.decode(After(t, ids, n)) == t.full
                <==> if m == 0 then t.tok.decode(ids) == t.full else KeepsText(t, last))
  {
    var m := Min(n, Resplits(t, ids));
    AfterLast(t, ids, n);
    if m > 0 {
      AfterOneMore(t, ids, m - 1);
      ResplitKeepsIff(t, After(t, ids, m - 1));
    }
  }

  lemma PrefixesAreComparable(a: string, b: string, c: string)
    requires a + b == c || (c <= a + b)
    ensures Comparable(a, c)
  {
    if |a| <= |c| {
      assert c[..|a|] == (a + b)[..|a|] == a;
    } else {
      assert c == (a + b)[..|c|] == a[..|c|];
    }
  }

  lemma ResplitIsComparable(t: Task, ids: seq<Token>)
    requires t.tok.Lawful() && First(t, ids) < |ids| <= LIMIT
    ensures Comparable(t.tok.decode(Resplit(t, ids, First(t, ids))), t.full)
  {
    var k := First(t, ids);
    var whole, next := Untruncated(t, ids, k), Resplit(t, ids, k);
    DecodeUntruncated(t, ids, k);
    CutInTwo(whole, |next|);
    DecodeJoins(t, next, whole[|next|..]);
    PrefixesAreComparable(t.tok.decode(next), t.tok.decode(whole[|next|..]), t.full);
  }

  /** Truncated or not, the tokens always spell a prefix of the text or an extension of it. */
  lemma {:induction false} TextStaysComparable(t: Task, ids: seq<Token>, n: nat)
    requires t.tok.Lawful() && |ids| <= LIMIT
    requires Comparable(t.tok.decode(ids), t.full)
    ensures Comparable(t.tok.decode(After(t, ids, n)), t.full)
    decreases n
  {
    if n > 0 && First(t, ids) < |ids| {
      ResplitIsComparable(t, ids);
      TextStaysComparable(t, Resplit(t, ids, First(t, ids)), n - 1);
    }
  }

  // ---------------------------------------------------------------- an input that loses its text

  /** A small tokenizer: one token per character, and -1 for the word "ab" at the start of a text. */
  function Spell(token: Token): string {
    if token == -1 then "ab"
    else if 0 <= token < 0xD800 || 0xE000 <= token < 0x11_0000 then [token as char]
    else ""
  }

  function SmallDecode(ids: seq<Token>): string {
    if ids == [] then "" else SmallDecode(ids[..|ids| - 1]) + Spell(ids[|ids| - 1])
  }

  function SmallEncode(s: string): seq<Token> {
    if s == "" then [] else SmallEncode(s[..|s| - 1]) + [s[|s| - 1] as int]
  }

  lemma SmallDecodeLast(ids: seq<Token>, last: Token)
    ensures SmallDecode(ids + [last]) == SmallDecode(ids) + Spell(last)
  {
    assert (ids + [last])[..|ids|] == ids;
  }

  lemma DecodeJoinLast(a: seq<Token>, b: seq<Token>, last: Token)
    requires SmallDecode(a + b) == SmallDecode(a) + SmallDecode(b)
    ensures SmallDecode((a + b) + [last]) == SmallDecode(a) + SmallDecode(b + [last])
  {
    SmallDecodeLast(a + b, last);
    SmallDecodeLast(b, last);
    Associate(SmallDecode(a), SmallDecode(b), Spell(last));
  }

  lemma SpellChar(c: char)
    ensures Spell(c as int) == [c]
  {
  }

  lemma {:induction false} SmallDecodeJoins(a: seq<Token>, b: seq<Token>)
    ensures SmallDecode(a + b) == SmallDecode(a) + SmallDecode(b)
    decreases |b|
  {
    if b == [] {
      assert a + b == a;
    } else {
      Snoc(b);
      SmallDecodeJoins(a, DropLast(b));
      Associate(a, DropLast(b), [Last(b)]);
      DecodeJoinLast(a, DropLast(b), Last(b));
    }
  }

  lemma {:induction false} SmallRoundTrip(s: string)
    ensures SmallDecode(SmallEncode(s)) == s
  {
    if s != "" {
      var rest, c := DropLast(s), Last(s);
      SmallRoundTrip(rest);
      SmallDecodeLast(SmallEncode(rest), c as int);
      SpellChar(c);
      Snoc(s);
    }
  }

  lemma {:induction false} SmallEncodeLength(s: string)
    ensures |SmallEncode(s)| == |s|
  {
    if s != "" {
      SmallEncodeLength(s[..|s| - 1]);
    }
  }

  function WordEncode(s: string): seq<Token> {
    if "ab" <= s then [-1] + SmallEncode(s[2..]) else SmallEncode(s)
  }

  lemma SpellsOne(token: Token)
    ensures SmallDecode([token]) == Spell(token)
  {
    SmallDecodeLast([], token);
    assert [] + [token] == [token];
  }

  lemma WordIsOneToken(text: string)
    ensures WordEncode("ab" + text) == [-1] + SmallEncode(text)
    ensures |WordEncode("ab" + text)| == |text| + 1
    ensures SmallDecode([-1] + SmallEncode(text)) == "ab" + text
  {
    SmallEncodeLength(text);
    assert ("ab" + text)[2..] == text;
    SmallDecodeJoins([-1], SmallEncode(text));
    SmallRoundTrip(text);
    SpellsOne(-1);
  }

  lemma WordRoundTrip(s: string)
    ensures SmallDecode(WordEncode(s)) == s
  {
    if "ab" <= s {
      assert s == "ab" + s[2..];
      WordIsOneToken(s[2..]);
    } else {
      SmallRoundTrip(s);
    }
  }

  /** Other texts have one token per character. */
  lemma LettersOnly(first: char, text: string)
    requires first != 'a' || text == ""
    ensures WordEncode([first] + text) == SmallEncode([first] + text)
  {
    assert ([first] + text)[0] == first;
  }

  lemma WordIsLawful()
    ensures Tokenizer(SmallDecode, WordEncode).Lawful()
  {
    var tok := Tokenizer(SmallDecode, WordEncode);
    forall a: seq<Token>, b: seq<Token>
      ensures tok.decode(a + b) == tok.decode(a) + tok.decode(b)
    {
      SmallDecodeJoins(a, b);
    }
    forall s: string
      ensures tok.decode(tok.encode(s)) == s
    {
      WordRoundTrip(s);
    }
  }

  /** The text is not always kept: the oracle prefers a longer last word, which extends the
      served text, and the loop adopts it. The ids are those the program starts from. */
  lemma OvershootExample() returns (t: Task, ids: seq<Token>)
    ensures t.tok.Lawful() && ids == t.tok.encode(t.full) && |ids| <= LIMIT && t.tok.decode(ids) == t.full
    ensures First(t, ids) < |ids| && Overshoots(t, ids)
    ensures t.tok.decode(After(t, ids, 1)) != t.full
  {
    t, ids := Task(Tokenizer(SmallDecode, WordEncode), prefix => -1, "a"), ['a' as int];
    LettersOnly('a', "");
    assert ['a'] + "" == "a" && DropLast("a") == "";
    WordIsLawful();
    assert ids[..0] == [];
    var alt: seq<Token> := [-1];
    assert alt[..0] == [];
    assert Alternative(t, ids, 0) == alt;
    assert t.tok.decode(alt) == "ab" && t.tok.decode(ids) == "a" && t.tok.decode([]) == "";
    assert "a" <= "ab";
    FirstIs(t, ids, 0);
    ResplitKeepsIff(t, ids);
    assert After(t, ids, 1) == Resplit(t, ids, 0);
  }

  lemma FirstLetter(text: string)
    ensures "a" <= "ab" + text && "ab" + text == "a" + ("b" + text)
  {
  }

  function AlwaysA(prefix: seq<Token>): Token {
    'a' as int
  }

  /** What is at stake in `TruncationExample`: the oracle splits a first token that is the word "ab". */
  lemma SplitsFirst(t: Task, ids: seq<Token>)
    requires t.tok == Tokenizer(SmallDecode, WordEncode) && t.oracle == AlwaysA
    requires ids != [] && ids[0] == -1 && "a" <= t.full
    ensures First(t, ids) == 0 && Alternative(t, ids, 0) == ['a' as int] && !Overshoots(t, ids)
  {
    assert ids[..0] == [];
    SpellsOne('a' as int);
    FirstIs(t, ids, 0);
  }

  lemma LosesText(t: Task, ids: seq<Token>)
    requires t.tok.Lawful() && First(t, ids) < |ids| <= LIMIT && t.tok.decode(CutOff(t, ids)) != ""
    ensures t.tok.decode(After(t, ids, 1)) != t.full
  {
    ResplitKeepsIff(t, ids);
    assert After(t, ids, 1) == Resplit(t, ids, First(t, ids));
  }

  lemma LastIsCutOff(t: Task, ids: seq<Token>, rest: string)
    requires t.tok == Tokenizer(SmallDecode, WordEncode) && |rest| == LIMIT
    requires |ids| == LIMIT && First(t, ids) == 0 && t.full == "a" + rest
    requires Alternative(t, ids, 0) == ['a' as int] && WordEncode(rest) == SmallEncode(rest)
    ensures t.tok.decode(CutOff(t, ids)) != ""
  {
    var alt: seq<Token> := ['a' as int];
    assert alt[..0] == [] && t.tok.decode(alt) == "a";
    assert Rest(t.full, "a") == rest;
    SmallEncodeLength(rest);
    assert Untruncated(t, ids, 0) == alt + SmallEncode(rest);
    var c := rest[LIMIT - 1];
    assert CutOff(t, ids) == [c as int];
    SpellsOne(c as int);
    SpellChar(c);
  }

  /** Nor does it need an overshoot: at the limit, splitting the word "ab" in front of any text
      into its letters pushes the last character of the text out. The ids are those the program
      starts from; the limit has not cut them. */
  lemma TruncationExample(text: string) returns (t: Task, ids: seq<Token>)
    requires |text| == LIMIT - 1
    ensures t.tok.Lawful() && t.full == "ab" + text
    ensures ids == t.tok.encode(t.full) && |ids| <= LIMIT && t.tok.decode(ids) == t.full
    ensures First(t, ids) < |ids| && !Overshoots(t, ids)
    ensures t.tok.decode(After(t, ids, 1)) != t.full
  {
    t := Task(Tokenizer(SmallDecode, WordEncode), AlwaysA, "ab" + text);
    ids := [-1] + SmallEncode(text);
    WordIsOneToken(text);
    FirstLetter(text);
    SplitsFirst(t, ids);
    assert ['b'] + text == "b" + text;
    LettersOnly('b', text);
    LastIsCutOff(t, ids, "b" + text);
    WordIsLawful();
    LosesText(t, ids);
  }
}
