/**
 Splitting a search query into recall terms. The scan keeps two buffers and a set of seen
 terms; the specification cuts the query into maximal runs of one kind of character, takes
 the terms of each run and keeps first occurrences.
 */
module QueryTerms {
  import opened Text

  datatype Kind = Cjk | Word | Other

  predicate IsCjk(c: char) {
    var n := c as int;
    0x4E00 <= n <= 0x9FFF || 0x3400 <= n <= 0x4DBF || 0xF900 <= n <= 0xFAFF || 0x3000 <= n <= 0x303F
  }

  predicate IsWord(c: char) {
    'a' <= c <= 'z' || 'A' <= c <= 'Z' || '0' <= c <= '9' || c == '_' || c == '-'
  }

  function KindOf(c: char): Kind {
    if IsCjk(c) then Cjk else if IsWord(c) then Word else Other
  }

  ghost predicate Uniform(run: string, k: Kind) {
    forall i :: 0 <= i < |run| ==> KindOf(run[i]) == k
  }

  /** The length of the run of characters of kind `k` that `q` starts with. */
  function Span(q: string, k: Kind): (n: nat)
    ensures n <= |q| && Uniform(q[..n], k) && (n < |q| ==> KindOf(q[n]) != k)
  {
    if q == "" || KindOf(q[0]) != k then 0
    else
      var n := Span(q[1..], k);
      assert Uniform(q[..n + 1], k) by {
        assert forall i :: 0 < i < n + 1 ==> q[i] == q[1..][..n][i - 1];
      }
      n + 1
  }

  function Bigrams(run: string): seq<string> {
    if |run| < 2 then [] else [run[..2]] + Bigrams(run[1..])
  }

  /** The terms of one run: a word lower-cased, a short CJK run whole, a longer one as its bigrams. */
  function RunTerms(run: string): seq<string> {
    if run == "" then []
    else match KindOf(run[0])
      case Other => []
      case Word => [Lower(run)]
      case Cjk => if |run| <= 4 then [run] else Bigrams(run)
  }

  /** The terms of all runs of `q`, in order, repetitions included. */
  function RawTerms(q: string): seq<string> {
    if q == "" then []
    else
      var n := Span(q, KindOf(q[0]));
      RunTerms(q[..n]) + RawTerms(q[n..])
  }

  /** First occurrences, in order. */
  function Dedup(ts: seq<string>): seq<string> {
    if ts == [] then []
    else
      var d := Dedup(ts[..|ts| - 1]);
      if ts[|ts| - 1] in d then d else d + [ts[|ts| - 1]]
  }

  function Terms(q: string): seq<string> {
    Dedup(RawTerms(q))
  }

  // ------------------------------------------------------------------ the scan

  lemma DedupSnoc(raw: seq<string>, t: string)
    ensures Dedup(raw + [t]) == if t in Dedup(raw) then Dedup(raw) else Dedup(raw) + [t]
  {
    assert (raw + [t])[..|raw|] == raw;
  }

  lemma UniformSpan(run: string, rest: string, k: Kind)
    requires Uniform(run, k) && (rest == "" || KindOf(rest[0]) != k)
    ensures Span(run + rest, k) == |run|
  {
    var q := run + rest;
    var n := Span(q, k);
    assert forall i :: 0 <= i < |run| ==> q[i] == run[i];
    assert forall i :: 0 <= i < n ==> q[..n][i] == q[i];
    assert rest != "" ==> q[|run|] == rest[0];
  }

  /** Closing a run: its terms come first, then those of the rest. */
  lemma CloseRun(run: string, rest: string, k: Kind)
    requires run != "" && Uniform(run, k) && (rest == "" || KindOf(rest[0]) != k)
    ensures RawTerms(run + rest) == RunTerms(run) + RawTerms(rest)
  {
    hide RunTerms;
    UniformSpan(run, rest, k);
    assert (run + rest)[..|run|] == run && (run + rest)[|run|..] == rest;
  }

  /** Characters of no kind add nothing. */
  lemma SkipOther(c: char, rest: string)
    requires KindOf(c) == Other
    ensures RawTerms([c] + rest) == RawTerms(rest)
  {
    var q := [c] + rest;
    assert q[1..] == rest;
    if rest != "" && KindOf(rest[0]) == Other {
      var n := Span(rest, Other);
      assert Span(q, Other) == n + 1;
      assert q[n + 1..] == rest[n..];
      assert RunTerms(q[..n + 1]) == [] && RunTerms(rest[..n]) == [];
    } else {
      CloseRun([c], rest, Other);
    }
  }

  method Add(terms: seq<string>, seen: set<string>, t: string, ghost raw: seq<string>)
    returns (terms': seq<string>, seen': set<string>)
    requires terms == Dedup(raw) && t != "" && forall x :: x in seen <==> x in terms
    ensures terms' == Dedup(raw + [t]) && forall x :: x in seen' <==> x in terms'
  {
    DedupSnoc(raw, t);
    terms', seen' := terms, seen;
    if t != "" && t !in seen {
      seen' := seen + {t};
      terms' := terms + [t];
    }
  }

  method FlushWord(terms: seq<string>, seen: set<string>, word: string, ghost raw: seq<string>)
    returns (terms': seq<string>, seen': set<string>)
    requires terms == Dedup(raw) && Uniform(word, Word) && forall x :: x in seen <==> x in terms
    ensures terms' == Dedup(raw + RunTerms(word)) && forall x :: x in seen' <==> x in terms'
  {
    if |word| > 0 {
      terms', seen' := Add(terms, seen, Lower(word), raw);
    } else {
      assert raw + [] == raw;
      terms', seen' := terms, seen;
    }
  }

  method FlushCjk(terms: seq<string>, seen: set<string>, run: string, ghost raw: seq<string>)
    returns (terms': seq<string>, seen': set<string>)
    requires terms == Dedup(raw) && Uniform(run, Cjk) && forall x :: x in seen <==> x in terms
    ensures terms' == Dedup(raw + RunTerms(run)) && forall x :: x in seen' <==> x in terms'
  {
    terms', seen' := terms, seen;
    if |run| == 0 {
      assert raw + [] == raw;
      return;
    }
    if |run| <= 4 {
      terms', seen' := Add(terms, seen, run, raw);
    } else {
      terms', seen' := AddBigrams(terms, seen, run, raw);
    }
  }

  method AddBigrams(terms: seq<string>, seen: set<string>, run: string, ghost raw: seq<string>)
    returns (terms': seq<string>, seen': set<string>)
    requires terms == Dedup(raw) && |run| >= 2 && forall x :: x in seen <==> x in terms
    ensures terms' == Dedup(raw + Bigrams(run)) && forall x :: x in seen' <==> x in terms'
  {
    hide Dedup;
    terms', seen' := terms, seen;
    ghost var done: seq<string> := [];
    var i := 0;
    assert raw + done == raw && run[0..] == run;
    while i + 2 <= |run|
      invariant 0 <= i < |run|
      invariant terms' == Dedup(raw + done) && forall x :: x in seen' <==> x in terms'
      invariant done + Bigrams(run[i..]) == Bigrams(run)
    {
      BigramsStep(done, run, i);
      Assoc(raw, done, [run[i..i + 2]]);
      terms', seen' := Add(terms', seen', run[i..i + 2], raw + done);
      done := done + [run[i..i + 2]];
      i := i + 1;
    }
    assert done == Bigrams(run) by {
      assert Bigrams(run[i..]) == [];
    }
  }

  lemma BigramsStep(done: seq<string>, run: string, i: nat)
    requires i + 2 <= |run|
    ensures done + Bigrams(run[i..]) == done + [run[i..i + 2]] + Bigrams(run[i + 1..])
  {
    assert run[i..][..2] == run[i..i + 2] && run[i..][1..] == run[i + 1..];
    Assoc(done, [run[i..i + 2]], Bigrams(run[i + 1..]));
  }

  /** What has been emitted and what is still to come, buffers included, is the whole query. */
  ghost predicate OnTrack(q: string, raw: seq<string>, word: string, cjk: string, rest: string) {
    && (word == "" || cjk == "")
    && Uniform(word, Word) && Uniform(cjk, Cjk)
    && raw + RawTerms(word + cjk + rest) == RawTerms(q)
  }

  lemma TakeChar(q: string, raw: seq<string>, word: string, cjk: string, rest: string)
    requires OnTrack(q, raw, word, cjk, rest) && rest != ""
    requires KindOf(rest[0]) != Word ==> word == ""
    requires KindOf(rest[0]) != Cjk ==> cjk == ""
    ensures match KindOf(rest[0])
      case Cjk => OnTrack(q, raw, word, cjk + [rest[0]], rest[1..])
      case Word => OnTrack(q, raw, word + [rest[0]], cjk, rest[1..])
      case Other => OnTrack(q, raw, word, cjk, rest[1..])
  {
    hide RawTerms;
    var c, later := rest[0], rest[1..];
    assert rest == [c] + later;
    match KindOf(c) {
      case Cjk => assert word + (cjk + [c]) + later == word + cjk + rest;
      case Word => assert (word + [c]) + cjk + later == word + cjk + rest;
      case Other =>
        assert word + cjk + rest == rest && word + cjk + later == later;
        SkipOther(c, later);
    }
  }

  lemma TrackStart(q: string)
    ensures OnTrack(q, [], "", "", q) && Dedup([]) == []
  {
    assert "" + "" + q == q;
  }

  lemma TrackEnd(q: string, raw: seq<string>)
    requires OnTrack(q, raw, "", "", "")
    ensures raw == RawTerms(q)
  {
    assert RawTerms("" + "" + "") == [];
  }

  /** One pass over the query with a word buffer and a CJK buffer, at most one of them open. */
  method SplitQueryTerms(q: string) returns (terms: seq<string>)
    ensures terms == Terms(q)
  {
    hide OnTrack, RawTerms, RunTerms, Dedup;
    terms := [];
    var seen: set<string> := {};
    var word, cjk := "", "";
    ghost var raw: seq<string> := [];
    TrackStart(q);
    assert q[0..] == q;
    for i := 0 to |q|
      invariant OnTrack(q, raw, word, cjk, q[i..])
      invariant terms == Dedup(raw) && forall x :: x in seen <==> x in terms
    {
      assert q[i..][0] == q[i] && q[i..][1..] == q[i + 1..];
      if KindOf(q[i]) != Word {
        Closing(q, raw, word, cjk, q[i..]);
        terms, seen := FlushWord(terms, seen, word, raw);
        raw, word := raw + RunTerms(word), "";
      }
      if KindOf(q[i]) != Cjk {
        ClosingCjk(q, raw, word, cjk, q[i..]);
        terms, seen := FlushCjk(terms, seen, cjk, raw);
        raw, cjk := raw + RunTerms(cjk), "";
      }
      TakeChar(q, raw, word, cjk, q[i..]);
      match KindOf(q[i]) {
        case Cjk => cjk := cjk + [q[i]];
        case Word => word := word + [q[i]];
        case Other =>
      }
    }
    assert q[|q|..] == "";
    Closing(q, raw, word, cjk, "");
    terms, seen := FlushWord(terms, seen, word, raw);
    raw := raw + RunTerms(word);
    ClosingCjk(q, raw, "", cjk, "");
    terms, seen := FlushCjk(terms, seen, cjk, raw);
    TrackEnd(q, raw + RunTerms(cjk));
  }

  /** Closing a buffer keeps the scan on track. */
  lemma Closing(q: string, raw: seq<string>, word: string, cjk: string, rest: string)
    requires OnTrack(q, raw, word, cjk, rest) && (rest == "" || KindOf(rest[0]) != Word)
    ensures OnTrack(q, raw + RunTerms(word), "", cjk, rest) && Uniform(word, Word)
  {
    hide RawTerms, RunTerms;
    CloseBuffer(raw, word, cjk + rest, Word);
    assert word + cjk + rest == word + (cjk + rest) && "" + cjk + rest == cjk + rest;
    assert Uniform("", Word);
  }

  lemma ClosingCjk(q: string, raw: seq<string>, word: string, cjk: string, rest: string)
    requires OnTrack(q, raw, word, cjk, rest) && (rest == "" || KindOf(rest[0]) != Cjk)
    ensures OnTrack(q, raw + RunTerms(cjk), word, "", rest) && Uniform(cjk, Cjk)
  {
    hide RawTerms, RunTerms;
    if cjk == "" {
      CloseBuffer(raw, "", word + rest, Cjk);
      assert word + "" + rest == word + rest && "" + (word + rest) == word + rest;
    } else {
      CloseBuffer(raw, cjk, rest, Cjk);
      assert word + cjk + rest == cjk + rest && word + "" + rest == rest;
      assert Uniform("", Cjk);
    }
  }

  lemma CloseBuffer(raw: seq<string>, run: string, rest: string, k: Kind)
    requires Uniform(run, k) && (run == "" || rest == "" || KindOf(rest[0]) != k)
    ensures raw + RawTerms(run + rest) == raw + RunTerms(run) + RawTerms(rest)
  {
    if run == "" {
      hide RawTerms;
      assert run + rest == rest && raw + RunTerms(run) == raw;
    } else {
      hide RawTerms, RunTerms;
      CloseRun(run, rest, k);
      Assoc(raw, RunTerms(run), RawTerms(rest));
    }
  }

  // ------------------------------------------------------------------ what the terms are

  /** `q[a..b]` is a run of one kind that cannot be extended. */
  ghost predicate MaximalRun(q: string, a: int, b: int) {
    && 0 <= a < b <= |q|
    && Uniform(q[a..b], KindOf(q[a]))
    && (a > 0 ==> KindOf(q[a - 1]) != KindOf(q[a]))
    && (b < |q| ==> KindOf(q[b]) != KindOf(q[a]))
  }

  /** A maximal run that starts at or after a boundary is the first one there or lies beyond it. */
  lemma NextRun(q: string, k: nat, a: int, b: int)
    requires k < |q| && k <= a && MaximalRun(q, a, b)
    ensures var n := Span(q[k..], KindOf(q[k])); (a == k && b == k + n) || a >= k + n
  {
    var n := Span(q[k..], KindOf(q[k]));
    assert forall i :: k <= i < k + n ==> q[i] == q[k..][..n][i - k];
    assert forall i :: a <= i < b ==> q[i] == q[a..b][i - a];
    assert forall i :: k <= i < k + n ==> KindOf(q[i]) == KindOf(q[k]);
    assert forall i :: a <= i < b ==> KindOf(q[i]) == KindOf(q[a]);
    assert k + n < |q| ==> q[k..][n] == q[k + n];
  }

  /** What the scan finds at a boundary is a maximal run, and its end is a boundary again. */
  lemma FirstRun(q: string, k: nat) returns (n: nat)
    requires k < |q| && (k > 0 ==> KindOf(q[k - 1]) != KindOf(q[k]))
    ensures n == Span(q[k..], KindOf(q[k])) && 0 < n <= |q| - k && MaximalRun(q, k, k + n)
    ensures k + n < |q| ==> KindOf(q[k + n - 1]) != KindOf(q[k + n])
    ensures RawTerms(q[k..]) == RunTerms(q[k..k + n]) + RawTerms(q[k + n..])
  {
    hide RunTerms;
    var rest, kind := q[k..], KindOf(q[k]);
    n := Span(rest, kind);
    assert rest[..n] == q[k..k + n] && rest[n..] == q[k + n..];
    assert k + n < |q| ==> rest[n] == q[k + n];
    assert KindOf(q[k + n - 1]) == kind by { assert rest[..n][n - 1] == q[k + n - 1]; }
  }

  /** `t` is a term of the maximal run `q[a..b]`. */
  ghost predicate TermOf(q: string, a: int, b: int, t: string) {
    MaximalRun(q, a, b) && t in RunTerms(q[a..b])
  }

  lemma FirstOrLater(q: string, k: nat, n: nat, t: string)
    requires k < |q| && n == Span(q[k..], KindOf(q[k])) && MaximalRun(q, k, k + n)
    ensures t in RunTerms(q[k..k + n]) <==> TermOf(q, k, k + n, t)
    ensures forall a, b :: k <= a && TermOf(q, a, b, t) ==> (a == k && b == k + n) || k + n <= a
  {
    hide RunTerms, Uniform;
    forall a, b | k <= a && TermOf(q, a, b, t) ensures (a == k && b == k + n) || k + n <= a {
      NextRun(q, k, a, b);
    }
  }

  lemma NothingLeft(q: string, t: string)
    ensures t !in RawTerms(q[|q|..])
    ensures forall a, b :: |q| <= a ==> !TermOf(q, a, b, t)
  {
    assert q[|q|..] == "";
  }

  /** A raw term of the text from a boundary on is a term of a maximal run from there on. */
  lemma {:induction false} RawTermsAreRunTerms(q: string, k: nat, t: string)
    requires k <= |q| && (0 < k < |q| ==> KindOf(q[k - 1]) != KindOf(q[k]))
    ensures t in RawTerms(q[k..]) <==> exists a, b :: k <= a && TermOf(q, a, b, t)
    decreases |q| - k
  {
    hide RunTerms, RawTerms, MaximalRun, TermOf, Span, KindOf;
    if k == |q| {
      NothingLeft(q, t);
    } else {
      var n := FirstRun(q, k);
      FirstOrLater(q, k, n, t);
      RawTermsAreRunTerms(q, k + n, t);
    }
  }

  lemma {:induction false} DedupMembers(ts: seq<string>, t: string)
    ensures t in Dedup(ts) <==> t in ts
    decreases |ts|
  {
    if ts != [] {
      DedupMembers(ts[..|ts| - 1], t);
      assert ts == ts[..|ts| - 1] + [ts[|ts| - 1]];
    }
  }

  /** Deduplication is stable: no repetitions, and what a prefix contributes comes first, so terms
      stand in the order of their first occurrences. */
  lemma {:induction false} DedupStable(ts: seq<string>, k: nat)
    requires k <= |ts|
    ensures forall i, j :: 0 <= i < j < |Dedup(ts)| ==> Dedup(ts)[i] != Dedup(ts)[j]
    ensures Dedup(ts[..k]) <= Dedup(ts)
    decreases |ts|
  {
    if ts == [] {
      assert ts[..k] == [];
    } else {
      var front := ts[..|ts| - 1];
      if k < |ts| {
        DedupStable(front, k);
        assert front[..k] == ts[..k];
      } else {
        DedupStable(front, 0);
        assert ts[..k] == ts;
      }
    }
  }

  /** The terms are exactly the terms of the maximal runs of the query, without repetitions, in
      the order of first occurrence along the query. */
  lemma TermsAreRunTerms(q: string, t: string)
    ensures t in Terms(q) <==> exists a, b :: 0 <= a && TermOf(q, a, b, t)
    ensures forall i, j :: 0 <= i < j < |Terms(q)| ==> Terms(q)[i] != Terms(q)[j]
    ensures forall k :: 0 <= k <= |RawTerms(q)| ==> Dedup(RawTerms(q)[..k]) <= Terms(q)
  {
    hide RunTerms, RawTerms, MaximalRun, TermOf;
    assert q[0..] == q;
    RawTermsAreRunTerms(q, 0, t);
    DedupMembers(RawTerms(q), t);
    forall k | 0 <= k <= |RawTerms(q)| ensures Dedup(RawTerms(q)[..k]) <= Terms(q) {
      DedupStable(RawTerms(q), k);
    }
    DedupStable(RawTerms(q), 0);
  }

  lemma {:induction false} BigramsCover(run: string, i: nat)
    requires i < |run| && |run| >= 2
    ensures exists t :: t in Bigrams(run) && run[i] in t
    ensures |Bigrams(run)| == |run| - 1
    decreases |run|
  {
    assert run[..2] in Bigrams(run);
    assert run[..2][0] == run[0] && run[..2][1] == run[1];
    if |run| > 2 {
      BigramsCover(run[1..], if i > 0 then i - 1 else 0);
      if i > 1 {
        var t :| t in Bigrams(run[1..]) && run[1..][i - 1] in t;
        assert t in Bigrams(run);
      }
    } else {
      assert Bigrams(run[1..]) == [];
    }
  }

  lemma RunCovers(run: string, i: nat)
    requires i < |run| && Uniform(run, KindOf(run[0])) && KindOf(run[i]) != Other
    ensures exists t :: t in RunTerms(run) && LowerChar(run[i]) in t
    ensures KindOf(run[i]) == Cjk ==> LowerChar(run[i]) == run[i]
  {
    if KindOf(run[i]) == Word {
      assert Lower(run)[i] == LowerChar(run[i]);
      assert Lower(run) in RunTerms(run);
    } else if |run| <= 4 {
      assert run in RunTerms(run);
    } else {
      BigramsCover(run, i);
      var t :| t in Bigrams(run) && run[i] in t;
      assert t in RunTerms(run);
    }
  }

  /** Coverage: every CJK character of the query, and every word character up to case, lies in
      some term. */
  lemma TermsCover(q: string, i: nat)
    requires i < |q| && KindOf(q[i]) != Other
    ensures exists t :: t in Terms(q) && LowerChar(q[i]) in t
    ensures KindOf(q[i]) == Cjk ==> LowerChar(q[i]) == q[i]
  {
    hide RunTerms;
    var a, b := RunAround(q, i);
    var run := q[a..b];
    assert run[i - a] == q[i] && run[0] == q[a];
    RunCovers(run, i - a);
    var t :| t in RunTerms(run) && LowerChar(q[i]) in t;
    assert TermOf(q, a, b, t);
    TermsAreRunTerms(q, t);
  }

  lemma RunAround(q: string, i: nat) returns (a: nat, b: nat)
    requires i < |q|
    ensures a <= i < b <= |q| && MaximalRun(q, a, b)
  {
    a, b := i, i + 1;
    while a > 0 && KindOf(q[a - 1]) == KindOf(q[i])
      invariant a <= i && forall j :: a <= j <= i ==> KindOf(q[j]) == KindOf(q[i])
    {
      a := a - 1;
    }
    while b < |q| && KindOf(q[b]) == KindOf(q[i])
      invariant i < b <= |q| && forall j :: a <= j < b ==> KindOf(q[j]) == KindOf(q[i])
    {
      b := b + 1;
    }
  }

  lemma {:induction false} DedupShrinks(ts: seq<string>)
    ensures |Dedup(ts)| <= |ts|
  {
    if ts != [] {
      DedupShrinks(ts[..|ts| - 1]);
    }
  }

  lemma RunTermsAtMost(run: string)
    ensures |RunTerms(run)| <= |run|
  {
    if |run| > 4 {
      BigramsCover(run, 0);
    }
  }

  lemma {:induction false} RawTermsAtMost(q: string)
    ensures |RawTerms(q)| <= |q|
  {
    hide RunTerms;
    if q != "" {
      var n := Span(q, KindOf(q[0]));
      RunTermsAtMost(q[..n]);
      RawTermsAtMost(q[n..]);
    }
  }

  /** A query has at most as many terms as characters. */
  lemma TermsAtMost(q: string)
    ensures |Terms(q)| <= |q|
  {
    RawTermsAtMost(q);
    DedupShrinks(RawTerms(q));
  }

  // ------------------------------------------------------------------ the terms by characters

  lemma {:induction false} BigramsAre(run: string)
    requires run != ""
    ensures |Bigrams(run)| == |run| - 1 && forall i :: 0 <= i < |run| - 1 ==> Bigrams(run)[i] == run[i..i + 2]
    decreases |run|
  {
    if |run| >= 2 {
      var later := run[1..];
      BigramsAre(later);
      var ts, us := Bigrams(run), Bigrams(later);
      assert ts == [run[..2]] + us;
      hide Bigrams;
      forall i | 0 <= i < |run| - 1 ensures ts[i] == run[i..i + 2] {
        if i > 0 {
          assert us[i - 1] == later[i - 1..i + 1];
          assert later[i - 1..i + 1] == run[i..i + 2];
        }
      }
    }
  }

  /** A word comes whole, in lower case; a CJK run of at most four characters whole; a longer one as
      its adjacent pairs, in order. */
  lemma TermsOfRun(run: string)
    requires run != "" && Uniform(run, KindOf(run[0]))
    ensures KindOf(run[0]) == Word ==> RunTerms(run) == [Lower(run)]
    ensures KindOf(run[0]) == Cjk && |run| <= 4 ==> RunTerms(run) == [run]
    ensures KindOf(run[0]) == Cjk && |run| >= 5 ==>
      |RunTerms(run)| == |run| - 1 && forall i :: 0 <= i < |run| - 1 ==> RunTerms(run)[i] == run[i..i + 2]
    ensures KindOf(run[0]) == Other ==> RunTerms(run) == []
  {
    BigramsAre(run);
  }

  /** `t` comes from the maximal run `q[a..b]`. */
  ghost predicate ComesFrom(q: string, a: int, b: int, t: string) {
    MaximalRun(q, a, b) &&
    match KindOf(q[a])
    case Other => false
    case Word => t == Lower(q[a..b])
    case Cjk => if b - a <= 4 then t == q[a..b] else exists i :: a <= i < b - 1 && PairAt(q, i, t)
  }

  ghost predicate PairAt(q: string, i: int, t: string) {
    0 <= i < |q| - 1 && t == [q[i], q[i + 1]]
  }

  lemma TermOfIsComesFrom(q: string, a: int, b: int, t: string)
    ensures TermOf(q, a, b, t) <==> ComesFrom(q, a, b, t)
  {
    if MaximalRun(q, a, b) {
      var run := q[a..b];
      assert run[0] == q[a];
      TermsOfRun(run);
      hide RunTerms, Uniform;
      forall i | a <= i < b - 1 ensures run[i - a..i - a + 2] == [q[i], q[i + 1]] {
      }
      if KindOf(q[a]) == Cjk && b - a > 4 {
        if t in RunTerms(run) {
          var k :| 0 <= k < |RunTerms(run)| && RunTerms(run)[k] == t;
          assert PairAt(q, a + k, t);
        }
        if i :| a <= i < b - 1 && PairAt(q, i, t) {
          assert RunTerms(run)[i - a] == t;
        }
      }
    }
  }

  /** The terms of a query, by its characters: lower-cased words, CJK runs of up to four characters,
      and the adjacent pairs of longer ones. */
  lemma TermsExactly(q: string, t: string)
    ensures t in Terms(q) <==> exists a, b :: 0 <= a && ComesFrom(q, a, b, t)
  {
    hide ComesFrom, TermOf;
    TermsAreRunTerms(q, t);
    forall a, b ensures TermOf(q, a, b, t) <==> ComesFrom(q, a, b, t) {
      TermOfIsComesFrom(q, a, b, t);
    }
  }

  /** The first and last characters of the four CJK ranges and of the word ranges, and those next to
      them. */
  lemma KindsAtTheBounds()
    ensures forall c: char :: c as int in {0x4E00, 0x9FFF, 0x3400, 0x4DBF, 0xF900, 0xFAFF, 0x3000, 0x303F} ==> KindOf(c) == Cjk
    ensures forall c: char :: c as int in {0x4DFF, 0xA000, 0x33FF, 0x4DC0, 0xF8FF, 0xFB00, 0x2FFF, 0x3040} ==> KindOf(c) == Other
    ensures forall c: char :: c in "azAZ09_-" ==> KindOf(c) == Word
    ensures forall c: char :: c in "`{@[/:^,. " ==> KindOf(c) == Other
  {
  }
}
