/**
 Ordering of search results: lexical scores, weighted reciprocal-rank fusion of two candidate
 lists, and the in-place insertion sort both end with. Scores are exact reals.
 */
module RankFusion {
  import opened Text
  import opened TermWorth

  datatype Chunk = Chunk(id: int, section: string, text: string)
  datatype Scored = Scored(chunk: Chunk, score: real)

  // ------------------------------------------------------------------ the sort

  /** `x` placed behind everything of at least its score, looking from the back. */
  function Insert(s: seq<Scored>, x: Scored): seq<Scored> {
    if s == [] || s[|s| - 1].score >= x.score then s + [x]
    else Insert(s[..|s| - 1], x) + [s[|s| - 1]]
  }

  function SortDesc(s: seq<Scored>): seq<Scored> {
    if s == [] then [] else Insert(SortDesc(s[..|s| - 1]), s[|s| - 1])
  }

  ghost predicate Descending(s: seq<Scored>) {
    forall i, j :: 0 <= i < j < |s| ==> s[i].score >= s[j].score
  }

  /** The entries of score `v`, in order. */
  function With(s: seq<Scored>, v: real): seq<Scored> {
    if s == [] then []
    else With(s[..|s| - 1], v) + if s[|s| - 1].score == v then [s[|s| - 1]] else []
  }

  /** `r` holds the entries of `s`, and those of equal score in the order they have in `s`. */
  ghost predicate StableRearrangement(r: seq<Scored>, s: seq<Scored>) {
    forall v :: With(r, v) == With(s, v)
  }

  method InsertionSort(a: array<Scored>)
    modifies a
    ensures a[..] == SortDesc(old(a[..]))
  {
    hide SortDesc;
    ghost var was := a[..];
    SortShort(was);
    var i := 1;
    while i < a.Length
      invariant 1 <= i
      invariant |was| == a.Length
      invariant i <= a.Length ==> a[..i] == SortDesc(was[..i]) && a[i..] == was[i..]
      invariant a.Length < i ==> a[..] == SortDesc(was)
    {
      SinkDown(a, i);
      assert a[i + 1..] == was[i + 1..];
      SortStep(was, i);
      i := i + 1;
    }
    assert was[..|was|] == was && a[..a.Length] == a[..];
  }

  lemma SortShort(s: seq<Scored>)
    ensures s == [] ==> SortDesc(s) == s
    ensures s != [] ==> SortDesc(s[..1]) == s[..1]
  {
    if s != [] {
      assert s[..1][..0] == [] && s[..1] == [s[0]];
    }
  }

  lemma SortStep(was: seq<Scored>, i: nat)
    requires i < |was|
    ensures SortDesc(was[..i + 1]) == Insert(SortDesc(was[..i]), was[i])
  {
    assert was[..i + 1][..i] == was[..i];
  }

  /** `was` with `x` let in at place `j`. */
  function LetIn(was: seq<Scored>, x: Scored, j: nat): (r: seq<Scored>)
    requires j <= |was|
    ensures |r| == |was| + 1 && r[j] == x && (j > 0 ==> r[j - 1] == was[j - 1])
  {
    was[..j] + [x] + was[j..]
  }

  lemma Exchange(was: seq<Scored>, x: Scored, j: nat)
    requires 0 < j <= |was|
    ensures forall k :: 0 <= k <= |was| && k != j && k != j - 1 ==> LetIn(was, x, j - 1)[k] == LetIn(was, x, j)[k]
    ensures LetIn(was, x, j - 1)[j] == LetIn(was, x, j)[j - 1] && LetIn(was, x, j - 1)[j - 1] == LetIn(was, x, j)[j]
  {
    forall k | 0 <= k <= |was|
      ensures LetIn(was, x, j)[k] == if k < j then was[k] else if k == j then x else was[k - 1]
      ensures LetIn(was, x, j - 1)[k] == if k < j - 1 then was[k] else if k == j - 1 then x else was[k - 1]
    {
    }
  }

  /** `x` inserted into the first `j` elements, the others behind. */
  function Sunk(was: seq<Scored>, x: Scored, j: nat): seq<Scored>
    requires j <= |was|
  {
    Insert(was[..j], x) + was[j..]
  }

  lemma InsertDeeper(was: seq<Scored>, x: Scored, j: nat)
    requires 0 < j <= |was| && was[j - 1].score < x.score
    ensures Sunk(was, x, j) == Sunk(was, x, j - 1)
  {
    assert was[..j][..j - 1] == was[..j - 1];
    assert was[j - 1..] == [was[j - 1]] + was[j..];
    Assoc(Insert(was[..j - 1], x), [was[j - 1]], was[j..]);
  }

  lemma InsertHere(was: seq<Scored>, x: Scored, j: nat)
    requires j <= |was| && (j > 0 ==> was[j - 1].score >= x.score)
    ensures Sunk(was, x, j) == LetIn(was, x, j)
  {
  }

  lemma SunkStart(was: seq<Scored>, x: Scored)
    ensures Sunk(was, x, |was|) == Insert(was, x)
  {
    assert was[..|was|] == was && was[|was|..] == [];
  }

  /** One element exchanged towards the front until it meets a score at least its own. */
  method SinkDown(a: array<Scored>, i: nat)
    requires i < a.Length
    modifies a
    ensures a[..i + 1] == Insert(old(a[..i]), old(a[i]))
    ensures forall k :: i < k < a.Length ==> a[k] == old(a[k])
  {
    hide Insert, LetIn, Sunk;
    ghost var was, x := a[..i], a[i];
    var j := i;
    LetInEnd(was, x);
    SunkStart(was, x);
    while j > 0 && a[j].score > a[j - 1].score
      invariant 0 <= j <= i
      invariant forall k :: 0 <= k <= i ==> a[k] == LetIn(was, x, j)[k]
      invariant forall k :: i < k < a.Length ==> a[k] == old(a[k])
      invariant Sunk(was, x, j) == Insert(was, x)
    {
      InsertDeeper(was, x, j);
      Exchange(was, x, j);
      a[j], a[j - 1] := a[j - 1], a[j];
      j := j - 1;
    }
    InsertHere(was, x, j);
    assert a[..i + 1] == LetIn(was, x, j);
  }

  lemma LetInEnd(was: seq<Scored>, x: Scored)
    ensures forall k :: 0 <= k <= |was| ==> LetIn(was, x, |was|)[k] == if k < |was| then was[k] else x
  {
  }

  lemma WithSnoc(s: seq<Scored>, x: Scored, v: real)
    ensures With(s + [x], v) == With(s, v) + if x.score == v then [x] else []
  {
    assert (s + [x])[..|s|] == s;
  }

  lemma {:induction false} WithNone(s: seq<Scored>, v: real)
    requires forall i :: 0 <= i < |s| ==> s[i].score != v
    ensures With(s, v) == []
  {
    if s != [] { WithNone(s[..|s| - 1], v); }
  }

  lemma {:induction false} InsertWith(s: seq<Scored>, x: Scored, v: real)
    requires Descending(s)
    ensures With(Insert(s, x), v) == With(s, v) + if x.score == v then [x] else []
  {
    if s == [] || s[|s| - 1].score >= x.score {
      WithSnoc(s, x, v);
    } else {
      var front, last := s[..|s| - 1], s[|s| - 1];
      InsertWith(front, x, v);
      WithSnoc(Insert(front, x), last, v);
    }
  }

  lemma {:induction false} InsertDescends(s: seq<Scored>, x: Scored)
    requires Descending(s)
    ensures Descending(Insert(s, x)) && |Insert(s, x)| == |s| + 1
    ensures forall i :: 0 <= i < |s| + 1 ==> Insert(s, x)[i] == x || Insert(s, x)[i] in s
  {
    if s != [] && s[|s| - 1].score < x.score {
      InsertDescends(s[..|s| - 1], x);
    }
  }

  /** The insertion sort is a stable descending rearrangement … */
  lemma {:induction false} SortIsStable(s: seq<Scored>)
    ensures Descending(SortDesc(s)) && StableRearrangement(SortDesc(s), s) && |SortDesc(s)| == |s|
  {
    if s != [] {
      var front, last := s[..|s| - 1], s[|s| - 1];
      SortIsStable(front);
      forall v ensures With(SortDesc(s), v) == With(s, v) {
        InsertWith(SortDesc(front), last, v);
      }
      InsertDescends(SortDesc(front), last);
    }
  }

  lemma {:induction false} WithMembers(s: seq<Scored>, v: real)
    ensures forall e :: e in With(s, v) <==> e in s && e.score == v
  {
    if s != [] {
      WithMembers(s[..|s| - 1], v);
      assert s == s[..|s| - 1] + [s[|s| - 1]];
    }
  }

  lemma LastAtMost(r: seq<Scored>, t: seq<Scored>)
    requires Descending(t) && StableRearrangement(r, t) && r != []
    ensures t != [] && t[|t| - 1].score <= r[|r| - 1].score
  {
    hide With;
    var x := r[|r| - 1];
    assert x in r;
    WithMembers(r, x.score);
    WithMembers(t, x.score);
    assert With(r, x.score) == With(t, x.score);
    assert x in t;
  }

  lemma WithFront(s: seq<Scored>, v: real)
    requires s != []
    ensures var w, x := With(s, v), s[|s| - 1];
      if x.score == v then w != [] && w[|w| - 1] == x && With(s[..|s| - 1], v) == w[..|w| - 1]
      else With(s[..|s| - 1], v) == w
  {
  }

  lemma SameLast(r: seq<Scored>, t: seq<Scored>)
    requires Descending(r) && Descending(t) && StableRearrangement(r, t) && r != []
    ensures t != [] && r[|r| - 1] == t[|t| - 1]
    ensures StableRearrangement(r[..|r| - 1], t[..|t| - 1])
  {
    hide With;
    LastAtMost(r, t);
    LastAtMost(t, r);
    var r', t' := r[..|r| - 1], t[..|t| - 1];
    forall v ensures With(r', v) == With(t', v) {
      WithFront(r, v);
      WithFront(t, v);
      assert With(r, v) == With(t, v);
    }
    WithFront(r, r[|r| - 1].score);
    WithFront(t, r[|r| - 1].score);
  }

  /** … and there is only one. */
  lemma {:induction false} StableSortIsUnique(r: seq<Scored>, t: seq<Scored>)
    requires Descending(r) && Descending(t) && StableRearrangement(r, t)
    ensures r == t
    decreases |r|
  {
    if r != [] {
      SameLast(r, t);
      StableSortIsUnique(r[..|r| - 1], t[..|t| - 1]);
    } else if t != [] {
      SameLast(t, r);
    }
  }

  // ------------------------------------------------------------------ lexical scores

  /** Occurrences of `t` in `s` that do not overlap, from the left; the empty term occurs before
      every character and at the end. */
  function Count(s: string, t: string): nat
    decreases |s|
  {
    if t == "" then |s| + 1
    else if s == "" then 0
    else if t <= s then 1 + Count(s[|t|..], t)
    else Count(s[1..], t)
  }

  /** Byte offset of the first occurrence of `t`, if there is one. */
  function IndexOf(s: string, t: string): nat {
    if t <= s || s == "" then 0 else ByteLength(s[..1]) + IndexOf(s[1..], t)
  }

  function Power2(n: nat): real {
    if n == 0 then 1.0 else 2.0 * Power2(n - 1)
  }

  /** What one term adds to the score of a chunk with lower-cased text `body`. */
  function TermScore(body: string, section: string, t: string, t': string): real {
    var n := Count(body, t);
    if n == 0 then (if Contains(section, t') then 0.5 else 0.0)
    else
      var runes := if |body| == 0 then 1 else |body|;
      var density := (n * |t|) as real / runes as real;
      var boost := if IndexOf(body, t) < runes / 4 then 1.15 else 1.0;
      Power2(if |t| == 0 then 0 else |t| - 1) * n as real * boost
      * (1.0 + if density < 0.3 then density else 0.3)
  }

  /** `low` is the lower-casing of the language's library. */
  function Score(c: Chunk, terms: seq<string>, low: string -> string): real {
    if terms == [] then 0.0
    else
      var t := terms[|terms| - 1];
      Score(c, terms[..|terms| - 1], low) + TermScore(low(c.text), low(c.section), t, low(t))
  }

  /** The candidates of positive score, in order. */
  function Kept(cands: seq<Chunk>, terms: seq<string>, low: string -> string): seq<Scored> {
    if cands == [] then []
    else
      var c := cands[|cands| - 1];
      var s := Score(c, terms, low);
      Kept(cands[..|cands| - 1], terms, low) + if s > 0.0 then [Scored(c, s)] else []
  }

  method ScoreOf(c: Chunk, terms: seq<string>, low: string -> string) returns (score: real)
    ensures score == Score(c, terms, low)
  {
    hide TermScore;
    var lower, secLower := low(c.text), low(c.section);
    score := 0.0;
    for k := 0 to |terms|
      invariant score == Score(c, terms[..k], low)
    {
      assert terms[..k + 1][..k] == terms[..k];
      var s := ScoreTerm(lower, secLower, terms[k], low(terms[k]));
      score := score + s;
    }
    assert terms[..|terms|] == terms;
  }

  method ScoreTerm(lower: string, secLower: string, t: string, t': string) returns (s: real)
    ensures s == TermScore(lower, secLower, t, t')
  {
    hide Count, Contains, IndexOf;
    var runes := |lower|;
    if runes == 0 {
      runes := 1;
    }
    var n := Count(lower, t);
    if n == 0 {
      return if Contains(secLower, t') then 0.5 else 0.0;
    }
    var w := 1.0;
    for i := 1 to if |t| < 1 then 1 else |t|
      invariant w == Power2(i - 1)
    {
      w := w * 2.0;
    }
    var pos := IndexOf(lower, t);
    var posBoost := if pos < runes / 4 then 1.15 else 1.0;
    var density := (n * |t|) as real / runes as real;
    s := w * n as real * posBoost * (1.0 + if density < 0.3 then density else 0.3);
  }

  method RankScores(cands: seq<Chunk>, terms: seq<string>, low: string -> string) returns (out: seq<Scored>)
    ensures out == SortDesc(Kept(cands, terms, low))
    ensures Descending(out)
    ensures forall e :: e in out <==> e.chunk in cands && e.score > 0.0 && Scores(e.score, e.chunk, terms, low)
  {
    hide SortDesc, Score, Descending, Scores;
    out := [];
    for k := 0 to |cands|
      invariant out == Kept(cands[..k], terms, low)
    {
      assert cands[..k + 1][..k] == cands[..k];
      var score := ScoreOf(cands[k], terms, low);
      if score > 0.0 {
        out := out + [Scored(cands[k], score)];
      }
    }
    assert cands[..|cands|] == cands;
    var a := new Scored[|out|](i requires 0 <= i < |out| => out[i]);
    assert a[..] == out;
    InsertionSort(a);
    out := a[..];
    RankingByWorth(cands, terms, low);
  }

  /** `t` occurs in the text of `c`, or its lower-cased form in the section. */
  predicate Hit(c: Chunk, t: string, low: string -> string) {
    Contains(low(c.text), t) || Contains(low(c.section), low(t))
  }

  lemma {:induction false} CountFinds(s: string, t: string)
    ensures Count(s, t) > 0 <==> Contains(s, t)
    decreases |s|
  {
    if t != "" && s != "" && !(t <= s) {
      CountFinds(s[1..], t);
    }
  }

  lemma {:induction false} Power2Positive(n: nat)
    ensures Power2(n) > 0.0
  {
    if n > 0 { Power2Positive(n - 1); }
  }

  lemma ProductPositive(a: real, b: real)
    requires a > 0.0 && b > 0.0
    ensures a * b > 0.0
  {
  }

  lemma TermScorePositive(c: Chunk, t: string, low: string -> string)
    ensures var s := TermScore(low(c.text), low(c.section), t, low(t)); s >= 0.0 && (s > 0.0 <==> Hit(c, t, low))
  {
    hide Count, Contains, IndexOf, Power2;
    var body := low(c.text);
    CountFinds(body, t);
    var n := Count(body, t);
    if n > 0 {
      var runes := if |body| == 0 then 1 else |body|;
      var boost := if IndexOf(body, t) < runes / 4 then 1.15 else 1.0;
      var w := Power2(if |t| == 0 then 0 else |t| - 1);
      Power2Positive(if |t| == 0 then 0 else |t| - 1);
      Density(n * |t|, runes);
      ProductPositive(w, n as real);
      ProductPositive(w * n as real, boost);
      var density := (n * |t|) as real / runes as real;
      ProductPositive(w * n as real * boost, 1.0 + if density < 0.3 then density else 0.3);
    }
  }

  lemma Density(n: nat, runes: nat)
    requires runes > 0
    ensures n as real / runes as real >= 0.0
  {
  }

  /** A chunk scores exactly when some term hits its text or its section. */
  lemma {:induction false} ScoresIffHit(c: Chunk, terms: seq<string>, low: string -> string)
    ensures Score(c, terms, low) >= 0.0
    ensures Score(c, terms, low) > 0.0 <==> exists t :: t in terms && Hit(c, t, low)
  {
    hide TermScore, Hit;
    if terms != [] {
      var front, t := terms[..|terms| - 1], terms[|terms| - 1];
      ScoresIffHit(c, front, low);
      TermScorePositive(c, t, low);
      assert terms == front + [t];
    }
  }

  lemma {:induction false} KeptMembers(cands: seq<Chunk>, terms: seq<string>, low: string -> string, e: Scored)
    ensures e in Kept(cands, terms, low) <==>
      e.chunk in cands && e.score == Score(e.chunk, terms, low) && e.score > 0.0
  {
    hide Score;
    if cands != [] {
      KeptMembers(cands[..|cands| - 1], terms, low, e);
      assert cands == cands[..|cands| - 1] + [cands[|cands| - 1]];
    }
  }

  lemma StableKeepsMembers(r: seq<Scored>, s: seq<Scored>)
    requires StableRearrangement(r, s)
    ensures forall e :: e in r <==> e in s
  {
    forall e ensures e in r <==> e in s {
      WithMembers(r, e.score);
      WithMembers(s, e.score);
      assert With(r, e.score) == With(s, e.score);
    }
  }

  /** The ranking holds exactly the candidates some term hits, scored, best first, candidates of
      equal score in the order they came. */
  lemma RankingIsHits(cands: seq<Chunk>, terms: seq<string>, low: string -> string)
    ensures var out := SortDesc(Kept(cands, terms, low));
      && Descending(out)
      && StableRearrangement(out, Kept(cands, terms, low))
      && (forall c :: Scored(c, Score(c, terms, low)) in out <==> c in cands && exists t :: t in terms && Hit(c, t, low))
      && (forall e :: e in out ==> e.score == Score(e.chunk, terms, low))
  {
    hide Kept, SortDesc, Score, Hit;
    var kept := Kept(cands, terms, low);
    SortIsStable(kept);
    StableKeepsMembers(SortDesc(kept), kept);
    forall e ensures e in kept <==> e.chunk in cands && e.score == Score(e.chunk, terms, low) && e.score > 0.0 {
      KeptMembers(cands, terms, low, e);
    }
    forall c ensures Score(c, terms, low) > 0.0 <==> exists t :: t in terms && Hit(c, t, low) {
      ScoresIffHit(c, terms, low);
    }
  }

  // ------------------------------------------------------------------ scores in numbers

  /** `v` is the sum of what each term is worth to the chunk. */
  ghost predicate Scores(v: real, c: Chunk, terms: seq<string>, low: string -> string) {
    exists vs: seq<real> :: v == Sum(vs) && Worths(vs, c, terms, low)
  }

  ghost predicate Worths(vs: seq<real>, c: Chunk, terms: seq<string>, low: string -> string) {
    |vs| == |terms| &&
    forall i :: 0 <= i < |vs| ==> Worth(vs[i], low(c.text), low(c.section), terms[i], low(terms[i]))
  }

  lemma Power2IsPow(n: nat)
    ensures Power2(n) == Pow(2.0, n)
  {
  }

  /** The places from `start` on, with their number and the offset of the first. */
  lemma {:induction false} PlacesFrom(s: string, t: string, start: nat) returns (places: seq<nat>)
    requires t != "" && start <= |s|
    ensures LeftmostFrom(places, s, t, start) && |places| == Count(s[start..], t)
    ensures places != [] ==> start <= places[0] <= |s| && ByteLength(s[start..places[0]]) == IndexOf(s[start..], t)
    decreases |s| - start
  {
    hide LeftmostFrom, ByteLength;
    var rest := s[start..];
    assert StandsAt(s, t, start) <==> t <= rest;
    if t <= rest {
      assert rest[|t|..] == s[start + |t|..];
      var more := PlacesFrom(s, t, start + |t|);
      hide StandsAt;
      Here(more, s, t, start);
      places := [start] + more;
      NoBytes();
      assert s[start..start] == "";
    } else if rest == "" {
      places := [];
      NowhereBehind(s, t, start);
    } else {
      assert rest[1..] == s[start + 1..];
      places := PlacesFrom(s, t, start + 1);
      hide StandsAt;
      NotYet(places, s, t, start);
      if places != [] {
        assert s[start..places[0]] == rest[..1] + s[start + 1..places[0]];
        BytesAddUp(rest[..1], s[start + 1..places[0]]);
      }
    }
  }

  lemma NoBytes()
    ensures ByteLength("") == 0
  {
  }

  lemma NowhereBehind(s: string, t: string, start: nat)
    requires t != "" && start >= |s|
    ensures LeftmostFrom([], s, t, start)
  {
  }

  lemma TermScoreIsWorth(body: string, section: string, t: string, t': string)
    ensures Worth(TermScore(body, section, t, t'), body, section, t, t')
  {
    if t == "" {
      EmptyTermScore(body, section, t');
    } else {
      ContainsExactly(section, t');
      var places := PlacesFrom(body, t, 0);
      assert body[0..] == body;
      hide LeftmostFrom, Occurs, Contains, Count, IndexOf;
      Power2IsPow(|t| - 1);
      if places != [] {
        FirstPlace(places, body, t);
        FormulaIsScore(places, body, section, t, t');
      }
      assert WorthAt(TermScore(body, section, t, t'), places, body, section, t, t');
    }
  }

  lemma FirstPlace(places: seq<nat>, s: string, t: string)
    requires t != "" && Leftmost(places, s, t) && places != []
    ensures s != "" && places[0] <= |s|
  {
  }

  lemma FormulaIsScore(places: seq<nat>, body: string, section: string, t: string, t': string)
    requires t != "" && body != "" && places != [] && places[0] <= |body|
    requires |places| == Count(body, t) && IndexOf(body, t) == ByteLength(body[..places[0]])
    ensures Formula(places, body, t) == TermScore(body, section, t, t')
  {
    hide Count, IndexOf, Contains, ByteLength;
    Power2IsPow(|t| - 1);
  }

  lemma EmptyTermScore(body: string, section: string, t': string)
    ensures TermScore(body, section, "", t') == (|body| + 1) as real * (if |body| >= 4 then 1.15 else 1.0)
  {
    assert "" <= body;
    hide Contains;
    assert Count(body, "") == |body| + 1 && IndexOf(body, "") == 0 && Power2(0) == 1.0;
    assert (|body| + 1) * 0 == 0;
  }

  function TermScores(c: Chunk, terms: seq<string>, low: string -> string): seq<real> {
    seq(|terms|, i requires 0 <= i < |terms| => TermScore(low(c.text), low(c.section), terms[i], low(terms[i])))
  }

  lemma {:induction false} ScoreIsSum(c: Chunk, terms: seq<string>, low: string -> string)
    ensures Score(c, terms, low) == Sum(TermScores(c, terms, low))
  {
    hide TermScore;
    if terms != [] {
      ScoreIsSum(c, terms[..|terms| - 1], low);
      var vs := TermScores(c, terms, low);
      assert vs[..|vs| - 1] == TermScores(c, terms[..|terms| - 1], low);
    }
  }

  lemma ScoreScores(c: Chunk, terms: seq<string>, low: string -> string)
    ensures Scores(Score(c, terms, low), c, terms, low)
  {
    hide TermScore, Worth, Score, Sum;
    ScoreIsSum(c, terms, low);
    var vs := TermScores(c, terms, low);
    forall i | 0 <= i < |terms| ensures Worth(vs[i], low(c.text), low(c.section), terms[i], low(terms[i])) {
      TermScoreIsWorth(low(c.text), low(c.section), terms[i], low(terms[i]));
    }
    assert Worths(vs, c, terms, low);
  }

  /** A chunk has one score only. */
  lemma ScoresUnique(v: real, w: real, c: Chunk, terms: seq<string>, low: string -> string)
    requires Scores(v, c, terms, low) && Scores(w, c, terms, low)
    ensures v == w
  {
    hide Worth, Sum;
    var a: seq<real> :| v == Sum(a) && Worths(a, c, terms, low);
    var b: seq<real> :| w == Sum(b) && Worths(b, c, terms, low);
    forall i | 0 <= i < |a| ensures a[i] == b[i] {
      WorthUnique(a[i], b[i], low(c.text), low(c.section), terms[i], low(terms[i]));
    }
    assert a == b;
  }

  /** The ranking is by these numbers: best first, exactly the candidates that score at all. */
  lemma RankingByWorth(cands: seq<Chunk>, terms: seq<string>, low: string -> string)
    ensures var out := SortDesc(Kept(cands, terms, low));
      && Descending(out)
      && forall e :: e in out <==> e.chunk in cands && e.score > 0.0 && Scores(e.score, e.chunk, terms, low)
  {
    hide Kept, SortDesc, Score, Scores, Descending;
    var kept := Kept(cands, terms, low);
    SortIsStable(kept);
    StableKeepsMembers(SortDesc(kept), kept);
    forall e ensures e in kept <==> e.chunk in cands && e.score > 0.0 && Scores(e.score, e.chunk, terms, low) {
      KeptMembers(cands, terms, low, e);
      ScoreScores(e.chunk, terms, low);
      if Scores(e.score, e.chunk, terms, low) {
        ScoresUnique(e.score, Score(e.chunk, terms, low), e.chunk, terms, low);
      }
    }
  }

  // ------------------------------------------------------------------ reciprocal-rank fusion

  function Ids(list: seq<Chunk>): set<int> {
    set c | c in list :: c.id
  }

  /** What `list` contributes to the score of `id`: weight over sixty plus the rank. */
  function Share(list: seq<Chunk>, id: int, w: real): real {
    if list == [] then 0.0
    else
      Share(list[..|list| - 1], id, w)
      + if list[|list| - 1].id == id then w / (60.0 + |list| as real) else 0.0
  }

  /** The first chunk carrying `id`. */
  function First(list: seq<Chunk>, id: int): (c: Chunk)
    requires id in Ids(list)
    ensures c.id == id && c in list
  {
    var front := list[..|list| - 1];
    if id in Ids(front) then First(front, id) else list[|list| - 1]
  }

  ghost function Total(lex: seq<Chunk>, vec: seq<Chunk>, wVec: real, id: int): real {
    Share(lex, id, 1.0 - wVec) + Share(vec, id, wVec)
  }

  /** What `m` holds after `list` was added to `before`. */
  ghost predicate Added(m: map<int, Scored>, before: map<int, Scored>, list: seq<Chunk>, w: real) {
    && m.Keys == before.Keys + Ids(list)
    && forall id :: id in m ==>
      && m[id].score == (if id in before then before[id].score else 0.0) + Share(list, id, w)
      && (id in before ==> m[id].chunk == before[id].chunk)
      && (id !in before ==> m[id].chunk == First(list, id))
  }

  lemma IdsSnoc(list: seq<Chunk>)
    requires list != []
    ensures Ids(list) == Ids(list[..|list| - 1]) + {list[|list| - 1].id}
  {
    assert list == list[..|list| - 1] + [list[|list| - 1]];
  }

  lemma AddOne(m: map<int, Scored>, was: map<int, Scored>, before: map<int, Scored>, list: seq<Chunk>, w: real, e: Scored)
    requires list != [] && Added(was, before, list[..|list| - 1], w)
    requires var c := list[|list| - 1];
      && e == (if c.id in was then was[c.id] else Scored(c, 0.0))
      && m == was[c.id := Scored(e.chunk, e.score + w / (60.0 + |list| as real))]
    ensures Added(m, before, list, w)
  {
    hide Share, First;
    IdsSnoc(list);
    var front, c := list[..|list| - 1], list[|list| - 1];
    if c.id !in Ids(front) { ShareAbsent(front, c.id, w); }
    forall id | id in m
      ensures m[id].score == (if id in before then before[id].score else 0.0) + Share(list, id, w)
      ensures id in before ==> m[id].chunk == before[id].chunk
      ensures id !in before ==> m[id].chunk == First(list, id)
    {
      ShareSnoc(list, id, w);
      FirstSnoc(list, id);
    }
  }

  lemma FirstSnoc(list: seq<Chunk>, id: int)
    requires list != []
    ensures var front := list[..|list| - 1];
      id in Ids(list) ==> First(list, id) == if id in Ids(front) then First(front, id) else list[|list| - 1]
  {
  }

  lemma ShareSnoc(list: seq<Chunk>, id: int, w: real)
    requires list != []
    ensures Share(list, id, w) == Share(list[..|list| - 1], id, w)
      + if list[|list| - 1].id == id then w / (60.0 + |list| as real) else 0.0
  {
  }

  lemma {:induction false} ShareAbsent(list: seq<Chunk>, id: int, w: real)
    requires id !in Ids(list)
    ensures Share(list, id, w) == 0.0
  {
    if list != [] {
      IdsSnoc(list);
      assert list[|list| - 1] in list;
      ShareAbsent(list[..|list| - 1], id, w);
    }
  }

  method Add(before: map<int, Scored>, list: seq<Chunk>, w: real) returns (m: map<int, Scored>)
    ensures Added(m, before, list, w)
  {
    hide Share, Added;
    m := before;
    AddNothing(before, w);
    assert list[..0] == [];
    for i := 0 to |list|
      invariant Added(m, before, list[..i], w)
    {
      var c := list[i];
      ghost var was := m;
      var e := if c.id in m then m[c.id] else Scored(c, 0.0);
      m := m[c.id := Scored(e.chunk, e.score + w / (60.0 + (i + 1) as real))];
      assert list[..i + 1][..i] == list[..i];
      AddOne(m, was, before, list[..i + 1], w, e);
    }
    assert list[..|list|] == list;
  }

  /** It is the first of the list that carries the id. */
  lemma {:induction false} FirstIsFirst(list: seq<Chunk>, id: int)
    requires id in Ids(list)
    ensures exists i ::
      0 <= i < |list| && list[i] == First(list, id) && list[i].id == id && forall j :: 0 <= j < i ==> list[j].id != id
  {
    var front := list[..|list| - 1];
    if id in Ids(front) {
      FirstIsFirst(front, id);
      var i :| 0 <= i < |front| && front[i] == First(front, id) && front[i].id == id
        && forall j :: 0 <= j < i ==> front[j].id != id;
      assert forall j :: 0 <= j <= i ==> list[j] == front[j];
    } else {
      assert forall j :: 0 <= j < |front| ==> front[j] in front && list[j] == front[j];
      IdsSnoc(list);
    }
  }

  lemma AddNothing(before: map<int, Scored>, w: real)
    ensures Added(before, before, [], w)
  {
  }

  ghost predicate DistinctIds(list: seq<Chunk>) {
    forall i, j :: 0 <= i < j < |list| ==> list[i].id != list[j].id
  }

  /** `r` is the fusion of the two lists: each id once, its first chunk, best total first. */
  ghost predicate Fusion(r: seq<Chunk>, lex: seq<Chunk>, vec: seq<Chunk>, wVec: real) {
    && DistinctIds(r)
    && Ids(r) == Ids(lex) + Ids(vec)
    && (forall i :: 0 <= i < |r| ==>
      && (r[i].id in Ids(lex) || r[i].id in Ids(vec))
      && r[i] == (if r[i].id in Ids(lex) then First(lex, r[i].id) else First(vec, r[i].id)))
    && (forall i, j :: 0 <= i < j < |r| ==> Total(lex, vec, wVec, r[i].id) >= Total(lex, vec, wVec, r[j].id))
  }

  ghost predicate Outcome(r: seq<Chunk>, lex: seq<Chunk>, vec: seq<Chunk>, wVec: real) {
    if wVec <= 0.0 || vec == [] then r == lex
    else if wVec >= 1.0 || lex == [] then r == vec
    else Fusion(r, lex, vec, wVec)
  }

  ghost predicate DistinctChunks(s: seq<Scored>) {
    forall i, j :: 0 <= i < j < |s| ==> s[i].chunk.id != s[j].chunk.id
  }

  lemma SomeId(s: set<int>)
    ensures s == {} || exists id :: id in s
  {
    assert (forall id :: id !in s) ==> s == {};
  }

  /** The entries of `m`, in any order. */
  method Entries(m: map<int, Scored>) returns (ps: seq<Scored>)
    requires forall id :: id in m ==> m[id].chunk.id == id
    ensures DistinctChunks(ps)
    ensures forall e :: e in ps <==> e.chunk.id in m && m[e.chunk.id] == e
  {
    ps := [];
    var left: set<int> := m.Keys;
    while left != {}
      invariant left <= m.Keys
      invariant DistinctChunks(ps)
      invariant forall e :: e in ps <==> e.chunk.id in m && e.chunk.id !in left && m[e.chunk.id] == e
    {
      SomeId(left);
      var id :| id in left;
      left := left - {id};
      ps := ps + [m[id]];
    }
  }

  method FuseRRF(lex: seq<Chunk>, vec: seq<Chunk>, wVec: real) returns (res: seq<Chunk>)
    ensures Outcome(res, lex, vec, wVec)
    ensures wVec <= 0.0 || vec == [] ==> res == lex
    ensures wVec >= 1.0 && vec != [] ==> res == vec
    ensures lex == [] && wVec > 0.0 && vec != [] ==> res == vec
    ensures 0.0 < wVec < 1.0 && lex != [] && vec != [] ==> Fusion(res, lex, vec, wVec)
  {
    hide SortDesc, Share, First;
    if wVec <= 0.0 || |vec| == 0 {
      return lex;
    }
    if wVec >= 1.0 || |lex| == 0 {
      return vec;
    }
    var m := Add(map[], lex, 1.0 - wVec);
    ghost var half := m;
    m := Add(m, vec, wVec);
    BothAdded(m, half, lex, vec, wVec);
    var ps := Entries(m);
    var a := new Scored[|ps|](i requires 0 <= i < |ps| => ps[i]);
    assert a[..] == ps;
    InsertionSort(a);
    res := seq(a.Length, i requires 0 <= i < a.Length reads a => a[i].chunk);
    SortedFuses(a[..], ps, res, m, lex, vec, wVec);
  }

  lemma BothAdded(m: map<int, Scored>, half: map<int, Scored>, lex: seq<Chunk>, vec: seq<Chunk>, wVec: real)
    requires Added(half, map[], lex, 1.0 - wVec) && Added(m, half, vec, wVec)
    ensures m.Keys == Ids(lex) + Ids(vec)
    ensures forall id :: id in m ==>
      m[id] == Scored(if id in Ids(lex) then First(lex, id) else First(vec, id), Total(lex, vec, wVec, id))
  {
    hide Share, First;
    forall id | id in m && id !in Ids(lex) ensures Share(lex, id, 1.0 - wVec) == 0.0 {
      ShareAbsent(lex, id, 1.0 - wVec);
    }
  }

  lemma SortedFuses(r: seq<Scored>, ps: seq<Scored>, res: seq<Chunk>, m: map<int, Scored>,
                    lex: seq<Chunk>, vec: seq<Chunk>, wVec: real)
    requires r == SortDesc(ps)
    requires |res| == |r| && forall i :: 0 <= i < |r| ==> res[i] == r[i].chunk
    requires DistinctChunks(ps)
    requires forall e :: e in ps <==> e.chunk.id in m && m[e.chunk.id] == e
    requires m.Keys == Ids(lex) + Ids(vec)
    requires forall id :: id in m ==>
      m[id] == Scored(if id in Ids(lex) then First(lex, id) else First(vec, id), Total(lex, vec, wVec, id))
    ensures Fusion(res, lex, vec, wVec)
  {
    hide SortDesc, Share, First, Total;
    SortIsStable(ps);
    StableKeepsMembers(r, ps);
    SortKeepsDistinct(ps);
    assert forall i :: 0 <= i < |r| ==> r[i] in ps;
    forall id | id in m ensures id in Ids(res) {
      assert m[id] in r;
      var i :| 0 <= i < |r| && r[i] == m[id];
      assert res[i] in res;
    }
  }

  lemma {:induction false} InsertDistinct(s: seq<Scored>, x: Scored)
    requires DistinctChunks(s) && forall e :: e in s ==> e.chunk.id != x.chunk.id
    ensures DistinctChunks(Insert(s, x)) && forall e :: e in Insert(s, x) ==> e == x || e in s
  {
    if s == [] || s[|s| - 1].score >= x.score {
      assert Insert(s, x) == s + [x];
      assert forall i :: 0 <= i < |s| ==> s[i] in s;
    } else {
      var front, last := s[..|s| - 1], s[|s| - 1];
      assert s == front + [last];
      InsertDistinct(front, x);
      var r := Insert(front, x);
      assert Insert(s, x) == r + [last];
      forall i | 0 <= i < |r| ensures r[i].chunk.id != last.chunk.id {
        assert r[i] in r;
      }
    }
  }

  lemma {:induction false} SortKeepsDistinct(s: seq<Scored>)
    requires DistinctChunks(s)
    ensures DistinctChunks(SortDesc(s))
  {
    hide Insert;
    if s != [] {
      var front, x := s[..|s| - 1], s[|s| - 1];
      SortKeepsDistinct(front);
      SortIsStable(front);
      StableKeepsMembers(SortDesc(front), front);
      forall e | e in front ensures e.chunk.id != x.chunk.id {}
      InsertDistinct(SortDesc(front), x);
    }
  }

  // ------------------------------------------------------------------ consensus

  /** `list` ranks `id` at place `k`, counted from one. */
  ghost predicate Ranked(list: seq<Chunk>, id: int, k: nat) {
    1 <= k <= |list| && list[k - 1].id == id
  }

  lemma {:induction false} ShareAtRank(list: seq<Chunk>, id: int, k: nat, w: real)
    requires DistinctIds(list) && Ranked(list, id, k)
    ensures Share(list, id, w) == w / (60.0 + k as real)
  {
    var front := list[..|list| - 1];
    if k == |list| {
      ShareAbsent(front, id, w);
    } else {
      ShareAtRank(front, id, k, w);
    }
  }

  /** `a` is ranked above `b` in `list`, or `b` is not in it. */
  ghost predicate Above(list: seq<Chunk>, a: int, b: int) {
    forall k :: Ranked(list, b, k) ==> exists j :: j < k && Ranked(list, a, j)
  }

  lemma RankedSomewhere(list: seq<Chunk>, id: int) returns (k: nat)
    requires id in Ids(list)
    ensures Ranked(list, id, k)
  {
    var c :| c in list && c.id == id;
    var i :| 0 <= i < |list| && list[i] == c;
    k := i + 1;
  }

  lemma Reciprocal(w: real, j: nat, k: nat)
    requires w > 0.0 && j < k
    ensures w / (60.0 + j as real) > w / (60.0 + k as real) > 0.0
  {
  }

  lemma SharePositive(list: seq<Chunk>, id: int, w: real)
    requires w > 0.0 && DistinctIds(list)
    ensures Share(list, id, w) >= 0.0
  {
    if id in Ids(list) {
      var k := RankedSomewhere(list, id);
      ShareAtRank(list, id, k, w);
      Reciprocal(w, k, k + 1);
    } else {
      ShareAbsent(list, id, w);
    }
  }

  /** Where `a` is above `b` the share of `a` is at least that of `b`, larger if `b` is there. */
  lemma AboveShares(list: seq<Chunk>, a: int, b: int, w: real)
    requires w > 0.0 && DistinctIds(list) && Above(list, a, b)
    ensures Share(list, a, w) >= Share(list, b, w)
    ensures b in Ids(list) ==> Share(list, a, w) > Share(list, b, w)
  {
    hide Share;
    if b in Ids(list) {
      var k := RankedSomewhere(list, b);
      var j :| j < k && Ranked(list, a, j);
      ShareAtRank(list, b, k, w);
      ShareAtRank(list, a, j, w);
      Reciprocal(w, j, k);
    } else {
      ShareAbsent(list, b, w);
      SharePositive(list, a, w);
    }
  }

  /** Consensus: a chunk ranked above another in every list that holds the other comes strictly
      before it, at every weight. */
  lemma Consensus(r: seq<Chunk>, lex: seq<Chunk>, vec: seq<Chunk>, wVec: real, a: int, b: int)
    requires Outcome(r, lex, vec, wVec) && DistinctIds(lex) && DistinctIds(vec)
    requires Above(lex, a, b) && Above(vec, a, b)
    ensures DistinctIds(r) && Above(r, a, b)
    ensures 0.0 < wVec < 1.0 ==> (b in Ids(r) <==> b in Ids(lex) || b in Ids(vec))
  {
    hide Share;
    if 0.0 < wVec < 1.0 && lex != [] && vec != [] {
      forall k | Ranked(r, b, k) ensures exists j :: j < k && Ranked(r, a, j) {
        assert r[k - 1] in r && b in Ids(r);
        AboveShares(lex, a, b, 1.0 - wVec);
        AboveShares(vec, a, b, wVec);
        assert Total(lex, vec, wVec, a) > Total(lex, vec, wVec, b);
        AboveIsThere(lex, a, b);
        AboveIsThere(vec, a, b);
        var j := RankedSomewhere(r, a);
        assert j != k;
      }
    }
  }

  /** The hypothesis on the lists is needed: one that names a chunk twice scores it twice, and here
      `b` comes first although `a` is above it wherever it stands. The search hands over rows
      selected by their key, so repeated ids do not reach this code. */
  lemma RepetitionsBreakConsensus(r: seq<Chunk>, a: Chunk, b: Chunk, c: Chunk)
    requires a.id != b.id && a.id != c.id && b.id != c.id
    requires Outcome(r, [a, b, b], [c], 0.5)
    ensures Above([a, b, b], a.id, b.id) && Above([c], a.id, b.id) && Precedes(r, b.id, a.id)
  {
    var lex, vec := [a, b, b], [c];
    assert lex[..2] == [a, b] && [a, b][..1] == [a] && [a][..0] == [] && vec[..0] == [];
    assert Ranked(lex, a.id, 1);
    ShareAbsent([a], b.id, 0.5);
    assert Share([a], a.id, 0.5) == 0.5 / 61.0;
    assert Share([a, b], a.id, 0.5) == 0.5 / 61.0 && Share([a, b], b.id, 0.5) == 0.5 / 62.0;
    assert Total(lex, vec, 0.5, a.id) == 0.5 / 61.0;
    assert Total(lex, vec, 0.5, b.id) == 0.5 / 62.0 + 0.5 / 63.0;
    assert a in lex && b in lex;
    DescendingPrecedes(r, lex, vec, b.id, a.id);
  }

  lemma AboveIsThere(list: seq<Chunk>, a: int, b: int)
    requires Above(list, a, b)
    ensures b in Ids(list) ==> a in Ids(list)
  {
    if b in Ids(list) {
      var k := RankedSomewhere(list, b);
      var j :| j < k && Ranked(list, a, j);
      assert list[j - 1] in list;
    }
  }

  /** At equal weights, a chunk `a` at ranks `i` and `j` of the two lists and a chunk `b` at rank
      `k` of only one of them: which comes first is decided by the ranks, and they tie otherwise.
      As k is at least 1, rank 61 or better in both lists beats every chunk found in one list
      only. */
  lemma HalfWeight(r: seq<Chunk>, lex: seq<Chunk>, vec: seq<Chunk>, a: int, i: nat, j: nat, b: int, k: nat)
    requires Outcome(r, lex, vec, 0.5) && DistinctIds(lex) && DistinctIds(vec)
    requires Ranked(lex, a, i) && Ranked(vec, a, j)
    requires (Ranked(lex, b, k) && b !in Ids(vec)) || (Ranked(vec, b, k) && b !in Ids(lex))
    ensures a in Ids(r) && b in Ids(r)
    ensures (120 + i + j) * (60 + k) > (60 + i) * (60 + j) ==> Precedes(r, a, b)
    ensures (120 + i + j) * (60 + k) < (60 + i) * (60 + j) ==> Precedes(r, b, a)
    ensures (120 + i + j) * (60 + k) == (60 + i) * (60 + j) <==> Total(lex, vec, 0.5, a) == Total(lex, vec, 0.5, b)
    ensures i <= 61 && j <= 61 ==> Precedes(r, a, b)
    ensures i < 60 + 2 * k && j < 60 + 2 * k ==> Precedes(r, a, b)
    ensures i > 60 + 2 * k && j > 60 + 2 * k ==> Precedes(r, b, a)
  {
    hide Share;
    assert lex[i - 1] in lex && vec[j - 1] in vec;
    ShareAtRank(lex, a, i, 0.5);
    ShareAtRank(vec, a, j, 0.5);
    if Ranked(lex, b, k) && b !in Ids(vec) {
      assert lex[k - 1] in lex;
      ShareAtRank(lex, b, k, 0.5);
      ShareAbsent(vec, b, 0.5);
    } else {
      assert vec[k - 1] in vec;
      ShareAtRank(vec, b, k, 0.5);
      ShareAbsent(lex, b, 0.5);
    }
    RankRule(i, j, k);
    BothBelow(60 + i, 60 + j, 60 + k);
    DescendingPrecedes(r, lex, vec, a, b);
    DescendingPrecedes(r, lex, vec, b, a);
  }

  ghost predicate Precedes(r: seq<Chunk>, a: int, b: int) {
    exists i, j :: 0 <= i < j < |r| && r[i].id == a && r[j].id == b
  }

  lemma DescendingPrecedes(r: seq<Chunk>, lex: seq<Chunk>, vec: seq<Chunk>, a: int, b: int)
    requires Fusion(r, lex, vec, 0.5) && a in Ids(r) && b in Ids(r)
    ensures Total(lex, vec, 0.5, a) > Total(lex, vec, 0.5, b) ==> Precedes(r, a, b)
  {
    hide Total;
    var i := RankedSomewhere(r, a);
    var j := RankedSomewhere(r, b);
    if Total(lex, vec, 0.5, a) > Total(lex, vec, 0.5, b) {
      assert r[i - 1].id == a && r[j - 1].id == b;
    }
  }

  lemma Scaled(a: real, b: real, f: real)
    requires f > 0.0
    ensures a > b <==> a * f > b * f
    ensures a < b <==> a * f < b * f
  {
  }

  lemma Cancel(x: real, f: real)
    requires x > 0.0
    ensures (0.5 / x) * (x * f) == 0.5 * f
  {
    assert (0.5 / x) * x == 0.5;
    assert (0.5 / x) * (x * f) == ((0.5 / x) * x) * f;
  }

  /** Two halved reciprocals against one, multiplied out. */
  lemma Halves(x: real, y: real, z: real)
    requires x > 0.0 && y > 0.0 && z > 0.0
    ensures 0.5 / x + 0.5 / y > 0.5 / z <==> (x + y) * z > x * y
    ensures 0.5 / x + 0.5 / y < 0.5 / z <==> (x + y) * z < x * y
  {
    var p, q, r := 0.5 / x, 0.5 / y, 0.5 / z;
    var f := x * (y * z);
    ProductPositive(y, z);
    ProductPositive(x, y * z);
    Cancel(x, y * z);
    Cancel(y, x * z);
    Cancel(z, x * y);
    assert f == y * (x * z) == z * (x * y);
    assert (p + q) * f == p * f + q * f;
    assert (x + y) * z == x * z + y * z;
    Scaled(p + q, r, f);
  }

  lemma RankRule(i: nat, j: nat, k: nat)
    ensures var both, one := 0.5 / (60.0 + i as real) + 0.5 / (60.0 + j as real), 0.5 / (60.0 + k as real);
      && (both > one <==> (120 + i + j) * (60 + k) > (60 + i) * (60 + j))
      && (both < one <==> (120 + i + j) * (60 + k) < (60 + i) * (60 + j))
  {
    var x, y, z := 60.0 + i as real, 60.0 + j as real, 60.0 + k as real;
    Halves(x, y, z);
    AsReals(60 + i, 60 + j);
    AsReals(120 + i + j, 60 + k);
    assert (60 + i) as real == x && (60 + j) as real == y && (60 + k) as real == z;
    assert (120 + i + j) as real == x + y;
  }

  lemma AsReals(a: int, b: int)
    ensures (a * b) as real == a as real * b as real
  {
  }

  /** Both ranks on one side of twice the single one settle it, and so does 121 against at least 61. */
  lemma BothBelow(x: int, y: int, z: int)
    requires x >= 61 && y >= 61 && z >= 61
    ensures x < 2 * z && y < 2 * z ==> (x + y) * z > x * y
    ensures x > 2 * z && y > 2 * z ==> (x + y) * z < x * y
    ensures x <= 121 && y <= 121 ==> (x + y) * z > x * y
  {
    if x <= y { Between(x, y, z); } else { Between(y, x, z); }
  }

  lemma Between(x: int, y: int, z: int)
    requires 0 < x <= y && z > 0
    ensures y < 2 * z ==> (x + y) * z > x * y
    ensures x > 2 * z ==> (x + y) * z < x * y
  {
    assert y * (y - x) >= 0 && x * (y - x) >= 0;
    assert (x + y) * y == x * y + y * y && (x + y) * x == x * x + x * y;
    assert y * (y - x) == y * y - x * y && x * (y - x) == x * y - x * x;
    if y < 2 * z {
      assert (x + y) * (2 * z - y) > 0;
      assert (x + y) * (2 * z - y) == 2 * ((x + y) * z) - (x + y) * y;
    }
    if x > 2 * z {
      assert (x + y) * (x - 2 * z) > 0;
      assert (x + y) * (x - 2 * z) == (x + y) * x - 2 * ((x + y) * z);
    }
  }
}
