/**
 Automatic model routing: the representative of each tier, the label a decision service prefers
 and by how much, and what the router makes of both. Probabilities and costs are exact reals.
 */
module Router {
  import opened Options
  import opened Text
  import opened Sorting
  import opened Sets

  datatype Candidate = Candidate(provider: string, id: string, reasoning: bool, costIn: real, tier: string)

  // ------------------------------------------------------------------ tiers

  /** An explicit tier decides; without one the reasoning flag does. */
  predicate InTier(c: Candidate, strong: bool) {
    if c.tier != "" then c.tier == (if strong then "strong" else "weak") else c.reasoning == strong
  }

  function Key(c: Candidate): string {
    c.provider + "/" + c.id
  }

  predicate BetterTier(c: Candidate, best: Candidate, strong: bool) {
    if c.costIn != best.costIn then (if strong then c.costIn > best.costIn else c.costIn < best.costIn)
    else TextLess(Key(c), Key(best))
  }

  /** `best` is in the tier and nothing of the tier is better. */
  ghost predicate Represents(best: Candidate, cands: seq<Candidate>, strong: bool) {
    && best in cands && InTier(best, strong)
    && forall c :: c in cands && InTier(c, strong) ==> !BetterTier(c, best, strong)
  }

  lemma BetterIsOrder(a: Candidate, b: Candidate, c: Candidate, strong: bool)
    ensures !BetterTier(a, a, strong)
    ensures BetterTier(a, b, strong) && BetterTier(b, c, strong) ==> BetterTier(a, c, strong)
    ensures !BetterTier(a, b, strong) && !BetterTier(b, a, strong) ==> a.costIn == b.costIn && Key(a) == Key(b)
    ensures !BetterTier(a, b, strong) && BetterTier(c, b, strong) ==> !BetterTier(a, c, strong)
  {
    hide TextLess, Key;
    TextOrder(Key(a), Key(b), Key(c));
    TextOrder(Key(b), Key(c), Key(a));
    TextOrder(Key(a), Key(c), Key(b));
  }

  ghost predicate StrongCandidate(c: Candidate) { c.tier == "strong" || (c.tier == "" && c.reasoning) }

  ghost predicate WeakCandidate(c: Candidate) { c.tier == "weak" || (c.tier == "" && !c.reasoning) }

  /** Nothing strong costs more, and among those that cost as much its "provider/id" comes first. */
  ghost predicate Dearest(best: Candidate, cands: seq<Candidate>) {
    && best in cands && StrongCandidate(best)
    && forall c :: c in cands && StrongCandidate(c) ==>
      && c.costIn <= best.costIn
      && (c.costIn == best.costIn ==> !TextLess(c.provider + "/" + c.id, best.provider + "/" + best.id))
  }

  /** Nothing weak costs less, and among those that cost as much its "provider/id" comes first. */
  ghost predicate Cheapest(best: Candidate, cands: seq<Candidate>) {
    && best in cands && WeakCandidate(best)
    && forall c :: c in cands && WeakCandidate(c) ==>
      && c.costIn >= best.costIn
      && (c.costIn == best.costIn ==> !TextLess(c.provider + "/" + c.id, best.provider + "/" + best.id))
  }

  /** To represent a tier is to be its dearest or cheapest candidate. */
  lemma RepresentativeIsExtreme(best: Candidate, cands: seq<Candidate>)
    ensures Represents(best, cands, true) <==> Dearest(best, cands)
    ensures Represents(best, cands, false) <==> Cheapest(best, cands)
  {
    hide TextLess;
  }

  method PickTier(cands: seq<Candidate>, strong: bool) returns (best: Candidate, found: bool)
    ensures found <==> exists c :: c in cands && InTier(c, strong)
    ensures found ==> Represents(best, cands, strong)
    ensures found && strong ==> Dearest(best, cands)
    ensures found && !strong ==> Cheapest(best, cands)
    ensures found <==> exists c :: c in cands && if strong then StrongCandidate(c) else WeakCandidate(c)
  {
    hide BetterTier, InTier;
    best, found := Candidate("", "", false, 0.0, ""), false;
    for i := 0 to |cands|
      invariant found <==> exists c :: c in cands[..i] && InTier(c, strong)
      invariant found ==> Represents(best, cands[..i], strong)
    {
      var c := cands[i];
      assert cands[..i + 1] == cands[..i] + [c];
      if !TierMatches(c, strong) {
        continue;
      }
      var better := found && BetterTier(c, best, strong);
      ghost var was, wasFound := best, found;
      if !found || better {
        best, found := c, true;
      }
      forall d | d in cands[..i + 1] && InTier(d, strong) ensures !BetterTier(d, best, strong) {
        BetterIsOrder(d, was, c, strong);
        BetterIsOrder(c, c, c, strong);
      }
    }
    assert cands[..|cands|] == cands;
    RepresentativeIsExtreme(best, cands);
    TiersByName(strong);
  }

  lemma TiersByName(strong: bool)
    ensures forall c :: InTier(c, strong) <==> if strong then StrongCandidate(c) else WeakCandidate(c)
  {
  }

  /** The skips of the loop over the candidates. */
  predicate TierMatches(c: Candidate, strong: bool)
    ensures TierMatches(c, strong) <==> InTier(c, strong)
  {
    if c.tier != "" then !((strong && c.tier != "strong") || (!strong && c.tier != "weak"))
    else c.reasoning == strong
  }

  /** No two candidates of the tier share cost and key. */
  ghost predicate KeysTellApart(cands: seq<Candidate>, strong: bool) {
    forall c, d | c in cands && d in cands && InTier(c, strong) && InTier(d, strong) ::
      c.costIn == d.costIn && Key(c) == Key(d) ==> c == d
  }

  /** Whatever order the candidates come in, the representative has the same cost and the same
      key; it is the same candidate if cost and key tell the candidates of the tier apart. */
  lemma PickIsOrderIndependent(a: seq<Candidate>, b: seq<Candidate>, x: Candidate, y: Candidate, strong: bool)
    requires Represents(x, a, strong) && Represents(y, b, strong) && forall c :: c in a <==> c in b
    ensures x.costIn == y.costIn && Key(x) == Key(y)
    ensures KeysTellApart(a, strong) ==> x == y
  {
    hide BetterTier, InTier;
    BetterIsOrder(x, y, x, strong);
  }

  // ------------------------------------------------------------------ the decision

  function Prob(probs: map<string, real>, l: string): real {
    if l in probs then probs[l] else 0.0
  }

  /** More probable first, then alphabetical. */
  function Before(probs: map<string, real>): (string, string) -> bool {
    (a: string, b: string) =>
      if Prob(probs, a) != Prob(probs, b) then Prob(probs, a) > Prob(probs, b) else TextLess(a, b)
  }

  datatype Decision = Decision(choice: string, prob: real, margin: real)

  lemma BeforeIsOrder(probs: map<string, real>)
    ensures StrictOrder(Before(probs))
  {
    hide TextLess;
    forall a, b, c
      ensures !Before(probs)(a, a)
      ensures Before(probs)(a, b) || a == b || Before(probs)(b, a)
      ensures Before(probs)(a, b) && Before(probs)(b, c) ==> Before(probs)(a, c)
    {
      TextOrder(a, b, c);
    }
  }

  /** `d` names the most probable label, alphabetically first among equals, and its lead over the
      best of the others; over zero if there is no other. */
  ghost predicate Decides(d: Decision, probs: map<string, real>) {
    && d.choice in probs && d.prob == probs[d.choice]
    && (forall l :: l in probs && l != d.choice ==> Before(probs)(d.choice, l))
    && (|probs| == 1 ==> d.margin == d.prob)
    && (|probs| > 1 ==> exists second :: RunnerUp(second, d, probs))
  }

  ghost predicate RunnerUp(second: string, d: Decision, probs: map<string, real>) {
    && second in probs && second != d.choice && d.margin == d.prob - probs[second]
    && forall l :: l in probs && l != d.choice ==> probs[l] <= probs[second]
  }

  /** The labels of `probs`, in any order. */
  method Labels(probs: map<string, real>) returns (labels: seq<string>)
    ensures Distinct(labels) && |labels| == |probs| && forall l :: l in labels <==> l in probs
  {
    labels := [];
    var left := probs.Keys;
    while left != {}
      invariant left <= probs.Keys && Distinct(labels) && |labels| + |left| == |probs|
      invariant forall l :: l in labels <==> l in probs && l !in left
    {
      Inhabited(left);
      var l :| l in left;
      left := left - {l};
      labels := labels + [l];
    }
  }

  /** No probabilities is an error of the decision service. */
  method JevDecide(probs: map<string, real>) returns (d: Option<Decision>)
    ensures d.None? <==> |probs| == 0
    ensures d.Some? ==> Decides(d.value, probs)
    ensures d.Some? ==> d.value.choice in probs && d.value.prob == probs[d.value.choice]
    ensures d.Some? ==> forall l :: l in probs && l != d.value.choice ==>
      probs[l] <= d.value.prob && (probs[l] == d.value.prob ==> TextLess(d.value.choice, l))
  {
    hide StrictOrder;
    if |probs| == 0 {
      return None;
    }
    var labels := Labels(probs);
    BeforeIsOrder(probs);
    ghost var unsorted := labels;
    SortAscends(labels, Before(probs));
    SortLength(labels, Before(probs));
    labels := Sort(labels, Before(probs));
    var top, second := labels[0], 0.0;
    if |labels| > 1 {
      second := Prob(probs, labels[1]);
    }
    d := Some(Decision(top, Prob(probs, top), Prob(probs, top) - second));
    SortedDecides(labels, d.value, probs);
  }

  lemma {:induction false} SortLength<T>(s: seq<T>, less: (T, T) -> bool)
    ensures |Sort(s, less)| == |s|
  {
    if s != [] {
      SortLength(s[..|s| - 1], less);
      InsertLength(Sort(s[..|s| - 1], less), s[|s| - 1], less);
    }
  }

  lemma {:induction false} InsertLength<T>(s: seq<T>, x: T, less: (T, T) -> bool)
    ensures |Insert(s, x, less)| == |s| + 1
  {
    if s != [] && less(x, s[|s| - 1]) {
      InsertLength(s[..|s| - 1], x, less);
    }
  }

  lemma SortedDecides(labels: seq<string>, d: Decision, probs: map<string, real>)
    requires Ascending(labels, Before(probs)) && |labels| == |probs| && labels != []
    requires forall l :: l in labels <==> l in probs
    requires d == Decision(labels[0], Prob(probs, labels[0]),
      Prob(probs, labels[0]) - if |labels| > 1 then Prob(probs, labels[1]) else 0.0)
    ensures Decides(d, probs)
  {
    hide TextLess;
    BeforeIsOrder(probs);
    forall l | l in probs && l != d.choice ensures Before(probs)(d.choice, l) {
      var i :| 0 <= i < |labels| && labels[i] == l;
    }
    if |labels| > 1 {
      var second := labels[1];
      assert second in labels && labels[0] in labels;
      assert Before(probs)(labels[0], second);
      forall l | l in probs && l != d.choice ensures probs[l] <= probs[second] {
        var i :| 0 <= i < |labels| && labels[i] == l;
        assert i == 1 || Before(probs)(second, l);
        assert Prob(probs, l) == probs[l] && Prob(probs, second) == probs[second];
      }
      assert RunnerUp(second, d, probs);
    }
  }

  /** There is one such decision. */
  lemma DecisionIsUnique(d: Decision, e: Decision, probs: map<string, real>)
    requires Decides(d, probs) && Decides(e, probs)
    ensures d == e
  {
    hide TextLess;
    BeforeIsOrder(probs);
    assert d.choice == e.choice;
  }

  // ------------------------------------------------------------------ the confidence gate

  const MIN_PROBABILITY := 0.8
  const MIN_MARGIN := 0.15

  predicate Accepted(d: Decision) {
    d.prob >= MIN_PROBABILITY && d.margin >= MIN_MARGIN
  }

  function Total(labels: seq<string>, probs: map<string, real>): real {
    if labels == [] then 0.0 else Prob(probs, labels[0]) + Total(labels[1..], probs)
  }

  lemma {:induction false} TotalOfTwo(labels: seq<string>, probs: map<string, real>, i: nat, j: nat)
    requires i < |labels| && j < |labels| && forall l :: l in labels ==> Prob(probs, l) >= 0.0
    ensures Total(labels, probs) >= Prob(probs, labels[i])
    ensures i < j ==> Total(labels, probs) >= Prob(probs, labels[i]) + Prob(probs, labels[j])
  {
    hide Prob;
    var rest := labels[1..];
    assert forall l :: l in rest ==> l in labels;
    assert labels[0] in labels;
    if rest != [] {
      TotalOfTwo(rest, probs, if i > 0 then i - 1 else 0, if j > 0 then j - 1 else 0);
      if i == 0 && j > 0 {
        TotalOfTwo(rest, probs, j - 1, j - 1);
      }
    }
  }

  /** For probabilities, that is, non-negative and summing to at most one, a top probability of
      0.8 leaves a margin of 0.6: the margin gate never decides. */
  lemma MarginGateIsImplied(probs: map<string, real>, labels: seq<string>, d: Decision)
    requires forall l :: l in labels <==> l in probs
    requires forall l :: l in probs ==> probs[l] >= 0.0
    requires Total(labels, probs) <= 1.0 && Decides(d, probs)
    ensures d.prob >= MIN_PROBABILITY ==> d.margin >= 0.6
    ensures Accepted(d) <==> d.prob >= MIN_PROBABILITY
  {
    if d.prob >= MIN_PROBABILITY && |probs| > 1 {
      var second :| RunnerUp(second, d, probs);
      var i :| 0 <= i < |labels| && labels[i] == d.choice;
      var j :| 0 <= j < |labels| && labels[j] == second;
      if i < j { TotalOfTwo(labels, probs, i, j); } else { TotalOfTwo(labels, probs, j, i); }
    }
    if |probs| == 0 {
      assert d.choice in probs.Keys;
    }
  }

  /** For numbers that sum to more it does: here the top label clears 0.8 and is refused. */
  lemma MarginGateCanDecide()
    ensures var probs := map["simple" := 0.9, "complex" := 0.8]; var d := Decision("simple", 0.9, 0.1);
      Decides(d, probs) && d.prob >= MIN_PROBABILITY && !Accepted(d)
  {
    var probs := map["simple" := 0.9, "complex" := 0.8];
    assert |probs| == 2 by { assert probs.Keys == {"simple", "complex"}; }
    assert "complex"[0] != "simple"[0];
    assert Prob(probs, "simple") == 0.9 && Prob(probs, "complex") == 0.8;
    assert forall l :: l in probs ==> l == "simple" || l == "complex";
    assert RunnerUp("complex", Decision("simple", 0.9, 0.1), probs);
  }

  // ------------------------------------------------------------------ the router

  const STATE_LIMIT := 4000

  function Truncate(s: string): string {
    var t := Trim(s);
    if |t| > STATE_LIMIT then t[..STATE_LIMIT] else t
  }

  datatype Route = Unroutable | Route(decision: string, model: Candidate)

  ghost predicate HasTier(cands: seq<Candidate>, strong: bool) {
    exists c :: c in cands && InTier(c, strong)
  }

  predicate AcceptedAs(answer: Option<Decision>, choice: string) {
    answer.Some? && Accepted(answer.value) && answer.value.choice == choice
  }

  /** The weak tier is used on an accepted "simple", or if there is no strong one. */
  ghost predicate Routes(r: Route, cands: seq<Candidate>, asked: bool, answer: Option<Decision>) {
    if !HasTier(cands, true) && !HasTier(cands, false) then r == Unroutable
    else
      && r.Route?
      && (if HasTier(cands, false) && ((asked && AcceptedAs(answer, "simple")) || !HasTier(cands, true))
          then Represents(r.model, cands, false)
          else Represents(r.model, cands, true))
      && r.decision == (if asked && AcceptedAs(answer, "simple") && HasTier(cands, false) then "simple"
                        else if asked && AcceptedAs(answer, "complex") then "complex" else "fallback")
  }

  /** The service is asked and says "simple" with a probability of 0.8 and a lead of 0.15 or more. */
  ghost predicate SimpleAnswer(hasKey: bool, title: string, message: string, answer: Option<Decision>) {
    && hasKey && (!Blank(title) || !Blank(message))
    && exists prob, margin :: answer == Some(Decision("simple", prob, margin)) && prob >= 0.8 && margin >= 0.15
  }

  ghost predicate ComplexAnswer(hasKey: bool, title: string, message: string, answer: Option<Decision>) {
    && hasKey && (!Blank(title) || !Blank(message))
    && exists prob, margin :: answer == Some(Decision("complex", prob, margin)) && prob >= 0.8 && margin >= 0.15
  }

  lemma SimpleIsAccepted(hasKey: bool, title: string, message: string, answer: Option<Decision>)
    ensures ComplexAnswer(hasKey, title, message, answer) <==>
      hasKey && !(Blank(title) && Blank(message)) && AcceptedAs(answer, "complex")
    ensures SimpleAnswer(hasKey, title, message, answer) <==>
      hasKey && !(Blank(title) && Blank(message)) && AcceptedAs(answer, "simple")
  {
    hide Blank;
    if answer.Some? {
      assert answer == Some(Decision(answer.value.choice, answer.value.prob, answer.value.margin));
    }
  }

  /** `answer` is what the decision service would say if asked; it is asked if there is a key and
      some text. Routing fails to the strong tier: with a strong candidate at hand, a model outside
      that tier is chosen only on an accepted "simple" from a service that was asked. */
  method Resolve(cands: seq<Candidate>, hasKey: bool, title: string, message: string, answer: Option<Decision>)
    returns (r: Route)
    ensures Routes(r, cands, hasKey && !(Blank(title) && Blank(message)), answer)
    ensures HasTier(cands, true) ==> r.Route?
    ensures HasTier(cands, true) && !InTier(r.model, true) ==>
      hasKey && !(Blank(title) && Blank(message)) && AcceptedAs(answer, "simple")
    ensures r == Unroutable <==> forall c :: c in cands ==> !StrongCandidate(c) && !WeakCandidate(c)
    ensures r.Route? ==>
      if (exists c :: c in cands && WeakCandidate(c))
        && ((forall c :: c in cands ==> !StrongCandidate(c)) || SimpleAnswer(hasKey, title, message, answer))
      then Cheapest(r.model, cands)
      else Dearest(r.model, cands)
    ensures r.Route? ==> r.decision in {"simple", "complex", "fallback"}
    ensures r.Route? ==> (r.decision == "simple" <==>
      SimpleAnswer(hasKey, title, message, answer) && exists c :: c in cands && WeakCandidate(c))
    ensures r.Route? ==> (r.decision == "complex" <==> ComplexAnswer(hasKey, title, message, answer))
  {
    SimpleIsAccepted(hasKey, title, message, answer);
    TiersByName(true);
    TiersByName(false);
    hide InTier, Blank, SimpleAnswer, ComplexAnswer, StrongCandidate, WeakCandidate, Dearest, Cheapest;
    var strong, hasStrong := PickTier(cands, true);
    var weak, hasWeak := PickTier(cands, false);
    if !hasStrong && !hasWeak {
      return Unroutable;
    }
    if !hasStrong {
      strong := weak;
    }
    if !hasKey {
      return Route("fallback", strong);
    }
    TrimKeepsInk(title);
    TrimKeepsInk(message);
    if Truncate(title) == "" && Truncate(message) == "" {
      return Route("fallback", strong);
    }
    if answer.None? {
      return Route("fallback", strong);
    }
    var accepted := answer.value.prob >= MIN_PROBABILITY && answer.value.margin >= MIN_MARGIN;
    if accepted && answer.value.choice == "simple" && hasWeak {
      return Route("simple", weak);
    } else if accepted && answer.value.choice == "complex" {
      return Route("complex", strong);
    } else {
      return Route("fallback", strong);
    }
  }

  /** The route depends on which candidates there are and not on their order, up to the cost and
      key of the model. */
  lemma RouteIsOrderIndependent(a: seq<Candidate>, b: seq<Candidate>, asked: bool, answer: Option<Decision>,
                                r: Route, t: Route)
    requires Routes(r, a, asked, answer) && Routes(t, b, asked, answer) && forall c :: c in a <==> c in b
    ensures r == Unroutable <==> t == Unroutable
    ensures r.Route? ==> r.decision == t.decision && r.model.costIn == t.model.costIn && Key(r.model) == Key(t.model)
  {
    hide InTier, Represents, Key;
    if r.Route? {
      var strong := !(HasTier(a, false) && ((asked && AcceptedAs(answer, "simple")) || !HasTier(a, true)));
      PickIsOrderIndependent(a, b, r.model, t.model, strong);
    }
  }
}
