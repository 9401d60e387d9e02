/**
 What a search term is worth to a chunk, in numbers: by the places where it stands in the text, read
 from the left without overlap, its length, and whether the section has it.
 */
module TermWorth {
  import opened Text

  /** The places from `start` on where `t` stands in `s`, each the first behind the one before. */
  ghost predicate LeftmostFrom(places: seq<nat>, s: string, t: string, start: nat) {
    if places == [] then forall p :: p >= start ==> !StandsAt(s, t, p)
    else
      && start <= places[0] && StandsAt(s, t, places[0])
      && (forall p :: start <= p < places[0] ==> !StandsAt(s, t, p))
      && LeftmostFrom(places[1..], s, t, places[0] + |t|)
  }

  ghost predicate Leftmost(places: seq<nat>, s: string, t: string) {
    LeftmostFrom(places, s, t, 0)
  }

  ghost function Pow(b: real, n: nat): real {
    if n == 0 then 1.0 else b * Pow(b, n - 1)
  }

  /** The part of the text the places cover, as a share of its length. */
  ghost function Density(places: seq<nat>, s: string, t: string): real
    requires s != ""
  {
    (|places| * |t|) as real / |s| as real
  }

  ghost predicate Early(places: seq<nat>, s: string)
    requires places != [] && places[0] <= |s|
  {
    ByteLength(s[..places[0]]) < |s| / 4
  }

  /** Doubling with every further rune of the term; times the number of places; fifteen percent more
      if the first is early; and up to thirty percent more for density. */
  ghost function Formula(places: seq<nat>, s: string, t: string): real
    requires places != [] && places[0] <= |s| && t != "" && s != ""
  {
    Product(Pow(2.0, |t| - 1), |places| as real, if Early(places, s) then 1.15 else 1.0,
            1.0 + if Density(places, s, t) < 0.3 then Density(places, s, t) else 0.3)
  }

  ghost function Product(a: real, b: real, c: real, d: real): real {
    a * b * c * d
  }

  /** `v` is what term `t` is worth: by the formula where it stands in the text, half a point where
      it is only in the section, in lower case, and nothing otherwise. An empty term stands before
      every rune and at the end. */
  ghost predicate Worth(v: real, body: string, section: string, t: string, lowered: string) {
    if t == "" then v == (|body| + 1) as real * (if |body| >= 4 then 1.15 else 1.0)
    else exists places :: Leftmost(places, body, t) && WorthAt(v, places, body, section, t, lowered)
  }

  ghost predicate WorthAt(v: real, places: seq<nat>, body: string, section: string, t: string, lowered: string)
    requires t != "" && Leftmost(places, body, t)
  {
    if places == [] then v == if Occurs(section, lowered) then 0.5 else 0.0
    else v == Formula(places, body, t)
  }

  ghost function Sum(vs: seq<real>): real {
    if vs == [] then 0.0 else Sum(vs[..|vs| - 1]) + vs[|vs| - 1]
  }

  // ------------------------------------------------------------------ the places are determined

  lemma {:induction false} SamePlaces(a: seq<nat>, b: seq<nat>, s: string, t: string, start: nat)
    requires LeftmostFrom(a, s, t, start) && LeftmostFrom(b, s, t, start)
    ensures a == b
  {
    hide StandsAt;
    if a != [] && b != [] {
      assert a[0] == b[0];
      SamePlaces(a[1..], b[1..], s, t, a[0] + |t|);
      assert a == [a[0]] + a[1..] && b == [b[0]] + b[1..];
    }
  }

  lemma LeftmostUnique(a: seq<nat>, b: seq<nat>, s: string, t: string)
    requires Leftmost(a, s, t) && Leftmost(b, s, t)
    ensures a == b
  {
    SamePlaces(a, b, s, t, 0);
  }

  /** So a term is worth one number only. */
  lemma WorthUnique(v: real, w: real, body: string, section: string, t: string, lowered: string)
    requires Worth(v, body, section, t, lowered) && Worth(w, body, section, t, lowered)
    ensures v == w
  {
    hide Leftmost, Formula, Occurs;
    if t != "" {
      var a :| Leftmost(a, body, t) && WorthAt(v, a, body, section, t, lowered);
      var b :| Leftmost(b, body, t) && WorthAt(w, b, body, section, t, lowered);
      LeftmostUnique(a, b, body, t);
    }
  }

  lemma NotYet(places: seq<nat>, s: string, t: string, start: nat)
    requires LeftmostFrom(places, s, t, start + 1) && !StandsAt(s, t, start)
    ensures LeftmostFrom(places, s, t, start)
  {
    hide StandsAt;
  }

  lemma Here(places: seq<nat>, s: string, t: string, start: nat)
    requires LeftmostFrom(places, s, t, start + |t|) && StandsAt(s, t, start)
    ensures LeftmostFrom([start] + places, s, t, start)
  {
    hide StandsAt;
    assert ([start] + places)[1..] == places;
  }

  // ------------------------------------------------------------------ laws

  /** At equal number of places, position class and density, one more rune doubles the worth. */
  lemma OneRuneLongerDoubles(v: real, w: real, a: seq<nat>, b: seq<nat>, s: string, r: string, sec: string,
                             t: string, u: string, t': string, u': string)
    requires t != "" && |u| == |t| + 1 && Leftmost(a, s, t) && Leftmost(b, r, u) && |a| == |b| > 0
    requires Worth(v, s, sec, t, t') && Worth(w, r, sec, u, u')
    requires a[0] <= |s| && b[0] <= |r| && (Early(a, s) <==> Early(b, r))
    requires s != "" && r != "" && Density(a, s, t) == Density(b, r, u)
    ensures w == 2.0 * v
  {
    hide Leftmost, Occurs, Density, Early, Pow, Product;
    WorthIsFormula(v, a, s, sec, t, t');
    WorthIsFormula(w, b, r, sec, u, u');
    PowStep(2.0, |t| - 1);
    var dense := 1.0 + if Density(a, s, t) < 0.3 then Density(a, s, t) else 0.3;
    Rearrange(Pow(2.0, |t| - 1), |a| as real, if Early(a, s) then 1.15 else 1.0, dense);
  }

  lemma WorthIsFormula(v: real, places: seq<nat>, body: string, section: string, t: string, lowered: string)
    requires t != "" && Leftmost(places, body, t) && places != [] && places[0] <= |body| && body != ""
    requires Worth(v, body, section, t, lowered)
    ensures v == Formula(places, body, t)
  {
    hide Leftmost, Occurs, Formula;
    var x :| Leftmost(x, body, t) && WorthAt(v, x, body, section, t, lowered);
    LeftmostUnique(places, x, body, t);
  }

  lemma PowStep(b: real, n: nat)
    ensures Pow(b, n + 1) == b * Pow(b, n)
  {
  }

  lemma Rearrange(a: real, b: real, c: real, d: real)
    ensures Product(2.0 * a, b, c, d) == 2.0 * Product(a, b, c, d)
  {
    assert (2.0 * a) * b == 2.0 * (a * b);
    assert (2.0 * (a * b)) * c == 2.0 * (a * b * c);
    assert (2.0 * (a * b * c)) * d == 2.0 * (a * b * c * d);
  }
}
