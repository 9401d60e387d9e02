/**
 Who may see a capability: scopes as submitted, their normal form, the rows they are stored in,
 and the decision made from what is read back, in whatever order the rows come.
 */
module Scopes {
  import opened Options
  import opened Text
  import opened Sorting
  import opened Sets

  datatype Scope = Scope(kind: string, value: string)

  // ------------------------------------------------------------------ the decision

  predicate Grants(s: Scope, department: string, role: string) {
    || s.kind == "all"
    || (s.kind == "department" && department != "" && s.value == department)
    || (s.kind == "role" && role != "" && s.value == role)
  }

  /** No scopes at all means everyone. */
  ghost predicate Visible(scopes: seq<Scope>, department: string, role: string) {
    scopes == [] || exists s :: s in scopes && Grants(s, department, role)
  }

  /** Whom a scope admits: "all" everyone, a department or a role whoever has that one, and a scope
      of any other kind nobody. */
  lemma GrantsExactly(department: string, role: string)
    ensures forall s :: Grants(s, department, role) <==>
      s.kind == "all" || (department != "" && s == Scope("department", department)) || (role != "" && s == Scope("role", role))
  {
  }

  method EffectiveScope(scopes: seq<Scope>, department: string, role: string) returns (visible: bool)
    ensures visible <==> Visible(scopes, department, role)
    ensures visible <==> scopes == [] || exists s ::
      s in scopes && (s.kind == "all" || (department != "" && s == Scope("department", department)) || (role != "" && s == Scope("role", role)))
  {
    GrantsExactly(department, role);
    if |scopes| == 0 {
      return true;
    }
    for i := 0 to |scopes|
      invariant forall j :: 0 <= j < i ==> !Grants(scopes[j], department, role)
    {
      var s := scopes[i];
      if s.kind == "all" {
        assert Grants(s, department, role);
        return true;
      } else if s.kind == "department" {
        if department != "" && s.value == department {
          assert Grants(s, department, role);
          return true;
        }
      } else if s.kind == "role" {
        if role != "" && s.value == role {
          assert Grants(s, department, role);
          return true;
        }
      }
    }
    return false;
  }

  // ------------------------------------------------------------------ the normal form

  /** What a submitted scope becomes, if it survives. */
  function Clean(s: Scope): Option<Scope> {
    var kind, value := Trim(s.kind), Trim(s.value);
    if kind == "all" then Some(Scope(kind, ""))
    else if (kind == "department" || kind == "role") && value != "" then Some(Scope(kind, value))
    else None
  }

  ghost predicate Survives(s: Scope, submitted: seq<Scope>) {
    exists i :: 0 <= i < |submitted| && Clean(submitted[i]) == Some(s)
  }

  predicate Less(a: Scope, b: Scope) {
    if a.kind != b.kind then TextLess(a.kind, b.kind) else TextLess(a.value, b.value)
  }

  /** The surviving scopes, each once, in order. */
  ghost predicate Normal(r: seq<Scope>, submitted: seq<Scope>) {
    Ascending(r, Less) && forall s :: s in r <==> Survives(s, submitted)
  }

  lemma Order()
    ensures StrictOrder(Less)
  {
    hide TextLess;
    forall a, b, c
      ensures !Less(a, a) && (Less(a, b) || a == b || Less(b, a)) && (Less(a, b) && Less(b, c) ==> Less(a, c))
    {
      TextOrder(a.kind, b.kind, c.kind);
      TextOrder(a.value, b.value, c.value);
    }
  }

  method NormalizeScopes(submitted: seq<Scope>) returns (out: seq<Scope>)
    ensures Normal(out, submitted)
  {
    hide Trim, Less, Sort;
    var seen: set<Scope> := {};
    out := [];
    for i := 0 to |submitted|
      invariant Distinct(out)
      invariant forall s :: s in seen <==> s in out
      invariant forall s :: s in out <==> Survives(s, submitted[..i])
    {
      SurvivesSnoc(submitted, i);
      var s := Scope(Trim(submitted[i].kind), Trim(submitted[i].value));
      if s.kind == "all" {
        s := s.(value := "");
      } else if s.kind == "department" || s.kind == "role" {
        if s.value == "" {
          continue;
        }
      } else {
        continue;
      }
      if s in seen {
        continue;
      }
      seen := seen + {s};
      out := out + [s];
    }
    assert submitted[..|submitted|] == submitted;
    Order();
    SortAscends(out, Less);
    out := Sort(out, Less);
  }

  lemma SurvivesSnoc(submitted: seq<Scope>, i: nat)
    requires i < |submitted|
    ensures forall s :: Survives(s, submitted[..i + 1]) <==> Survives(s, submitted[..i]) || Clean(submitted[i]) == Some(s)
  {
    hide Clean;
    forall s ensures Survives(s, submitted[..i + 1]) <==> Survives(s, submitted[..i]) || Clean(submitted[i]) == Some(s) {
      if Survives(s, submitted[..i]) {
        var j :| 0 <= j < i && Clean(submitted[..i][j]) == Some(s);
        assert submitted[..i + 1][j] == submitted[j];
      }
      if Clean(submitted[i]) == Some(s) {
        assert submitted[..i + 1][i] == submitted[i];
      }
    }
  }

  // ------------------------------------------------------------------ the normal form is canonical

  /** Submissions have the same normal form exactly when the same scopes survive. */
  lemma NormalFormIsCanonical(a: seq<Scope>, b: seq<Scope>, r: seq<Scope>, t: seq<Scope>)
    requires Normal(r, a) && Normal(t, b)
    ensures r == t <==> forall s :: Survives(s, a) <==> Survives(s, b)
  {
    if forall s :: Survives(s, a) <==> Survives(s, b) {
      Order();
      AscendingUnique(r, t, Less);
    }
  }

  /** What survives, said by the trimmed kind and value. */
  lemma SurvivesExactly(s: Scope, submitted: seq<Scope>)
    ensures Survives(s, submitted) <==> exists i ::
      0 <= i < |submitted| && BecomesScope(Trim(submitted[i].kind), Trim(submitted[i].value), s)
  {
    hide Trim;
  }

  ghost predicate BecomesScope(kind: string, value: string, s: Scope) {
    || (kind == "all" && s == Scope("all", ""))
    || (kind == "department" && value != "" && s == Scope("department", value))
    || (kind == "role" && value != "" && s == Scope("role", value))
  }

  /** The order of a normal form: by kind, then by value. */
  lemma LessExactly(a: Scope, b: Scope)
    ensures Less(a, b) <==> TextLess(a.kind, b.kind) || (a.kind == b.kind && TextLess(a.value, b.value))
  {
    TextOrder(a.kind, a.kind, a.kind);
  }

  lemma TrimTwice(s: string)
    ensures Trim(Trim(s)) == Trim(s)
  {
    var l := TrimLeft(s);
    InkTrimLeft(s);
    InkTrimRight(l);
    TrimRightIsPrefix(l);
  }

  lemma {:induction false} TrimRightIsPrefix(s: string)
    ensures TrimRight(s) <= s
  {
    if s != "" && IsSpace(s[|s| - 1]) {
      TrimRightIsPrefix(s[..|s| - 1]);
    }
  }

  lemma CleanTwice(s: Scope)
    requires Clean(s).Some?
    ensures Clean(Clean(s).value) == Clean(s)
  {
    TrimTwice(s.kind);
    TrimTwice(s.value);
    assert Trim("") == "";
  }

  /** Normalising is idempotent. */
  lemma NormalTwice(submitted: seq<Scope>, r: seq<Scope>, t: seq<Scope>)
    requires Normal(r, submitted) && Normal(t, r)
    ensures t == r
  {
    hide Clean, Less;
    forall s | s in r ensures Clean(s) == Some(s) {
      var i :| 0 <= i < |submitted| && Clean(submitted[i]) == Some(s);
      CleanTwice(submitted[i]);
    }
    forall s ensures s in t <==> s in r {
      if s in r {
        var i :| 0 <= i < |r| && r[i] == s;
        assert Survives(s, r);
      }
      if Survives(s, r) {
        var i :| 0 <= i < |r| && Clean(r[i]) == Some(s);
        assert r[i] in r;
      }
    }
    Order();
    AscendingUnique(t, r, Less);
  }

  /** So a normal form never violates the primary key of the table it is stored in. */
  lemma NormalIsDistinct(r: seq<Scope>)
    requires Ascending(r, Less)
    ensures Distinct(r)
  {
    Order();
    AscendingDistinct(r, Less);
  }

  // ------------------------------------------------------------------ storing and reading back

  datatype CapScope = CapScope(capType: string, capId: string, scope: Scope)

  class ScopeStore {
    var rows: set<CapScope>

    ghost predicate Stores(capType: string, capId: string, s: Scope)
      reads this
    {
      CapScope(capType, capId, s) in rows
    }

    /** Replaces the rows of one capability, one statement at a time; only the first `accepted`
        statements succeed. A row that is already there violates the primary key. */
    method SetScopes(capType: string, capId: string, scopes: seq<Scope>, accepted: nat)
      returns (ok: bool, ghost kept: nat)
      modifies this
      ensures ok <==> accepted > |scopes| && Distinct(scopes)
      ensures accepted == 0 ==> rows == old(rows)
      ensures accepted > 0 ==> kept <= |scopes| && forall s :: Stores(capType, capId, s) <==> s in scopes[..kept]
      ensures accepted > 0 && Distinct(scopes) ==> kept == if ok then |scopes| else accepted - 1
      ensures forall t, id, s :: (t, id) != (capType, capId) ==> (Stores(t, id, s) <==> old(Stores(t, id, s)))
    {
      kept := 0;
      if accepted == 0 {
        return false, kept;
      }
      rows := set row | row in rows && !(row.capType == capType && row.capId == capId);
      for i := 0 to |scopes|
        invariant i < accepted && kept == i && Distinct(scopes[..i])
        invariant forall row :: row in rows <==>
          if row.capType == capType && row.capId == capId then row.scope in scopes[..i] else row in old(rows)
      {
        var row := CapScope(capType, capId, scopes[i]);
        assert row in rows <==> scopes[i] in scopes[..i];
        if i + 1 == accepted || row in rows {
          return false, kept;
        }
        rows := rows + {row};
        kept := i + 1;
        assert scopes[..i + 1] == scopes[..i] + [scopes[i]];
      }
      assert scopes[..|scopes|] == scopes;
      return true, kept;
    }

    /** The rows of one type of capability, grouped, in the order they happen to be read. */
    method ScopesFor(capType: string) returns (out: map<string, seq<Scope>>)
      ensures forall id, s :: s in Loaded(out, id) <==> Stores(capType, id, s)
      ensures forall id :: id in out ==> out[id] != []
    {
      var left := rows;
      out := map[];
      while left != {}
        invariant left <= rows
        invariant forall id, s :: CapScope(capType, id, s) in rows - left <==> id in out && s in out[id]
        invariant forall id :: id in out ==> out[id] != []
      {
        Inhabited(left);
        var row :| row in left;
        left := left - {row};
        if row.capType == capType {
          var sofar := if row.capId in out then out[row.capId] else [];
          out := out[row.capId := sofar + [row.scope]];
        }
      }
    }
  }

  /** A capability the read-back map does not mention has no scopes. */
  function Loaded(out: map<string, seq<Scope>>, id: string): seq<Scope> {
    if id in out then out[id] else []
  }

  // ------------------------------------------------------------------ what is preserved

  function Trimmed(submitted: seq<Scope>): seq<Scope> {
    seq(|submitted|, i requires 0 <= i < |submitted| => Scope(Trim(submitted[i].kind), Trim(submitted[i].value)))
  }

  lemma SurvivorsGrantAlike(submitted: seq<Scope>, department: string, role: string)
    ensures (exists s :: s in Trimmed(submitted) && Grants(s, department, role))
      <==> (exists s :: Survives(s, submitted) && Grants(s, department, role))
  {
    hide Trim;
    var t := Trimmed(submitted);
    if s :| s in t && Grants(s, department, role) {
      var i :| 0 <= i < |t| && t[i] == s;
      assert Clean(submitted[i]).Some?;
      assert Survives(Clean(submitted[i]).value, submitted) && Grants(Clean(submitted[i]).value, department, role);
    }
    if s :| Survives(s, submitted) && Grants(s, department, role) {
      var i :| 0 <= i < |submitted| && Clean(submitted[i]) == Some(s);
      assert t[i] in t && Grants(t[i], department, role);
    }
  }

  /** Visibility after normalising, storing and reading back in any order is that of the submitted
      scopes, trimmed, for every department and role, exactly when nothing was submitted or
      something survives. Otherwise the capability has become visible to everyone. */
  lemma VisibilityPreserved(submitted: seq<Scope>, normal: seq<Scope>, loaded: seq<Scope>)
    requires Normal(normal, submitted) && forall s :: s in loaded <==> s in normal
    ensures (forall d, r :: Visible(loaded, d, r) <==> Visible(Trimmed(submitted), d, r))
      <==> (submitted == [] || exists s :: Survives(s, submitted))
    ensures submitted != [] && !(exists s :: Survives(s, submitted)) ==>
      forall d, r :: Visible(loaded, d, r) && !Visible(Trimmed(submitted), d, r)
  {
    hide Less, Clean, Trimmed, Grants;
    EmptyAlike(submitted);
    NoMembers(loaded);
    NoMembers(normal);
    forall d, r ensures Visible(loaded, d, r) <==> normal == [] || Visible(Trimmed(submitted), d, r) {
      SurvivorsGrantAlike(submitted, d, r);
    }
    if submitted != [] && normal == [] {
      forall d, r ensures !Visible(Trimmed(submitted), d, r) {
        SurvivorsGrantAlike(submitted, d, r);
      }
      assert !Visible(Trimmed(submitted), "", "");
    }
  }

  lemma EmptyAlike(submitted: seq<Scope>)
    ensures Trimmed(submitted) == [] <==> submitted == []
  {
    assert |Trimmed(submitted)| == |submitted|;
  }

  /** If storing stops after the old rows are gone, the capability is open to everyone when no row
      made it, and otherwise only to some of those the whole list admits. */
  lemma InterruptedStore(normal: seq<Scope>, k: nat, loaded: seq<Scope>, department: string, role: string)
    requires k <= |normal| && forall s :: s in loaded <==> s in normal[..k]
    ensures k == 0 ==> Visible(loaded, department, role)
    ensures k > 0 && Visible(loaded, department, role) ==> Visible(normal, department, role)
  {
    hide Grants;
    if k == 0 {
      NoMembers(loaded);
    } else {
      assert normal[..k][0] in normal[..k];
      assert forall s :: s in normal[..k] ==> s in normal;
    }
  }

  // ------------------------------------------------------------------ the capabilities of a user

  datatype Cap = Cap(id: string, enabled: bool, scopes: seq<Scope>)

  ghost predicate Effective(c: Cap, department: string, role: string) {
    c.enabled && Visible(c.scopes, department, role)
  }

  /** `out` is what is left of `caps` when everything not effective is taken out: it keeps the
      places of the others, in order. */
  ghost predicate Selects(out: seq<Cap>, caps: seq<Cap>, department: string, role: string) {
    exists places: seq<nat> :: SelectsAt(out, places, caps, department, role)
  }

  ghost predicate SelectsAt(out: seq<Cap>, places: seq<nat>, caps: seq<Cap>, department: string, role: string) {
    && (forall i, j :: 0 <= i < j < |places| ==> places[i] < places[j])
    && (forall k: nat :: k in places <==> k < |caps| && Effective(caps[k], department, role))
    && |out| == |places| && forall i :: 0 <= i < |out| ==> places[i] < |caps| && out[i] == caps[places[i]]
  }

  method Filter(caps: seq<Cap>, department: string, role: string) returns (out: seq<Cap>)
    ensures Selects(out, caps, department, role)
  {
    hide Visible;
    out := [];
    ghost var places: seq<nat> := [];
    for k := 0 to |caps|
      invariant SelectsAt(out, places, caps[..k], department, role)
    {
      var visible := EffectiveScope(caps[k].scopes, department, role);
      if caps[k].enabled && visible {
        out, places := out + [caps[k]], places + [k];
      }
    }
    assert caps[..|caps|] == caps;
  }

  method EffectiveCaps(mcp: seq<Cap>, skills: seq<Cap>, department: string, role: string)
    returns (mout: seq<Cap>, kout: seq<Cap>)
    ensures Selects(mout, mcp, department, role) && Selects(kout, skills, department, role)
  {
    mout := Filter(mcp, department, role);
    kout := Filter(skills, department, role);
  }

  /** A capability is among the selected ones exactly if it is there and effective. */
  lemma SelectedMembers(caps: seq<Cap>, out: seq<Cap>, department: string, role: string)
    requires Selects(out, caps, department, role)
    ensures forall c :: c in out <==> c in caps && Effective(c, department, role)
  {
    hide Visible;
    var places: seq<nat> :| SelectsAt(out, places, caps, department, role);
    forall c | c in caps && Effective(c, department, role) ensures c in out {
      var k: nat :| k < |caps| && caps[k] == c;
      assert k in places;
      var i :| 0 <= i < |places| && places[i] == k;
      assert out[i] == c;
    }
    forall c | c in out ensures c in caps && Effective(c, department, role) {
      var i :| 0 <= i < |out| && out[i] == c;
      assert places[i] in places;
    }
  }
}
