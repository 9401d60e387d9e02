/**
 The runtime registry: which runtimes are listed as healthy at a time, what a heartbeat does, and
 the least-loaded choice. Load ratios are exact.
 */
module Registry {
  import opened Options
  import opened Sets

  datatype Info = Info(id: string, addr: string, active: int, max: int)

  /** A key that is there up to and including its expiry. */
  datatype Timed<T> = Timed(value: T, expiry: int)

  const HEARTBEAT_TTL := 15_000
  const INFO_TTL := 24 * 60 * 60 * 1000

  datatype Keys = Keys(ids: set<string>, infos: map<string, Timed<Info>>, beats: map<string, int>)

  const NO_KEYS := Keys({}, map[], map[])

  predicate Beating(k: Keys, id: string, now: int) {
    id in k.beats && now <= k.beats[id]
  }

  predicate Known(k: Keys, id: string, now: int) {
    id in k.infos && now <= k.infos[id].expiry
  }

  predicate Healthy(k: Keys, id: string, now: int) {
    Known(k, id, now) && Beating(k, id, now)
  }

  function Registered(k: Keys, id: string, addr: string, now: int): Keys {
    Keys(k.ids + {id}, k.infos[id := Timed(Info(id, addr, 0, 1), now + INFO_TTL)], k.beats[id := now + HEARTBEAT_TTL])
  }

  /** The load is recorded only if the runtime is healthy before the beat. */
  function Beaten(k: Keys, id: string, active: int, max: int, now: int): Keys {
    var beats := k.beats[id := now + HEARTBEAT_TTL];
    if Healthy(k, id, now)
    then k.(beats := beats, infos := k.infos[id := Timed(k.infos[id].value.(active := active, max := max), now + INFO_TTL)])
    else k.(beats := beats)
  }

  /** Listing drops the ids that are not healthy. */
  function Pruned(k: Keys, now: int): Keys {
    k.(ids := set id | id in k.ids && Healthy(k, id, now))
  }

  // ------------------------------------------------------------------ the choice

  predicate Qualifies(rt: Info, skip: set<string>) {
    rt.id !in skip && rt.max > 0
  }

  function Load(rt: Info): real
    requires rt.max > 0
  {
    rt.active as real / rt.max as real
  }

  predicate Preferred(rt: Info, best: Info)
    requires rt.max > 0 && best.max > 0
  {
    Load(rt) < Load(best) || (rt.active == best.active && rt.max > best.max)
  }

  /** The scan over the runtimes in the order they are listed. */
  function Choice(list: seq<Info>, skip: set<string>): (best: Option<Info>)
    ensures best.Some? ==> Qualifies(best.value, skip) && best.value in list
  {
    if list == [] then None
    else
      var rt, best := list[|list| - 1], Choice(list[..|list| - 1], skip);
      if Qualifies(rt, skip) && (best.None? || Preferred(rt, best.value)) then Some(rt) else best
  }

  lemma LoadLess(a: Info, b: Info)
    requires a.max > 0 && b.max > 0
    ensures Load(a) < Load(b) <==> a.active * b.max < b.active * a.max
  {
    var m, n := a.max as real, b.max as real;
    var x, y := Load(a), Load(b);
    assert x * m == a.active as real && y * n == b.active as real;
    assert x * (m * n) == a.active as real * n && y * (m * n) == b.active as real * m;
    Scale(x, y, m * n);
    assert a.active as real * n == (a.active * b.max) as real;
    assert b.active as real * m == (b.active * a.max) as real;
  }

  lemma Scale(x: real, y: real, f: real)
    requires f > 0.0
    ensures x < y <==> x * f < y * f
  {
  }

  /** Same active sessions: the larger capacity has the smaller load, or both are idle. */
  lemma SameActive(a: Info, b: Info)
    requires a.max > 0 && b.max > 0 && a.active == b.active >= 0
    ensures a.max > b.max ==> Load(a) <= Load(b)
    ensures a.active > 0 && Load(a) < Load(b) ==> a.max > b.max
    ensures a.active == 0 ==> Load(a) == Load(b) == 0.0
  {
    LoadLess(a, b);
    LoadLess(b, a);
  }

  /** Nothing that qualifies has a lower load, and nothing that qualifies has as many active
      sessions and a larger capacity. */
  ghost predicate LeastLoaded(best: Info, list: seq<Info>, skip: set<string>) {
    && best in list && Qualifies(best, skip)
    && forall rt :: rt in list && Qualifies(rt, skip) ==>
      Load(best) <= Load(rt) && (rt.active == best.active ==> rt.max <= best.max)
  }

  /** The choice fails exactly when nothing qualifies, and otherwise is least loaded; among idle
      runtimes it has the largest capacity. */
  lemma {:induction false} ChoiceIsLeastLoaded(list: seq<Info>, skip: set<string>)
    requires forall rt :: rt in list ==> rt.active >= 0
    ensures Choice(list, skip).None? <==> forall rt :: rt in list ==> !Qualifies(rt, skip)
    ensures Choice(list, skip).Some? ==> LeastLoaded(Choice(list, skip).value, list, skip)
  {
    if list != [] {
      var front, rt := list[..|list| - 1], list[|list| - 1];
      assert list == front + [rt];
      ChoiceIsLeastLoaded(front, skip);
      var before := Choice(front, skip);
      if Qualifies(rt, skip) && before.Some? {
        forall x | x in front && Qualifies(x, skip)
          ensures Preferred(rt, before.value) ==> Load(rt) <= Load(x) && (x.active == rt.active ==> x.max <= rt.max)
        {
          if rt.active == before.value.active { SameActive(rt, before.value); }
          if x.active == rt.active { SameActive(rt, x); }
        }
      }
    }
  }

  /** Whatever the order of the listing, the load chosen is the same. */
  lemma ChoiceLoadIsOrderIndependent(a: seq<Info>, b: seq<Info>, skip: set<string>)
    requires forall rt :: rt in a ==> rt.active >= 0
    requires forall rt :: rt in a <==> rt in b
    ensures Choice(a, skip).Some? <==> Choice(b, skip).Some?
    ensures Choice(a, skip).Some? ==> Load(Choice(a, skip).value) == Load(Choice(b, skip).value)
  {
    hide Choice, Load;
    ChoiceIsLeastLoaded(a, skip);
    ChoiceIsLeastLoaded(b, skip);
  }

  /** Under load, a tie goes to whoever is listed first: everything that qualifies and is listed
      earlier has a strictly higher load. */
  lemma {:induction false} TieGoesToTheFirst(list: seq<Info>, skip: set<string>) returns (i: nat)
    requires forall rt :: rt in list ==> rt.active >= 0
    requires Choice(list, skip).Some? && Choice(list, skip).value.active > 0
    ensures i < |list| && list[i] == Choice(list, skip).value
    ensures forall j :: 0 <= j < i && Qualifies(list[j], skip) ==> Load(list[j]) > Load(list[i])
  {
    var front, rt := list[..|list| - 1], list[|list| - 1];
    var before := Choice(front, skip);
    ChoiceIsLeastLoaded(front, skip);
    if Qualifies(rt, skip) && (before.None? || Preferred(rt, before.value)) {
      i := |list| - 1;
      forall j | 0 <= j < i && Qualifies(list[j], skip) ensures Load(list[j]) > Load(list[i]) {
        assert list[j] == front[j] && front[j] in front;
        if rt.active == before.value.active && rt.max > before.value.max { TieBreakIsStrict(rt, before.value); }
      }
    } else {
      i := TieGoesToTheFirst(front, skip);
    }
  }

  lemma TieBreakIsStrict(a: Info, b: Info)
    requires a.max > b.max > 0 && a.active == b.active > 0
    ensures Load(a) < Load(b)
  {
    LoadLess(a, b);
  }

  /** So it is not broken by the number of active sessions. */
  lemma TieIgnoresActive(skip: set<string>)
    requires "a" !in skip && "b" !in skip
    ensures var a, b := Info("a", "", 2, 4), Info("b", "", 1, 2);
      Load(a) == Load(b) && b.active < a.active && Choice([a, b], skip) == Some(a) && Choice([b, a], skip) == Some(b)
  {
    var a, b := Info("a", "", 2, 4), Info("b", "", 1, 2);
    assert [a, b][..1] == [a] && [b, a][..1] == [b] && [a][..0] == [] && [b][..0] == [];
    assert Choice([a], skip) == Some(a) && Choice([b], skip) == Some(b);
  }

  /** `best` has the fewest active sessions among the least loaded. */
  ghost predicate FewestActive(best: Info, list: seq<Info>, skip: set<string>) {
    Qualifies(best, skip) &&
    forall rt :: rt in list && Qualifies(rt, skip) && Load(rt) == Load(best) ==> best.active <= rt.active
  }

  ghost predicate SameAmongLeast(best: Info, list: seq<Info>, skip: set<string>) {
    Qualifies(best, skip) &&
    forall rt :: rt in list && Qualifies(rt, skip) && Load(rt) == Load(best) ==> rt.active == best.active
  }

  ghost predicate Reorders(p: seq<Info>, list: seq<Info>) {
    multiset(p) == multiset(list)
  }

  lemma ReorderedMembers(p: seq<Info>, list: seq<Info>)
    requires Reorders(p, list)
    ensures forall rt :: rt in p <==> rt in list
  {
    forall rt ensures rt in p <==> rt in list {
      assert rt in multiset(p) <==> rt in multiset(list);
    }
  }

  lemma Foremost(list: seq<Info>, x: Info) returns (p: seq<Info>)
    requires x in list
    ensures Reorders(p, list) && p != [] && p[0] == x
  {
    var i :| 0 <= i < |list| && list[i] == x;
    p := [x] + (list[..i] + list[i + 1..]);
    assert list == list[..i] + [list[i]] + list[i + 1..];
  }

  /** The one listed first wins a tie under load. */
  lemma ForemostWins(p: seq<Info>, skip: set<string>)
    requires forall rt :: rt in p ==> rt.active >= 0
    requires p != [] && Qualifies(p[0], skip) && p[0].active > 0
    requires forall rt :: rt in p && Qualifies(rt, skip) ==> Load(p[0]) <= Load(rt)
    ensures Choice(p, skip) == Some(p[0])
  {
    assert p[0] in p;
    ChoiceIsLeastLoaded(p, skip);
    var best := Choice(p, skip).value;
    IdleOrNot(p[0], best);
    var i := TieGoesToTheFirst(p, skip);
  }

  lemma IdleOrNot(a: Info, b: Info)
    requires a.max > 0 && b.max > 0 && a.active >= 0 && b.active >= 0
    ensures Load(a) == Load(b) ==> (a.active == 0 <==> b.active == 0)
  {
    LoadLess(a, b);
    LoadLess(b, a);
  }

  lemma IdleIsZero(a: Info)
    requires a.max > 0 && a.active >= 0
    ensures a.active == 0 <==> Load(a) == 0.0
  {
    SameActive(a, Info("", "", a.active, a.max));
  }

  lemma EveryOrderIsFair(list: seq<Info>, p: seq<Info>, skip: set<string>)
    requires forall rt :: rt in list ==> rt.active >= 0
    requires Choice(list, skip).Some? && Reorders(p, list)
    requires Load(Choice(list, skip).value) == 0.0 || SameAmongLeast(Choice(list, skip).value, list, skip)
    ensures Choice(p, skip).Some? && FewestActive(Choice(p, skip).value, list, skip)
  {
    hide Choice, Load, Qualifies;
    ReorderedMembers(p, list);
    ChoiceIsLeastLoaded(list, skip);
    ChoiceIsLeastLoaded(p, skip);
    QualifiedHasRoom(Choice(p, skip).value, skip);
    QualifiedHasRoom(Choice(list, skip).value, skip);
    if Load(Choice(list, skip).value) == 0.0 {
      IdleIsZero(Choice(p, skip).value);
    }
  }

  lemma QualifiedHasRoom(rt: Info, skip: set<string>)
    ensures Qualifies(rt, skip) ==> rt.max > 0
  {
  }

  lemma UnfairOrder(list: seq<Info>, skip: set<string>, x: Info, y: Info) returns (p: seq<Info>)
    requires forall rt :: rt in list ==> rt.active >= 0
    requires x in list && y in list && Qualifies(x, skip) && Qualifies(y, skip)
    requires Load(x) == Load(y) && x.active > y.active
    requires forall rt :: rt in list && Qualifies(rt, skip) ==> Load(x) <= Load(rt)
    ensures Reorders(p, list) && Choice(p, skip) == Some(x) && !FewestActive(x, list, skip)
  {
    p := Foremost(list, x);
    ReorderedMembers(p, list);
    ForemostWins(p, skip);
  }

  /** The documented tie-break, fewer active sessions, holds for every order of the listing exactly
      when the least load is zero or all least loaded runtimes have as many active sessions. */
  lemma TieBreakExactly(list: seq<Info>, skip: set<string>)
    requires forall rt :: rt in list ==> rt.active >= 0
    requires Choice(list, skip).Some?
    ensures (forall p :: Reorders(p, list) ==> Choice(p, skip).Some? && FewestActive(Choice(p, skip).value, list, skip))
      <==> Load(Choice(list, skip).value) == 0.0 || SameAmongLeast(Choice(list, skip).value, list, skip)
  {
    ChoiceIsLeastLoaded(list, skip);
    var best := Choice(list, skip).value;
    if Load(best) == 0.0 || SameAmongLeast(best, list, skip) {
      forall p | Reorders(p, list)
        ensures Choice(p, skip).Some? && FewestActive(Choice(p, skip).value, list, skip)
      {
        EveryOrderIsFair(list, p, skip);
      }
    } else {
      var rt :| rt in list && Qualifies(rt, skip) && Load(rt) == Load(best) && rt.active != best.active;
      var x, y := if rt.active > best.active then rt else best, if rt.active > best.active then best else rt;
      var p := UnfairOrder(list, skip, x, y);
    }
  }

  // ------------------------------------------------------------------ the registry over time

  datatype Op =
    | Register(id: string, addr: string)
    | Heartbeat(id: string, active: int, max: int)
    | List

  datatype Timestamped = At(now: int, op: Op)

  function Do(k: Keys, s: Timestamped): Keys {
    match s.op
    case Register(id, addr) => Registered(k, id, addr, s.now)
    case Heartbeat(id, active, max) => Beaten(k, id, active, max, s.now)
    case List => Pruned(k, s.now)
  }

  function After(k: Keys, run: seq<Timestamped>): Keys {
    if run == [] then k else Do(After(k, run[..|run| - 1]), run[|run| - 1])
  }

  ghost predicate InOrder(run: seq<Timestamped>) {
    forall i, j :: 0 <= i < j < |run| ==> run[i].now <= run[j].now
  }

  /** A listing in which `id` shows its load as `info`. */
  ghost predicate Lists(k: Keys, id: string, info: Info, now: int) {
    id in k.ids && Healthy(k, id, now) && k.infos[id].value == info
  }

  /** The latest news of a runtime that has registered and kept its beats and listings within the
      time to live since. */
  function News(run: seq<Timestamped>, id: string): Option<Timed<Info>> {
    if run == [] then None
    else
      var s, before := run[|run| - 1], News(run[..|run| - 1], id);
      match s.op
      case Register(x, addr) => if x == id then Some(Timed(Info(id, addr, 0, 1), s.now)) else before
      case Heartbeat(x, active, max) =>
        if x != id then before
        else if before.Some? && s.now <= before.value.expiry + HEARTBEAT_TTL
        then Some(Timed(before.value.value.(active := active, max := max), s.now))
        else None
      case List => if before.Some? && s.now <= before.value.expiry + HEARTBEAT_TTL then before else None
  }

  lemma {:induction false} NewsIsRecorded(run: seq<Timestamped>, id: string)
    requires InOrder(run) && News(run, id).Some?
    ensures var k, news := After(NO_KEYS, run), News(run, id).value;
      && id in k.ids && id in k.infos && id in k.beats
      && k.infos[id] == Timed(news.value, news.expiry + INFO_TTL) && k.beats[id] == news.expiry + HEARTBEAT_TTL
    ensures exists i :: 0 <= i < |run| && run[i].now == News(run, id).value.expiry
  {
    var front, s := run[..|run| - 1], run[|run| - 1];
    assert run == front + [s];
    if News(front, id).Some? {
      NewsIsRecorded(front, id);
      var i :| 0 <= i < |front| && front[i].now == News(front, id).value.expiry;
      assert run[i].now == front[i].now;
    }
    assert s.op.List? || s.op.id != id || run[|run| - 1].now == News(run, id).value.expiry;
  }

  /** A runtime that registered and has been in time since is listed, and with the load it last
      reported, until a time to live has passed since then. */
  lemma TimelyRuntimeIsListed(run: seq<Timestamped>, id: string, now: int)
    requires InOrder(run) && (run != [] ==> run[|run| - 1].now <= now)
    requires News(run, id).Some? && now <= News(run, id).value.expiry + 15 * 1000
    ensures Lists(After(NO_KEYS, run), id, News(run, id).value.value, now)
  {
    NewsIsRecorded(run, id);
  }

  /** A registration keeps a runtime healthy for fifteen seconds and its record for a day. */
  lemma RegistrationLives(k: Keys, id: string, addr: string, now: int, later: int)
    requires now <= later
    ensures Healthy(Registered(k, id, addr, now), id, later) <==> later <= now + 15 * 1000
    ensures Known(Registered(k, id, addr, now), id, later) <==> later <= now + 24 * 60 * 60 * 1000
    ensures id in Registered(k, id, addr, now).ids
    ensures Registered(k, id, addr, now).infos[id].value == Info(id, addr, 0, 1)
  {
  }

  /** A heartbeat is good for fifteen seconds as well, and keeps the record for a day if the runtime
      was healthy. */
  lemma HeartbeatLives(k: Keys, id: string, active: int, max: int, now: int, later: int)
    requires now <= later
    ensures Beating(Beaten(k, id, active, max, now), id, later) <==> later <= now + 15 * 1000
    ensures Healthy(k, id, now) ==>
      var r := Beaten(k, id, active, max, now).infos[id];
      r.expiry == now + 24 * 60 * 60 * 1000 && r.value == k.infos[id].value.(active := active, max := max)
    ensures !Healthy(k, id, now) ==> Beaten(k, id, active, max, now).infos == k.infos
    ensures Beaten(k, id, active, max, now).ids == k.ids
  {
  }

  lemma {:induction false} UnlistedStaysOut(k: Keys, run: seq<Timestamped>, id: string)
    requires id !in k.ids && forall i :: 0 <= i < |run| ==> !(run[i].op.Register? && run[i].op.id == id)
    ensures id !in After(k, run).ids
  {
    if run != [] {
      UnlistedStaysOut(k, run[..|run| - 1], id);
    }
  }

  /** A runtime found silent by one listing is never listed again, whatever heartbeats it sends,
      until it registers anew. */
  lemma SilentRuntimeMustRegister(k: Keys, now: int, run: seq<Timestamped>, id: string, later: int, info: Info)
    requires !Healthy(k, id, now)
    requires forall i :: 0 <= i < |run| ==> !(run[i].op.Register? && run[i].op.id == id)
    ensures !Lists(After(Do(k, At(now, List)), run), id, info, later)
  {
    UnlistedStaysOut(Do(k, At(now, List)), run, id);
  }

  /** A late heartbeat revives a runtime that no listing has dropped, but with its old load. */
  lemma LateHeartbeatKeepsOldLoad(k: Keys, id: string, active: int, max: int, now: int)
    requires id in k.ids && Known(k, id, now) && !Beating(k, id, now)
    ensures Lists(Beaten(k, id, active, max, now), id, k.infos[id].value, now)
  {
  }

  class RuntimeRegistry {
    var ids: set<string>
    var infos: map<string, Timed<Info>>
    var beats: map<string, int>

    constructor ()
      ensures View() == NO_KEYS
    {
      ids, infos, beats := {}, map[], map[];
    }

    function View(): Keys
      reads this
    {
      Keys(ids, infos, beats)
    }

    method Register(id: string, addr: string, now: int)
      modifies this
      ensures View() == Registered(old(View()), id, addr, now)
    {
      ids := ids + {id};
      infos := infos[id := Timed(Info(id, addr, 0, 1), now + INFO_TTL)];
      beats := beats[id := now + HEARTBEAT_TTL];
    }

    /** The lookup of the old record runs before the queued writes do. */
    method Heartbeat(id: string, active: int, max: int, now: int)
      modifies this
      ensures View() == Beaten(old(View()), id, active, max, now)
    {
      var got := Get(id, now);
      beats := beats[id := now + HEARTBEAT_TTL];
      if got.Some? {
        infos := infos[id := Timed(got.value.(active := active, max := max), now + INFO_TTL)];
      }
    }

    method Get(id: string, now: int) returns (got: Option<Info>)
      ensures got == if Healthy(View(), id, now) then Some(infos[id].value) else None
    {
      if !(id in infos && now <= infos[id].expiry) {
        return None;
      }
      if !(id in beats && now <= beats[id]) {
        return None;
      }
      return Some(infos[id].value);
    }

    /** The healthy runtimes in no particular order; the others are dropped on the way. */
    method List(now: int) returns (out: seq<Info>)
      modifies this`ids
      ensures View() == Pruned(old(View()), now)
      ensures forall info :: info in out <==> exists id :: Lists(old(View()), id, info, now)
    {
      out := [];
      var left := ids;
      while left != {}
        invariant left <= old(ids)
        invariant infos == old(infos) && beats == old(beats)
        invariant ids == set id | id in old(ids) && (id in left || Healthy(View(), id, now))
        invariant forall info :: info in out <==> exists id :: id !in left && Lists(old(View()), id, info, now)
        decreases |left|
      {
        Inhabited(left);
        var id :| id in left;
        left := left - {id};
        var got := Get(id, now);
        if got.None? {
          ids := ids - {id};
        } else {
          out := out + [got.value];
        }
      }
    }

    method Pick(exclude: seq<string>, now: int) returns (best: Option<Info>)
      modifies this`ids
      ensures View() == Pruned(old(View()), now)
      ensures exists list :: Listing(old(View()), list, now) && best == Choice(list, set id | id in exclude)
    {
      ghost var before := View();
      var list := List(now);
      var skip := set id | id in exclude;
      best := None;
      for i := 0 to |list|
        invariant best == Choice(list[..i], skip)
      {
        var rt := list[i];
        assert list[..i + 1][..i] == list[..i];
        if rt.id in skip || rt.max <= 0 {
          continue;
        }
        if best.None? || Load(rt) < Load(best.value) || (rt.active == best.value.active && rt.max > best.value.max) {
          best := Some(rt);
        }
      }
      assert list[..|list|] == list;
      assert Listing(before, list, now);
    }
  }

  /** `list` holds the runtimes healthy at `now`, in some order. */
  ghost predicate Listing(k: Keys, list: seq<Info>, now: int) {
    forall info :: info in list <==> exists id :: Lists(k, id, info, now)
  }

  /** What `Pick` promises in terms of the registry: a healthy runtime that is not excluded and has
      capacity, least loaded among all such, and none only if there is none. */
  lemma PickIsLeastLoaded(k: Keys, list: seq<Info>, skip: set<string>, now: int)
    requires Listing(k, list, now) && forall id, info :: Lists(k, id, info, now) ==> info.active >= 0
    ensures Choice(list, skip).None? <==> forall id, info :: Lists(k, id, info, now) ==> !Qualifies(info, skip)
    ensures Choice(list, skip).Some? ==>
      var best := Choice(list, skip).value;
      && (exists id :: Lists(k, id, best, now)) && Qualifies(best, skip)
      && forall id, info :: Lists(k, id, info, now) && Qualifies(info, skip) ==>
        Load(best) <= Load(info) && (info.active == best.active ==> info.max <= best.max)
  {
    hide Choice, Lists, Load, Qualifies;
    ChoiceIsLeastLoaded(list, skip);
  }

  /** The same in whole numbers: the choice is not excluded and has capacity, and against any other
      such runtime its sessions times the other's capacity are no more than the other's sessions
      times its own; none is chosen only if every healthy runtime is excluded or without capacity. */
  lemma PickInNumbers(k: Keys, list: seq<Info>, skip: set<string>, now: int)
    requires Listing(k, list, now) && forall id, info :: Lists(k, id, info, now) ==> info.active >= 0
    ensures Choice(list, skip).None? <==> forall id, info :: Lists(k, id, info, now) ==> info.id in skip || info.max <= 0
    ensures Choice(list, skip).Some? ==>
      var best := Choice(list, skip).value;
      && best.id !in skip && best.max > 0
      && forall id, info :: Lists(k, id, info, now) && info.id !in skip && info.max > 0 ==>
        best.active * info.max <= info.active * best.max
  {
    QualifiesExactly(skip);
    hide Choice, Lists, Load, Qualifies;
    PickIsLeastLoaded(k, list, skip, now);
    if Choice(list, skip).Some? {
      var best := Choice(list, skip).value;
      forall id, info | Lists(k, id, info, now) && info.id !in skip && info.max > 0
        ensures best.active * info.max <= info.active * best.max
      {
        LoadLess(info, best);
      }
    }
  }

  lemma QualifiesExactly(skip: set<string>)
    ensures forall rt :: Qualifies(rt, skip) <==> rt.id !in skip && rt.max > 0
  {
  }
}
