/**
 The usage ledger: raw events, their daily rollup, per-user quotas. A report is written in two
 statements that are not one transaction, so the second can fail after the first succeeded.
 Costs are exact reals and counters are unbounded.
 */
module UsageLedger {
  import opened Options

  /** What a report measures, and what rows accumulate. */
  datatype Amount = Amount(input: int, output: int, cacheRead: int, cacheWrite: int, total: int, cost: real, count: int)

  const NOTHING := Amount(0, 0, 0, 0, 0, 0.0, 0)

  function Plus(a: Amount, b: Amount): Amount {
    Amount(a.input + b.input, a.output + b.output, a.cacheRead + b.cacheRead, a.cacheWrite + b.cacheWrite,
           a.total + b.total, a.cost + b.cost, a.count + b.count)
  }

  datatype Report = Report(task: string, user: string, provider: string, model: string, expert: string,
                           input: int, output: int, cacheRead: int, cacheWrite: int, cost: real, ts: int)

  function Measure(r: Report): Amount {
    Amount(r.input, r.output, r.cacheRead, r.cacheWrite,
           r.input + r.output + r.cacheRead + r.cacheWrite, r.cost, 1)
  }

  /** The part of an amount the daily rows have columns for. */
  function Daily(a: Amount): Amount {
    a.(cacheRead := 0, cacheWrite := 0)
  }

  lemma PlusLaws(a: Amount, b: Amount, c: Amount)
    ensures Plus(a, NOTHING) == a == Plus(NOTHING, a)
    ensures Plus(Plus(a, b), c) == Plus(Plus(a, c), b) == Plus(a, Plus(b, c))
    ensures Daily(Plus(a, b)) == Plus(Daily(a), Daily(b)) && Daily(NOTHING) == NOTHING
  {
  }

  const DAY_MS := 86_400_000

  /** UTC day of a report; one without a time is dated to the day it arrives. */
  function DayOf(ts: int, now: int): int {
    if ts == 0 then now / DAY_MS else ts / DAY_MS
  }

  // ------------------------------------------------------------------ tables with a primary key

  datatype Row<K> = Row(key: K, amount: Amount)

  /** Adds `a` to the row of `k`, inserting the row if it is not there. */
  function Upsert<K(==)>(rows: seq<Row<K>>, k: K, a: Amount): seq<Row<K>> {
    if rows == [] then [Row(k, a)]
    else if rows[0].key == k then [Row(k, Plus(rows[0].amount, a))] + rows[1..]
    else [rows[0]] + Upsert(rows[1..], k, a)
  }

  function Lookup<K(==)>(rows: seq<Row<K>>, k: K): Option<Amount> {
    if rows == [] then None
    else if rows[0].key == k then Some(rows[0].amount)
    else Lookup(rows[1..], k)
  }

  /** The sum of the rows whose keys satisfy `p`. */
  function SumRows<K>(rows: seq<Row<K>>, p: K -> bool): Amount {
    if rows == [] then NOTHING
    else Plus(if p(rows[0].key) then rows[0].amount else NOTHING, SumRows(rows[1..], p))
  }

  ghost predicate KeysUnique<K(!new)>(rows: seq<Row<K>>) {
    forall i, j :: 0 <= i < j < |rows| ==> rows[i].key != rows[j].key
  }

  lemma SumCons<K(!new)>(r: Row<K>, rest: seq<Row<K>>, p: K -> bool)
    ensures SumRows([r] + rest, p) == Plus(if p(r.key) then r.amount else NOTHING, SumRows(rest, p))
    ensures SumRows([], p) == NOTHING
  {
    assert ([r] + rest)[1..] == rest;
  }

  lemma {:induction false} UpsertSums<K(!new)>(rows: seq<Row<K>>, k: K, a: Amount, p: K -> bool)
    ensures SumRows(Upsert(rows, k, a), p) == Plus(SumRows(rows, p), if p(k) then a else NOTHING)
  {
    hide Plus, SumRows;
    var own := if p(k) then a else NOTHING;
    if rows == [] {
      SumCons(Row(k, a), [], p);
      assert [Row(k, a)] + [] == [Row(k, a)];
      PlusLaws(own, NOTHING, NOTHING);
    } else {
      var r, rest := rows[0], rows[1..];
      assert rows == [r] + rest;
      SumCons(r, rest, p);
      var head, sum := if p(r.key) then r.amount else NOTHING, SumRows(rest, p);
      PlusLaws(head, sum, own);
      if r.key == k {
        SumCons(Row(k, Plus(r.amount, a)), rest, p);
        PlusLaws(head, own, sum);
        PlusLaws(sum, NOTHING, NOTHING);
      } else {
        UpsertSums(rest, k, a, p);
        SumCons(r, Upsert(rest, k, a), p);
      }
    }
  }

  lemma {:induction false} UpsertLooksUp<K(!new)>(rows: seq<Row<K>>, k: K, a: Amount, k': K)
    ensures Lookup(Upsert(rows, k, a), k') ==
      if k' != k then Lookup(rows, k')
      else match Lookup(rows, k)
        case None => Some(a)
        case Some(b) => Some(Plus(b, a))
  {
    if rows != [] && rows[0].key != k {
      UpsertLooksUp(rows[1..], k, a, k');
    }
  }

  lemma {:induction false} UpsertKeys<K(!new)>(rows: seq<Row<K>>, k: K, a: Amount)
    requires KeysUnique(rows)
    ensures KeysUnique(Upsert(rows, k, a))
    ensures forall r :: r in Upsert(rows, k, a) ==> r.key == k || exists s :: s in rows && s.key == r.key
  {
    if rows != [] && rows[0].key != k {
      var rest := rows[1..];
      UpsertKeys(rest, k, a);
      assert rows == [rows[0]] + rest;
      var u := Upsert(rest, k, a);
      forall i | 0 <= i < |u| ensures u[i].key != rows[0].key {
        assert u[i] in u;
      }
    } else if rows != [] {
      assert rows == [rows[0]] + rows[1..];
    }
  }

  lemma {:induction false} LookupFinds<K(!new)>(rows: seq<Row<K>>, i: nat)
    requires i < |rows| && KeysUnique(rows)
    ensures Lookup(rows, rows[i].key) == Some(rows[i].amount)
  {
    if i > 0 {
      assert rows[1..][i - 1] == rows[i];
      LookupFinds(rows[1..], i - 1);
    }
  }

  // ------------------------------------------------------------------ the ledger

  datatype DayUser = DayUser(day: int, user: string)

  datatype Ledger = Ledger(events: seq<Report>, daily: seq<Row<DayUser>>)

  const EMPTY := Ledger([], [])

  /** How far a report got. */
  datatype Writes = Neither | EventOnly | Both

  datatype Call = Call(report: Report, now: int, writes: Writes)

  function KeyOf(c: Call): DayUser {
    DayUser(DayOf(c.report.ts, c.now), c.report.user)
  }

  function Record(l: Ledger, c: Call): Ledger {
    match c.writes
    case Neither => l
    case EventOnly => l.(events := l.events + [c.report])
    case Both => Ledger(l.events + [c.report], Upsert(l.daily, KeyOf(c), Daily(Measure(c.report))))
  }

  function After(l: Ledger, calls: seq<Call>): Ledger {
    if calls == [] then l else Record(After(l, calls[..|calls| - 1]), calls[|calls| - 1])
  }

  /** What the reports that satisfy `p` measure together. */
  function SumCalls(calls: seq<Call>, p: Call -> bool): Amount {
    if calls == [] then NOTHING
    else
      var c := calls[|calls| - 1];
      Plus(SumCalls(calls[..|calls| - 1], p), if p(c) then Measure(c.report) else NOTHING)
  }

  function SumEvents(events: seq<Report>, p: Report -> bool): Amount {
    if events == [] then NOTHING
    else
      var r := events[|events| - 1];
      Plus(SumEvents(events[..|events| - 1], p), if p(r) then Measure(r) else NOTHING)
  }

  function Of(user: string): DayUser -> bool {
    (k: DayUser) => k.user == user
  }

  function OfSince(user: string, start: int): DayUser -> bool {
    (k: DayUser) => k.user == user && k.day >= start
  }

  function At(key: DayUser): Call -> bool {
    (c: Call) => c.writes == Both && KeyOf(c) == key
  }

  function RolledUp(p: DayUser -> bool): Call -> bool {
    (c: Call) => c.writes == Both && p(KeyOf(c))
  }

  function HalfWritten(user: string): Call -> bool {
    (c: Call) => c.writes == EventOnly && c.report.user == user
  }

  function By(user: string): Report -> bool {
    (r: Report) => r.user == user
  }

  /** Every row of the rollup is the sum of the completed reports dated to its day, a row is there
      exactly if there is such a report, and no (day, user) has two rows. */
  lemma {:induction false} RollupRows(calls: seq<Call>, key: DayUser)
    ensures Lookup(After(EMPTY, calls).daily, key) ==
      if exists c :: c in calls && At(key)(c) then Some(Daily(SumCalls(calls, At(key)))) else None
    ensures KeysUnique(After(EMPTY, calls).daily)
  {
    hide Plus, Daily, Measure, Upsert, Lookup, KeysUnique, KeyOf;
    if calls == [] {
      NoRows<DayUser>(key);
    } else {
      var front, c := calls[..|calls| - 1], calls[|calls| - 1];
      RollupRows(front, key);
      assert calls == front + [c];
      var daily, d := After(EMPTY, front).daily, Daily(Measure(c.report));
      UpsertLooksUp(daily, KeyOf(c), d, key);
      UpsertKeys(daily, KeyOf(c), d);
      NoneSumsToNothing(front, At(key));
      PlusLaws(SumCalls(front, At(key)), Measure(c.report), NOTHING);
      PlusLaws(Measure(c.report), NOTHING, NOTHING);
    }
  }

  lemma NoRows<K(!new)>(k: K)
    ensures Lookup([], k) == None && KeysUnique<K>([])
  {
  }

  lemma {:induction false} NoneSumsToNothing(calls: seq<Call>, p: Call -> bool)
    ensures (forall c :: c in calls ==> !p(c)) ==> SumCalls(calls, p) == NOTHING
  {
    if calls != [] {
      var front := calls[..|calls| - 1];
      assert calls == front + [calls[|calls| - 1]];
      NoneSumsToNothing(front, p);
    }
  }

  /** The rows of any period sum to the completed reports dated into it. */
  lemma {:induction false} RollupSums(calls: seq<Call>, p: DayUser -> bool)
    ensures SumRows(After(EMPTY, calls).daily, p) == Daily(SumCalls(calls, RolledUp(p)))
  {
    hide Plus, Daily, Measure, Upsert, KeyOf;
    if calls == [] {
      PlusLaws(NOTHING, NOTHING, NOTHING);
    } else {
      hide SumRows;
      var front, c := calls[..|calls| - 1], calls[|calls| - 1];
      RollupSums(front, p);
      UpsertSums(After(EMPTY, front).daily, KeyOf(c), Daily(Measure(c.report)), p);
      PlusLaws(SumCalls(front, RolledUp(p)), Measure(c.report), NOTHING);
      PlusLaws(SumRows(After(EMPTY, front).daily, p), NOTHING, NOTHING);
    }
  }

  /** Adding `x` to rows and events, or to the half-written reports and the events, keeps them in balance. */
  lemma Balance(rows: Amount, half: Amount, events: Amount, x: Amount)
    requires Plus(rows, Daily(half)) == Daily(events)
    ensures Plus(Plus(rows, Daily(x)), Daily(half)) == Daily(Plus(events, x))
    ensures Plus(rows, Daily(Plus(half, x))) == Daily(Plus(events, x))
    ensures Plus(rows, NOTHING) == rows && Plus(half, NOTHING) == half && Plus(events, NOTHING) == events
  {
  }

  lemma SumCallsSnoc(front: seq<Call>, c: Call, p: Call -> bool)
    ensures SumCalls(front + [c], p) == Plus(SumCalls(front, p), if p(c) then Measure(c.report) else NOTHING)
  {
    assert (front + [c])[..|front|] == front;
  }

  lemma SumEventsSnoc(front: seq<Report>, r: Report, p: Report -> bool)
    ensures SumEvents(front + [r], p) == Plus(SumEvents(front, p), if p(r) then Measure(r) else NOTHING)
  {
    assert (front + [r])[..|front|] == front;
  }

  lemma AfterSnoc(l: Ledger, front: seq<Call>, c: Call)
    ensures After(l, front + [c]) == Record(After(l, front), c)
  {
    assert (front + [c])[..|front|] == front;
  }

  /** A user's rows of all days and the user's events differ by the half-written reports, which
      only the events have. */
  lemma {:induction false} RollupAgainstEvents(calls: seq<Call>, user: string)
    ensures var l := After(EMPTY, calls);
      Plus(SumRows(l.daily, Of(user)), Daily(SumCalls(calls, HalfWritten(user)))) == Daily(SumEvents(l.events, By(user)))
  {
    hide Plus, Daily, Measure, Upsert;
    if calls == [] {
      PlusLaws(NOTHING, NOTHING, NOTHING);
    } else {
      hide SumRows, SumCalls, SumEvents, After;
      var front, c := calls[..|calls| - 1], calls[|calls| - 1];
      assert calls == front + [c];
      RollupAgainstEvents(front, user);
      AfterSnoc(EMPTY, front, c);
      var l, m := After(EMPTY, front), Measure(c.report);
      Balance(SumRows(l.daily, Of(user)), SumCalls(front, HalfWritten(user)), SumEvents(l.events, By(user)), m);
      SumCallsSnoc(front, c, HalfWritten(user));
      SumEventsSnoc(l.events, c.report, By(user));
      UpsertSums(l.daily, KeyOf(c), Daily(m), Of(user));
    }
  }

  lemma {:induction false} CountsCalls(calls: seq<Call>, p: Call -> bool)
    ensures SumCalls(calls, p).count >= 0
    ensures SumCalls(calls, p).count == 0 <==> forall c :: c in calls ==> !p(c)
  {
    if calls != [] {
      var front := calls[..|calls| - 1];
      assert calls == front + [calls[|calls| - 1]];
      CountsCalls(front, p);
    }
  }

  /** The rollup agrees with the raw events in every column exactly when no report of the user
      was left half-written. */
  lemma RollupAgreesExactly(calls: seq<Call>, user: string)
    ensures var l := After(EMPTY, calls);
      SumRows(l.daily, Of(user)) == Daily(SumEvents(l.events, By(user))) <==>
        forall c :: c in calls ==> !(c.writes == EventOnly && c.report.user == user)
  {
    hide SumRows, SumEvents, SumCalls, After;
    RollupAgainstEvents(calls, user);
    CountsCalls(calls, HalfWritten(user));
    NoneSumsToNothing(calls, HalfWritten(user));
    assert forall c :: HalfWritten(user)(c) <==> c.writes == EventOnly && c.report.user == user;
  }

  // ------------------------------------------------------------------ quotas

  function MonthSpend(daily: seq<Row<DayUser>>, user: string, monthStart: int): real {
    SumRows(daily, OfSince(user, monthStart)).cost
  }

  function LimitFor(quotas: map<string, real>, default_: real, user: string): real {
    if user in quotas then quotas[user] else default_
  }

  datatype Quota = Quota(allowed: bool, reason: string, used: real, limit: real)

  /** What the quota check answers. A failing read of the rollup counts as nothing spent, one of the
      quota as no quota set. */
  function QuotaAnswer(daily: seq<Row<DayUser>>, quotas: map<string, real>, default_: real,
                       user: string, monthStart: int, spendOk: bool, limitOk: bool): Quota
  {
    var used := if spendOk then MonthSpend(daily, user, monthStart) else 0.0;
    var limit := if limitOk then LimitFor(quotas, default_, user) else default_;
    Quota(used < limit, if used < limit then "" else "monthly quota exceeded", used, limit)
  }

  datatype SetOutcome = PermissionDenied | Failed | Done

  // ------------------------------------------------------------------ usage of one task

  datatype Model = Model(provider: string, id: string)

  function OfTask(task: string): Report -> bool {
    (r: Report) => r.task == task
  }

  function OfTaskModel(task: string, m: Model): Report -> bool {
    (r: Report) => r.task == task && Model(r.provider, r.model) == m
  }

  /** The events of `task` grouped by model. */
  function TaskRows(events: seq<Report>, task: string): seq<Row<Model>> {
    if events == [] then []
    else
      var r := events[|events| - 1];
      var rows := TaskRows(events[..|events| - 1], task);
      if r.task == task then Upsert(rows, Model(r.provider, r.model), Measure(r)) else rows
  }

  function All<K>(): K -> bool {
    (k: K) => true
  }

  /** The per-model rows sum to the task's events, each is the sum of its model's events, and a
      model has a row exactly if it has events. */
  lemma {:induction false} TaskRowsSum(events: seq<Report>, task: string, m: Model)
    ensures SumRows(TaskRows(events, task), All()) == SumEvents(events, OfTask(task))
    ensures Lookup(TaskRows(events, task), m) ==
      if exists r :: r in events && OfTaskModel(task, m)(r) then Some(SumEvents(events, OfTaskModel(task, m))) else None
    ensures KeysUnique(TaskRows(events, task))
  {
    hide Plus, Measure, Upsert, Lookup, KeysUnique;
    if events == [] {
      NoRows<Model>(m);
    } else {
      hide SumRows;
      var front, r := events[..|events| - 1], events[|events| - 1];
      TaskRowsSum(front, task, m);
      assert events == front + [r];
      var rows, k := TaskRows(front, task), Model(r.provider, r.model);
      UpsertSums(rows, k, Measure(r), All());
      UpsertLooksUp(rows, k, Measure(r), m);
      UpsertKeys(rows, k, Measure(r));
      NoEventsSumToNothing(front, OfTaskModel(task, m));
      var p := OfTaskModel(task, m);
      assert p(r) <==> r.task == task && k == m;
      assert p(r) ==> exists x :: x in events && p(x);
      assert !p(r) ==> ((exists x :: x in events && p(x)) <==> exists x :: x in front && p(x));
      PlusLaws(SumEvents(front, OfTask(task)), Measure(r), NOTHING);
      PlusLaws(SumEvents(front, OfTaskModel(task, m)), Measure(r), NOTHING);
      PlusLaws(Measure(r), NOTHING, NOTHING);
    }
  }

  lemma {:induction false} NoEventsSumToNothing(events: seq<Report>, p: Report -> bool)
    ensures (forall r :: r in events ==> !p(r)) ==> SumEvents(events, p) == NOTHING
  {
    if events != [] {
      var front := events[..|events| - 1];
      assert events == front + [events[|events| - 1]];
      NoEventsSumToNothing(front, p);
    }
  }

  // ------------------------------------------------------------------ what the sums are sums of

  ghost function SumBy(events: seq<Report>, p: Report -> bool, f: Report -> int): int {
    if events == [] then 0
    else
      var r := events[|events| - 1];
      SumBy(events[..|events| - 1], p, f) + if p(r) then f(r) else 0
  }

  ghost function CostBy(events: seq<Report>, p: Report -> bool): real {
    if events == [] then 0.0
    else
      var r := events[|events| - 1];
      CostBy(events[..|events| - 1], p) + if p(r) then r.cost else 0.0
  }

  function Input(): Report -> int { (r: Report) => r.input }

  function Output(): Report -> int { (r: Report) => r.output }

  function CacheRead(): Report -> int { (r: Report) => r.cacheRead }

  function CacheWrite(): Report -> int { (r: Report) => r.cacheWrite }

  function Tokens(): Report -> int {
    (r: Report) => r.input + r.output + r.cacheRead + r.cacheWrite
  }

  /** Every column of a sum is the sum of that field; the total counts all four kinds of tokens. */
  lemma {:induction false} ColumnsAreSums(events: seq<Report>, p: Report -> bool)
    ensures var a := SumEvents(events, p);
      && a.input == SumBy(events, p, Input()) && a.output == SumBy(events, p, Output())
      && a.cacheRead == SumBy(events, p, CacheRead()) && a.cacheWrite == SumBy(events, p, CacheWrite())
      && a.total == SumBy(events, p, Tokens()) == a.input + a.output + a.cacheRead + a.cacheWrite
      && a.cost == CostBy(events, p)
  {
    if events != [] {
      ColumnsAreSums(events[..|events| - 1], p);
    }
  }

  ghost function CallsBy(calls: seq<Call>, key: DayUser, f: Report -> int): int {
    if calls == [] then 0
    else
      var c := calls[|calls| - 1];
      CallsBy(calls[..|calls| - 1], key, f)
      + if c.writes == Both && c.report.user == key.user && DayOf(c.report.ts, c.now) == key.day then f(c.report) else 0
  }

  ghost function CostOfCalls(calls: seq<Call>, key: DayUser): real {
    if calls == [] then 0.0
    else
      var c := calls[|calls| - 1];
      CostOfCalls(calls[..|calls| - 1], key)
      + if c.writes == Both && c.report.user == key.user && DayOf(c.report.ts, c.now) == key.day then c.report.cost else 0.0
  }

  function One(): Report -> int { (r: Report) => 1 }

  lemma {:induction false} CallColumnsAreSums(calls: seq<Call>, key: DayUser)
    ensures var a := SumCalls(calls, At(key));
      && a.input == CallsBy(calls, key, Input()) && a.output == CallsBy(calls, key, Output())
      && a.total == CallsBy(calls, key, Tokens()) && a.cost == CostOfCalls(calls, key)
      && a.count == CallsBy(calls, key, One())
  {
    hide DayOf;
    if calls != [] {
      CallColumnsAreSums(calls[..|calls| - 1], key);
    }
  }

  /** The columns of a row of the rollup, each the sum over the completed reports of the day. */
  lemma RowColumnsAreSums(calls: seq<Call>, key: DayUser)
    requires Lookup(After(EMPTY, calls).daily, key).Some?
    ensures var a := Lookup(After(EMPTY, calls).daily, key).value;
      && a.input == CallsBy(calls, key, Input()) && a.output == CallsBy(calls, key, Output())
      && a.total == CallsBy(calls, key, Tokens()) && a.cost == CostOfCalls(calls, key)
      && a.count == CallsBy(calls, key, One())
  {
    hide Lookup, After, SumCalls;
    RollupRows(calls, key);
    CallColumnsAreSums(calls, key);
  }

  /** The day of a report is the UTC day of its time, or of its arrival if it has none. */
  lemma DayIsUtc(ts: int, now: int)
    ensures var t, d := if ts == 0 then now else ts, DayOf(ts, now);
      d * 86_400_000 <= t < (d + 1) * 86_400_000
  {
  }

  /** What completed reports cost together that `user` made, dated to `start` or later. */
  ghost function Charged(calls: seq<Call>, user: string, start: int): real {
    if calls == [] then 0.0
    else
      var c := calls[|calls| - 1];
      Charged(calls[..|calls| - 1], user, start)
      + if c.writes == Both && c.report.user == user && DayOf(c.report.ts, c.now) >= start then c.report.cost else 0.0
  }

  /** The quota check compares with what the user was charged this month. */
  lemma SpendIsCharged(calls: seq<Call>, user: string, start: int)
    ensures MonthSpend(After(EMPTY, calls).daily, user, start) == Charged(calls, user, start)
  {
    hide SumRows, SumCalls, After, Charged;
    RollupSums(calls, OfSince(user, start));
    ChargedIsCost(calls, user, start);
  }

  lemma {:induction false} ChargedIsCost(calls: seq<Call>, user: string, start: int)
    ensures Charged(calls, user, start) == SumCalls(calls, RolledUp(OfSince(user, start))).cost
  {
    if calls != [] {
      hide DayOf, SumCalls, Plus, Measure, Charged;
      var front, c, p := calls[..|calls| - 1], calls[|calls| - 1], RolledUp(OfSince(user, start));
      assert calls == front + [c];
      ChargedIsCost(front, user, start);
      SumCallsSnoc(front, c, p);
      CostAdds(SumCalls(front, p), c.report);
      InCharge(c, user, start);
      ChargedSnoc(front, c, user, start);
    }
  }

  lemma InCharge(c: Call, user: string, start: int)
    ensures RolledUp(OfSince(user, start))(c) <==>
      c.writes == Both && c.report.user == user && DayOf(c.report.ts, c.now) >= start
  {
    assert OfSince(user, start)(KeyOf(c)) <==> KeyOf(c).user == user && KeyOf(c).day >= start;
  }

  lemma ChargedSnoc(front: seq<Call>, c: Call, user: string, start: int)
    ensures Charged(front + [c], user, start) == Charged(front, user, start)
      + if c.writes == Both && c.report.user == user && DayOf(c.report.ts, c.now) >= start then c.report.cost else 0.0
  {
    hide DayOf;
    assert (front + [c])[..|front|] == front;
  }

  lemma CostAdds(a: Amount, r: Report)
    ensures Plus(a, Measure(r)).cost == a.cost + r.cost && Plus(a, NOTHING).cost == a.cost
  {
  }

  class UsageServer {
    var events: seq<Report>
    var daily: seq<Row<DayUser>>
    var quotas: map<string, real>
    const defaultMonthly: real

    constructor (defaultMonthly: real)
      ensures View() == EMPTY && quotas == map[] && this.defaultMonthly == defaultMonthly
    {
      events, daily, quotas := [], [], map[];
      this.defaultMonthly := defaultMonthly;
    }

    function View(): Ledger
      reads this
    {
      Ledger(events, daily)
    }

    /** `eventOk` and `dailyOk` say whether the store accepts the first and the second write. */
    method ReportUsage(r: Report, now: int, eventOk: bool, dailyOk: bool) returns (ok: bool)
      modifies this
      ensures ok == (eventOk && dailyOk)
      ensures View() == Record(old(View()), Call(r, now, if !eventOk then Neither else if dailyOk then Both else EventOnly))
      ensures quotas == old(quotas)
    {
      var day := r.ts / DAY_MS;
      if r.ts == 0 {
        day := now / DAY_MS;
      }
      if !eventOk {
        return false;
      }
      events := events + [r];
      var total := r.input + r.output + r.cacheRead + r.cacheWrite;
      if !dailyOk {
        return false;
      }
      daily := Upsert(daily, DayUser(day, r.user), Amount(r.input, r.output, 0, 0, total, r.cost, 1));
      return true;
    }

    method CheckQuota(user: string, monthStart: int, spendOk: bool, limitOk: bool) returns (q: Quota)
      ensures q == QuotaAnswer(daily, quotas, defaultMonthly, user, monthStart, spendOk, limitOk)
      ensures q.used == if spendOk then MonthSpend(daily, user, monthStart) else 0.0
      ensures q.limit == if limitOk then LimitFor(quotas, defaultMonthly, user) else defaultMonthly
      ensures q.allowed <==> q.used < q.limit
      ensures q.reason == "" <==> q.allowed
    {
      var used, limit := 0.0, defaultMonthly;
      if spendOk {
        used := MonthSpend(daily, user, monthStart);
      }
      if limitOk && user in quotas {
        limit := quotas[user];
      }
      q := Quota(used < limit, if used < limit then "" else "monthly quota exceeded", used, limit);
    }

    method SetQuota(admin: bool, user: string, limit: real, ok: bool) returns (res: SetOutcome)
      modifies this`quotas
      ensures res == if !admin then PermissionDenied else if ok then Done else Failed
      ensures res != Done ==> quotas == old(quotas)
      ensures res == Done ==> LimitFor(quotas, defaultMonthly, user) == if limit > 0.0 then limit else defaultMonthly
      ensures forall u :: u != user ==> LimitFor(quotas, defaultMonthly, u) == LimitFor(old(quotas), defaultMonthly, u)
    {
      if !admin {
        return PermissionDenied;
      }
      if !ok {
        return Failed;
      }
      if limit <= 0.0 {
        quotas := quotas - {user};
      } else {
        quotas := quotas[user := limit];
      }
      return Done;
    }

    method GetTaskUsage(task: string) returns (byModel: seq<Row<Model>>, totalTokens: int, cost: real)
      ensures totalTokens == SumEvents(events, OfTask(task)).total
      ensures cost == SumEvents(events, OfTask(task)).cost
      ensures totalTokens == SumBy(events, OfTask(task), Tokens()) && cost == CostBy(events, OfTask(task))
      ensures SumRows(byModel, All()).total == totalTokens && SumRows(byModel, All()).cost == cost
      ensures |byModel| == |TaskRows(events, task)|
      ensures forall i :: 0 <= i < |byModel| ==> byModel[i].amount.count == 1
      ensures forall i :: 0 <= i < |byModel| ==>
        byModel[i].amount == SumEvents(events, OfTaskModel(task, byModel[i].key)).(count := 1)
    {
      ColumnsAreSums(events, OfTask(task));
      var rows := TaskRows(events, task);
      byModel, totalTokens, cost := [], 0, 0.0;
      for i := 0 to |rows|
        invariant |byModel| == i
        invariant forall j :: 0 <= j < i ==> byModel[j] == Row(rows[j].key, rows[j].amount.(count := 1))
        invariant totalTokens == SumRows(rows[..i], All()).total && cost == SumRows(rows[..i], All()).cost
        invariant SumRows(byModel, All()).total == totalTokens && SumRows(byModel, All()).cost == cost
      {
        var m := rows[i];
        SumSnoc(rows[..i], m);
        assert rows[..i + 1] == rows[..i] + [m];
        SumSnoc(byModel, Row(m.key, m.amount.(count := 1)));
        byModel := byModel + [Row(m.key, m.amount.(count := 1))];
        totalTokens := totalTokens + m.amount.total;
        cost := cost + m.amount.cost;
      }
      assert rows[..|rows|] == rows;
      TaskRowsSum(events, task, Model("", ""));
      forall i | 0 <= i < |rows| ensures rows[i].amount == SumEvents(events, OfTaskModel(task, rows[i].key)) {
        TaskRowsSum(events, task, rows[i].key);
        LookupFinds(rows, i);
      }
    }
  }

  lemma {:induction false} SumSnoc<K>(rows: seq<Row<K>>, r: Row<K>)
    ensures SumRows(rows + [r], All()) == Plus(SumRows(rows, All()), r.amount)
  {
    if rows != [] {
      assert (rows + [r])[1..] == rows[1..] + [r];
      SumSnoc(rows[1..], r);
    } else {
      assert rows + [r] == [r];
    }
  }
}
