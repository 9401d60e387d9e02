/**
 The quota gate over whole runs. A turn passes the gate before it starts and is charged while it
 runs, so turns that passed together can spend beyond the limit together.
 */
module QuotaGate {
  import opened Options
  import opened UsageLedger

  /** The gate as the task service sees it; no answer counts as permission. */
  predicate Allowed(answer: Option<Quota>) {
    match answer
    case None => true
    case Some(q) => q.allowed
  }

  /** A turn from its quota check to its last report. */
  datatype Turn = Turn(user: string, reported: real)

  datatype System = System(ledger: Ledger, quotas: map<string, real>, default_: real, monthStart: int, turns: seq<Turn>)

  /** How a quota check goes: whether the usage service answers, and whether its two reads succeed. */
  datatype Check = Check(reached: bool, spendOk: bool, limitOk: bool)

  const SOUND := Check(true, true, true)

  datatype Step =
    | Begin(user: string, check: Check)
    | Charge(turn: nat, call: Call)
    | End(turn: nat)
    | NewMonth(start: int)
    | ChangeLimit(user: string, limit: real)

  function Spend(s: System, user: string): real {
    MonthSpend(s.ledger.daily, user, s.monthStart)
  }

  function Limit(s: System, user: string): real {
    LimitFor(s.quotas, s.default_, user)
  }

  function InFlight(turns: seq<Turn>, user: string): nat {
    if turns == [] then 0
    else InFlight(turns[..|turns| - 1], user) + if turns[|turns| - 1].user == user then 1 else 0
  }

  /** What a user's turns may still report, at most `cap` each in total. */
  function Outstanding(turns: seq<Turn>, user: string, cap: real): real {
    if turns == [] then 0.0
    else
      var t := turns[|turns| - 1];
      Outstanding(turns[..|turns| - 1], user, cap) + if t.user == user then cap - t.reported else 0.0
  }

  function Times(n: nat, cap: real): real {
    n as real * cap
  }

  /** What the gate is told. */
  function Answer(s: System, user: string, c: Check): Option<Quota> {
    if c.reached
    then Some(QuotaAnswer(s.ledger.daily, s.quotas, s.default_, user, s.monthStart, c.spendOk, c.limitOk))
    else None
  }

  lemma SoundAnswer(s: System, user: string)
    ensures Allowed(Answer(s, user, SOUND)) <==> Spend(s, user) < Limit(s, user)
  {
  }

  /** A turn begins if the gate lets it and fewer than `n` turns of its user are in flight; it
      reports for its user, nothing negative, and at most `cap` in all. Reports may fail. */
  predicate Can(s: System, step: Step, cap: real, n: nat) {
    match step
    case Begin(user, check) => Allowed(Answer(s, user, check)) && InFlight(s.turns, user) < n
    case Charge(turn, call) =>
      && turn < |s.turns|
      && call.report.user == s.turns[turn].user
      && call.report.cost >= 0.0
      && s.turns[turn].reported + call.report.cost <= cap
    case End(turn) => turn < |s.turns|
    case NewMonth(start) => s.monthStart <= start
    case ChangeLimit(_, _) => true
  }

  function Do(s: System, step: Step): System {
    match step
    case Begin(user, _) => s.(turns := s.turns + [Turn(user, 0.0)])
    case Charge(turn, call) =>
      if turn >= |s.turns| then s
      else
        var t := s.turns[turn];
        s.(ledger := Record(s.ledger, call), turns := s.turns[turn := t.(reported := t.reported + call.report.cost)])
    case End(turn) =>
      if turn >= |s.turns| then s else s.(turns := s.turns[..turn] + s.turns[turn + 1..])
    case NewMonth(start) => s.(monthStart := start)
    case ChangeLimit(user, limit) =>
      s.(quotas := if limit > 0.0 then s.quotas[user := limit] else s.quotas - {user})
  }

  function Final(s: System, steps: seq<Step>): System {
    if steps == [] then s else Do(Final(s, steps[..|steps| - 1]), steps[|steps| - 1])
  }

  /** A turn of `user` that begins on a check in which something failed. */
  predicate Unchecked(step: Step, user: string) {
    step.Begin? && step.user == user && step.check != SOUND
  }

  function Faults(steps: seq<Step>, user: string): nat {
    if steps == [] then 0
    else Faults(steps[..|steps| - 1], user) + if Unchecked(steps[|steps| - 1], user) then 1 else 0
  }

  ghost predicate Run(s: System, steps: seq<Step>, cap: real, n: nat) {
    forall k :: 0 <= k < |steps| ==> Can(Final(s, steps[..k]), steps[k], cap, n)
  }

  /** No limit of the user in force along the run is above `m`. */
  ghost predicate LimitsWithin(s: System, steps: seq<Step>, user: string, m: real) {
    forall k :: 0 <= k <= |steps| ==> Limit(Final(s, steps[..k]), user) <= m
  }

  ghost predicate CostsAreNonNegative(daily: seq<Row<DayUser>>) {
    forall i :: 0 <= i < |daily| ==> daily[i].amount.cost >= 0.0
  }

  /** What is spent and what may still be reported stays below the bound. */
  ghost predicate Inv(s: System, user: string, m: real, cap: real, n: nat) {
    && CostsAreNonNegative(s.ledger.daily)
    && (forall i :: 0 <= i < |s.turns| ==> 0.0 <= s.turns[i].reported <= cap)
    && Spend(s, user) + Outstanding(s.turns, user, cap) < m + Times(n, cap)
  }

  // ------------------------------------------------------------------ the turns in flight

  lemma OneMore(n: nat, cap: real)
    ensures Times(n + 1, cap) == Times(n, cap) + cap && Times(0, cap) == 0.0
  {
    assert (n + 1) as real == n as real + 1.0;
  }

  lemma {:induction false} OutstandingAtMost(turns: seq<Turn>, user: string, cap: real)
    requires forall i :: 0 <= i < |turns| ==> 0.0 <= turns[i].reported <= cap
    ensures 0.0 <= Outstanding(turns, user, cap) <= Times(InFlight(turns, user), cap)
  {
    hide Times;
    if turns == [] {
      OneMore(0, cap);
    } else {
      var front := turns[..|turns| - 1];
      OutstandingAtMost(front, user, cap);
      OneMore(InFlight(front, user), cap);
    }
  }

  lemma OutstandingSnoc(front: seq<Turn>, t: Turn, user: string, cap: real)
    ensures Outstanding(front + [t], user, cap)
      == Outstanding(front, user, cap) + if t.user == user then cap - t.reported else 0.0
  {
    assert (front + [t])[..|front|] == front;
  }

  lemma {:induction false} OutstandingUpdate(turns: seq<Turn>, i: nat, t: Turn, user: string, cap: real)
    requires i < |turns| && t.user == turns[i].user
    ensures Outstanding(turns[i := t], user, cap)
      == Outstanding(turns, user, cap) - if t.user == user then t.reported - turns[i].reported else 0.0
  {
    hide Outstanding;
    var front, last := turns[..|turns| - 1], turns[|turns| - 1];
    assert turns == front + [last];
    OutstandingSnoc(front, last, user, cap);
    if i == |turns| - 1 {
      assert turns[i := t] == front + [t];
      OutstandingSnoc(front, t, user, cap);
    } else {
      OutstandingUpdate(front, i, t, user, cap);
      assert turns[i := t] == front[i := t] + [last];
      OutstandingSnoc(front[i := t], last, user, cap);
    }
  }

  lemma {:induction false} OutstandingRemove(turns: seq<Turn>, i: nat, user: string, cap: real)
    requires i < |turns|
    ensures Outstanding(turns[..i] + turns[i + 1..], user, cap)
      == Outstanding(turns, user, cap) - if turns[i].user == user then cap - turns[i].reported else 0.0
  {
    hide Outstanding;
    var front, last := turns[..|turns| - 1], turns[|turns| - 1];
    assert turns == front + [last];
    OutstandingSnoc(front, last, user, cap);
    if i == |turns| - 1 {
      assert turns[..i] + turns[i + 1..] == front;
    } else {
      OutstandingRemove(front, i, user, cap);
      var rest := front[..i] + front[i + 1..];
      assert turns[..i] + turns[i + 1..] == rest + [last];
      OutstandingSnoc(rest, last, user, cap);
    }
  }

  // ------------------------------------------------------------------ the ledger along the run

  lemma {:induction false} SpendShrinks(daily: seq<Row<DayUser>>, user: string, a: int, b: int)
    requires CostsAreNonNegative(daily) && a <= b
    ensures MonthSpend(daily, user, a) >= MonthSpend(daily, user, b)
  {
    if daily != [] {
      SpendShrinks(daily[1..], user, a, b);
    }
  }

  lemma {:induction false} UpsertKeepsCosts(daily: seq<Row<DayUser>>, k: DayUser, a: Amount)
    requires CostsAreNonNegative(daily) && a.cost >= 0.0
    ensures CostsAreNonNegative(Upsert(daily, k, a))
  {
    if daily != [] && daily[0].key != k {
      UpsertKeepsCosts(daily[1..], k, a);
    }
  }

  lemma RecordSpends(l: Ledger, call: Call, user: string, monthStart: int)
    requires CostsAreNonNegative(l.daily) && call.report.cost >= 0.0
    ensures CostsAreNonNegative(Record(l, call).daily)
    ensures MonthSpend(Record(l, call).daily, user, monthStart) == MonthSpend(l.daily, user, monthStart)
      + if call.writes == Both && call.report.user == user && KeyOf(call).day >= monthStart then call.report.cost else 0.0
  {
    hide SumRows, Upsert;
    var d := Daily(Measure(call.report));
    UpsertKeepsCosts(l.daily, KeyOf(call), d);
    UpsertSums(l.daily, KeyOf(call), d, OfSince(user, monthStart));
  }

  lemma TurnFits(turns: seq<Turn>, user: string, cap: real, n: nat)
    requires cap >= 0.0 && InFlight(turns, user) < n
    requires forall i :: 0 <= i < |turns| ==> 0.0 <= turns[i].reported <= cap
    ensures Outstanding(turns, user, cap) + cap <= Times(n, cap)
  {
    hide Outstanding, InFlight, Times;
    var k := InFlight(turns, user);
    OutstandingAtMost(turns, user, cap);
    RoomForOne(k, n, cap);
  }

  /** A checked turn fits below the bound of `n` turns, which is no more than the one at hand; an
      unchecked turn raises the bound by one. */
  lemma BeginKeepsInv(s: System, u: string, c: Check, user: string, m: real, cap: real, n: nat, f: nat)
    requires cap >= 0.0 && Can(s, Begin(u, c), cap, n) && Limit(s, user) <= m && Inv(s, user, m, cap, n + f)
    ensures Inv(Do(s, Begin(u, c)), user, m, cap, n + f + if Unchecked(Begin(u, c), user) then 1 else 0)
  {
    hide MonthSpend, Times, Outstanding;
    OutstandingSnoc(s.turns, Turn(u, 0.0), user, cap);
    OneMore(n + f, cap);
    if u == user && c == SOUND {
      SoundAnswer(s, u);
      TurnFits(s.turns, user, cap, n);
      TimesGrow(n, n + f, cap);
    }
  }

  lemma TimesGrow(k: nat, n: nat, cap: real)
    requires k <= n && cap >= 0.0
    ensures Times(k, cap) <= Times(n, cap)
  {
    assert n as real == k as real + (n - k) as real;
    assert (n - k) as real * cap >= 0.0;
  }

  lemma ChargeKeepsInv(s: System, i: nat, call: Call, user: string, m: real, cap: real, n: nat, f: nat)
    requires Can(s, Charge(i, call), cap, n) && Inv(s, user, m, cap, n + f)
    ensures Inv(Do(s, Charge(i, call)), user, m, cap, n + f)
  {
    hide MonthSpend, Record, Outstanding, KeyOf, Times;
    var t := s.turns[i];
    OutstandingUpdate(s.turns, i, t.(reported := t.reported + call.report.cost), user, cap);
    RecordSpends(s.ledger, call, user, s.monthStart);
  }

  lemma EndKeepsInv(s: System, i: nat, user: string, m: real, cap: real, n: nat, f: nat)
    requires Can(s, End(i), cap, n) && Inv(s, user, m, cap, n + f)
    ensures Inv(Do(s, End(i)), user, m, cap, n + f)
  {
    hide MonthSpend, Outstanding, Times;
    OutstandingRemove(s.turns, i, user, cap);
  }

  lemma StepKeepsInv(s: System, step: Step, user: string, m: real, cap: real, n: nat, f: nat)
    requires cap >= 0.0 && Can(s, step, cap, n) && Limit(s, user) <= m && Inv(s, user, m, cap, n + f)
    ensures Inv(Do(s, step), user, m, cap, n + f + if Unchecked(step, user) then 1 else 0)
  {
    match step {
      case Begin(u, c) => BeginKeepsInv(s, u, c, user, m, cap, n, f);
      case Charge(i, call) => ChargeKeepsInv(s, i, call, user, m, cap, n, f);
      case End(i) => EndKeepsInv(s, i, user, m, cap, n, f);
      case NewMonth(start) => SpendShrinks(s.ledger.daily, user, s.monthStart, start);
      case ChangeLimit(_, _) =>
    }
  }

  lemma RoomForOne(k: nat, n: nat, cap: real)
    requires k < n && cap >= 0.0
    ensures Times(k, cap) + cap <= Times(n, cap)
  {
    OneMore(k, cap);
    assert n as real == (k + 1) as real + (n - k - 1) as real;
    assert (n - k - 1) as real * cap >= 0.0;
  }

  /** Bounded overshoot: with at most `n` turns of a user in flight, each reporting at most `cap`,
      and a limit that never exceeds `m`, the user's spend of the month stays below
      m + (n + f) * cap in every run, where f counts the user's turns that began on a check in
      which something failed; whatever the other users do and whichever reports fail. */
  lemma {:induction false} BoundedOvershoot(s: System, steps: seq<Step>, user: string, m: real, cap: real, n: nat)
    requires cap >= 0.0 && Run(s, steps, cap, n) && LimitsWithin(s, steps, user, m)
    requires Inv(s, user, m, cap, n)
    ensures Inv(Final(s, steps), user, m, cap, n + Faults(steps, user))
    ensures Spend(Final(s, steps), user) < m + Times(n + Faults(steps, user), cap)
  {
    hide Do, Can, Spend, Limit, Times, Unchecked;
    if steps != [] {
      var front := steps[..|steps| - 1];
      RunSnoc(s, steps, cap, n);
      LimitsSnoc(s, steps, user, m);
      BoundedOvershoot(s, front, user, m, cap, n);
      LimitsAtEnd(s, front, user, m);
      StepKeepsInv(Final(s, front), steps[|steps| - 1], user, m, cap, n, Faults(front, user));
    }
    OutstandingAtMost(Final(s, steps).turns, user, cap);
  }

  lemma LimitsSnoc(s: System, steps: seq<Step>, user: string, m: real)
    requires steps != []
    ensures LimitsWithin(s, steps, user, m) <==>
      LimitsWithin(s, steps[..|steps| - 1], user, m) && Limit(Final(s, steps), user) <= m
  {
    hide Limit, Final;
    var front := steps[..|steps| - 1];
    assert forall k :: 0 <= k < |steps| ==> front[..k] == steps[..k];
    assert steps[..|steps|] == steps;
  }

  lemma LimitsAtEnd(s: System, steps: seq<Step>, user: string, m: real)
    requires LimitsWithin(s, steps, user, m)
    ensures Limit(Final(s, steps), user) <= m
  {
    hide Limit, Final;
    assert steps[..|steps|] == steps;
  }

  /** An empty ledger with no turn in flight is a place to start from. */
  lemma FreshStart(quotas: map<string, real>, default_: real, monthStart: int,
                   steps: seq<Step>, user: string, m: real, cap: real, n: nat)
    requires var s := System(EMPTY, quotas, default_, monthStart, []);
      cap >= 0.0 && Run(s, steps, cap, n) && LimitsWithin(s, steps, user, m) && 0.0 < m + Times(n, cap)
    ensures Spend(Final(System(EMPTY, quotas, default_, monthStart, []), steps), user)
      < m + Times(n + Faults(steps, user), cap)
  {
    hide Run, LimitsWithin, Final, Times;
    BoundedOvershoot(System(EMPTY, quotas, default_, monthStart, []), steps, user, m, cap, n);
  }

  // ------------------------------------------------------------------ the bound is sharp

  /** A completed report of `cost` by `user` dated to `day`. */
  function Costing(user: string, cost: real, day: int): Call {
    Call(Report("", user, "", "", "", 0, 0, 0, 0, cost, 0), day * DAY_MS, Both)
  }

  /** `n` turns that all pass the gate and then each report `cap`. */
  function Burst(s: System, user: string, cap: real, n: nat): seq<Step> {
    seq(n, i => Begin(user, SOUND)) + seq(n, i requires 0 <= i < n => Charge(|s.turns| + i, Costing(user, cap, s.monthStart)))
  }

  ghost predicate BurstState(f: System, s: System, user: string, cap: real, n: nat, k: nat) {
    && f.monthStart == s.monthStart && f.quotas == s.quotas && f.default_ == s.default_
    && CostsAreNonNegative(f.ledger.daily)
    && |f.turns| == (if k <= n then k else n)
    && (forall i :: 0 <= i < |f.turns| ==> f.turns[i] == Turn(user, if i < k - n then cap else 0.0))
    && Spend(f, user) == Spend(s, user) + Times(if k <= n then 0 else k - n, cap)
  }

  lemma BurstStep(f: System, s: System, user: string, cap: real, n: nat, k: nat)
    requires s.turns == [] && Spend(s, user) < Limit(s, user) && cap >= 0.0 && k < 2 * n
    requires BurstState(f, s, user, cap, n, k)
    ensures Can(f, Burst(s, user, cap, n)[k], cap, n)
    ensures BurstState(Do(f, Burst(s, user, cap, n)[k]), s, user, cap, n, k + 1)
  {
    hide MonthSpend, Record, Times;
    OneMore(0, cap);
    InFlightAtMost(f.turns, user);
    if k >= n {
      var call := Costing(user, cap, s.monthStart);
      RecordSpends(f.ledger, call, user, s.monthStart);
      OneMore(k - n, cap);
    }
  }

  lemma {:induction false} InFlightAtMost(turns: seq<Turn>, user: string)
    ensures InFlight(turns, user) <= |turns|
  {
    if turns != [] {
      InFlightAtMost(turns[..|turns| - 1], user);
    }
  }

  lemma BurstStart(s: System, user: string, cap: real, n: nat)
    requires s.turns == [] && CostsAreNonNegative(s.ledger.daily)
    ensures BurstState(s, s, user, cap, n, 0)
  {
    hide MonthSpend;
    OneMore(0, cap);
  }

  lemma RunSnoc(s: System, steps: seq<Step>, cap: real, n: nat)
    requires steps != []
    ensures var front := steps[..|steps| - 1];
      Run(s, steps, cap, n) <==> Run(s, front, cap, n) && Can(Final(s, front), steps[|steps| - 1], cap, n)
  {
    hide Can, Final;
    assert forall k :: 0 <= k < |steps| ==> steps[..|steps| - 1][..k] == steps[..k];
  }

  lemma {:induction false} BurstRuns(s: System, user: string, cap: real, n: nat, k: nat)
    requires s.turns == [] && CostsAreNonNegative(s.ledger.daily) && Spend(s, user) < Limit(s, user)
    requires cap >= 0.0 && k <= 2 * n
    ensures Run(s, Burst(s, user, cap, n)[..k], cap, n)
    ensures BurstState(Final(s, Burst(s, user, cap, n)[..k]), s, user, cap, n, k)
  {
    hide Do, Can, Spend, Limit, BurstState;
    var burst := Burst(s, user, cap, n);
    if k == 0 {
      BurstStart(s, user, cap, n);
    } else {
      hide Run, Burst;
      BurstRuns(s, user, cap, n, k - 1);
      BurstStep(Final(s, burst[..k - 1]), s, user, cap, n, k - 1);
      RunSnoc(s, burst[..k], cap, n);
      assert burst[..k][..k - 1] == burst[..k - 1];
    }
  }

  lemma BurstKeepsLimit(s: System, user: string, cap: real, n: nat)
    requires s.turns == [] && CostsAreNonNegative(s.ledger.daily) && Spend(s, user) < Limit(s, user) && cap >= 0.0
    ensures LimitsWithin(s, Burst(s, user, cap, n), user, Limit(s, user))
  {
    var steps := Burst(s, user, cap, n);
    assert |steps| == 2 * n;
    hide Burst, Spend, Final, Run, CostsAreNonNegative;
    forall k | 0 <= k <= |steps| ensures Limit(Final(s, steps[..k]), user) == Limit(s, user) {
      BurstRuns(s, user, cap, n, k);
    }
  }

  /** Where an exhausted user stands: `n` turns in flight, `spent` on top of the start. */
  ghost predicate Exhausted(f: System, s: System, user: string, n: nat, spent: real) {
    && f.monthStart == s.monthStart && f.quotas == s.quotas && f.default_ == s.default_
    && CostsAreNonNegative(f.ledger.daily)
    && |f.turns| == n && (forall i :: 0 <= i < n ==> f.turns[i].user == user)
    && Spend(f, user) == Spend(s, user) + spent
  }

  const UNANSWERED := Check(false, false, false)

  /** One turn ends, one begins although the limit is reached, and reports `cap`. */
  function Round(user: string, cap: real, n: nat, day: int): seq<Step>
    requires n > 0
  {
    [End(0), Begin(user, UNANSWERED), Charge(n - 1, Costing(user, cap, day))]
  }

  lemma RoundRuns(f: System, s: System, user: string, cap: real, n: nat, spent: real)
    requires n > 0 && cap >= 0.0 && Exhausted(f, s, user, n, spent)
    ensures var steps := Round(user, cap, n, s.monthStart);
      var f1 := Do(f, steps[0]); var f2 := Do(f1, steps[1]); var f3 := Do(f2, steps[2]);
      && Can(f, steps[0], cap, n) && Can(f1, steps[1], cap, n) && Can(f2, steps[2], cap, n)
      && f1.quotas == f2.quotas == f.quotas && f1.default_ == f2.default_ == f.default_
      && Exhausted(f3, s, user, n, spent + cap)
  {
    hide MonthSpend, Record;
    var steps := Round(user, cap, n, s.monthStart);
    InFlightAtMost(Do(f, steps[0]).turns, user);
    RecordSpends(f.ledger, Costing(user, cap, s.monthStart), user, s.monthStart);
  }

  lemma Extend(s: System, steps: seq<Step>, step: Step, user: string, m: real, cap: real, n: nat)
    requires Run(s, steps, cap, n) && LimitsWithin(s, steps, user, m)
    requires Can(Final(s, steps), step, cap, n) && Limit(Do(Final(s, steps), step), user) <= m
    ensures Run(s, steps + [step], cap, n) && LimitsWithin(s, steps + [step], user, m)
    ensures Final(s, steps + [step]) == Do(Final(s, steps), step)
    ensures Faults(steps + [step], user) == Faults(steps, user) + if Unchecked(step, user) then 1 else 0
  {
    hide Run, LimitsWithin, Can, Do, Limit, Unchecked;
    assert (steps + [step])[..|steps|] == steps;
    RunSnoc(s, steps + [step], cap, n);
    LimitsSnoc(s, steps + [step], user, m);
  }

  lemma {:induction false} SoundHasNoFaults(steps: seq<Step>, user: string)
    requires forall i :: 0 <= i < |steps| ==> !Unchecked(steps[i], user)
    ensures Faults(steps, user) == 0
  {
    hide Unchecked;
    if steps != [] {
      SoundHasNoFaults(steps[..|steps| - 1], user);
    }
  }

  lemma BurstExhausts(s: System, user: string, cap: real, n: nat)
    requires s.turns == [] && CostsAreNonNegative(s.ledger.daily) && Spend(s, user) < Limit(s, user) && cap >= 0.0
    ensures var steps := Burst(s, user, cap, n);
      && Run(s, steps, cap, n) && LimitsWithin(s, steps, user, Limit(s, user)) && Faults(steps, user) == 0
      && Exhausted(Final(s, steps), s, user, n, Times(n, cap))
  {
    var steps := Burst(s, user, cap, n);
    SoundHasNoFaults(steps, user);
    assert |steps| == 2 * n && steps[..2 * n] == steps;
    hide Burst, Spend, Final, Run, CostsAreNonNegative, LimitsWithin, Times, Faults, BurstState, Exhausted;
    BurstKeepsLimit(s, user, cap, n);
    BurstRuns(s, user, cap, n, 2 * n);
    BurstEnds(Final(s, steps), s, user, cap, n);
  }

  lemma BurstEnds(f: System, s: System, user: string, cap: real, n: nat)
    requires BurstState(f, s, user, cap, n, 2 * n)
    ensures Exhausted(f, s, user, n, Times(n, cap))
  {
    hide Spend, Times;
    OneMore(0, cap);
  }

  lemma {:induction false} SharpSteps(s: System, user: string, cap: real, n: nat, f: nat) returns (steps: seq<Step>)
    requires s.turns == [] && CostsAreNonNegative(s.ledger.daily) && Spend(s, user) < Limit(s, user) && cap >= 0.0
    requires f > 0 ==> n > 0
    ensures Run(s, steps, cap, n) && LimitsWithin(s, steps, user, Limit(s, user)) && Faults(steps, user) == f
    ensures Exhausted(Final(s, steps), s, user, n, Times(n + f, cap))
    decreases f
  {
    hide Run, LimitsWithin, Faults, Final, Spend, Times, CostsAreNonNegative, Exhausted, Limit, Burst;
    if f == 0 {
      steps := Burst(s, user, cap, n);
      BurstExhausts(s, user, cap, n);
    } else {
      steps := SharpSteps(s, user, cap, n, f - 1);
      OneMore(n + f - 1, cap);
      steps := AnotherRound(s, steps, user, cap, n, Times(n + f - 1, cap));
    }
  }

  lemma AnotherRound(s: System, steps: seq<Step>, user: string, cap: real, n: nat, spent: real)
    returns (more: seq<Step>)
    requires n > 0 && cap >= 0.0 && Run(s, steps, cap, n) && LimitsWithin(s, steps, user, Limit(s, user))
    requires Exhausted(Final(s, steps), s, user, n, spent)
    ensures Run(s, more, cap, n) && LimitsWithin(s, more, user, Limit(s, user))
    ensures Faults(more, user) == Faults(steps, user) + 1 && Exhausted(Final(s, more), s, user, n, spent + cap)
  {
    var round := Round(user, cap, n, s.monthStart);
    var m := Limit(s, user);
    RoundRuns(Final(s, steps), s, user, cap, n, spent);
    assert round == [End(0), Begin(user, UNANSWERED), Charge(n - 1, Costing(user, cap, s.monthStart))];
    hide Run, LimitsWithin, Can, Do, Final, Faults, Spend, Round, Costing;
    Extend(s, steps, round[0], user, m, cap, n);
    Extend(s, steps + [round[0]], round[1], user, m, cap, n);
    Extend(s, steps + [round[0]] + [round[1]], round[2], user, m, cap, n);
    more := steps + [round[0]] + [round[1]] + [round[2]];
  }

  /** No smaller bound holds: whatever a user below the limit has spent, `n` turns at a time and `f`
      checks that fail can add (n + f) * cap. */
  lemma OvershootIsSharp(s: System, user: string, cap: real, n: nat, f: nat)
    requires s.turns == [] && CostsAreNonNegative(s.ledger.daily) && Spend(s, user) < Limit(s, user) && cap >= 0.0
    requires f > 0 ==> n > 0
    ensures exists steps ::
      && Run(s, steps, cap, n)
      && LimitsWithin(s, steps, user, Limit(s, user))
      && Faults(steps, user) == f
      && Spend(Final(s, steps), user) == Spend(s, user) + Times(n + f, cap)
  {
    hide Run, LimitsWithin, Faults, Final, Spend, Times, CostsAreNonNegative;
    var steps := SharpSteps(s, user, cap, n, f);
  }
}
