/**
 The life of one task over time: its status row, its session lock with a time to live, its
 event log and activity marker, prompts, runtime events, aborts and the turn watchdog.

 `Do` is one step at a point in time; a run is any sequence of steps at non-decreasing
 times. A prompt takes two steps, because the runtime call sits between taking the lock and
 setting the status and anything may happen meanwhile. All times are in milliseconds.
 */
module Lifecycle {
  import opened Options
  import opened Events

  const LOCK_TTL := 15 * 60 * 1000
  const EVENT_TTL := 7 * 24 * 60 * 60 * 1000
  const WATCHDOG_TICK := 60 * 1000

  datatype Status = Pending | Running | Idle | Failed | Archived

  datatype Row = Row(status: Status, title: string, mode: string, updatedAt: int)

  /** `lock` holds the expiry of the session lock key. The activity marker is in `pipe`. */
  datatype Task = Task(row: Option<Row>, lock: Option<int>, pipe: TaskPipe)

  const Fresh := Task(None, None, EmptyPipe)

  /** The per-turn model override: none, a concrete model, or the auto router with its answer. */
  datatype Override = Keep | Concrete | Auto(configured: bool, resolved: bool)

  datatype Prompt = Prompt(permitted: bool, message: string, model: Override, mode: string, quotaOk: bool)

  datatype Answer =
    | Accepted | NotFound | Denied | FailedPrecondition | InvalidArgument | Unimplemented | QuotaExceeded | Busy | Unavailable

  // ------------------------------------------------------------------ the status row

  function SetStatus(row: Option<Row>, status: Status, now: int): Option<Row> {
    if row.Some? && !row.value.status.Archived? then Some(row.value.(status := status, updatedAt := now)) else row
  }

  function Touch(row: Option<Row>, now: int): Option<Row> {
    if row.Some? then Some(row.value.(updatedAt := now)) else row
  }

  function SetMode(row: Option<Row>, mode: string, now: int): Option<Row> {
    if row.Some? then Some(row.value.(mode := mode, updatedAt := now)) else row
  }

  function SetTitleIfEmpty(row: Option<Row>, title: string, now: int): Option<Row> {
    if row.Some? && row.value.title == ""
    then Some(row.value.(title := if |title| > 80 then title[..80] else title, updatedAt := now))
    else row
  }

  /** A rename or an archive request; a row already archived only accepts being archived again. */
  function UpdateMeta(row: Option<Row>, title: string, archive: bool, now: int): (Option<Row>, Answer) {
    if row.None? then (row, NotFound)
    else if row.value.status.Archived? then
      if archive then (Some(row.value.(updatedAt := now)), Accepted) else (row, NotFound)
    else
      (Some(row.value.(title := if title != "" then title else row.value.title,
                       status := if archive then Archived else row.value.status,
                       updatedAt := now)), Accepted)
  }

  // ------------------------------------------------------------------ keys with a time to live

  /** A key set to expire at `expiry` is still there at that instant and gone after it. */
  predicate LockHeld(t: Task, now: int) {
    t.lock.Some? && now <= t.lock.value
  }

  function Activity(t: Task, now: int): int
    requires t.row.Some?
  {
    if t.pipe.marker.Some? && now <= t.pipe.marker.value + EVENT_TTL then t.pipe.marker.value else t.row.value.updatedAt
  }

  // ------------------------------------------------------------------ steps

  function Synth(t: Task, kind: string, payload: Payload, now: int): Task {
    t.(pipe := Ingested(t.pipe, kind, payload, now))
  }

  const StatusIdle := Opaque("idle")
  const StatusRunning := Opaque("running")
  const StatusAborted := Opaque("aborted")

  /** A prompt up to and including the session lock. The model override and the mode are
      recorded before the lock is tried, so they stay even when the prompt is refused later. */
  function BeginPrompt(t: Task, p: Prompt, now: int): (Task, Answer) {
    if t.row.None? then (t, NotFound)
    else if !p.permitted then (t, Denied)
    else if t.row.value.status.Archived? then (t, FailedPrecondition)
    else if p.message == "" then (t, InvalidArgument)
    else if p.model.Auto? && !p.model.configured then (t, Unimplemented)
    else if p.model.Auto? && !p.model.resolved then (t, InvalidArgument)
    else
      var routed := if p.model.Auto? then Synth(t, "auto_route", Opaque(""), now) else t;
      var modelled := if p.model.Keep? then routed else routed.(row := Touch(routed.row, now));
      if !p.quotaOk then (modelled, QuotaExceeded)
      else if p.mode !in {"", "ask", "craft", "plan"} then (modelled, InvalidArgument)
      else
        var moded := if p.mode == "" || p.mode == t.row.value.mode then modelled
                     else modelled.(row := SetMode(modelled.row, p.mode, now));
        if LockHeld(moded, now) then (moded, Busy)
        else (moded.(lock := Some(now + LOCK_TTL)), Accepted)
  }

  /** The rest of a prompt that took the lock, once the runtime has answered. */
  function EndPrompt(t: Task, message: string, touched: bool, accepted: bool, now: int): Task {
    var hosted := if touched then t.(row := Touch(t.row, now)) else t;
    if !accepted then hosted.(lock := None)
    else
      var row := SetTitleIfEmpty(SetStatus(hosted.row, Running, now), message, now);
      Synth(hosted.(row := row), "task_status", StatusRunning, now)
  }

  predicate Settles(kind: string) {
    kind == "agent_settled" || kind == "error"
  }

  /** A runtime event: ingested, then its effect on the platform state. */
  function RuntimeEvent(t: Task, kind: string, payload: Payload, now: int): Task {
    var stored := Synth(t, kind, payload, now);
    if kind == "agent_start" then stored.(row := SetStatus(stored.row, Running, now))
    else if Settles(kind) then
      Synth(stored.(row := SetStatus(stored.row, Idle, now), lock := None), "task_status", StatusIdle, now)
    else stored
  }

  function Abort(t: Task, permitted: bool, now: int): (Task, Answer) {
    if t.row.None? then (t, NotFound)
    else if !permitted then (t, Denied)
    else (Synth(t.(lock := None), "task_status", StatusAborted, now), Accepted)
  }

  /** Deleting drops the row, the lock, the log and the counter, but not the activity marker. */
  function Delete(t: Task): (Task, Answer) {
    if t.row.None? then (t, NotFound)
    else (t.(row := None, lock := None, pipe := t.pipe.(log := [], counter := 0)), Accepted)
  }

  predicate Stale(t: Task, timeout: int, now: int) {
    t.row.Some? && t.row.value.status.Running? && Activity(t, now) < now - timeout
  }

  function FailTurn(t: Task, now: int): Task {
    Synth(t.(row := SetStatus(t.row, Failed, now), lock := None), "error", Opaque("timeout"), now)
  }

  function Watchdog(t: Task, timeout: int, now: int): Task {
    if Stale(t, timeout, now) then FailTurn(t, now) else t
  }

  datatype Act =
    | Create(title: string, mode: string)
    | Begin(turn: nat, prompt: Prompt)
    | End(turn: nat, message: string, touched: bool, accepted: bool)
    | FirstPromptFailed
    | Emit(kind: string, payload: Payload)
    | AbortTask(permitted: bool)
    | Update(title: string, archive: bool)
    | DeleteTask
    | Tick

  /** The task, whether it was ever created, and the prompts that took the lock and have not
      ended, each with the time it took it. */
  datatype World = World(task: Task, created: bool, turns: map<nat, int>)

  const Start := World(Fresh, false, map[])

  predicate Enabled(w: World, act: Act) {
    match act
    case Create(_, _) => !w.created
    case Begin(id, _) => id !in w.turns
    case End(id, _, _, _) => id in w.turns
    case _ => true
  }

  function Do(w: World, act: Act, timeout: int, now: int): World {
    match act
    case Create(title, mode) => World(w.task.(row := Some(Row(Pending, title, mode, now))), true, w.turns)
    case Begin(id, p) =>
      var (t, a) := BeginPrompt(w.task, p, now);
      w.(task := t, turns := if a.Accepted? then w.turns[id := now] else w.turns)
    case End(id, message, touched, accepted) =>
      w.(task := EndPrompt(w.task, message, touched, accepted, now), turns := w.turns - {id})
    case FirstPromptFailed =>
      var t := Synth(w.task, "error", Opaque("first prompt failed"), now);
      w.(task := t.(row := SetStatus(t.row, Idle, now)))
    case Emit(kind, payload) => w.(task := RuntimeEvent(w.task, kind, payload, now))
    case AbortTask(permitted) => w.(task := Abort(w.task, permitted, now).0)
    case Update(title, archive) => w.(task := w.task.(row := UpdateMeta(w.task.row, title, archive, now).0))
    case DeleteTask => w.(task := Delete(w.task).0)
    case Tick => w.(task := Watchdog(w.task, timeout, now))
  }

  /** A run: `worlds[i]` is the world before `acts[i]`, which happens at `times[i]`. */
  datatype History = History(worlds: seq<World>, acts: seq<Act>, times: seq<int>, timeout: int)

  ghost predicate Link(h: History, i: int)
    requires |h.worlds| == |h.acts| + 1 && |h.times| == |h.acts| && 0 <= i < |h.acts|
  {
    Enabled(h.worlds[i], h.acts[i]) && h.worlds[i + 1] == Do(h.worlds[i], h.acts[i], h.timeout, h.times[i])
  }

  ghost predicate Run(h: History) {
    && |h.worlds| == |h.acts| + 1 && |h.times| == |h.acts|
    && h.worlds[0] == Start
    && (forall i, j :: 0 <= i <= j < |h.times| ==> h.times[i] <= h.times[j])
    && forall i :: 0 <= i < |h.acts| ==> Link(h, i)
  }

  // ------------------------------------------------------------------ archived is final

  lemma ArchivedStep(w: World, act: Act, timeout: int, now: int)
    requires Enabled(w, act) && (w.task.row.Some? ==> w.created)
    ensures var w' := Do(w, act, timeout, now);
      && (w'.task.row.Some? ==> w'.created)
      && (w.created ==> w'.created && (w.task.row.None? ==> w'.task.row.None?))
      && (w.task.row.Some? && w.task.row.value.status.Archived? ==> w'.task.row.None? || w'.task.row.value.status.Archived?)
  {
  }

  lemma {:induction false} RowsAreCreated(h: History, i: nat)
    requires Run(h) && i <= |h.acts|
    ensures h.worlds[i].task.row.Some? ==> h.worlds[i].created
  {
    if i > 0 {
      RowsAreCreated(h, i - 1);
      assert Link(h, i - 1);
      ArchivedStep(h.worlds[i - 1], h.acts[i - 1], h.timeout, h.times[i - 1]);
    }
  }

  /** No run ever leaves `archived`: whatever happens, the row stays archived until it is deleted,
      and it does not come back. */
  lemma {:induction false} ArchivedIsFinal(h: History, i: nat, j: nat)
    requires Run(h) && i <= j <= |h.acts|
    requires h.worlds[i].task.row.Some? && h.worlds[i].task.row.value.status.Archived?
    ensures h.worlds[j].created
    ensures h.worlds[j].task.row.None? || h.worlds[j].task.row.value.status.Archived?
    decreases j
  {
    RowsAreCreated(h, i);
    if i < j {
      ArchivedIsFinal(h, i, j - 1);
      assert Link(h, j - 1);
      ArchivedStep(h.worlds[j - 1], h.acts[j - 1], h.timeout, h.times[j - 1]);
    }
  }

  // ------------------------------------------------------------------ lock discipline

  predicate Acquires(w: World, act: Act, now: int) {
    act.Begin? && BeginPrompt(w.task, act.prompt, now).1.Accepted?
  }

  /** The explicit releases: failed prompt, settled or error event, abort, watchdog, delete. */
  predicate Releases(w: World, act: Act, timeout: int, now: int) {
    match act
    case End(_, _, _, accepted) => !accepted
    case Emit(kind, _) => Settles(kind)
    case AbortTask(permitted) => w.task.row.Some? && permitted
    case DeleteTask => w.task.row.Some?
    case Tick => Stale(w.task, timeout, now)
    case _ => false
  }

  /** Only the listed releases remove the lock, and only a successful begin sets it. */
  lemma LockStep(w: World, act: Act, timeout: int, now: int)
    requires Enabled(w, act)
    ensures var w' := Do(w, act, timeout, now);
      && w'.task.lock == (if Releases(w, act, timeout, now) then None
                          else if Acquires(w, act, now) then Some(now + LOCK_TTL)
                          else w.task.lock)
      && (Acquires(w, act, now) ==> !LockHeld(w.task, now))
  {
  }

  lemma {:induction false} LockKept(h: History, i: nat, k: nat)
    requires Run(h) && i < k <= |h.acts| && Acquires(h.worlds[i], h.acts[i], h.times[i])
    requires forall m :: i < m < k ==> !Releases(h.worlds[m], h.acts[m], h.timeout, h.times[m])
    ensures h.worlds[k].task.lock.Some? && h.worlds[k].task.lock.value >= h.times[i] + LOCK_TTL
    decreases k
  {
    assert Link(h, k - 1);
    LockStep(h.worlds[k - 1], h.acts[k - 1], h.timeout, h.times[k - 1]);
    if i < k - 1 {
      LockKept(h, i, k - 1);
      assert !Releases(h.worlds[k - 1], h.acts[k - 1], h.timeout, h.times[k - 1]);
    }
  }

  /** Lock discipline over every run: between two successful acquisitions of the session lock
      there is an explicit release, or more than the lock's time to live has passed. */
  lemma LockDiscipline(h: History, i: nat, j: nat)
    requires Run(h) && i < j < |h.acts|
    requires Acquires(h.worlds[i], h.acts[i], h.times[i]) && Acquires(h.worlds[j], h.acts[j], h.times[j])
    ensures
      || (exists m :: i < m < j && Releases(h.worlds[m], h.acts[m], h.timeout, h.times[m]))
      || h.times[j] - h.times[i] > 15 * 60 * 1000
  {
    if forall m :: i < m < j ==> !Releases(h.worlds[m], h.acts[m], h.timeout, h.times[m]) {
      LockKept(h, i, j);
      assert Link(h, j);
      LockStep(h.worlds[j], h.acts[j], h.timeout, h.times[j]);
    }
  }

  // ------------------------------------------------------------------ the watchdog

  /** The step ingested an event for the task. */
  predicate Ingests(w: World, act: Act, timeout: int, now: int) {
    match act
    case Create(_, _) => false
    case Begin(_, p) => p.model == Auto(true, true) && BeginPrompt(w.task, p, now).1 in {Accepted, Busy, QuotaExceeded, InvalidArgument}
                        && w.task.row.Some? && p.permitted && p.message != ""
    case End(_, _, _, accepted) => accepted
    case FirstPromptFailed => true
    case Emit(_, _) => true
    case AbortTask(permitted) => w.task.row.Some? && permitted
    case Update(_, _) => false
    case DeleteTask => false
    case Tick => Stale(w.task, timeout, now)
  }

  ghost predicate MarkerOk(t: Task) {
    t.row.Some? && t.row.value.status.Running? ==> t.pipe.marker.Some?
  }

  /** The marker is the time of the last ingest, and a step that makes the task run ingests. */
  lemma MarkerStep(w: World, act: Act, timeout: int, now: int)
    requires Enabled(w, act) && MarkerOk(w.task)
    ensures var w' := Do(w, act, timeout, now);
      && MarkerOk(w'.task)
      && w'.task.pipe.marker == (if Ingests(w, act, timeout, now) then Some(now) else w.task.pipe.marker)
      && (!Ingests(w, act, timeout, now) && !act.DeleteTask? ==> w'.task.pipe == w.task.pipe)
  {
  }

  /** A marker is never older than any ingest before it, nor than the start of the run. */
  lemma {:induction false} MarkerFresh(h: History, k: nat)
    requires Run(h) && k <= |h.acts|
    ensures MarkerOk(h.worlds[k].task)
    ensures forall i :: 0 <= i < k && Ingests(h.worlds[i], h.acts[i], h.timeout, h.times[i]) ==>
      h.worlds[k].task.pipe.marker.Some? && h.worlds[k].task.pipe.marker.value >= h.times[i]
    ensures h.worlds[k].task.pipe.marker.Some? ==> k > 0 && h.times[0] <= h.worlds[k].task.pipe.marker.value <= h.times[k - 1]
  {
    if k > 0 {
      MarkerFresh(h, k - 1);
      assert Link(h, k - 1);
      MarkerStep(h.worlds[k - 1], h.acts[k - 1], h.timeout, h.times[k - 1]);
    }
  }

  ghost predicate FailsTurn(h: History, k: int)
    requires |h.worlds| == |h.acts| + 1 && |h.times| == |h.acts| && 0 <= k < |h.acts|
  {
    h.acts[k].Tick? && Stale(h.worlds[k].task, h.timeout, h.times[k])
  }

  /** Whenever the watchdog fails the task, every event ingested before lies more than the timeout back. */
  ghost predicate Precise(h: History)
    requires |h.worlds| == |h.acts| + 1 && |h.times| == |h.acts|
  {
    forall i, k :: 0 <= i < k < |h.acts| && FailsTurn(h, k) && Ingests(h.worlds[i], h.acts[i], h.timeout, h.times[i]) ==>
      h.times[k] - h.times[i] > h.timeout
  }

  /** Precision over every run, for every timeout up to the life of the activity marker. */
  lemma WatchdogPrecision(h: History)
    requires Run(h) && h.timeout <= 7 * 24 * 60 * 60 * 1000
    ensures Precise(h)
  {
    forall i, k | 0 <= i < k < |h.acts| && FailsTurn(h, k) && Ingests(h.worlds[i], h.acts[i], h.timeout, h.times[i])
      ensures h.times[k] - h.times[i] > h.timeout
    {
      MarkerFresh(h, k);
    }
  }

  /** The bound is exact: with any longer timeout there is a run in which a turn fails although
      an event was ingested no longer than the timeout ago, because its marker is gone and the
      row was last touched before it. */
  lemma WatchdogImprecision(timeout: int) returns (h: History)
    requires timeout > EVENT_TTL
    ensures Run(h) && h.timeout == timeout && !Precise(h)
  {
    var w0 := Start;
    var acts := [Create("t", "craft"), Emit("agent_start", Opaque("")), Emit("note", Opaque("")), Tick];
    var times := [0, 0, 1, timeout + 1];
    var w1 := Do(w0, acts[0], timeout, times[0]);
    var w2 := Do(w1, acts[1], timeout, times[1]);
    var w3 := Do(w2, acts[2], timeout, times[2]);
    var w4 := Do(w3, acts[3], timeout, times[3]);
    h := History([w0, w1, w2, w3, w4], acts, times, timeout);
    assert FailsTurn(h, 3) && Ingests(h.worlds[2], h.acts[2], timeout, 1);
  }

  /** The watchdog ticks at least once a minute. */
  ghost predicate Timely(h: History)
    requires |h.worlds| == |h.acts| + 1 && |h.times| == |h.acts|
  {
    forall k :: 0 <= k < |h.acts| ==>
      || h.times[k] <= h.times[0] + WATCHDOG_TICK
      || exists j :: 0 <= j < k && h.acts[j].Tick? && h.times[j] >= h.times[k] - WATCHDOG_TICK
  }

  /** Latency over every timely run: as long as the marker outlives the timeout and one tick, no
      task is found running that has been silent for longer than the timeout plus one tick. */
  lemma {:induction false} WatchdogLatency(h: History, k: nat)
    requires Run(h) && Timely(h) && 0 <= h.timeout && h.timeout + 60 * 1000 <= 7 * 24 * 60 * 60 * 1000 && k < |h.acts|
    ensures var t := h.worlds[k].task; t.row.Some? && t.row.value.status.Running? ==>
      t.pipe.marker.Some? && h.times[k] - t.pipe.marker.value <= h.timeout + 60 * 1000
    decreases k
  {
    var t := h.worlds[k].task;
    MarkerFresh(h, k);
    if t.row.Some? && t.row.value.status.Running? && h.times[k] > h.times[0] + WATCHDOG_TICK {
      var j :| 0 <= j < k && h.acts[j].Tick? && h.times[j] >= h.times[k] - WATCHDOG_TICK;
      WatchdogLatency(h, j);
      SurvivorsAreFresh(h, j, k);
    }
  }

  /** Whatever runs after a tick was active within the timeout before it. */
  lemma {:induction false} SurvivorsAreFresh(h: History, j: nat, k: nat)
    requires Run(h) && j < k <= |h.acts| && h.acts[j].Tick? && h.timeout >= 0
    requires var t := h.worlds[j].task; t.row.Some? && t.row.value.status.Running? ==>
      t.pipe.marker.Some? && h.times[j] - t.pipe.marker.value <= EVENT_TTL
    ensures var t := h.worlds[k].task; t.row.Some? && t.row.value.status.Running? ==>
      t.pipe.marker.Some? && t.pipe.marker.value >= h.times[j] - h.timeout
    decreases k
  {
    assert Link(h, k - 1);
    MarkerFresh(h, k - 1);
    MarkerStep(h.worlds[k - 1], h.acts[k - 1], h.timeout, h.times[k - 1]);
    BecomingRunningIngests(h.worlds[k - 1], h.acts[k - 1], h.timeout, h.times[k - 1]);
    if j < k - 1 {
      SurvivorsAreFresh(h, j, k - 1);
    }
  }

  lemma BecomingRunningIngests(w: World, act: Act, timeout: int, now: int)
    requires Enabled(w, act)
    ensures var t := Do(w, act, timeout, now).task;
      t.row.Some? && t.row.value.status.Running? && !Ingests(w, act, timeout, now) ==>
        w.task.row.Some? && w.task.row.value.status.Running?
  {
  }

  // ------------------------------------------------------------------ terminal convergence

  /** The log as it is after a settling event, and stays until something else is ingested. */
  lemma {:induction false} QuietKeepsPipe(h: History, i: nat, j: nat)
    requires Run(h) && i <= j <= |h.acts|
    requires forall m :: i <= m < j ==> !Ingests(h.worlds[m], h.acts[m], h.timeout, h.times[m]) && !h.acts[m].DeleteTask?
    ensures h.worlds[j].task.pipe == h.worlds[i].task.pipe
    decreases j
  {
    if i < j {
      QuietKeepsPipe(h, i, j - 1);
      assert Link(h, j - 1);
      MarkerFresh(h, j - 1);
      MarkerStep(h.worlds[j - 1], h.acts[j - 1], h.timeout, h.times[j - 1]);
    }
  }

  /** Replays from before the last event end with it, because truncation keeps the newest suffix. */
  lemma ReplayEndsWithLast(log: seq<Event>, since: int, limit: nat)
    requires log != [] && log[|log| - 1].seqNo > since && limit >= 1
    ensures var out := Replayed(log, since, limit); out != [] && out[|out| - 1] == log[|log| - 1]
  {
  }

  ghost predicate Resting(t: Task) {
    t.row.Some? ==> t.row.value.status in {Idle, Archived}
  }

  /** A step that ingests nothing never takes a task out of rest. */
  lemma RestStep(w: World, act: Act, timeout: int, now: int)
    requires Enabled(w, act) && w.created && Resting(w.task) && !Ingests(w, act, timeout, now)
    ensures Resting(Do(w, act, timeout, now).task) && Do(w, act, timeout, now).created
  {
  }

  lemma {:induction false} QuietKeepsRest(h: History, i: nat, j: nat)
    requires Run(h) && i <= j <= |h.acts| && h.worlds[i].created && Resting(h.worlds[i].task)
    requires forall m :: i <= m < j ==> !Ingests(h.worlds[m], h.acts[m], h.timeout, h.times[m])
    ensures h.worlds[j].created && Resting(h.worlds[j].task)
    decreases j
  {
    if i < j {
      QuietKeepsRest(h, i, j - 1);
      assert Link(h, j - 1);
      RestStep(h.worlds[j - 1], h.acts[j - 1], h.timeout, h.times[j - 1]);
    }
  }

  /** Terminal convergence: once agent_settled or error is handled the lock is free; and until the
      next ingest (or deletion) the task is idle or archived, and every replay from before that
      point, however truncated, ends with the idle frame. */
  lemma TerminalConvergence(h: History, i: nat, j: nat, since: int, limit: nat)
    requires Run(h) && i < j <= |h.acts| && h.acts[i].Emit? && Settles(h.acts[i].kind)
    requires forall m :: i < m < j ==> !Ingests(h.worlds[m], h.acts[m], h.timeout, h.times[m]) && !h.acts[m].DeleteTask?
    requires since <= h.worlds[i].task.pipe.counter + 1 && limit >= 1
    ensures h.worlds[i + 1].task.lock == None && Resting(h.worlds[i + 1].task)
    ensures h.worlds[i].created ==> Resting(h.worlds[j].task)
    ensures var out := Replayed(h.worlds[j].task.pipe.log, since, limit);
      out != [] && out[|out| - 1].kind == "task_status" && out[|out| - 1].payload == Opaque("idle")
  {
    assert Link(h, i);
    QuietKeepsPipe(h, i + 1, j);
    if h.worlds[i].created {
      QuietKeepsRest(h, i + 1, j);
    }
    ReplayEndsWithLast(h.worlds[j].task.pipe.log, since, limit);
  }
}
