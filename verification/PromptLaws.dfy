/**
 What requests do to a task, said about its row, lock and log: which prompts are refused and why,
 what every step appends to the log, and what it leaves of the row.
 */
module PromptLaws {
  import opened Options
  import opened Events
  import opened Lifecycle
  import opened LockOwners

  /** The task is there and not archived, and the caller may prompt it with a message. */
  ghost predicate MayPrompt(t: Task, p: Prompt) {
    t.row.Some? && p.permitted && t.row.value.status != Archived && p.message != ""
  }

  /** No model override, a concrete one, or the auto router with an answer. */
  ghost predicate ModelKnown(p: Prompt) {
    p.model == Keep || p.model == Concrete || p.model == Auto(true, true)
  }

  ghost predicate ModeKnown(p: Prompt) {
    p.mode == "" || p.mode == "ask" || p.mode == "craft" || p.mode == "plan"
  }

  /** The lock key is there and has not expired. */
  ghost predicate Locked(t: Task, now: int) {
    exists expiry :: t.lock == Some(expiry) && now <= expiry
  }

  /** Each answer is given in exactly one kind of case. */
  ghost predicate AnsweredRightly(t: Task, p: Prompt, now: int, a: Answer) {
    && (a == NotFound <==> t.row == None)
    && (a == Denied <==> t.row.Some? && !p.permitted)
    && (a == FailedPrecondition <==> t.row.Some? && p.permitted && t.row.value.status == Archived)
    && (a == Unimplemented <==> MayPrompt(t, p) && p.model.Auto? && !p.model.configured)
    && (a == QuotaExceeded <==> MayPrompt(t, p) && ModelKnown(p) && !p.quotaOk)
    && (a == Busy <==> MayPrompt(t, p) && ModelKnown(p) && p.quotaOk && ModeKnown(p) && Locked(t, now))
    && (a == Accepted <==> MayPrompt(t, p) && ModelKnown(p) && p.quotaOk && ModeKnown(p) && !Locked(t, now))
    && (a == InvalidArgument <==>
          || (t.row.Some? && p.permitted && t.row.value.status != Archived && p.message == "")
          || (MayPrompt(t, p) && p.model == Auto(true, false))
          || (MayPrompt(t, p) && ModelKnown(p) && p.quotaOk && !ModeKnown(p)))
    && a != Unavailable
  }

  /** What is left of the task: nothing changes before the checks of caller, task, message and model
      are passed; after them the routing decision is logged and a model override touches the row;
      the mode changes once quota and mode are in order; and only acceptance sets the lock, for
      fifteen minutes. */
  ghost predicate LeftRightly(t: Task, p: Prompt, now: int, t': Task) {
    if !(MayPrompt(t, p) && ModelKnown(p)) then t' == t
    else
      && t'.row.Some?
      && t'.row.value.title == t.row.value.title && t'.row.value.status == t.row.value.status
      && t'.row.value.mode == (if p.quotaOk && ModeKnown(p) && p.mode != "" then p.mode else t.row.value.mode)
      && t'.row.value.updatedAt ==
           (if p.model != Keep || t'.row.value.mode != t.row.value.mode then now else t.row.value.updatedAt)
      && t'.lock == (if p.quotaOk && ModeKnown(p) && !Locked(t, now) then Some(now + 15 * 60 * 1000) else t.lock)
      && (if p.model.Auto? then Appends(t, t', [("auto_route", Opaque(""))], now) else t'.pipe == t.pipe)
  }

  /** The log grew by these events, numbered on from the counter, and nothing else. */
  ghost predicate Appends(t: Task, t': Task, frames: seq<(string, Payload)>, now: int) {
    && t'.pipe.counter == t.pipe.counter + |frames|
    && |t'.pipe.log| == |t.pipe.log| + |frames| && t.pipe.log <= t'.pipe.log
    && forall i :: 0 <= i < |frames| ==>
      t'.pipe.log[|t.pipe.log| + i] == Event(t.pipe.counter + i + 1, frames[i].0, frames[i].1, now)
  }

  lemma PromptsAreAnswered(t: Task, p: Prompt, now: int)
    ensures var (t', a) := BeginPrompt(t, p, now); AnsweredRightly(t, p, now, a) && LeftRightly(t, p, now, t')
  {
    assert LockHeld(t, now) <==> Locked(t, now);
  }

  // ------------------------------------------------------------------ over runs

  /** No lock is ever acquired for a task that is archived, or gone. */
  lemma AcquisitionsNeedAnOpenTask(h: History, m: nat)
    requires Run(h) && AcquiresAt(h, m)
    ensures h.worlds[m].task.row.Some? && h.worlds[m].task.row.value.status != Archived
    ensures !Locked(h.worlds[m].task, h.times[m])
  {
    PromptsAreAnswered(h.worlds[m].task, h.acts[m].prompt, h.times[m]);
  }

  /** So from the moment a task is archived no turn begins on it any more. */
  lemma ArchivedTaskTakesNoPrompt(h: History, i: nat, j: nat)
    requires Run(h) && i <= j < |h.acts|
    requires h.worlds[i].task.row.Some? && h.worlds[i].task.row.value.status == Archived
    ensures !AcquiresAt(h, j)
  {
    ArchivedIsFinal(h, i, j);
    if AcquiresAt(h, j) {
      AcquisitionsNeedAnOpenTask(h, j);
    }
  }

  // ------------------------------------------------------------------ what each step logs and leaves

  /** The frames a step appends. */
  ghost function Frames(w: World, act: Act, timeout: int, now: int): seq<(string, Payload)> {
    var there := w.task.row.Some?;
    match act
    case Create(_, _) => []
    case Begin(_, p) => if MayPrompt(w.task, p) && p.model == Auto(true, true) then [("auto_route", Opaque(""))] else []
    case End(_, _, _, accepted) => if accepted then [("task_status", Opaque("running"))] else []
    case FirstPromptFailed => [("error", Opaque("first prompt failed"))]
    case Emit(kind, payload) =>
      if kind == "agent_settled" || kind == "error" then [(kind, payload), ("task_status", Opaque("idle"))]
      else [(kind, payload)]
    case AbortTask(permitted) => if there && permitted then [("task_status", Opaque("aborted"))] else []
    case Update(_, _) => []
    case DeleteTask => []
    case Tick => if Silent(w.task, timeout, now) then [("error", Opaque("timeout"))] else []
  }

  /** Running, and longer than the timeout without activity: the time of the last event while its
      marker lives, seven days, and the last change of the row after that. */
  ghost predicate Silent(t: Task, timeout: int, now: int) {
    && t.row.Some? && t.row.value.status == Running
    && match t.pipe.marker
       case Some(at) =>
         if now - at <= 7 * 24 * 60 * 60 * 1000 then now - at > timeout else now - t.row.value.updatedAt > timeout
       case None => now - t.row.value.updatedAt > timeout
  }

  /** Every step but deletion only appends its frames; deletion empties log and counter if there
      was a task. */
  lemma StepsLogTheirFrames(w: World, act: Act, timeout: int, now: int)
    requires Enabled(w, act)
    ensures var w' := Do(w, act, timeout, now);
      if act.DeleteTask? then
        (if w.task.row.Some? then w'.task.pipe.log == [] && w'.task.pipe.counter == 0 else w'.task.pipe == w.task.pipe)
      else Appends(w.task, w'.task, Frames(w, act, timeout, now), now)
  {
    if act.Begin? {
      PromptsAreAnswered(w.task, act.prompt, now);
      hide BeginPrompt;
    }
  }

  /** What a step makes of the status of a row that stays: only the listed steps change it, and none
      of them that of an archived row. */
  ghost predicate StatusAfter(w: World, act: Act, timeout: int, now: int, s': Status)
    requires w.task.row.Some?
  {
    var s := w.task.row.value.status;
    if s == Archived then s' == Archived
    else match act
      case End(_, _, _, accepted) => s' == if accepted then Running else s
      case FirstPromptFailed => s' == Idle
      case Emit(kind, _) =>
        s' == (if kind == "agent_start" then Running else if kind == "agent_settled" || kind == "error" then Idle else s)
      case Update(_, archive) => s' == if archive then Archived else s
      case Tick => s' == if Silent(w.task, timeout, now) then Failed else s
      case _ => s' == s
  }

  /** The title is given by the first accepted message, cut at 80, or by a request on an open task. */
  ghost predicate TitleAfter(r: Row, act: Act, title': string) {
    match act
    case End(_, message, _, accepted) =>
      title' == if accepted && r.title == "" then (if |message| > 80 then message[..80] else message) else r.title
    case Update(title, _) => title' == if title != "" && r.status != Archived then title else r.title
    case _ => title' == r.title
  }

  lemma StepsLeaveTheRow(w: World, act: Act, timeout: int, now: int)
    requires Enabled(w, act) && (w.task.row.Some? ==> w.created)
    ensures var r, r' := w.task.row, Do(w, act, timeout, now).task.row;
      match act
      case Create(title, mode) => r' == Some(Row(Pending, title, mode, now))
      case DeleteTask => r' == None
      case _ =>
        && (r' == None <==> r == None)
        && (r.Some? ==> StatusAfter(w, act, timeout, now, r'.value.status) && TitleAfter(r.value, act, r'.value.title))
        && (r.Some? && !act.Begin? ==> r'.value.mode == r.value.mode)
  {
    if act.Begin? {
      PromptsAreAnswered(w.task, act.prompt, now);
      hide BeginPrompt;
    }
  }

  /** The steps that renew the time of the last change of a row. */
  ghost predicate Renews(w: World, act: Act, timeout: int, now: int)
    requires w.task.row.Some?
  {
    var r, open := w.task.row.value, w.task.row.value.status != Archived;
    match act
    case End(_, _, touched, accepted) => touched || (accepted && (open || r.title == ""))
    case FirstPromptFailed => open
    case Emit(kind, _) => open && (kind == "agent_start" || kind == "agent_settled" || kind == "error")
    case Update(_, archive) => open || archive
    case Tick => Silent(w.task, timeout, now)
    case _ => false
  }

  lemma StepsRenewTheRow(w: World, act: Act, timeout: int, now: int)
    requires Enabled(w, act) && w.created && w.task.row.Some? && !act.Begin? && !act.DeleteTask?
    ensures var r' := Do(w, act, timeout, now).task.row;
      r'.Some? && r'.value.updatedAt == if Renews(w, act, timeout, now) then now else w.task.row.value.updatedAt
  {
  }

  /** The other requests are answered by whether there is a task, whose it is and whether it is
      archived. */
  lemma RequestsAreAnswered(t: Task, permitted: bool, title: string, archive: bool, now: int)
    ensures var a := UpdateMeta(t.row, title, archive, now).1;
      a == Accepted <==> t.row.Some? && (t.row.value.status != Archived || archive)
    ensures UpdateMeta(t.row, title, archive, now).1 in {Accepted, NotFound}
    ensures Abort(t, permitted, now).1 == if t.row.None? then NotFound else if permitted then Accepted else Denied
    ensures Abort(t, permitted, now).1 == Accepted <==> Abort(t, permitted, now).0 != t
    ensures Delete(t).1 == if t.row.None? then NotFound else Accepted
  {
  }
}
