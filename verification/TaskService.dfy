/**
 The task service over all tasks: the status rows, the session lock keys and the event
 pipeline, updated in place by the request handlers, the runtime's events and the watchdog.
 Each method takes exactly the step of `Lifecycle` for its task and leaves the others alone.
 Calls to a runtime and the quota and routing answers are parameters; event stores succeed.
 */
module TaskServices {
  import opened Options
  import opened Events
  import opened Lifecycle
  import opened Pipelines
  import PromptLaws

  class TaskService {
    var rows: map<TaskId, Row>
    var locks: map<TaskId, int>
    const pipe: Pipeline

    ghost predicate Valid()
      reads this, pipe
    {
      pipe.Valid()
    }

    ghost function View(task: TaskId): Task
      reads this, pipe
    {
      Task(if task in rows then Some(rows[task]) else None,
           if task in locks then Some(locks[task]) else None,
           pipe.View(task))
    }

    constructor ()
      ensures Valid() && fresh(pipe) && forall t :: View(t) == Fresh
    {
      rows, locks := map[], map[];
      pipe := new Pipeline();
    }

    // ---- rows, lock keys, synthetic events ----

    /** Guarded: an archived row keeps its status. */
    method SetRowStatus(task: TaskId, status: Status, now: int)
      requires Valid()
      modifies this`rows
      ensures View(task) == old(View(task)).(row := SetStatus(old(View(task)).row, status, now))
      ensures forall t :: t != task ==> View(t) == old(View(t))
    {
      if task in rows && !rows[task].status.Archived? {
        rows := rows[task := rows[task].(status := status, updatedAt := now)];
      }
    }

    method PutRow(task: TaskId, row: Option<Row>)
      requires Valid() && (row.None? ==> task !in rows)
      modifies this`rows
      ensures View(task) == old(View(task)).(row := row)
      ensures forall t :: t != task ==> View(t) == old(View(t))
    {
      if row.Some? {
        rows := rows[task := row.value];
      }
    }

    /** SET NX with a time to live: succeeds only when no live key is there. */
    method AcquireSessionLock(task: TaskId, ttl: int, now: int) returns (ok: bool)
      requires Valid()
      modifies this`locks
      ensures ok == !LockHeld(old(View(task)), now)
      ensures View(task) == old(View(task)).(lock := if ok then Some(now + ttl) else old(View(task)).lock)
      ensures forall t :: t != task ==> View(t) == old(View(t))
    {
      ok := !(task in locks && now <= locks[task]);
      if ok {
        locks := locks[task := now + ttl];
      }
    }

    method ReleaseSessionLock(task: TaskId)
      requires Valid()
      modifies this`locks
      ensures View(task) == old(View(task)).(lock := None)
      ensures forall t :: t != task ==> View(t) == old(View(t))
    {
      locks := locks - {task};
    }

    method Synthesize(task: TaskId, kind: string, payload: Payload, now: int)
      requires Valid()
      modifies pipe
      ensures Valid()
      ensures View(task) == Synth(old(View(task)), kind, payload, now)
      ensures forall t :: t != task ==> View(t) == old(View(t))
    {
      var _ := pipe.Ingest(task, kind, payload, now, true, Applied);
    }

    // ---- requests ----

    /** The checks and recordings of a prompt up to the session lock. */
    method Admit(task: TaskId, p: Prompt, now: int) returns (a: Answer)
      requires Valid()
      modifies this, pipe
      ensures Valid()
      ensures (View(task), a) == BeginPrompt(old(View(task)), p, now)
      ensures PromptLaws.AnsweredRightly(old(View(task)), p, now, a)
      ensures PromptLaws.LeftRightly(old(View(task)), p, now, View(task))
      ensures forall t :: t != task ==> View(t) == old(View(t))
    {
      hide PromptLaws.AnsweredRightly, PromptLaws.LeftRightly;
      PromptLaws.PromptsAreAnswered(View(task), p, now);
      if task !in rows {
        return NotFound;
      }
      var row := rows[task];
      if !p.permitted {
        return Denied;
      }
      if row.status.Archived? {
        return FailedPrecondition;
      }
      if p.message == "" {
        return InvalidArgument;
      }
      if p.model.Auto? {
        if !p.model.configured {
          return Unimplemented;
        }
        if !p.model.resolved {
          return InvalidArgument;
        }
        Synthesize(task, "auto_route", Opaque(""), now);
      }
      if !p.model.Keep? {
        PutRow(task, Some(rows[task].(updatedAt := now)));
      }
      a := AdmitQuotaModeLock(task, row.mode, p, now);
    }

    method AdmitQuotaModeLock(task: TaskId, mode: string, p: Prompt, now: int) returns (a: Answer)
      requires Valid() && task in rows
      modifies this
      ensures Valid()
      ensures var t := old(View(task));
        var moded := if p.mode == "" || p.mode == mode then t else t.(row := SetMode(t.row, p.mode, now));
        (View(task), a) ==
          if !p.quotaOk then (t, QuotaExceeded)
          else if p.mode !in {"", "ask", "craft", "plan"} then (t, InvalidArgument)
          else if LockHeld(t, now) then (moded, Busy)
          else (moded.(lock := Some(now + LOCK_TTL)), Accepted)
      ensures forall t :: t != task ==> View(t) == old(View(t))
    {
      if !p.quotaOk {
        return QuotaExceeded;
      }
      if p.mode != "" {
        if p.mode != "ask" && p.mode != "craft" && p.mode != "plan" {
          return InvalidArgument;
        }
        if p.mode != mode {
          PutRow(task, Some(rows[task].(mode := p.mode, updatedAt := now)));
        }
      }
      var ok := AcquireSessionLock(task, LOCK_TTL, now);
      a := if ok then Accepted else Busy;
    }

    /** The whole handler; `touched` says whether hosting the session updated the row, `hosted`
        whether there is a session, and `outcome` what the runtime answers to the prompt. */
    method SendPrompt(task: TaskId, p: Prompt, touched: bool, hosted: bool, outcome: Answer, now: int, later: int)
      returns (a: Answer)
      requires Valid()
      modifies this, pipe
      ensures Valid()
      ensures var (begun, admitted) := BeginPrompt(old(View(task)), p, now);
        if admitted.Accepted?
        then View(task) == EndPrompt(begun, p.message, touched, hosted && outcome.Accepted?, later)
             && a == (if hosted && outcome in {Accepted, InvalidArgument} then outcome else Unavailable)
        else View(task) == begun && a == admitted
      ensures a == Accepted <==>
        PromptLaws.AnsweredRightly(old(View(task)), p, now, Accepted) && hosted && outcome == Accepted
      ensures a !in {Accepted, Unavailable} && outcome != InvalidArgument ==>
        PromptLaws.AnsweredRightly(old(View(task)), p, now, a) && PromptLaws.LeftRightly(old(View(task)), p, now, View(task))
      ensures var t := old(View(task));
        t.row.Some? && p.permitted && t.row.value.status == Archived ==> a == FailedPrecondition && View(task) == t
      ensures forall t :: t != task ==> View(t) == old(View(t))
    {
      ghost var t := View(task);
      a := Admit(task, p, now);
      if !a.Accepted? {
        return;
      }
      if touched {
        PutRow(task, Some(rows[task].(updatedAt := later)));
      }
      if !hosted {
        ReleaseSessionLock(task);
        return Unavailable;
      }
      if !outcome.Accepted? {
        ReleaseSessionLock(task);
        return if outcome.InvalidArgument? then outcome else Unavailable;
      }
      SetRowStatus(task, Running, later);
      PutRow(task, SetTitleIfEmpty(Some(rows[task]), p.message, later));
      Synthesize(task, "task_status", StatusRunning, later);
    }

    method PushEvent(task: TaskId, kind: string, payload: Payload, now: int)
      requires Valid()
      modifies this, pipe
      ensures Valid()
      ensures View(task) == RuntimeEvent(old(View(task)), kind, payload, now)
      ensures forall t :: t != task ==> View(t) == old(View(t))
    {
      Synthesize(task, kind, payload, now);
      if kind == "agent_start" {
        SetRowStatus(task, Running, now);
      } else if kind == "agent_settled" || kind == "error" {
        SetRowStatus(task, Idle, now);
        ReleaseSessionLock(task);
        Synthesize(task, "task_status", StatusIdle, now);
      }
    }

    method AbortTurn(task: TaskId, permitted: bool, now: int) returns (a: Answer)
      requires Valid()
      modifies this, pipe
      ensures Valid()
      ensures (View(task), a) == Abort(old(View(task)), permitted, now)
      ensures forall t :: t != task ==> View(t) == old(View(t))
    {
      if task !in rows {
        return NotFound;
      }
      if !permitted {
        return Denied;
      }
      ReleaseSessionLock(task);
      Synthesize(task, "task_status", StatusAborted, now);
      a := Accepted;
    }

    method UpdateTask(task: TaskId, title: string, archive: bool, now: int) returns (a: Answer)
      requires Valid()
      modifies this`rows
      ensures Valid()
      ensures View(task) == old(View(task)).(row := UpdateMeta(old(View(task)).row, title, archive, now).0)
      ensures a == UpdateMeta(old(View(task)).row, title, archive, now).1
      ensures forall t :: t != task ==> View(t) == old(View(t))
    {
      if task !in rows {
        return NotFound;
      }
      var row := rows[task];
      if !row.status.Archived? {
        rows := rows[task := row.(title := if title != "" then title else row.title,
                                  status := if archive then Archived else row.status,
                                  updatedAt := now)];
        return Accepted;
      }
      if archive {
        rows := rows[task := row.(updatedAt := now)];
        return Accepted;
      }
      a := NotFound;
    }

    /** The row goes first; without one nothing is cleaned up. */
    method RemoveTask(task: TaskId) returns (a: Answer)
      requires Valid()
      modifies this, pipe
      ensures Valid()
      ensures (View(task), a) == Delete(old(View(task)))
      ensures forall t :: t != task ==> View(t) == old(View(t))
    {
      if task !in rows {
        return NotFound;
      }
      rows := rows - {task};
      pipe.Forget(task);
      ReleaseSessionLock(task);
      a := Accepted;
    }

    // ---- watchdog ----

    method FailStuckTurn(task: TaskId, now: int)
      requires Valid()
      modifies this, pipe
      ensures Valid()
      ensures View(task) == FailTurn(old(View(task)), now)
      ensures forall t :: t != task ==> View(t) == old(View(t))
    {
      ReleaseSessionLock(task);
      SetRowStatus(task, Failed, now);
      Synthesize(task, "error", Opaque("timeout"), now);
    }

    /** One tick: lists the running tasks once and fails the stale ones among them, whatever the
        order. Every task takes its watchdog step, and nothing else happens to any of them. */
    method WatchdogOnce(timeout: int, now: int)
      requires Valid()
      modifies this, pipe
      ensures Valid()
      ensures forall t :: View(t) == Watchdog(old(View(t)), timeout, now)
    {
      var running := set t | t in rows && rows[t].status.Running?;
      ghost var listed := running;
      while running != {}
        invariant Valid() && running <= listed
        invariant forall t :: View(t) == if t in listed - running then Watchdog(old(View(t)), timeout, now) else old(View(t))
      {
        var t :| t in running;
        ghost var before := View(t);
        assert before == old(View(t)) && before.row.Some?;
        var last := rows[t].updatedAt;
        if t in pipe.markers && now <= pipe.markers[t] + EVENT_TTL {
          last := pipe.markers[t];
        }
        assert last == Activity(before, now);
        running := running - {t};
        if last < now - timeout {
          FailStuckTurn(t, now);
        }
      }
    }
  }
}
