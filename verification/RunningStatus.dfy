/**
 When a task is running. The status says so exactly if something started the task and nothing has
 stopped it since; a prompt that returns late is such a start, even after its turn has settled.
 */
module RunningStatus {
  import opened Options
  import opened Events
  import opened Lifecycle
  import opened LockOwners

  ghost predicate IsRunning(t: Task) {
    t.row.Some? && t.row.value.status.Running?
  }

  /** An accepted prompt returns or the runtime starts, and the row is there and not archived. */
  ghost predicate StartsAt(h: History, m: nat)
    requires Run(h)
  {
    && m < |h.acts|
    && (AcceptedEnd(h.acts[m]) || AgentStart(h.acts[m]))
    && h.worlds[m].task.row.Some? && !h.worlds[m].task.row.value.status.Archived?
  }

  predicate AcceptedEnd(act: Act) { act.End? && act.accepted }

  predicate AgentStart(act: Act) { act.Emit? && act.kind == "agent_start" }

  predicate SettlingEvent(act: Act) { act.Emit? && Settles(act.kind) }

  /** The steps that end running: settling, a failed first prompt, archiving, deletion, watchdog. */
  ghost predicate StopsAt(h: History, m: nat)
    requires Run(h)
  {
    && m < |h.acts|
    && match h.acts[m]
       case Emit(kind, _) => Settles(kind)
       case FirstPromptFailed => true
       case Update(_, archive) => archive
       case DeleteTask => true
       case Tick => Stale(h.worlds[m].task, h.timeout, h.times[m])
       case _ => false
  }

  lemma RunningStep(h: History, m: nat)
    requires Run(h) && m < |h.acts|
    ensures IsRunning(h.worlds[m + 1].task) <==> StartsAt(h, m) || (IsRunning(h.worlds[m].task) && !StopsAt(h, m))
  {
    assert Link(h, m);
    RowsAreCreated(h, m);
    hide Synth, Ingested;
  }

  ghost predicate StartedSince(h: History, i: nat, j: nat)
    requires Run(h)
  {
    exists k :: i <= k < j && StartsAt(h, k) && forall m :: k < m < j ==> !StopsAt(h, m)
  }

  /** The task is running in exactly the states of a run that a start leads to with no stop since. */
  lemma {:induction false} RunningExactly(h: History, j: nat)
    requires Run(h) && j <= |h.acts|
    ensures IsRunning(h.worlds[j].task) <==> StartedSince(h, 0, j)
  {
    if j > 0 {
      RunningExactly(h, j - 1);
      RunningStep(h, j - 1);
      if k :| 0 <= k < j - 1 && StartsAt(h, k) && forall m :: k < m < j - 1 ==> !StopsAt(h, m) {
        assert !StopsAt(h, j - 1) ==> forall m :: k < m < j ==> !StopsAt(h, m);
      }
    }
  }

  /** After a settling event the task is running again exactly if something started it since: the
      runtime, or the accepted return of a prompt. */
  lemma AfterSettling(h: History, i: nat, j: nat)
    requires Run(h) && i < j <= |h.acts| && SettlingEvent(h.acts[i])
    ensures IsRunning(h.worlds[j].task) <==> StartedSince(h, i + 1, j)
  {
    RunningExactly(h, j);
    assert StopsAt(h, i) && !StartsAt(h, i);
  }

  /** A turn that took the lock before the settling event and is accepted after it leaves the task
      running exactly if the row is there and not archived, and then without a lock unless one was
      acquired in between. */
  lemma OvertakenPrompt(h: History, b: nat, i: nat, k: nat)
    requires Run(h) && b < i < k < |h.acts| && AcquiresAt(h, b) && SettlingEvent(h.acts[i])
    requires AcceptedEnd(h.acts[k]) && h.acts[k].turn == h.acts[b].turn
    ensures IsRunning(h.worlds[k + 1].task) <==>
      h.worlds[k].task.row.Some? && !h.worlds[k].task.row.value.status.Archived?
    ensures (forall m :: i < m < k ==> !AcquiresAt(h, m)) ==> h.worlds[k + 1].task.lock == None
  {
    RunningStep(h, k);
    OwnerSetTheLock(h, k + 1);
    if forall m :: i < m < k ==> !AcquiresAt(h, m) {
      NoOwnerAfter(h, i, k + 1);
    }
  }

  lemma {:induction false} NoOwnerAfter(h: History, i: nat, j: nat)
    requires Run(h) && i < j <= |h.acts| && ReleasesAt(h, i) && forall m :: i < m < j ==> !AcquiresAt(h, m)
    ensures Owner(h, j) == None
    decreases j
  {
    if i < j - 1 {
      NoOwnerAfter(h, i, j - 1);
    }
  }

  lemma {:induction false} OpenTurnsBegan(h: History, i: nat, k: nat, id: nat) returns (b: nat)
    requires Run(h) && i <= k <= |h.acts| && id !in h.worlds[i].turns && id in h.worlds[k].turns
    ensures i <= b < k && AcquiresAt(h, b) && h.acts[b].turn == id
    decreases k
  {
    assert Link(h, k - 1);
    if id in h.worlds[k - 1].turns {
      b := OpenTurnsBegan(h, i, k - 1, id);
    } else {
      b := k - 1;
    }
  }

  /** So an event that settles the task with no prompt on its way, and no start by the runtime
      later, keeps it from running until a prompt has begun and been accepted anew. */
  lemma SettledUntilNewTurn(h: History, i: nat, j: nat)
    requires Run(h) && i < j <= |h.acts| && SettlingEvent(h.acts[i]) && h.worlds[i].turns == map[]
    requires forall m :: i < m < j ==> !AgentStart(h.acts[m])
    ensures IsRunning(h.worlds[j].task) ==> exists b, k ::
      i < b < k < j && AcquiresAt(h, b) && AcceptedEnd(h.acts[k]) && h.acts[k].turn == h.acts[b].turn
  {
    AfterSettling(h, i, j);
    if IsRunning(h.worlds[j].task) {
      var k :| i + 1 <= k < j && StartsAt(h, k) && forall m :: k < m < j ==> !StopsAt(h, m);
      assert Link(h, i) && Link(h, k);
      var b := OpenTurnsBegan(h, i + 1, k, h.acts[k].turn);
    }
  }

  /** The race as a run: the runtime settles the turn before the prompt call has returned. */
  lemma OvertakenPromptRun(settle: Act, timeout: int) returns (h: History)
    requires SettlingEvent(settle)
    ensures Run(h) && |h.acts| == 4 && AcquiresAt(h, 1) && h.acts[2] == settle
    ensures AcceptedEnd(h.acts[3]) && h.acts[3].turn == h.acts[1].turn
    ensures IsRunning(h.worlds[4].task) && h.worlds[4].task.lock == None
  {
    var done := End(1, "hi", false, true);
    var w1, w2 := Created(timeout), Prompted(Created(timeout), 1, timeout);
    var w3 := Do(w2, settle, timeout, 0);
    FirstTurn(timeout);
    SecondTurn(w2, settle, timeout);
    h := History([Start, w1, w2, w3, Do(w3, done, timeout, 0)],
                 [Create("t", "craft"), Begin(1, HELLO), settle, done], [0, 0, 0, 0], timeout);
    assert w3.task.row.Some? && !w3.task.row.value.status.Archived?;
    hide Do, Acquires;
    forall i | 0 <= i < 4 ensures Link(h, i) {
    }
    OvertakenPrompt(h, 1, 2, 3);
  }
}
