/**
 Whose lock a failing prompt frees. The lock key does not say who set it, so the owner is
 recovered from the run: the acquisition that set the key as it stands.
 */
module LockOwners {
  import opened Options
  import opened Events
  import opened Lifecycle

  ghost predicate AcquiresAt(h: History, m: nat)
    requires Run(h)
  {
    m < |h.acts| && Acquires(h.worlds[m], h.acts[m], h.times[m])
  }

  ghost predicate ReleasesAt(h: History, m: nat)
    requires Run(h)
  {
    m < |h.acts| && Releases(h.worlds[m], h.acts[m], h.timeout, h.times[m])
  }

  /** The step that set the lock as it stands before step `k`. */
  ghost function Owner(h: History, k: nat): Option<nat>
    requires Run(h)
  {
    if k == 0 || ReleasesAt(h, k - 1) then None
    else if AcquiresAt(h, k - 1) then Some(k - 1)
    else Owner(h, k - 1)
  }

  ghost predicate NoReleaseBetween(h: History, j: nat, k: nat)
    requires Run(h)
  {
    forall m :: j < m < k ==> !ReleasesAt(h, m)
  }

  /** The key is there exactly if it has an owner, and it expires a time to live after the owner's
      acquisition, the last one, with no release since. */
  lemma {:induction false} OwnerSetTheLock(h: History, k: nat)
    requires Run(h) && k <= |h.acts|
    ensures match Owner(h, k)
      case None => h.worlds[k].task.lock == None
      case Some(j) =>
        && j < k && AcquiresAt(h, j) && h.worlds[k].task.lock == Some(h.times[j] + LOCK_TTL)
        && NoReleaseBetween(h, j, k) && forall m :: j < m < k ==> !AcquiresAt(h, m)
  {
    if k > 0 {
      OwnerSetTheLock(h, k - 1);
      assert Link(h, k - 1);
      LockStep(h.worlds[k - 1], h.acts[k - 1], h.timeout, h.times[k - 1]);
    }
  }

  lemma {:induction false} OwnerIsRecent(h: History, j: nat, k: nat)
    requires Run(h) && j < k <= |h.acts| && AcquiresAt(h, j) && NoReleaseBetween(h, j, k)
    ensures Owner(h, k).Some? && j <= Owner(h, k).value
    decreases k
  {
    if j < k - 1 {
      OwnerIsRecent(h, j, k - 1);
    } else {
      assert !ReleasesAt(h, j) by {
        assert h.acts[j].Begin?;
      }
    }
  }

  /** The turn that acquired the lock in step `i` fails in step `k`. */
  ghost predicate Fails(h: History, i: nat, k: nat)
    requires Run(h)
  {
    && i < k < |h.acts| && AcquiresAt(h, i) && h.acts[k].End? && !h.acts[k].accepted
    && h.acts[k].turn == h.acts[i].turn
    && forall m :: i < m < k && h.acts[m].End? ==> h.acts[m].turn != h.acts[i].turn
  }

  /** It removes a live lock that it did not set. */
  ghost predicate FreesAnother(h: History, i: nat, k: nat)
    requires Run(h) && i < k < |h.acts|
  {
    LockHeld(h.worlds[k].task, h.times[k]) && h.worlds[k + 1].task.lock == None && Owner(h, k) != Some(i)
  }

  /** Without a release the next acquisition comes after the lock has expired. */
  lemma RivalIsLate(h: History, i: nat, j: nat)
    requires Run(h) && i < j && AcquiresAt(h, i) && AcquiresAt(h, j) && NoReleaseBetween(h, i, j)
    ensures h.times[j] > h.times[i] + LOCK_TTL
  {
    forall m | i < m < j ensures !Releases(h.worlds[m], h.acts[m], h.timeout, h.times[m]) {
      assert !ReleasesAt(h, m);
    }
    LockDiscipline(h, i, j);
  }

  /** A turn that fails in time and with no release since it began finds its own lock. */
  lemma OwnLockIsKept(h: History, i: nat, k: nat)
    requires Run(h) && i < k < |h.acts| && AcquiresAt(h, i)
    requires NoReleaseBetween(h, i, k) && h.times[k] - h.times[i] <= LOCK_TTL
    ensures Owner(h, k) == Some(i) && h.worlds[k].task.lock == Some(h.times[i] + LOCK_TTL)
  {
    OwnerIsRecent(h, i, k);
    OwnerSetTheLock(h, k);
    var j := Owner(h, k).value;
    if j > i {
      RivalIsLate(h, i, j);
    }
  }

  /** A failing turn removes another turn's live lock exactly when there was an acquisition after
      its own that nothing has released since and that has not expired. */
  lemma FailureFreesAnother(h: History, i: nat, k: nat)
    requires Run(h) && Fails(h, i, k)
    ensures FreesAnother(h, i, k) <==>
      exists j :: i < j < k && AcquiresAt(h, j) && NoReleaseBetween(h, j, k) && h.times[k] <= h.times[j] + LOCK_TTL
  {
    assert Link(h, k);
    LockStep(h.worlds[k], h.acts[k], h.timeout, h.times[k]);
    OwnerSetTheLock(h, k);
    if j :| i < j < k && AcquiresAt(h, j) && NoReleaseBetween(h, j, k) && h.times[k] <= h.times[j] + LOCK_TTL {
      OwnerIsRecent(h, j, k);
    }
  }

  /** In particular a turn that fails in time and is not released meanwhile frees nobody else's. */
  lemma TimelyFailureFreesItsOwn(h: History, i: nat, k: nat)
    requires Run(h) && Fails(h, i, k) && NoReleaseBetween(h, i, k) && h.times[k] - h.times[i] <= LOCK_TTL
    ensures !FreesAnother(h, i, k) && h.worlds[k + 1].task.lock == None
    ensures forall j :: i < j < k ==> !AcquiresAt(h, j)
  {
    OwnLockIsKept(h, i, k);
    OwnerSetTheLock(h, k);
    assert Link(h, k);
  }

  /** Every failing way of a prompt: refused at the lock or before, the lock and its owner stay;
      failing later, no lock stays. Busy means the lock is held. */
  lemma FailedPromptsAndTheLock(h: History, k: nat)
    requires Run(h) && k < |h.acts|
    ensures h.acts[k].Begin? && !AcquiresAt(h, k) ==>
      Owner(h, k + 1) == Owner(h, k) && h.worlds[k + 1].task.lock == h.worlds[k].task.lock
    ensures h.acts[k].Begin? && BeginPrompt(h.worlds[k].task, h.acts[k].prompt, h.times[k]).1.Busy? ==>
      Owner(h, k).Some? && Owner(h, k).value < k && h.times[k] <= h.times[Owner(h, k).value] + LOCK_TTL
    ensures h.acts[k].End? && !h.acts[k].accepted ==> Owner(h, k + 1) == None && h.worlds[k + 1].task.lock == None
    ensures h.acts[k].End? && h.acts[k].accepted ==> Owner(h, k + 1) == Owner(h, k)
  {
    assert Link(h, k);
    LockStep(h.worlds[k], h.acts[k], h.timeout, h.times[k]);
    OwnerSetTheLock(h, k);
  }

  // ------------------------------------------------------------------ runs in which it happens

  const HELLO := Prompt(true, "hi", Keep, "", true)

  ghost predicate FreesTheLock(release: Act) {
    release == AbortTask(true) || (release.Emit? && Settles(release.kind))
  }

  function Created(timeout: int): World {
    Do(Start, Create("t", "craft"), timeout, 0)
  }

  function Prompted(w: World, turn: nat, timeout: int): World {
    Do(w, Begin(turn, HELLO), timeout, 0)
  }

  lemma FirstTurn(timeout: int)
    ensures Created(timeout).turns == map[] && Acquires(Created(timeout), Begin(1, HELLO), 0)
    ensures var w := Prompted(Created(timeout), 1, timeout);
      && w.turns == map[1 := 0]
      && w.task.row == Some(Row(Pending, "t", "craft", 0))
  {
  }

  lemma SecondTurn(w: World, release: Act, timeout: int)
    requires FreesTheLock(release) && w.turns == map[1 := 0] && w.task.row == Some(Row(Pending, "t", "craft", 0))
    ensures var freed := Do(w, release, timeout, 0);
      && Releases(w, release, timeout, 0) && freed.turns == w.turns
      && Acquires(freed, Begin(2, HELLO), 0) && 1 in Prompted(freed, 2, timeout).turns
  {
  }

  /** Within the time to live: turn 1 hangs in its runtime call, an abort or a settling event
      releases its lock, turn 2 takes the lock, and then turn 1 fails. */
  lemma FailureAfterReleaseRun(release: Act, timeout: int) returns (h: History)
    requires FreesTheLock(release)
    ensures Run(h) && Fails(h, 1, 4) && h.acts[2] == release && FreesAnother(h, 1, 4) && h.times[4] == h.times[1]
  {
    var fail := End(1, "hi", false, false);
    var w1, w2 := Created(timeout), Prompted(Created(timeout), 1, timeout);
    var w3 := Do(w2, release, timeout, 0);
    var w4 := Prompted(w3, 2, timeout);
    var w5 := Do(w4, fail, timeout, 0);
    FirstTurn(timeout);
    SecondTurn(w2, release, timeout);
    hide Do, Acquires, Releases;
    h := History([Start, w1, w2, w3, w4, w5],
                 [Create("t", "craft"), Begin(1, HELLO), release, Begin(2, HELLO), fail], [0, 0, 0, 0, 0], timeout);
    forall i | 0 <= i < 5 ensures Link(h, i) {
    }
    assert AcquiresAt(h, 1) && AcquiresAt(h, 3) && NoReleaseBetween(h, 3, 4);
    FailureFreesAnother(h, 1, 4);
  }

  /** Beyond it: turn 1 outlives its lock, turn 2 takes it over, and then turn 1 fails. */
  lemma LateFailureRun(timeout: int) returns (h: History)
    ensures Run(h) && Fails(h, 1, 3) && FreesAnother(h, 1, 3)
  {
    var late, fail := LOCK_TTL + 1, End(1, "hi", false, false);
    var w1, w2 := Created(timeout), Prompted(Created(timeout), 1, timeout);
    var w3 := Do(w2, Begin(2, HELLO), timeout, late);
    FirstTurn(timeout);
    h := History([Start, w1, w2, w3, Do(w3, fail, timeout, late)],
                 [Create("t", "craft"), Begin(1, HELLO), Begin(2, HELLO), fail], [0, 0, late, late], timeout);
    forall i | 0 <= i < 4 ensures Link(h, i) {
    }
    assert AcquiresAt(h, 1) && AcquiresAt(h, 2) && NoReleaseBetween(h, 2, 3);
    FailureFreesAnother(h, 1, 3);
  }
}
