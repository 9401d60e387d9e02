/**
 The latency of the watchdog holds up to a timeout one tick short of the marker's life and for no
 longer one: once the marker has expired, a refused prompt renews what the watchdog looks at.
 */
module WatchdogBound {
  import opened Options
  import opened Events
  import opened Lifecycle

  /** A task found running in step `k` that has been silent for more than the timeout and a tick. */
  ghost predicate SilentTooLong(h: History, k: nat)
    requires Run(h) && k < |h.acts|
  {
    var t := h.worlds[k].task;
    && t.row.Some? && t.row.value.status.Running?
    && !(t.pipe.marker.Some? && h.times[k] - t.pipe.marker.value <= h.timeout + WATCHDOG_TICK)
  }

  /** Refused for want of quota, after the model override has been recorded. */
  const REFUSED := Prompt(true, "hi", Concrete, "", false)

  function Started(timeout: int): World {
    Do(Do(Start, Create("t", "craft"), timeout, 0), Emit("agent_start", Opaque("")), timeout, 0)
  }

  function Touched(timeout: int, p: int): World {
    Do(Started(timeout), Begin(0, REFUSED), timeout, p)
  }

  lemma NoTurns(timeout: int)
    ensures Started(timeout).turns == map[]
  {
  }

  lemma QuietTick(timeout: int, now: int)
    requires now <= timeout
    ensures Do(Started(timeout), Tick, timeout, now) == Started(timeout)
  {
  }

  lemma RenewedTick(timeout: int, p: int, now: int)
    requires EVENT_TTL < p && p <= now <= p + timeout
    ensures Do(Touched(timeout, p), Tick, timeout, now) == Touched(timeout, p)
  {
  }

  lemma StillRunning(timeout: int, p: int)
    ensures var t := Touched(timeout, p).task;
      t.row.Some? && t.row.value.status.Running? && t.pipe.marker == Some(0)
  {
  }

  function ActAt(n: nat, m: nat): Act {
    if m == 0 then Create("t", "craft")
    else if m == 1 then Emit("agent_start", Opaque(""))
    else if m == n + 3 then Begin(0, REFUSED)
    else Tick
  }

  function TimeAt(n: nat, timeout: int, p: int, m: nat): int {
    if m < 2 then 0
    else if m < n + 2 then (m - 1) * WATCHDOG_TICK
    else if m == n + 2 then timeout
    else if m == n + 3 then p
    else timeout + WATCHDOG_TICK + (m - n - 4)
  }

  function WorldAt(n: nat, timeout: int, p: int, m: nat): World {
    if m == 0 then Start
    else if m == 1 then Do(Start, Create("t", "craft"), timeout, 0)
    else if m < n + 4 then Started(timeout)
    else Touched(timeout, p)
  }

  /** `n` ticks a minute apart, one at the timeout, the refused prompt, and two more ticks. */
  function Renewal(n: nat, timeout: int, p: int): History {
    History(seq(n + 7, m requires 0 <= m < n + 7 => WorldAt(n, timeout, p, m)),
            seq(n + 6, m requires 0 <= m < n + 6 => ActAt(n, m)),
            seq(n + 6, m requires 0 <= m < n + 6 => TimeAt(n, timeout, p, m)), timeout)
  }

  lemma RenewalRuns(n: nat, timeout: int, p: int)
    requires n * WATCHDOG_TICK <= timeout <= p <= timeout + WATCHDOG_TICK && EVENT_TTL < p
    requires WATCHDOG_TICK < timeout
    ensures Run(Renewal(n, timeout, p))
  {
    NoTurns(timeout);
    hide Do;
    var h := Renewal(n, timeout, p);
    forall m | 0 <= m < n + 6 ensures Link(h, m) {
      if 2 <= m < n + 3 {
        TicksInTime(n, m, timeout);
        QuietTick(timeout, TimeAt(n, timeout, p, m));
      } else if m > n + 3 {
        RenewedTick(timeout, p, TimeAt(n, timeout, p, m));
      }
    }
    forall i, j | 0 <= i <= j < n + 6 ensures h.times[i] <= h.times[j] {
      if 2 <= i < n + 2 { TicksInTime(n, i, timeout); }
      if 2 <= j < n + 2 { TicksInTime(n, j, timeout); }
    }
  }

  lemma TicksInTime(n: nat, m: nat, timeout: int)
    requires 2 <= m < n + 3 && n * WATCHDOG_TICK <= timeout
    ensures m < n + 2 ==> 0 <= (m - 1) * WATCHDOG_TICK <= timeout
  {
  }

  lemma RenewalIsTimely(n: nat, timeout: int, p: int)
    requires n >= 1 && n * WATCHDOG_TICK <= timeout < (n + 1) * WATCHDOG_TICK
    requires timeout <= p <= timeout + WATCHDOG_TICK
    ensures Timely(Renewal(n, timeout, p))
  {
    var h := Renewal(n, timeout, p);
    forall k | 0 <= k < n + 6
      ensures h.times[k] <= h.times[0] + WATCHDOG_TICK
        || exists j :: 0 <= j < k && h.acts[j].Tick? && h.times[j] >= h.times[k] - WATCHDOG_TICK
    {
      if k > 2 {
        var j := if k < n + 4 then k - 1 else if k == n + 4 then n + 2 else n + 4;
        assert h.acts[j].Tick? && h.times[j] >= h.times[k] - WATCHDOG_TICK;
      }
    }
  }

  /** For every timeout that with one tick goes beyond the marker's life there is a timely run in
      which a task is found running after a longer silence. */
  lemma LatencyBoundIsNeeded(timeout: int) returns (h: History, k: nat)
    requires timeout + WATCHDOG_TICK > EVENT_TTL
    ensures Run(h) && Timely(h) && h.timeout == timeout && k < |h.acts| && SilentTooLong(h, k)
  {
    var n := timeout / WATCHDOG_TICK;
    var p := if timeout > EVENT_TTL then timeout else EVENT_TTL + 1;
    RenewalRuns(n, timeout, p);
    RenewalIsTimely(n, timeout, p);
    h, k := Renewal(n, timeout, p), n + 5;
    StillRunning(timeout, p);
  }

  /** Up to that bound there is none. */
  lemma NobodyIsSilentTooLong(h: History, k: nat)
    requires Run(h) && Timely(h) && 0 <= h.timeout && h.timeout + WATCHDOG_TICK <= EVENT_TTL && k < |h.acts|
    ensures !SilentTooLong(h, k)
  {
    WatchdogLatency(h, k);
  }
}
