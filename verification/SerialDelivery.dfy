/**
 Streams while ingests of the task run one at a time: exactly what a stream delivers of the log, and
 the handoff from a history to a stream.
 */
module SerialDelivery {
  import opened Options
  import opened Events
  import opened Delivery

  /** At most one ingest of the task is in flight. */
  ghost predicate SerialStep(s: State, step: Step) {
    step.Number? ==> s.numbered == {} && s.stored == {}
  }

  ghost predicate SerialRun(trace: seq<State>, steps: seq<Step>) {
    Run(trace, steps) && forall i :: 0 <= i < |steps| ==> SerialStep(trace[i], steps[i])
  }

  /** The stream has been offered exactly the events announced since it opened, in log order;
      `cut` events of the log have been announced so far. */
  ghost predicate SerialStreamOk(log: seq<Event>, cut: int, st: Stream) {
    && 0 <= st.announcedAt <= st.openedAt <= st.announcedAt + 1
    && st.announcedAt <= cut <= |log|
    && st.offered == log[st.announcedAt..cut]
  }

  function Announced(s: State): int {
    |s.log| - Pending(s)
  }

  ghost predicate SerialOk(s: State) {
    && Inv(s)
    && SerialLog(s.log, s.numbered, s.stored)
    && forall id :: id in s.streams ==> SerialStreamOk(s.log, Announced(s), s.streams[id])
  }

  lemma SerialStepKeepsStream(s: State, step: Step, id: nat)
    requires Enabled(s, step) && id in s.streams && SerialStreamOk(s.log, Announced(s), s.streams[id])
    requires step.Store? ==> s.stored == {}
    requires step.Announce? || step.Hush? ==> s.log != [] && s.stored == {s.log[|s.log| - 1]}
    requires id in Apply(s, step).streams
    ensures SerialStreamOk(Apply(s, step).log, Announced(Apply(s, step)), Apply(s, step).streams[id])
  {
    var st, n := s.streams[id], s.streams[id].announcedAt;
    match step {
      case Store(e) =>
        assert (s.log + [e])[n..|s.log|] == s.log[n..];
      case Announce(e) =>
        assert s.stored - {e} == {};
        assert s.log[n..] == st.offered + [e];
      case Hush(e) =>
        assert s.stored - {e} == {};
        assert s.log[n..] == st.offered + [e];
      case _ =>
    }
  }

  lemma SerialStored(s: State)
    requires SerialLog(s.log, s.numbered, s.stored)
    ensures s.stored != {} ==> s.log != [] && s.stored == {s.log[|s.log| - 1]}
  {
    if s.stored != {} {
      var e :| e in s.stored;
      assert s.stored == {e};
    }
  }

  lemma SerialStepKeepsStreams(s: State, step: Step, id: nat)
    requires SerialLog(s.log, s.numbered, s.stored) && Enabled(s, step)
    requires SerialStep(s, step) && id in Apply(s, step).streams
    requires id in s.streams ==> SerialStreamOk(s.log, Announced(s), s.streams[id])
    ensures SerialStreamOk(Apply(s, step).log, Announced(Apply(s, step)), Apply(s, step).streams[id])
  {
    SerialStored(s);
    if id in s.streams {
      SerialStepKeepsStream(s, step, id);
    }
  }

  lemma SerialStepKeepsOk(s: State, step: Step)
    requires SerialOk(s) && Enabled(s, step) && SerialStep(s, step)
    ensures SerialOk(Apply(s, step))
  {
    var s' := Apply(s, step);
    StepKeepsInv(s, step);
    SerialStepKeepsLog(s, step);
    forall id | id in s'.streams ensures SerialStreamOk(s'.log, Announced(s'), s'.streams[id]) {
      SerialStepKeepsStreams(s, step, id);
    }
  }

  /** Serial ingests append to the log in the order of their numbers. */
  ghost predicate SerialLog(log: seq<Event>, numbered: set<Event>, stored: set<Event>) {
    && (numbered == {} || stored == {})
    && (forall e, f :: e in numbered && f in numbered ==> e == f)
    && (forall e :: e in stored ==> log != [] && e == log[|log| - 1])
    && Increasing(log)
    && (forall e, f :: e in numbered && f in log ==> f.seqNo < e.seqNo)
  }

  lemma SerialStepKeepsLog(s: State, step: Step)
    requires NumbersOk(s.counter, s.log, s.numbered, s.stored) && SerialLog(s.log, s.numbered, s.stored)
    requires Enabled(s, step) && SerialStep(s, step)
    ensures var s' := Apply(s, step); SerialLog(s'.log, s'.numbered, s'.stored)
  {
  }

  lemma {:induction false} SerialRunOk(trace: seq<State>, steps: seq<Step>, i: nat)
    requires SerialRun(trace, steps) && trace[0] == Init && i < |trace|
    ensures SerialOk(trace[i])
  {
    if i > 0 {
      SerialRunOk(trace, steps, i - 1);
      assert Link(trace, steps, i - 1);
      SerialStepKeepsOk(trace[i - 1], steps[i - 1]);
    }
  }

  /** The event between store and announcement, if any. */
  function InFlight(s: State): seq<Event> {
    if s.stored == {} || s.log == [] then [] else s.log[|s.log| - 1..]
  }

  /** What a live stream delivers of the log as it stands: events sent, then those queued on
      its channel, then the one about to be announced, the last two only above `maxSeq`. */
  function Tail(s: State, st: Stream): seq<Event> {
    st.sent + Above(st.chan, st.maxSeq) + Above(InFlight(s), st.maxSeq)
  }

  /** More events were above the anchor when the log was read than one replay returns. */
  ghost predicate Truncated(s: State, st: Stream) {
    st.readAt <= |s.log| && |Above(s.log[..st.readAt], st.since)| > STREAM_REPLAY_LIMIT
  }

  /** An event newer than both the anchor and the replay did not enter the channel. */
  ghost predicate Dropped(st: Stream) {
    exists e :: e in st.missed && e.seqNo > st.maxSeq && e.seqNo > st.since
  }

  /** The replay came back empty, so `maxSeq` stayed 0, and an event at or below the anchor
      was announced after the stream had opened. */
  ghost predicate Echo(s: State, st: Stream) {
    st.hist == [] && exists e :: e in Accepted(st) + InFlight(s) && e.seqNo <= st.since
  }

  /** What the tail theorem needs to know about one live stream of a serial run. */
  ghost predicate TailFacts(log: seq<Event>, flight: seq<Event>, st: Stream) {
    && Increasing(log)
    && (forall e :: e in log ==> e.seqNo >= 1)
    && SentOk(st) && st.phase.Live? && st.since > 0
    && 0 <= st.announcedAt <= st.readAt <= |log|
    && st.hist == Replayed(log[..st.readAt], st.since, STREAM_REPLAY_LIMIT)
    && log[st.announcedAt..] == st.offered + flight
    && (forall e :: e in st.missed ==> e in st.offered)
  }

  lemma SerialTailFacts(s: State, id: nat)
    requires SerialOk(s) && id in s.streams && s.streams[id].phase.Live? && s.streams[id].since > 0
    ensures TailFacts(s.log, InFlight(s), s.streams[id])
  {
    var st, cut := s.streams[id], Announced(s);
    assert StreamOk(s.log, s.stored, st);
    InFlightIsSuffix(s);
    StreamTailFacts(s.log, cut, st);
  }

  lemma StreamTailFacts(log: seq<Event>, cut: int, st: Stream)
    requires Increasing(log) && forall e :: e in log ==> e.seqNo >= 1
    requires SentOk(st) && HistOk(log, st) && SerialStreamOk(log, cut, st) && st.phase.Live? && st.since > 0
    requires forall e :: e in st.missed ==> e in st.offered
    ensures TailFacts(log, log[cut..], st)
  {
    assert log[st.announcedAt..] == log[st.announcedAt..cut] + log[cut..];
  }

  lemma TailForm(st: Stream, flight: seq<Event>)
    requires SentOk(st) && st.phase.Live?
    ensures st.sent + Above(st.chan, st.maxSeq) + Above(flight, st.maxSeq) == st.hist + Above(Accepted(st) + flight, st.maxSeq)
  {
    var a, n := Accepted(st), st.taken;
    assert a + flight == a[..n] + (a[n..] + flight);
    AboveConcat(a[..n], a[n..] + flight, st.maxSeq);
    AboveConcat(a[n..], flight, st.maxSeq);
  }

  lemma {:induction false} AboveWithout(s: seq<Event>, lost: set<Event>, n: int)
    requires forall e :: e in lost && e in s ==> e.seqNo <= n
    ensures Above(Without(s, lost), n) == Above(s, n)
    decreases |s|
  {
    if s != [] {
      assert s == s[..|s| - 1] + [s[|s| - 1]];
      AboveWithout(s[..|s| - 1], lost, n);
    }
  }

  /** With nothing missed above `n`, the accepted and in-flight events above `n` are those
      announced since the stream opened. */
  lemma AnnouncedAbove(st: Stream, flight: seq<Event>, n: int)
    requires forall e :: e in st.missed ==> e.seqNo <= n
    ensures Above(Accepted(st) + flight, n) == Above(st.offered + flight, n)
  {
    AboveConcat(Accepted(st), flight, n);
    AboveWithout(st.offered, st.missed, n);
    AboveConcat(st.offered, flight, n);
  }

  /** A non-empty replay splits the log: everything read is at or below `maxSeq`, everything
      stored later is above it. */
  lemma ReplaySplitsLog(log: seq<Event>, r: nat, since: int, limit: nat)
    requires Increasing(log) && r <= |log| && since > 0 && Replayed(log[..r], since, limit) != []
    ensures var top := MaxSeq(Replayed(log[..r], since, limit));
      && since < top
      && (forall e :: e in log[..r] ==> e.seqNo <= top)
      && (forall e :: e in log[r..] ==> e.seqNo > top)
  {
    var before := log[..r];
    var all, hist := Above(before, since), Replayed(before, since, limit);
    AboveIncreasing(before, since);
    var last := hist[|hist| - 1];
    assert last == all[|all| - 1];
    AboveMembers(before, since, hist[0]);
    IncreasingTop(hist);
    forall e | e in before ensures e.seqNo <= last.seqNo {
      AboveMembers(before, since, e);
    }
    AboveMembers(before, since, last);
    var k :| 0 <= k < r && log[k] == last;
  }

  /** Cutting the log where it was read: what is above the anchor before and after. */
  lemma AboveSplit(log: seq<Event>, a: nat, r: nat, n: int)
    requires a <= r <= |log|
    ensures Above(log, n) == Above(log[..r], n) + Above(log[r..], n)
    ensures Above(log[a..], n) == Above(log[a..r], n) + Above(log[r..], n)
  {
    assert log == log[..r] + log[r..];
    AboveConcat(log[..r], log[r..], n);
    assert log[a..] == log[a..r] + log[r..];
    AboveConcat(log[a..r], log[r..], n);
  }

  /** Sufficiency, when the replay returned something. */
  lemma TailAfterReplay(log: seq<Event>, flight: seq<Event>, st: Stream)
    requires TailFacts(log, flight, st) && st.hist != []
    requires |Above(log[..st.readAt], st.since)| <= STREAM_REPLAY_LIMIT && !Dropped(st)
    ensures st.hist + Above(Accepted(st) + flight, st.maxSeq) == Above(log, st.since)
  {
    var a, r, top := st.announcedAt, st.readAt, st.maxSeq;
    ReplaySplitsLog(log, r, st.since, STREAM_REPLAY_LIMIT);
    assert Above(Accepted(st) + flight, top) == log[r..] by {
      AnnouncedAbove(st, flight, top);
      AboveSplit(log, a, r, top);
      AboveNone(log[a..r], top) by {
        forall e | e in log[a..r] ensures e in log[..r] { }
      }
      AboveAll(log[r..], top);
    }
    AboveSplit(log, a, r, st.since);
    AboveAll(log[r..], st.since);
  }

  /** Sufficiency, when the replay returned nothing. */
  lemma TailWithoutReplay(log: seq<Event>, flight: seq<Event>, st: Stream)
    requires TailFacts(log, flight, st) && st.hist == []
    requires !Dropped(st) && forall e :: e in Accepted(st) + flight ==> e.seqNo > st.since
    ensures Above(Accepted(st) + flight, st.maxSeq) == Above(log, st.since)
  {
    var a, r := st.announcedAt, st.readAt;
    var heard := Accepted(st) + flight;
    AboveAll(heard, 0);
    AboveAll(heard, st.since);
    forall e | e in st.missed ensures e.seqNo <= st.since {
      assert e in log[a..];
      assert e in log;
    }
    AnnouncedAbove(st, flight, st.since);
    AboveSplit(log, a, r, st.since);
    AboveNone(log[a..r], st.since) by {
      forall e | e in log[a..r] ensures e.seqNo <= st.since {
        assert e in log[..r];
        AboveMembers(log[..r], st.since, e);
      }
    }
  }

  lemma TruncationBreaksTail(log: seq<Event>, flight: seq<Event>, st: Stream)
    requires TailFacts(log, flight, st)
    requires |Above(log[..st.readAt], st.since)| > STREAM_REPLAY_LIMIT
    ensures st.hist + Above(Accepted(st) + flight, st.maxSeq) != Above(log, st.since)
  {
    var before := log[..st.readAt];
    var all := Above(before, st.since);
    AboveIncreasing(before, st.since);
    var x := all[0];
    AboveMembers(before, st.since, x);
    AboveMembers(log, st.since, x);
    MaxSeqBounds(st.hist);
    assert st.hist[0] in st.hist && x.seqNo < st.hist[0].seqNo;
    AboveMembers(Accepted(st) + flight, st.maxSeq, x);
    assert x !in st.hist;
  }

  lemma DropBreaksTail(log: seq<Event>, flight: seq<Event>, st: Stream, x: Event)
    requires TailFacts(log, flight, st) && x in st.missed && x.seqNo > st.maxSeq && x.seqNo > st.since
    ensures st.hist + Above(Accepted(st) + flight, st.maxSeq) != Above(log, st.since)
  {
    assert x in log[st.announcedAt..];
    AboveMembers(log, st.since, x);
    AcceptedMembers(st, x);
    AboveMembers(Accepted(st) + flight, st.maxSeq, x);
    MaxSeqBounds(st.hist);
    assert Increasing(st.offered + flight);
    OfferedNotInFlight(st.offered, flight, x);
  }

  lemma EchoBreaksTail(log: seq<Event>, flight: seq<Event>, st: Stream, x: Event)
    requires TailFacts(log, flight, st) && st.hist == [] && x in Accepted(st) + flight && x.seqNo <= st.since
    ensures st.hist + Above(Accepted(st) + flight, st.maxSeq) != Above(log, st.since)
  {
    AcceptedMembers(st, x);
    assert x in st.offered + flight;
    assert x in log[st.announcedAt..];
    AboveMembers(Accepted(st) + flight, st.maxSeq, x);
    AboveMembers(log, st.since, x);
  }

  lemma TailExactly(s: State, st: Stream)
    requires TailFacts(s.log, InFlight(s), st)
    ensures st.hist + Above(Accepted(st) + InFlight(s), st.maxSeq) == Above(s.log, st.since)
      <==> !Truncated(s, st) && !Dropped(st) && !Echo(s, st)
  {
    hide Above, Accepted, InFlight, SentOk, Replayed;
    var log, flight := s.log, InFlight(s);
    if Truncated(s, st) {
      TruncationBreaksTail(log, flight, st);
    } else if Dropped(st) {
      var x :| x in st.missed && x.seqNo > st.maxSeq && x.seqNo > st.since;
      DropBreaksTail(log, flight, st, x);
    } else if Echo(s, st) {
      var x :| x in Accepted(st) + flight && x.seqNo <= st.since;
      EchoBreaksTail(log, flight, st, x);
    } else if st.hist != [] {
      TailAfterReplay(log, flight, st);
    } else {
      TailWithoutReplay(log, flight, st);
    }
  }

  /** Exactly-once, in-order tail, over every run with serial ingests: the events a live stream
      has sent, followed by those queued above `maxSeq` and the one in flight, are the log
      events above the anchor, if and only if the replay was not cut off, nothing newer was
      dropped, and no event at or below the anchor was announced after an empty replay. */
  lemma ExactlyOnceTail(trace: seq<State>, steps: seq<Step>, id: nat)
    requires SerialRun(trace, steps) && trace[0] == Init
    requires var s := trace[|steps|]; id in s.streams && s.streams[id].phase.Live? && s.streams[id].since > 0
    ensures var s := trace[|steps|]; var st := s.streams[id];
      Tail(s, st) == Above(s.log, st.since) <==> !Truncated(s, st) && !Dropped(st) && !Echo(s, st)
  {
    var s := trace[|steps|];
    SerialRunOk(trace, steps, |steps|);
    hide Run, SerialRun, SerialOk, SentOk, Truncated, Dropped, Echo, InFlight, Accepted, Above;
    SerialTailFacts(s, id);
    TailExactly(s, s.streams[id]);
    TailOfStream(s, s.streams[id]);
  }

  lemma TailOfStream(s: State, st: Stream)
    requires SentOk(st) && st.phase.Live?
    ensures Tail(s, st) == st.hist + Above(Accepted(st) + InFlight(s), st.maxSeq)
  {
    hide Above, Accepted, InFlight;
    TailForm(st, InFlight(s));
  }

  /** Once the channel is drained and nothing is in flight, `Tail` is simply what was sent. */
  lemma DrainedTail(trace: seq<State>, steps: seq<Step>, id: nat)
    requires SerialRun(trace, steps) && trace[0] == Init
    requires var s := trace[|steps|]; id in s.streams && s.streams[id].phase.Live? && s.streams[id].since > 0
    requires var s := trace[|steps|]; s.stored == {} && s.streams[id].chan == []
    ensures var s := trace[|steps|]; var st := s.streams[id];
      st.sent == Above(s.log, st.since) <==> !Truncated(s, st) && !Dropped(st) && !Echo(s, st)
  {
    ExactlyOnceTail(trace, steps, id);
  }

  /** When the anchor was already persisted as the stream opened, an echo is exactly this race:
      the ingest of the anchor event itself was between store and announcement at that moment,
      its announcement reached the channel, and the replay found nothing newer. */
  lemma EchoPrecisely(s: State, id: nat)
    requires SerialOk(s) && id in s.streams && s.streams[id].phase.Live? && s.streams[id].since > 0
    requires var st := s.streams[id]; 0 < st.openedAt <= |s.log| && st.since <= s.log[st.openedAt - 1].seqNo
    ensures var st := s.streams[id];
      Echo(s, st) <==>
        && st.hist == [] && st.announcedAt < st.openedAt
        && s.log[st.announcedAt].seqNo == st.since && s.log[st.announcedAt] !in st.missed
  {
    SerialTailFacts(s, id);
    var st := s.streams[id];
    assert SerialStreamOk(s.log, Announced(s), st);
    EchoRace(s.log, InFlight(s), st);
  }

  lemma EchoRace(log: seq<Event>, flight: seq<Event>, st: Stream)
    requires TailFacts(log, flight, st)
    requires 0 < st.openedAt <= |log| && st.since <= log[st.openedAt - 1].seqNo
    requires st.announcedAt <= st.openedAt <= st.announcedAt + 1
    ensures (exists e :: e in Accepted(st) + flight && e.seqNo <= st.since) <==>
      st.announcedAt < st.openedAt && log[st.announcedAt].seqNo == st.since && log[st.announcedAt] !in st.missed
  {
    var news := log[st.announcedAt..];
    forall e | e in Accepted(st) + flight && e.seqNo <= st.since
      ensures st.announcedAt < st.openedAt && e == log[st.announcedAt] && e.seqNo == st.since && e !in st.missed
    {
      AcceptedMembers(st, e);
      assert e in news;
      var i :| 0 <= i < |news| && news[i] == e;
      assert news[i] == log[st.announcedAt + i];
      if e in st.missed {
        OfferedNotInFlight(st.offered, flight, e);
      }
    }
    if st.announcedAt < st.openedAt && log[st.announcedAt] !in st.missed {
      var e := log[st.announcedAt];
      assert e == news[0];
      AcceptedMembers(st, e);
    }
  }

  lemma OfferedNotInFlight(offered: seq<Event>, flight: seq<Event>, e: Event)
    requires Increasing(offered + flight) && e in offered
    ensures e !in flight
  {
    var i :| 0 <= i < |offered| && offered[i] == e;
    var news := offered + flight;
    assert forall j :: 0 <= j < |flight| ==> news[|offered| + j] == flight[j];
    assert news[i] == e;
  }

  /** A growing log is cut by its earlier maximum exactly where it was extended. */
  lemma AboveEarlierMax(early: seq<Event>, log: seq<Event>)
    requires Increasing(log) && early <= log && early != [] && early[0].seqNo >= 1
    ensures Above(log, MaxSeq(early)) == log[|early|..]
  {
    hide Above, MaxSeq;
    var rest, n := log[|early|..], |early|;
    assert log == early + rest;
    forall i, j | 0 <= i < j < n ensures early[i].seqNo < early[j].seqNo {
      assert log[i] == early[i] && log[j] == early[j];
    }
    IncreasingTop(early);
    MaxSeqBounds(early);
    forall e | e in rest ensures e.seqNo > MaxSeq(early) {
      var i :| 0 <= i < |rest| && rest[i] == e;
      assert log[n + i] == e && log[n - 1] == early[n - 1];
    }
    AboveConcat(early, rest, MaxSeq(early));
    AboveNone(early, MaxSeq(early));
    AboveAll(rest, MaxSeq(early));
  }

  /** Lossless handoff: a history taken at point `k` of a run, followed by the tail of a stream
      anchored at that history's `last_seq`, is every message of the log, once and in order,
      whatever was ingested in between. A history over the limit loses its oldest events only. */
  lemma LosslessHandoff(trace: seq<State>, steps: seq<Step>, k: nat, id: nat)
    requires SerialRun(trace, steps) && trace[0] == Init && k <= |steps| && trace[k].log != []
    requires var s := trace[|steps|]; id in s.streams && s.streams[id].phase.Live? && s.streams[id].since == MaxSeq(trace[k].log)
    requires var s := trace[|steps|]; var st := s.streams[id]; !Truncated(s, st) && !Dropped(st) && !Echo(s, st)
    ensures var s, early := trace[|steps|], trace[k].log;
      && early <= s.log
      && Messages(Newest(early, HISTORY_LIMIT)) + Messages(Tail(s, s.streams[id]))
         == Messages(Newest(early, HISTORY_LIMIT) + s.log[|early|..])
      && (|early| <= HISTORY_LIMIT ==>
           Messages(Newest(early, HISTORY_LIMIT)) + Messages(Tail(s, s.streams[id])) == Messages(s.log))
  {
    var s, early := trace[|steps|], trace[k].log;
    LogGrows(trace, steps, k, |steps|);
    SerialRunOk(trace, steps, |steps|);
    HandoffTail(early, s.log);
    HandoffMessages(early, s.log, HISTORY_LIMIT);
    ExactlyOnceTail(trace, steps, id);
  }

  lemma HandoffTail(early: seq<Event>, log: seq<Event>)
    requires Increasing(log) && early <= log && early != [] && forall e :: e in log ==> e.seqNo >= 1
    ensures MaxSeq(early) > 0
    ensures Above(log, MaxSeq(early)) == log[|early|..]
  {
    assert early[0] in log;
    AboveEarlierMax(early, log);
    MaxSeqBounds(early);
    assert early[0] in early;
  }

  lemma HandoffMessages(early: seq<Event>, log: seq<Event>, limit: nat)
    requires early <= log
    ensures Messages(Newest(early, limit) + log[|early|..]) == Messages(Newest(early, limit)) + Messages(log[|early|..])
    ensures |early| <= limit ==> Newest(early, limit) + log[|early|..] == log
  {
    MessagesConcat(Newest(early, limit), log[|early|..]);
  }

  /** A stream opened without an anchor delivers what is announced after it opened, and nothing
      older: after a history of an empty log, whatever was announced in between is lost. */
  lemma UnanchoredTail(trace: seq<State>, steps: seq<Step>, id: nat)
    requires SerialRun(trace, steps) && trace[0] == Init
    requires var s := trace[|steps|];
      id in s.streams && s.streams[id].phase.Live? && s.streams[id].since <= 0 && s.streams[id].missed == {}
    ensures var s := trace[|steps|]; var st := s.streams[id];
      && 0 <= st.announcedAt <= |s.log|
      && Tail(s, st) == s.log[st.announcedAt..]
      && (Tail(s, st) == s.log <==> st.announcedAt == 0)
  {
    var s := trace[|steps|];
    SerialRunOk(trace, steps, |steps|);
    UnanchoredTailOf(s, id);
  }

  lemma UnanchoredTailOf(s: State, id: nat)
    requires SerialOk(s) && id in s.streams
    requires s.streams[id].phase.Live? && s.streams[id].since <= 0 && s.streams[id].missed == {}
    ensures var st := s.streams[id]; 0 <= st.announcedAt <= |s.log| && Tail(s, st) == s.log[st.announcedAt..]
  {
    InFlightIsSuffix(s);
    assert StreamOk(s.log, s.stored, s.streams[id]);
    UnanchoredCore(s.log, Announced(s), s.streams[id]);
  }

  lemma InFlightIsSuffix(s: State)
    requires SerialLog(s.log, s.numbered, s.stored)
    ensures 0 <= Announced(s) <= |s.log| && InFlight(s) == s.log[Announced(s)..]
  {
    SerialStored(s);
  }

  lemma UnanchoredCore(log: seq<Event>, cut: int, st: Stream)
    requires SentOk(st) && st.phase.Live? && st.hist == [] && st.missed == {} && SerialStreamOk(log, cut, st)
    requires forall e :: e in log ==> e.seqNo >= 1
    ensures st.sent + Above(st.chan, st.maxSeq) + Above(log[cut..], st.maxSeq) == log[st.announcedAt..]
  {
    var flight := log[cut..];
    assert log[st.announcedAt..] == st.offered + flight;
    TailForm(st, flight);
    AnnouncedAbove(st, flight, 0);
    AboveAll(log[st.announcedAt..], 0);
  }
}
