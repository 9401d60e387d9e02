/**
 A client that loses its stream any number of times and resumes each time from the last persisted
 event it has received.
 */
module Reconnection {
  import opened Options
  import Text
  import opened Events
  import opened Delivery
  import opened SerialDelivery

  /** The client loses stream `id` in state `at` of the run. */
  datatype Session = Session(at: nat, id: nat)

  function SentIn(trace: seq<State>, x: Session): seq<Event> {
    if x.at < |trace| && x.id in trace[x.at].streams then trace[x.at].streams[x.id].sent else []
  }

  /** Everything received in the sessions, in order. */
  function Received(trace: seq<State>, xs: seq<Session>): seq<Event> {
    if xs == [] then [] else Received(trace, xs[..|xs| - 1]) + SentIn(trace, xs[|xs| - 1])
  }

  /** The number of the last event received, or the first anchor. */
  function Anchor(first: int, received: seq<Event>): int {
    if received == [] then first else received[|received| - 1].seqNo
  }

  /** Nothing went wrong with the stream as far as it got. */
  ghost predicate Clean(s: State, st: Stream) {
    !Truncated(s, st) && (st.phase.Live? ==> !Dropped(st) && !Echo(s, st))
  }

  ghost predicate SessionOk(trace: seq<State>, x: Session, anchor: int) {
    && x.at < |trace| && x.id in trace[x.at].streams
    && trace[x.at].streams[x.id].since == anchor && Clean(trace[x.at], trace[x.at].streams[x.id])
  }

  /** Each session resumes from the last event received before it. */
  ghost predicate Resumes(trace: seq<State>, xs: seq<Session>, first: int) {
    forall j :: 0 <= j < |xs| ==> SessionOk(trace, xs[j], Anchor(first, Received(trace, xs[..j])))
  }

  // ------------------------------------------------------------------ one session

  lemma PrefixRuns(trace: seq<State>, steps: seq<Step>, k: nat)
    requires SerialRun(trace, steps) && k <= |steps|
    ensures SerialRun(trace[..k + 1], steps[..k])
  {
    hide Enabled, Apply, SerialStep;
    var early, before := trace[..k + 1], steps[..k];
    forall i | 0 <= i < k ensures Link(early, before, i) && SerialStep(early[i], before[i]) {
      assert Link(trace, steps, i) && SerialStep(trace[i], steps[i]);
    }
  }

  lemma SendingSendsPrefix(log: seq<Event>, st: Stream)
    requires SentOk(st) && HistOk(log, st) && st.phase.Sending? && st.since > 0
    requires |Above(log[..st.readAt], st.since)| <= STREAM_REPLAY_LIMIT
    ensures st.sent <= Above(log, st.since)
  {
    AboveSplit(log, 0, st.readAt, st.since);
  }

  /** Whatever phase it was in, a clean stream has sent a prefix of the log above its anchor. */
  lemma SessionSends(trace: seq<State>, steps: seq<Step>, x: Session, anchor: int)
    requires SerialRun(trace, steps) && trace[0] == Init && SessionOk(trace, x, anchor) && anchor > 0
    ensures SentIn(trace, x) <= Above(trace[x.at].log, anchor)
  {
    var s := trace[x.at];
    if s.streams[x.id].phase.Live? {
      hide SerialRun, Run, Truncated, Dropped, Echo, Above;
      LiveSends(trace, steps, x.at, x.id);
    } else {
      SerialRunOk(trace, steps, x.at);
      hide SerialRun, Run, Inv, Truncated, Above;
      EarlyStream(s, x.id);
    }
  }

  lemma LiveSends(trace: seq<State>, steps: seq<Step>, k: nat, id: nat)
    requires SerialRun(trace, steps) && trace[0] == Init && k < |trace|
    requires id in trace[k].streams && trace[k].streams[id].phase.Live? && trace[k].streams[id].since > 0
    requires Clean(trace[k], trace[k].streams[id])
    ensures trace[k].streams[id].sent <= Above(trace[k].log, trace[k].streams[id].since)
  {
    PrefixRuns(trace, steps, k);
    var early, before := trace[..k + 1], steps[..k];
    assert early[|before|] == trace[k] && early[0] == Init;
    hide SerialRun, Run, Truncated, Dropped, Echo, Above, Tail;
    ExactlyOnceTail(early, before, id);
    SentIsInTail(trace[k], trace[k].streams[id]);
  }

  lemma SentIsInTail(s: State, st: Stream)
    ensures st.sent <= Tail(s, st)
  {
    hide Above, InFlight;
  }

  lemma EarlyStream(s: State, id: nat)
    requires Inv(s) && id in s.streams && !s.streams[id].phase.Live?
    requires s.streams[id].since > 0 && !Truncated(s, s.streams[id])
    ensures s.streams[id].sent <= Above(s.log, s.streams[id].since)
  {
    var st := s.streams[id];
    assert StreamOk(s.log, s.stored, st);
    hide Above, OfferedOk;
    if st.phase.Sending? {
      SendingSendsPrefix(s.log, st);
    }
  }

  // ------------------------------------------------------------------ resuming

  lemma {:induction false} AboveTwice(s: seq<Event>, n: int, m: int)
    requires n <= m
    ensures Above(Above(s, n), m) == Above(s, m)
  {
    if s != [] {
      AboveTwice(s[..|s| - 1], n, m);
      var e := s[|s| - 1];
      assert (Above(s[..|s| - 1], n) + [e])[..|Above(s[..|s| - 1], n)|] == Above(s[..|s| - 1], n);
    }
  }

  /** Resuming from the last of a prefix gives the rest. */
  lemma ResumeGivesRest(log: seq<Event>, since: int, got: seq<Event>)
    requires Increasing(log) && got <= Above(log, since) && got != []
    ensures got + Above(log, got[|got| - 1].seqNo) == Above(log, since)
    ensures got[|got| - 1].seqNo > since
  {
    hide Above, Increasing;
    var last, rest := got[|got| - 1], Above(log, since)[|got|..];
    assert Above(log, since) == got + rest && (got + rest)[|got| - 1] == last;
    AboveIncreasing(log, since);
    AboveMembers(log, since, last);
    AtTheLast(got, rest);
    AboveTwice(log, since, last.seqNo);
    AboveConcat(got, rest, last.seqNo);
    AboveNone(got, last.seqNo);
    AboveAll(rest, last.seqNo);
  }

  lemma AtTheLast(got: seq<Event>, rest: seq<Event>)
    requires Increasing(got + rest) && got != []
    ensures forall e :: e in got ==> e.seqNo <= got[|got| - 1].seqNo
    ensures forall e :: e in rest ==> e.seqNo > got[|got| - 1].seqNo
  {
    var all, n := got + rest, |got|;
    assert forall i :: 0 <= i < n ==> all[i] == got[i];
    forall e | e in rest ensures e.seqNo > got[n - 1].seqNo {
      var i :| 0 <= i < |rest| && rest[i] == e;
      assert all[n + i] == e && all[n - 1] == got[n - 1];
    }
  }

  lemma AboveOfLonger(early: seq<Event>, log: seq<Event>, n: int)
    requires early <= log
    ensures Above(early, n) <= Above(log, n)
  {
    assert log == early + log[|early|..];
    AboveConcat(early, log[|early|..], n);
  }

  lemma AnchorStep(first: int, received: seq<Event>, more: seq<Event>)
    ensures Anchor(first, received + more) == Anchor(Anchor(first, received), more)
  {
  }

  /** Over any number of sessions, what was received and what the log holds above the last of it is
      the log above the first anchor, once and in order. */
  lemma {:induction false} ResumptionLosesNothing(trace: seq<State>, steps: seq<Step>, xs: seq<Session>, first: int)
    requires SerialRun(trace, steps) && trace[0] == Init && first > 0 && Resumes(trace, xs, first)
    ensures var log, got := trace[|steps|].log, Received(trace, xs);
      got + Above(log, Anchor(first, got)) == Above(log, first) && Anchor(first, got) > 0
    decreases |xs|
  {
    if xs != [] {
      var front, x := xs[..|xs| - 1], xs[|xs| - 1];
      ResumesFront(trace, xs, first);
      ResumptionLosesNothing(trace, steps, front, first);
      SessionAdds(trace, steps, x, first, Received(trace, front));
    }
  }

  lemma ResumesFront(trace: seq<State>, xs: seq<Session>, first: int)
    requires Resumes(trace, xs, first) && xs != []
    ensures Resumes(trace, xs[..|xs| - 1], first)
    ensures SessionOk(trace, xs[|xs| - 1], Anchor(first, Received(trace, xs[..|xs| - 1])))
  {
    hide SessionOk, Received, Anchor;
    assert forall j :: 0 <= j < |xs| ==> xs[..|xs| - 1][..j] == xs[..j];
  }

  lemma SessionAdds(trace: seq<State>, steps: seq<Step>, x: Session, first: int, before: seq<Event>)
    requires SerialRun(trace, steps) && trace[0] == Init
    requires Anchor(first, before) > 0 && SessionOk(trace, x, Anchor(first, before))
    requires before + Above(trace[|steps|].log, Anchor(first, before)) == Above(trace[|steps|].log, first)
    ensures var log, got := trace[|steps|].log, before + SentIn(trace, x);
      got + Above(log, Anchor(first, got)) == Above(log, first) && Anchor(first, got) > 0
  {
    var early, log, anchor, sent := trace[x.at].log, trace[|steps|].log, Anchor(first, before), SentIn(trace, x);
    SerialRunOk(trace, steps, |steps|);
    SessionSends(trace, steps, x, anchor);
    LogGrows(trace, steps, x.at, |steps|);
    hide SerialRun, Run, Link, SerialOk, SessionOk, SentIn, Above;
    AboveOfLonger(early, log, anchor);
    AddPrefix(log, first, before, sent);
  }

  lemma AddPrefix(log: seq<Event>, first: int, before: seq<Event>, sent: seq<Event>)
    requires Increasing(log) && Anchor(first, before) > 0 && sent <= Above(log, Anchor(first, before))
    requires before + Above(log, Anchor(first, before)) == Above(log, first)
    ensures var got := before + sent; got + Above(log, Anchor(first, got)) == Above(log, first) && Anchor(first, got) > 0
  {
    hide Above, Increasing;
    AnchorStep(first, before, sent);
    if sent == [] {
      assert before + sent == before;
    } else {
      ResumeGivesRest(log, Anchor(first, before), sent);
    }
  }

  /** So at every moment of a run: what the client received in the sessions it lost, followed by
      what the stream it now follows delivers, is every event above its first anchor, once and in
      order, however often it reconnected and whatever was ingested in between. */
  lemma ReconnectingTail(trace: seq<State>, steps: seq<Step>, xs: seq<Session>, first: int, id: nat)
    requires SerialRun(trace, steps) && trace[0] == Init && first > 0 && Resumes(trace, xs, first)
    requires var s := trace[|steps|];
      && id in s.streams && s.streams[id].phase.Live?
      && s.streams[id].since == Anchor(first, Received(trace, xs)) && Clean(s, s.streams[id])
    ensures var s := trace[|steps|];
      Received(trace, xs) + Tail(s, s.streams[id]) == Above(s.log, first)
  {
    hide SerialRun, Run, Resumes, Truncated, Dropped, Echo, Above, Tail;
    ResumptionLosesNothing(trace, steps, xs, first);
    ExactlyOnceTail(trace, steps, id);
  }

  lemma LogFacts(s: State)
    requires SerialOk(s)
    ensures Increasing(s.log) && forall e :: e in s.log ==> e.seqNo >= 1
  {
    hide StreamOk, SerialStreamOk;
  }

  /** And with the history taken first, every message of the task once and in order. */
  lemma ReconnectingHandoff(trace: seq<State>, steps: seq<Step>, k: nat, xs: seq<Session>, id: nat)
    requires SerialRun(trace, steps) && trace[0] == Init && k <= |steps|
    requires trace[k].log != [] && |trace[k].log| <= HISTORY_LIMIT
    requires Resumes(trace, xs, MaxSeq(trace[k].log))
    requires var s := trace[|steps|];
      && id in s.streams && s.streams[id].phase.Live?
      && s.streams[id].since == Anchor(MaxSeq(trace[k].log), Received(trace, xs)) && Clean(s, s.streams[id])
    ensures var s := trace[|steps|];
      Messages(trace[k].log) + Messages(Received(trace, xs)) + Messages(Tail(s, s.streams[id])) == Messages(s.log)
  {
    var s, early := trace[|steps|], trace[k].log;
    LogGrows(trace, steps, k, |steps|);
    SerialRunOk(trace, steps, |steps|);
    LogFacts(s);
    HandoffTail(early, s.log);
    hide SerialRun, Run, SerialOk, Inv, Clean, Resumes, Tail, Messages, Received, Above;
    ReconnectingTail(trace, steps, xs, MaxSeq(early), id);
    HandoffJoins(early, s.log, Received(trace, xs), Tail(s, s.streams[id]));
  }

  lemma HandoffJoins(early: seq<Event>, log: seq<Event>, received: seq<Event>, tail: seq<Event>)
    requires early <= log && |early| <= HISTORY_LIMIT && received + tail == log[|early|..]
    ensures Messages(early) + Messages(received) + Messages(tail) == Messages(log)
  {
    HandoffMessages(early, log, HISTORY_LIMIT);
    MessagesConcat(received, tail);
    Text.Assoc(Messages(early), Messages(received), Messages(tail));
  }
}
