/** The handoff from a history to a stream, said by the places of the log the messages come from. */
module HandoffHistory {
  import opened Options
  import opened Events
  import opened MessageHistory
  import opened Delivery
  import opened SerialDelivery
  import opened Reconnection

  /** The handoff in these terms: any history of the log as it was, followed by any history of what
      the stream anchored there delivers, is the history of the log as it is. */
  lemma HandoffIsWholeHistory(trace: seq<State>, steps: seq<Step>, k: nat, id: nat, h: seq<Payload>, tail: seq<Payload>)
    requires SerialRun(trace, steps) && trace[0] == Init && k <= |steps| && trace[k].log != [] && |trace[k].log| <= 100000
    requires var s := trace[|steps|];
      id in s.streams && s.streams[id].phase.Live? && s.streams[id].since == MaxSeq(trace[k].log)
    requires var s := trace[|steps|]; var st := s.streams[id]; !Truncated(s, st) && !Dropped(st) && !Echo(s, st)
    requires HistoryOf(h, trace[k].log) && HistoryOf(tail, Tail(trace[|steps|], trace[|steps|].streams[id]))
    ensures HistoryOf(h + tail, trace[|steps|].log)
  {
    LosslessHandoff(trace, steps, k, id);
    hide SerialRun, Run, Tail, Truncated, Dropped, Echo, Messages, HistoryOf;
    var s := trace[|steps|];
    MessagesAreHistory(trace[k].log);
    MessagesAreHistory(Tail(s, s.streams[id]));
    MessagesAreHistory(s.log);
    HistoryIsUnique(h, Messages(trace[k].log), trace[k].log);
    HistoryIsUnique(tail, Messages(Tail(s, s.streams[id])), Tail(s, s.streams[id]));
  }

  /** The same over any number of reconnections. */
  lemma ReconnectingIsWholeHistory(trace: seq<State>, steps: seq<Step>, k: nat, xs: seq<Session>, id: nat,
                                   h: seq<Payload>, received: seq<Payload>, tail: seq<Payload>)
    requires SerialRun(trace, steps) && trace[0] == Init && k <= |steps|
    requires trace[k].log != [] && |trace[k].log| <= HISTORY_LIMIT
    requires Resumes(trace, xs, MaxSeq(trace[k].log))
    requires var s := trace[|steps|];
      && id in s.streams && s.streams[id].phase.Live?
      && s.streams[id].since == Anchor(MaxSeq(trace[k].log), Received(trace, xs)) && Clean(s, s.streams[id])
    requires HistoryOf(h, trace[k].log) && HistoryOf(received, Received(trace, xs))
    requires HistoryOf(tail, Tail(trace[|steps|], trace[|steps|].streams[id]))
    ensures HistoryOf(h + received + tail, trace[|steps|].log)
  {
    ReconnectingHandoff(trace, steps, k, xs, id);
    hide SerialRun, Run, Tail, Clean, Resumes, Received, Messages, HistoryOf;
    var s := trace[|steps|];
    MessagesAreHistory(trace[k].log);
    MessagesAreHistory(Received(trace, xs));
    MessagesAreHistory(Tail(s, s.streams[id]));
    MessagesAreHistory(s.log);
    HistoryIsUnique(h, Messages(trace[k].log), trace[k].log);
    HistoryIsUnique(received, Messages(Received(trace, xs)), Received(trace, xs));
    HistoryIsUnique(tail, Messages(Tail(s, s.streams[id])), Tail(s, s.streams[id]));
  }
}
