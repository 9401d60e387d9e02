/** The message history of a task, said by the places of the log it is taken from. */
module MessageHistory {
  import opened Options
  import opened Events
  import opened Sorting

  /** A finished message: an event of that kind whose payload decodes with some role. */
  ghost predicate Finished(e: Event) {
    e.kind == "message_end" && exists role, text :: e.payload == Message(role, text) && role != ""
  }

  /** `places` are the places of the finished messages of `log`, in order. */
  ghost predicate PlacesOf(places: seq<nat>, log: seq<Event>) {
    && (forall i, j :: 0 <= i < j < |places| ==> places[i] < places[j])
    && forall k: nat :: k in places <==> k < |log| && Finished(log[k])
  }

  /** `ms` are the payloads at the places of the finished messages of `log`, in order. */
  ghost predicate HistoryOf(ms: seq<Payload>, log: seq<Event>) {
    exists places: seq<nat> :: PlacesOf(places, log) && PayloadsAt(ms, places, log)
  }

  ghost predicate PayloadsAt(ms: seq<Payload>, places: seq<nat>, log: seq<Event>) {
    |ms| == |places| && forall i :: 0 <= i < |ms| ==> places[i] < |log| && ms[i] == log[places[i]].payload
  }

  lemma FinishedIsMessage(e: Event)
    ensures Finished(e) <==> IsMessage(e)
  {
    if e.payload.Message? {
      assert e.payload == Message(e.payload.role, e.payload.text);
    }
  }

  lemma PlacesSnoc(places: seq<nat>, front: seq<Event>, e: Event)
    requires PlacesOf(places, front)
    ensures PlacesOf(if Finished(e) then places + [|front|] else places, front + [e])
  {
    hide Finished;
    var log := front + [e];
    assert forall k :: 0 <= k < |front| ==> log[k] == front[k];
    forall i | 0 <= i < |places| ensures places[i] < |front| {
      assert places[i] in places;
    }
  }

  lemma NothingHasNoHistory()
    ensures HistoryOf([], [])
  {
    var places: seq<nat> := [];
    assert PlacesOf(places, []) && PayloadsAt([], places, []);
  }

  lemma {:induction false} MessagesAreHistory(log: seq<Event>)
    ensures HistoryOf(Messages(log), log)
  {
    hide HistoryOf, IsMessage;
    if log == [] {
      NothingHasNoHistory();
    } else {
      hide Messages;
      var front, e := log[..|log| - 1], log[|log| - 1];
      assert front + [e] == log;
      MessagesAreHistory(front);
      HistorySnoc(Messages(front), front, e);
      MessagesSnoc(front, e);
    }
  }

  lemma HistorySnoc(ms: seq<Payload>, front: seq<Event>, e: Event)
    requires HistoryOf(ms, front)
    ensures HistoryOf(if IsMessage(e) then ms + [e.payload] else ms, front + [e])
  {
    hide Finished, IsMessage, PlacesOf, PayloadsAt;
    var places: seq<nat> :| PlacesOf(places, front) && PayloadsAt(ms, places, front);
    FinishedIsMessage(e);
    PlacesSnoc(places, front, e);
    PayloadsSnoc(ms, places, front, e);
  }

  lemma PayloadsSnoc(ms: seq<Payload>, places: seq<nat>, front: seq<Event>, e: Event)
    requires PayloadsAt(ms, places, front)
    ensures PayloadsAt(ms + [e.payload], places + [|front|], front + [e]) && PayloadsAt(ms, places, front + [e])
  {
    var log := front + [e];
    assert log[|front|] == e && forall k :: 0 <= k < |front| ==> log[k] == front[k];
  }

  lemma MessagesSnoc(front: seq<Event>, e: Event)
    ensures Messages(front + [e]) == if IsMessage(e) then Messages(front) + [e.payload] else Messages(front)
  {
    assert (front + [e])[..|front|] == front;
  }

  /** There is only one history of a log. */
  lemma HistoryIsUnique(a: seq<Payload>, b: seq<Payload>, log: seq<Event>)
    requires HistoryOf(a, log) && HistoryOf(b, log)
    ensures a == b
  {
    hide Finished;
    var x: seq<nat> :| PlacesOf(x, log) && PayloadsAt(a, x, log);
    var y: seq<nat> :| PlacesOf(y, log) && PayloadsAt(b, y, log);
    var less := (i: nat, j: nat) => i < j;
    AscendingUnique(x, y, less);
  }

  /** What GetMessages returns, if the log is not longer than it reads: the payloads of exactly the
      finished messages of the log, of every role, in order, and the number of the last event. */
  lemma HistoryIsWhole(log: seq<Event>, messages: seq<Payload>, lastSeq: int)
    requires Increasing(log) && (forall e :: e in log ==> e.seqNo >= 1) && |log| <= 100000
    requires messages == Messages(Replayed(log, 0, HISTORY_LIMIT)) && lastSeq == MaxSeq(Replayed(log, 0, HISTORY_LIMIT))
    ensures HistoryOf(messages, log)
    ensures lastSeq == if log == [] then 0 else log[|log| - 1].seqNo
  {
    AboveAll(log, 0);
    MessagesAreHistory(log);
    if log != [] {
      assert log[0] in log;
      IncreasingTop(log);
    }
  }
}
