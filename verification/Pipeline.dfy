/**
 The event pipeline service for all tasks: sequence counters, replay logs and activity
 markers in Redis, and the in-process table of live subscribers. Every method is tied to the
 per-task value `View(task)` and leaves the other tasks alone.
 */
module Pipelines {
  import opened Options
  import opened Events
  import MessageHistory
  import Delivery

  type TaskId = string

  /** How Redis answers the persisting batch: all of it applied, nothing applied, or the log
      entry appended and a later command of the batch failed. */
  datatype Batch = Applied | Refused | AppendedOnly

  /** What one ingest does to its task: a failed INCR changes nothing, a refused batch burns the
      number, and a batch that only appended leaves the event in the log without telling any
      subscriber. */
  function IngestOutcome(p: TaskPipe, kind: string, payload: Payload, now: int, incrOk: bool, batch: Batch): TaskPipe {
    if !incrOk then p
    else if batch.Refused? then p.(counter := p.counter + 1)
    else if batch.AppendedOnly? then p.(counter := p.counter + 1, log := p.log + [NextEvent(p, kind, payload, now)])
    else Ingested(p, kind, payload, now)
  }

  /** What is left of a task by each answer of the store: a number is spent once it is given out; the
      event is in the log, last, unless the batch was refused; and only a batch applied in full marks
      the activity and reaches the subscribers. */
  lemma OutcomesByAnswer(p: TaskPipe, kind: string, payload: Payload, now: int, incrOk: bool, batch: Batch)
    ensures var q := IngestOutcome(p, kind, payload, now, incrOk, batch);
      && q.counter == (if incrOk then p.counter + 1 else p.counter)
      && q.log == (if incrOk && batch != Refused then p.log + [Event(p.counter + 1, kind, payload, now)] else p.log)
      && q.marker == (if incrOk && batch == Applied then Some(now) else p.marker)
      && q.chans.Keys == p.chans.Keys
      && forall id | id in p.chans ::
        q.chans[id] == if incrOk && batch == Applied && |p.chans[id]| < 256
          then p.chans[id] + [Event(p.counter + 1, kind, payload, now)] else p.chans[id]
  {
  }

  class Pipeline {
    var counters: map<TaskId, int>
    var logs: map<TaskId, seq<Event>>
    var markers: map<TaskId, int>
    var subs: map<TaskId, map<nat, seq<Event>>>
    var subSeq: nat

    /** Subscriber ids are handed out once, and a task without subscribers has no entry. */
    ghost predicate Valid()
      reads this`subs, this`subSeq
    {
      forall t :: t in subs ==> subs[t] != map[] && forall id :: id in subs[t] ==> id <= subSeq
    }

    function View(task: TaskId): TaskPipe
      reads this
    {
      TaskPipe(
        if task in counters then counters[task] else 0,
        if task in logs then logs[task] else [],
        if task in markers then Some(markers[task]) else None,
        if task in subs then subs[task] else map[])
    }

    constructor ()
      ensures Valid() && forall t :: View(t) == EmptyPipe
    {
      counters, logs, markers, subs, subSeq := map[], map[], map[], map[], 0;
    }

    /** Numbers an event, persists it and fans it out. */
    method Ingest(task: TaskId, kind: string, payload: Payload, now: int, incrOk: bool, batch: Batch)
      returns (r: Option<Event>)
      requires Valid()
      modifies this
      ensures Valid()
      ensures r == (if incrOk && batch.Applied? then Some(NextEvent(old(View(task)), kind, payload, now)) else None)
      ensures View(task) == IngestOutcome(old(View(task)), kind, payload, now, incrOk, batch)
      ensures forall t :: t != task ==> View(t) == old(View(t))
    {
      if !incrOk {
        return None;
      }
      var seqNo := Increment(task);
      var e := Event(seqNo, kind, payload, now);
      Persist(task, e, batch);
      if batch.Applied? {
        FanOut(task, e);
        r := Some(e);
      } else {
        r := None;
      }
    }

    /** The persisting batch: append to the log, mark the activity. */
    method Persist(task: TaskId, e: Event, batch: Batch)
      modifies this`logs, this`markers
      ensures logs == (if batch.Refused? then old(logs) else old(logs)[task := old(View(task)).log + [e]])
      ensures markers == (if batch.Applied? then old(markers)[task := e.timestamp] else old(markers))
    {
      if !batch.Refused? {
        logs := logs[task := (if task in logs then logs[task] else []) + [e]];
      }
      if batch.Applied? {
        markers := markers[task := e.timestamp];
      }
    }

    method Increment(task: TaskId) returns (seqNo: int)
      modifies this`counters
      ensures seqNo == old(View(task)).counter + 1
      ensures counters == old(counters)[task := seqNo]
    {
      seqNo := (if task in counters then counters[task] else 0) + 1;
      counters := counters[task := seqNo];
    }

    /** Offers `e` to every live subscriber, in whatever order the table yields them. */
    method FanOut(task: TaskId, e: Event)
      requires Valid()
      modifies this`subs
      ensures Valid()
      ensures subs == if task in old(subs) then old(subs)[task := PushAll(old(subs)[task], e)] else old(subs)
    {
      if task !in subs {
        return;
      }
      var before := subs[task];
      var chans := before;
      var todo := before.Keys;
      while todo != {}
        invariant todo <= before.Keys == chans.Keys
        invariant forall id :: id in before ==> chans[id] == if id in todo then before[id] else Push(before[id], e)
      {
        var id :| id in todo;
        chans := chans[id := Push(chans[id], e)];
        todo := todo - {id};
      }
      assert chans == PushAll(before, e);
      assert chans != map[] by {
        var id :| id in before;
        assert id in chans;
      }
      subs := subs[task := chans];
    }

    /** Registers a live channel under an id no subscriber has ever had. */
    method Subscribe(task: TaskId) returns (id: nat)
      requires Valid()
      modifies this`subs, this`subSeq
      ensures Valid()
      ensures forall t :: id !in old(View(t)).chans
      ensures View(task) == old(View(task)).(chans := old(View(task)).chans[id := []])
      ensures forall t :: t != task ==> View(t) == old(View(t))
    {
      var chans: map<nat, seq<Event>> := if task in subs then subs[task] else map[];
      subSeq := subSeq + 1;
      id := subSeq;
      subs := subs[task := chans[id := []]];
      assert id in subs[task];
    }

    /** Cancelling drops the channel, and the task's entry with its last channel. */
    method Cancel(task: TaskId, id: nat)
      requires Valid()
      modifies this`subs
      ensures Valid()
      ensures View(task) == old(View(task)).(chans := old(View(task)).chans - {id})
      ensures forall t :: t != task ==> View(t) == old(View(t))
    {
      if task in subs {
        var chans := subs[task] - {id};
        if chans == map[] {
          subs := subs - {task};
        } else {
          subs := subs[task := chans];
        }
      }
    }

    /** A subscriber takes the oldest event off its channel. */
    method Take(task: TaskId, id: nat) returns (e: Event)
      requires Valid() && id in View(task).chans && View(task).chans[id] != []
      modifies this`subs
      ensures Valid()
      ensures e == old(View(task)).chans[id][0]
      ensures View(task) == old(View(task)).(chans := old(View(task)).chans[id := old(View(task)).chans[id][1..]])
      ensures forall t :: t != task ==> View(t) == old(View(t))
    {
      var chans: map<nat, seq<Event>> := subs[task];
      e := chans[id][0];
      chans := chans[id := chans[id][1..]];
      subs := subs[task := chans];
      assert id in subs[task];
    }

    /** Deletes the task's log and counter; the activity marker is left to expire. */
    method Forget(task: TaskId)
      requires Valid()
      modifies this`logs, this`counters
      ensures Valid()
      ensures View(task) == old(View(task)).(log := [], counter := 0)
      ensures forall t :: t != task ==> View(t) == old(View(t))
    {
      logs := logs - {task};
      counters := counters - {task};
    }

    /** Scans the whole log, keeps what lies above `since` and then only the newest `limit`. */
    method Replay(task: TaskId, since: int, limit: nat) returns (out: seq<Event>)
      ensures out == Replayed(View(task).log, since, limit)
    {
      var entries := if task in logs then logs[task] else [];
      out := [];
      for i := 0 to |entries|
        invariant out == Above(entries[..i], since)
      {
        assert entries[..i + 1][..i] == entries[..i];
        if entries[i].seqNo > since {
          out := out + [entries[i]];
        }
      }
      assert entries[..|entries|] == entries;
      if |out| > limit {
        out := out[|out| - limit..];
      }
    }

    /** The message history and the reattach anchor, the maximum over all scanned events. */
    method GetMessages(task: TaskId) returns (messages: seq<Payload>, lastSeq: int)
      ensures messages == Messages(Replayed(View(task).log, 0, HISTORY_LIMIT))
      ensures lastSeq == MaxSeq(Replayed(View(task).log, 0, HISTORY_LIMIT))
      ensures MessageHistory.HistoryOf(messages, Replayed(View(task).log, 0, HISTORY_LIMIT))
    {
      var hist := Replay(task, 0, HISTORY_LIMIT);
      messages, lastSeq := [], 0;
      for i := 0 to |hist|
        invariant messages == Messages(hist[..i]) && lastSeq == MaxSeq(hist[..i])
      {
        assert hist[..i + 1][..i] == hist[..i];
        if hist[i].seqNo > lastSeq {
          lastSeq := hist[i].seqNo;
        }
        if IsMessage(hist[i]) {
          messages := messages + [hist[i].payload];
        }
      }
      assert hist[..|hist|] == hist;
      MessageHistory.MessagesAreHistory(hist);
    }
  }

  /** One StreamEvents handler: what it has sent and the largest replayed number. */
  class EventStream {
    var maxSeq: int
    var sent: seq<Event>

    constructor ()
      ensures maxSeq == 0 && sent == []
    {
      maxSeq, sent := 0, [];
    }

    /** Sends the replayed history, remembering its maximum. */
    method SendHistory(hist: seq<Event>)
      requires maxSeq == 0 && sent == []
      modifies this
      ensures sent == hist && maxSeq == MaxSeq(hist)
    {
      for i := 0 to |hist|
        invariant sent == hist[..i] && maxSeq == MaxSeq(hist[..i])
      {
        assert hist[..i + 1][..i] == hist[..i];
        sent := sent + [hist[i]];
        if hist[i].seqNo > maxSeq {
          maxSeq := hist[i].seqNo;
        }
      }
      assert hist[..|hist|] == hist;
    }

    /** Follows the channel until the stream is cancelled: `arrivals` are the events taken off
        it, and those at or below `maxSeq` are skipped. `maxSeq` itself no longer moves. */
    method Follow(arrivals: seq<Event>)
      modifies this`sent
      ensures sent == old(sent) + Above(arrivals, maxSeq)
    {
      for i := 0 to |arrivals|
        invariant sent == old(sent) + Above(arrivals[..i], maxSeq)
      {
        assert arrivals[..i + 1][..i] == arrivals[..i];
        if arrivals[i].seqNo > maxSeq {
          sent := sent + [arrivals[i]];
        }
      }
      assert arrivals[..|arrivals|] == arrivals;
    }
  }

  /** The anchor that GetMessages hands out is the log's own maximum, as long as numbers grow
      along the log. */
  lemma AnchorIsLogMax(log: seq<Event>, limit: nat)
    requires Increasing(log) && (forall e :: e in log ==> e.seqNo >= 1) && limit > 0
    ensures MaxSeq(Replayed(log, 0, limit)) == MaxSeq(log)
    ensures Messages(Replayed(log, 0, limit)) == Messages(Newest(log, limit))
  {
    AboveAll(log, 0);
    if log != [] {
      assert log[0] in log;
      IncreasingTop(log);
      var hist := Newest(log, limit);
      assert hist[0] in log;
      IncreasingTop(hist);
    }
  }

  /** What the protocol's state shows of the pipeline. */
  function Chans(streams: map<nat, Delivery.Stream>): map<nat, seq<Event>> {
    map id | id in streams :: streams[id].chan
  }

  /** An uninterrupted ingest is the three protocol steps in a row. */
  lemma IngestIsThreeSteps(s: Delivery.State, p: TaskPipe, kind: string, payload: Payload, now: int)
    requires s.numbered == {} && s.stored == {}
    requires p.counter == s.counter && p.log == s.log && p.chans == Chans(s.streams)
    ensures var e := NextEvent(p, kind, payload, now);
      var s1 := Delivery.Apply(s, Delivery.Number(kind, payload, now));
      && Delivery.Enabled(s1, Delivery.Store(e))
      && var s2 := Delivery.Apply(s1, Delivery.Store(e));
      && Delivery.Enabled(s2, Delivery.Announce(e))
      && var s3 := Delivery.Apply(s2, Delivery.Announce(e));
      && var p' := Ingested(p, kind, payload, now);
      && p'.counter == s3.counter && p'.log == s3.log && p'.chans == Chans(s3.streams)
      && s3.numbered == {} && s3.stored == {}
  {
  }
}
