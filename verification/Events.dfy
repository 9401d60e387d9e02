/** Task events, the per-task replay log, and what the event pipeline keeps for one task. */
module Events {
  import opened Options

  /** What decoding an event's JSON payload yields. Only `message_end` payloads with a
      non-empty role count as messages; every other payload is opaque here. */
  datatype Payload = Opaque(text: string) | Message(role: string, text: string)

  datatype Event = Event(seqNo: int, kind: string, payload: Payload, timestamp: int)

  const CHANNEL_CAPACITY := 256
  const STREAM_REPLAY_LIMIT := 5000
  const HISTORY_LIMIT := 100000

  /** The events of `s` numbered above `n`, in order. */
  function Above(s: seq<Event>, n: int): seq<Event> {
    if s == [] then []
    else
      var rest := Above(s[..|s| - 1], n);
      var e := s[|s| - 1];
      if e.seqNo > n then rest + [e] else rest
  }

  /** The events of `s` that are not in `lost`, in order. */
  function Without(s: seq<Event>, lost: set<Event>): seq<Event> {
    if s == [] then []
    else
      var rest := Without(s[..|s| - 1], lost);
      var e := s[|s| - 1];
      if e in lost then rest else rest + [e]
  }

  /** The last `limit` elements, or everything when there are no more than that. */
  function Newest(s: seq<Event>, limit: nat): seq<Event> {
    if |s| > limit then s[|s| - limit..] else s
  }

  /** What a replay of `log` returns: the newest `limit` events numbered above `since`. */
  function Replayed(log: seq<Event>, since: int, limit: nat): seq<Event> {
    Newest(Above(log, since), limit)
  }

  /** The largest sequence number in `s`, and at least zero. */
  function MaxSeq(s: seq<Event>): int {
    if s == [] then 0
    else
      var m := MaxSeq(s[..|s| - 1]);
      if s[|s| - 1].seqNo > m then s[|s| - 1].seqNo else m
  }

  predicate IsMessage(e: Event) {
    e.kind == "message_end" && e.payload.Message? && e.payload.role != ""
  }

  /** The well-formed finished messages of `s`, in order. */
  function Messages(s: seq<Event>): seq<Payload> {
    if s == [] then []
    else
      var rest := Messages(s[..|s| - 1]);
      var e := s[|s| - 1];
      if IsMessage(e) then rest + [e.payload] else rest
  }

  /** Offering an event to a buffered channel: a full channel drops it. */
  function Push(chan: seq<Event>, e: Event): seq<Event> {
    if |chan| < CHANNEL_CAPACITY then chan + [e] else chan
  }

  /** Everything the pipeline holds for one task: the sequence counter, the log, the
      last-activity marker and the channels of the live subscribers. */
  datatype TaskPipe = TaskPipe(counter: int, log: seq<Event>, marker: Option<int>, chans: map<nat, seq<Event>>)

  const EmptyPipe := TaskPipe(0, [], None, map[])

  function PushAll(chans: map<nat, seq<Event>>, e: Event): map<nat, seq<Event>> {
    map id | id in chans :: Push(chans[id], e)
  }

  function NextEvent(p: TaskPipe, kind: string, payload: Payload, now: int): Event {
    Event(p.counter + 1, kind, payload, now)
  }

  /** A completed ingest: number, persist, mark activity, fan out. */
  function Ingested(p: TaskPipe, kind: string, payload: Payload, now: int): TaskPipe {
    var e := NextEvent(p, kind, payload, now);
    TaskPipe(e.seqNo, p.log + [e], Some(now), PushAll(p.chans, e))
  }

  ghost predicate Increasing(s: seq<Event>) {
    forall i, j :: 0 <= i < j < |s| ==> s[i].seqNo < s[j].seqNo
  }

  lemma {:induction false} AboveConcat(s: seq<Event>, t: seq<Event>, n: int)
    ensures Above(s + t, n) == Above(s, n) + Above(t, n)
    decreases |t|
  {
    if t == [] {
      assert s + t == s;
    } else {
      assert (s + t)[..|s + t| - 1] == s + t[..|t| - 1];
      AboveConcat(s, t[..|t| - 1], n);
    }
  }

  lemma {:induction false} AboveMembers(s: seq<Event>, n: int, e: Event)
    ensures e in Above(s, n) <==> e in s && e.seqNo > n
    decreases |s|
  {
    if s != [] {
      AboveMembers(s[..|s| - 1], n, e);
      assert s == s[..|s| - 1] + [s[|s| - 1]];
    }
  }

  lemma {:induction false} AboveAll(s: seq<Event>, n: int)
    requires forall e :: e in s ==> e.seqNo > n
    ensures Above(s, n) == s
    decreases |s|
  {
    if s != [] {
      assert s == s[..|s| - 1] + [s[|s| - 1]];
      AboveAll(s[..|s| - 1], n);
    }
  }

  lemma {:induction false} AboveNone(s: seq<Event>, n: int)
    requires forall e :: e in s ==> e.seqNo <= n
    ensures Above(s, n) == []
    decreases |s|
  {
    if s != [] {
      assert s == s[..|s| - 1] + [s[|s| - 1]];
      AboveNone(s[..|s| - 1], n);
    }
  }

  lemma {:induction false} AboveIncreasing(s: seq<Event>, n: int)
    requires Increasing(s)
    ensures Increasing(Above(s, n))
    decreases |s|
  {
    if s != [] {
      var front := s[..|s| - 1];
      AboveIncreasing(front, n);
      forall e | e in Above(front, n) ensures e.seqNo < s[|s| - 1].seqNo {
        AboveMembers(front, n, e);
      }
    }
  }

  lemma {:induction false} WithoutMembers(s: seq<Event>, lost: set<Event>, e: Event)
    ensures e in Without(s, lost) <==> e in s && e !in lost
    decreases |s|
  {
    if s != [] {
      WithoutMembers(s[..|s| - 1], lost, e);
      assert s == s[..|s| - 1] + [s[|s| - 1]];
    }
  }

  lemma {:induction false} WithoutUnseen(s: seq<Event>, lost: set<Event>, e: Event)
    requires e !in s
    ensures Without(s, lost + {e}) == Without(s, lost)
    decreases |s|
  {
    if s != [] {
      assert s == s[..|s| - 1] + [s[|s| - 1]];
      WithoutUnseen(s[..|s| - 1], lost, e);
    }
  }

  lemma {:induction false} MaxSeqBounds(s: seq<Event>)
    ensures MaxSeq(s) >= 0
    ensures forall e :: e in s ==> e.seqNo <= MaxSeq(s)
    ensures MaxSeq(s) == 0 || exists e :: e in s && e.seqNo == MaxSeq(s)
    decreases |s|
  {
    if s != [] {
      assert s == s[..|s| - 1] + [s[|s| - 1]];
      MaxSeqBounds(s[..|s| - 1]);
      assert s[|s| - 1] in s;
    }
  }

  lemma {:induction false} MessagesConcat(s: seq<Event>, t: seq<Event>)
    ensures Messages(s + t) == Messages(s) + Messages(t)
    decreases |t|
  {
    if t == [] {
      assert s + t == s;
    } else {
      assert (s + t)[..|s + t| - 1] == s + t[..|t| - 1];
      MessagesConcat(s, t[..|t| - 1]);
    }
  }

  lemma IncreasingTop(s: seq<Event>)
    requires s != [] && Increasing(s) && s[0].seqNo >= 0
    ensures MaxSeq(s) == s[|s| - 1].seqNo
  {
    MaxSeqBounds(s);
    assert s[|s| - 1] in s;
  }

  /** A stream's replay is whole up to 5000 events, and misses the oldest beyond that; a channel takes
      256 events. */
  lemma LimitsInNumbers(log: seq<Event>, since: int, chan: seq<Event>, e: Event)
    ensures |Above(log, since)| <= 5000 ==> Replayed(log, since, STREAM_REPLAY_LIMIT) == Above(log, since)
    ensures |Above(log, since)| > 5000 ==>
      Replayed(log, since, STREAM_REPLAY_LIMIT) == Above(log, since)[|Above(log, since)| - 5000..]
    ensures Push(chan, e) == if |chan| < 256 then chan + [e] else chan
  {
  }
}
