/**
 The event pipeline of one task as a concurrent protocol.

 Any number of ingests and event streams run side by side. An ingest takes three steps
 (number, store, announce) and a stream takes many (open, read the log, send the history
 one event at a time, go live, take events off its channel), and the steps of all of them
 interleave freely. Nothing here assumes that ingests are serial, that a channel never
 overflows, or that the resume anchor is meaningful: those hypotheses appear in
 `SerialDelivery`, with the theorems that need them.
 */
module Delivery {
  import opened Options
  import opened Events

  /** `Sending(n)`: the log has been read and its first `n` events have been sent. */
  datatype Phase = Opened | Sending(next: nat) | Live

  /** One event stream. `since`, `phase`, `chan`, `maxSeq` and `sent` are what the handler holds.
      The remaining fields record its history: the replayed events, the length of the log when
      the stream was opened (and how much of it had been announced) and when the log was read,
      every event announced since the stream was opened, those of them that never entered the
      channel, and how many have been taken off the channel. */
  datatype Stream = Stream(
    since: int, phase: Phase, chan: seq<Event>, maxSeq: int, sent: seq<Event>,
    hist: seq<Event>, openedAt: nat, announcedAt: int, readAt: nat,
    offered: seq<Event>, missed: set<Event>, taken: nat)

  /** `numbered` holds the ingests between INCR and XADD, `stored` those between XADD and
      fan-out. */
  datatype State = State(
    counter: nat, log: seq<Event>, numbered: set<Event>, stored: set<Event>, streams: map<nat, Stream>)

  const Init := State(0, [], {}, {}, map[])

  datatype Step =
    | Number(kind: string, payload: Payload, now: int)
    | Abandon(event: Event)                  // the ingest fails before anything is stored
    | Store(event: Event)
    | Announce(event: Event)
    | Hush(event: Event)                     // stored, but the batch reported an error: no fan-out
    | Open(id: nat, since: int)
    | ReadLog(id: nat)
    | SendNext(id: nat)
    | GoLive(id: nat)
    | Receive(id: nat)
    | Close(id: nat)

  predicate Enabled(s: State, step: Step) {
    match step
    case Number(_, _, _) => true
    case Abandon(e) => e in s.numbered
    case Store(e) => e in s.numbered
    case Announce(e) => e in s.stored
    case Hush(e) => e in s.stored
    case Open(id, _) => id !in s.streams
    case ReadLog(id) => id in s.streams && s.streams[id].phase.Opened? && s.streams[id].since > 0
    case SendNext(id) => id in s.streams && s.streams[id].phase.Sending? && s.streams[id].phase.next < |s.streams[id].hist|
    case GoLive(id) => id in s.streams && (
      || (s.streams[id].phase.Opened? && s.streams[id].since <= 0)
      || (s.streams[id].phase.Sending? && s.streams[id].phase.next == |s.streams[id].hist|))
    case Receive(id) => id in s.streams && s.streams[id].phase.Live? && s.streams[id].chan != []
    case Close(id) => id in s.streams
  }

  /** How many events lie between store and announcement when ingests are serial. */
  function Pending(s: State): nat {
    if s.stored == {} then 0 else 1
  }

  function NewStream(since: int, s: State): Stream {
    Stream(since, Opened, [], 0, [], [], |s.log|, |s.log| - Pending(s), 0, [], {}, 0)
  }

  /** Offers `e` to a stream's channel; `heard` is false when the fan-out never happened. */
  function Offer(st: Stream, e: Event, heard: bool): Stream {
    if heard && |st.chan| < CHANNEL_CAPACITY
    then st.(chan := Push(st.chan, e), offered := st.offered + [e])
    else st.(offered := st.offered + [e], missed := st.missed + {e})
  }

  function OfferAll(streams: map<nat, Stream>, e: Event, heard: bool): map<nat, Stream> {
    map id | id in streams :: Offer(streams[id], e, heard)
  }

  function SendOne(st: Stream): Stream
    requires st.phase.Sending? && st.phase.next < |st.hist|
  {
    var e := st.hist[st.phase.next];
    st.(sent := st.sent + [e], maxSeq := if e.seqNo > st.maxSeq then e.seqNo else st.maxSeq,
        phase := Sending(st.phase.next + 1))
  }

  function TakeOne(st: Stream): Stream
    requires st.chan != []
  {
    var e := st.chan[0];
    st.(chan := st.chan[1..], taken := st.taken + 1,
        sent := if e.seqNo <= st.maxSeq then st.sent else st.sent + [e])
  }

  function Apply(s: State, step: Step): State
    requires Enabled(s, step)
  {
    match step
    case Number(kind, payload, now) =>
      s.(counter := s.counter + 1, numbered := s.numbered + {Event(s.counter + 1, kind, payload, now)})
    case Abandon(e) => s.(numbered := s.numbered - {e})
    case Store(e) => s.(numbered := s.numbered - {e}, stored := s.stored + {e}, log := s.log + [e])
    case Announce(e) => s.(stored := s.stored - {e}, streams := OfferAll(s.streams, e, true))
    case Hush(e) => s.(stored := s.stored - {e}, streams := OfferAll(s.streams, e, false))
    case Open(id, since) => s.(streams := s.streams[id := NewStream(since, s)])
    case ReadLog(id) =>
      var st := s.streams[id];
      var hist := Replayed(s.log, st.since, STREAM_REPLAY_LIMIT);
      s.(streams := s.streams[id := st.(hist := hist, readAt := |s.log|, phase := Sending(0))])
    case SendNext(id) => s.(streams := s.streams[id := SendOne(s.streams[id])])
    case GoLive(id) => s.(streams := s.streams[id := s.streams[id].(phase := Live)])
    case Receive(id) => s.(streams := s.streams[id := TakeOne(s.streams[id])])
    case Close(id) => s.(streams := s.streams - {id})
  }

  ghost predicate Link(trace: seq<State>, steps: seq<Step>, i: int)
    requires 0 <= i < |steps| && |trace| == |steps| + 1
  {
    Enabled(trace[i], steps[i]) && trace[i + 1] == Apply(trace[i], steps[i])
  }

  /** `trace` is a run: consecutive states are linked by enabled steps. */
  ghost predicate Run(trace: seq<State>, steps: seq<Step>) {
    && |trace| == |steps| + 1
    && forall i :: 0 <= i < |steps| ==> Link(trace, steps, i)
  }

  // ---------------------------------------------------------------- the general invariant

  function Accepted(st: Stream): seq<Event> {
    Without(st.offered, st.missed)
  }

  ghost predicate Distinct(s: seq<Event>) {
    forall i, j :: 0 <= i < j < |s| ==> s[i].seqNo != s[j].seqNo
  }

  ghost predicate NumbersOk(counter: nat, log: seq<Event>, numbered: set<Event>, stored: set<Event>) {
    && (forall e :: e in log ==> 1 <= e.seqNo <= counter)
    && (forall e :: e in numbered ==> 1 <= e.seqNo <= counter)
    && Distinct(log)
    && (forall e, f :: e in numbered && f in log ==> e.seqNo != f.seqNo)
    && (forall e, f :: e in numbered && f in numbered && e != f ==> e.seqNo != f.seqNo)
    && (forall e :: e in stored ==> e in log)
  }

  /** What has been sent is exactly the history so far plus the events taken off the channel
      that lie above the history. */
  ghost predicate SentOk(st: Stream) {
    && st.taken <= |Accepted(st)|
    && st.chan == Accepted(st)[st.taken..]
    && |st.chan| <= CHANNEL_CAPACITY
    && match st.phase
       case Opened => st.taken == 0 && st.sent == [] && st.hist == [] && st.maxSeq == 0
       case Sending(n) => n <= |st.hist| && st.taken == 0 && st.sent == st.hist[..n] && st.maxSeq == MaxSeq(st.hist[..n])
       case Live => st.maxSeq == MaxSeq(st.hist) && st.sent == st.hist + Above(Accepted(st)[..st.taken], st.maxSeq)
  }

  ghost predicate OfferedOk(log: seq<Event>, stored: set<Event>, st: Stream) {
    && Distinct(st.offered)
    && (forall e :: e in st.offered ==> e in log && e !in stored)
    && (forall e :: e in st.missed ==> e in st.offered)
    && st.openedAt <= |log|
    && (forall i :: st.openedAt <= i < |log| ==> log[i] in st.offered || log[i] in stored)
  }

  ghost predicate HistOk(log: seq<Event>, st: Stream) {
    if st.since <= 0 then !st.phase.Sending? && st.hist == []
    else if st.phase.Opened? then st.hist == []
    else
      && st.openedAt <= st.readAt <= |log|
      && st.hist == Replayed(log[..st.readAt], st.since, STREAM_REPLAY_LIMIT)
  }

  ghost predicate StreamOk(log: seq<Event>, stored: set<Event>, st: Stream) {
    SentOk(st) && OfferedOk(log, stored, st) && HistOk(log, st)
  }

  ghost predicate Inv(s: State) {
    && NumbersOk(s.counter, s.log, s.numbered, s.stored)
    && forall id :: id in s.streams ==> StreamOk(s.log, s.stored, s.streams[id])
  }

  lemma OfferKeepsSentOk(st: Stream, e: Event, heard: bool)
    requires SentOk(st) && e !in st.offered && forall f :: f in st.missed ==> f in st.offered
    ensures SentOk(Offer(st, e, heard))
  {
    var st' := Offer(st, e, heard);
    assert st'.offered[..|st'.offered| - 1] == st.offered;
    if heard && |st.chan| < CHANNEL_CAPACITY {
      assert Accepted(st') == Accepted(st) + [e];
      assert Accepted(st')[st.taken..] == Accepted(st)[st.taken..] + [e];
      assert Accepted(st')[..st.taken] == Accepted(st)[..st.taken];
    } else {
      WithoutUnseen(st.offered, st.missed, e);
      assert Accepted(st') == Accepted(st);
    }
  }

  lemma TakeKeepsSentOk(st: Stream)
    requires SentOk(st) && st.phase.Live? && st.chan != []
    ensures SentOk(TakeOne(st))
  {
    var a, n := Accepted(st), st.taken;
    assert st.chan[0] == a[n];
    assert a[..n + 1] == a[..n] + [a[n]];
    assert a[..n + 1][..n] == a[..n];
    assert Above(a[..n + 1], st.maxSeq) ==
      if a[n].seqNo > st.maxSeq then Above(a[..n], st.maxSeq) + [a[n]] else Above(a[..n], st.maxSeq);
  }

  lemma SendKeepsSentOk(st: Stream)
    requires SentOk(st) && st.phase.Sending? && st.phase.next < |st.hist|
    ensures SentOk(SendOne(st))
  {
    var n := st.phase.next;
    assert st.hist[..n + 1] == st.hist[..n] + [st.hist[n]];
    assert st.hist[..n + 1][..n] == st.hist[..n];
  }

  lemma OfferKeepsOfferedOk(s: State, s': State, st: Stream, e: Event, heard: bool)
    requires NumbersOk(s.counter, s.log, s.numbered, s.stored) && OfferedOk(s.log, s.stored, st) && e in s.stored
    requires s'.log == s.log && s'.stored == s.stored - {e}
    ensures OfferedOk(s'.log, s'.stored, Offer(st, e, heard))
  {
    forall f | f in st.offered ensures f.seqNo != e.seqNo {
      assert f in s.log && f != e;
    }
  }

  lemma AnnounceKeepsInv(s: State, e: Event, heard: bool)
    requires Inv(s) && e in s.stored
    ensures Inv(s.(stored := s.stored - {e}, streams := OfferAll(s.streams, e, heard)))
  {
    var s' := s.(stored := s.stored - {e}, streams := OfferAll(s.streams, e, heard));
    forall id | id in s'.streams ensures StreamOk(s'.log, s'.stored, s'.streams[id]) {
      var st := s.streams[id];
      assert StreamOk(s.log, s.stored, st);
      OfferKeepsSentOk(st, e, heard);
      OfferKeepsOfferedOk(s, s', st, e, heard);
    }
  }

  lemma StoreKeepsStream(s: State, e: Event, st: Stream)
    requires NumbersOk(s.counter, s.log, s.numbered, s.stored) && StreamOk(s.log, s.stored, st) && e in s.numbered
    ensures StreamOk(Apply(s, Store(e)).log, Apply(s, Store(e)).stored, st)
  {
    if st.readAt <= |s.log| {
      assert (s.log + [e])[..st.readAt] == s.log[..st.readAt];
    }
  }

  lemma StoreKeepsInv(s: State, e: Event)
    requires Inv(s) && e in s.numbered
    ensures Inv(Apply(s, Store(e)))
  {
    var s' := Apply(s, Store(e));
    forall id | id in s'.streams ensures StreamOk(s'.log, s'.stored, s'.streams[id]) {
      StoreKeepsStream(s, e, s.streams[id]);
    }
  }

  lemma NumberKeepsInv(s: State, step: Step)
    requires Inv(s) && Enabled(s, step) && (step.Number? || step.Abandon?)
    ensures Inv(Apply(s, step))
  {
    var s' := Apply(s, step);
    forall id | id in s'.streams ensures StreamOk(s'.log, s'.stored, s'.streams[id]) {
      assert StreamOk(s.log, s.stored, s.streams[id]);
    }
  }

  /** A step of one stream leaves the others alone. */
  lemma StreamStepKeepsInv(s: State, id: nat, st: Stream)
    requires Inv(s) && StreamOk(s.log, s.stored, st)
    ensures Inv(s.(streams := s.streams[id := st]))
  {
    var s' := s.(streams := s.streams[id := st]);
    forall k | k in s'.streams ensures StreamOk(s'.log, s'.stored, s'.streams[k]) {
      assert k != id ==> StreamOk(s.log, s.stored, s.streams[k]);
    }
  }

  lemma OwnStepKeepsStream(s: State, step: Step)
    requires Inv(s) && Enabled(s, step) && (step.ReadLog? || step.SendNext? || step.GoLive? || step.Receive?)
    ensures StreamOk(s.log, s.stored, Apply(s, step).streams[step.id])
  {
    var st := s.streams[step.id];
    assert StreamOk(s.log, s.stored, st);
    match step {
      case SendNext(_) => SendKeepsSentOk(st);
      case Receive(_) => TakeKeepsSentOk(st);
      case ReadLog(_) => assert s.log[..|s.log|] == s.log;
      case GoLive(_) =>
        assert st.hist[..|st.hist|] == st.hist;
        assert Accepted(st)[..0] == [];
    }
  }

  /** Every step of every ingest and of every stream keeps the invariant. */
  lemma StepKeepsInv(s: State, step: Step)
    requires Inv(s) && Enabled(s, step)
    ensures Inv(Apply(s, step))
  {
    match step {
      case Number(_, _, _) => NumberKeepsInv(s, step);
      case Abandon(_) => NumberKeepsInv(s, step);
      case Store(e) => StoreKeepsInv(s, e);
      case Announce(e) => AnnounceKeepsInv(s, e, true);
      case Hush(e) => AnnounceKeepsInv(s, e, false);
      case Open(id, since) => StreamStepKeepsInv(s, id, NewStream(since, s));
      case Close(_) =>
        var s' := Apply(s, step);
        forall k | k in s'.streams ensures StreamOk(s'.log, s'.stored, s'.streams[k]) {
          assert StreamOk(s.log, s.stored, s.streams[k]);
        }
      case _ =>
        OwnStepKeepsStream(s, step);
        StreamStepKeepsInv(s, step.id, Apply(s, step).streams[step.id]);
    }
  }

  lemma {:induction false} RunKeepsInv(trace: seq<State>, steps: seq<Step>, i: nat)
    requires Run(trace, steps) && trace[0] == Init && i < |trace|
    ensures Inv(trace[i])
  {
    if i > 0 {
      RunKeepsInv(trace, steps, i - 1);
      assert Link(trace, steps, i - 1);
      StepKeepsInv(trace[i - 1], steps[i - 1]);
    }
  }

  // ---------------------------------------------------- theorems for every interleaving

  lemma {:induction false} AboveDistinct(s: seq<Event>, n: int)
    requires Distinct(s)
    ensures Distinct(Above(s, n))
    decreases |s|
  {
    if s != [] {
      var front := s[..|s| - 1];
      AboveDistinct(front, n);
      forall e | e in Above(front, n) ensures e.seqNo != s[|s| - 1].seqNo {
        AboveMembers(front, n, e);
      }
    }
  }

  lemma {:induction false} WithoutDistinct(s: seq<Event>, lost: set<Event>)
    requires Distinct(s)
    ensures Distinct(Without(s, lost))
    decreases |s|
  {
    if s != [] {
      var front := s[..|s| - 1];
      WithoutDistinct(front, lost);
      forall e | e in Without(front, lost) ensures e.seqNo != s[|s| - 1].seqNo {
        WithoutMembers(front, lost, e);
      }
    }
  }

  lemma HistMembers(s: State, st: Stream)
    requires NumbersOk(s.counter, s.log, s.numbered, s.stored) && StreamOk(s.log, s.stored, st)
    ensures Distinct(st.hist)
    ensures forall e :: e in st.hist ==> e in s.log && e.seqNo > st.since && e.seqNo <= MaxSeq(st.hist)
  {
    MaxSeqBounds(st.hist);
    if st.hist != [] {
      var all := Above(s.log[..st.readAt], st.since);
      AboveDistinct(s.log[..st.readAt], st.since);
      forall e | e in st.hist ensures e in s.log && e.seqNo > st.since {
        assert e in all;
        AboveMembers(s.log[..st.readAt], st.since, e);
      }
    }
  }

  lemma AcceptedMembers(st: Stream, e: Event)
    ensures e in Accepted(st) <==> e in st.offered && e !in st.missed
  {
    WithoutMembers(st.offered, st.missed, e);
  }

  /** No stream ever sends the same event twice, and it sends only persisted events: for
      every interleaving, without any hypothesis on ingests, overflow or the anchor. */
  lemma AtMostOnce(trace: seq<State>, steps: seq<Step>, id: nat)
    requires Run(trace, steps) && trace[0] == Init && id in trace[|steps|].streams
    ensures var s := trace[|steps|];
      Distinct(s.streams[id].sent) && forall e :: e in s.streams[id].sent ==> e in s.log
  {
    var s := trace[|steps|];
    RunKeepsInv(trace, steps, |steps|);
    var st := s.streams[id];
    HistMembers(s, st);
    WithoutDistinct(st.offered, st.missed);
    if st.phase.Live? {
      var live := Accepted(st)[..st.taken];
      AboveDistinct(live, st.maxSeq);
      forall e | e in Above(live, st.maxSeq) ensures e.seqNo > st.maxSeq && e in s.log {
        AboveMembers(live, st.maxSeq, e);
        AcceptedMembers(st, e);
      }
    }
  }

  ghost predicate Queued(st: Stream, e: Event) {
    e in st.chan && e.seqNo > st.maxSeq
  }

  ghost predicate Coming(s: State, st: Stream, e: Event) {
    e in s.stored && e.seqNo > st.maxSeq
  }

  /** The three ways a live stream loses an event that its replay did not return: the event is
      numbered at or below the replay yet was stored after it, its channel offer was missed,
      or it was announced before the stream opened and cut off by the replay limit. */
  ghost predicate Lost(s: State, st: Stream, e: Event) {
    e !in st.hist && (e.seqNo <= st.maxSeq || e in st.missed || (e !in st.offered && e !in s.stored))
  }

  /** Accounting for every interleaving: each persisted event above the anchor is sent, queued,
      about to be announced, or lost, and it is only one of these. */
  lemma Accounting(trace: seq<State>, steps: seq<Step>, id: nat, e: Event)
    requires Run(trace, steps) && trace[0] == Init
    requires var s := trace[|steps|]; id in s.streams && s.streams[id].phase.Live? && s.streams[id].since > 0
    requires var s := trace[|steps|]; e in s.log && e.seqNo > s.streams[id].since
    ensures var s := trace[|steps|]; var st := s.streams[id];
      && (Lost(s, st, e) <==> !(e in st.sent || Queued(st, e) || Coming(s, st, e)))
      && !(e in st.sent && Queued(st, e))
      && !(e in st.sent && Coming(s, st, e))
      && !(Queued(st, e) && Coming(s, st, e))
  {
    var s := trace[|steps|];
    var st := s.streams[id];
    RunKeepsInv(trace, steps, |steps|);
    assert StreamOk(s.log, s.stored, st);
    HistMembers(s, st);
    DeliveredMembers(st, e);
  }

  lemma DeliveredMembers(st: Stream, e: Event)
    requires SentOk(st) && st.phase.Live? && Distinct(st.offered)
    ensures e in st.sent <==> e in st.hist || (e in Accepted(st)[..st.taken] && e.seqNo > st.maxSeq)
    ensures e in Accepted(st)[..st.taken] || e in st.chan <==> e in st.offered && e !in st.missed
    ensures !(e in Accepted(st)[..st.taken] && e in st.chan)
  {
    var a, n := Accepted(st), st.taken;
    AboveMembers(a[..n], st.maxSeq, e);
    AcceptedMembers(st, e);
    WithoutDistinct(st.offered, st.missed);
    assert a == a[..n] + a[n..];
  }

  /** The step's effect on a live stream that it does not close. */
  lemma LiveStreamStep(s: State, step: Step, id: nat)
    requires Enabled(s, step) && id in s.streams && s.streams[id].phase.Live? && !(step.Close? && step.id == id)
    ensures id in Apply(s, step).streams
    ensures var st, st' := s.streams[id], Apply(s, step).streams[id];
      || (st' == st && !step.Announce? && !step.Hush?)
      || (step.Receive? && st' == TakeOne(st))
      || (step.Announce? && st' == Offer(st, step.event, true))
      || (step.Hush? && st' == Offer(st, step.event, false))
  {
  }

  lemma LostStaysLost(s: State, step: Step, id: nat, e: Event)
    requires Inv(s) && Enabled(s, step) && id in s.streams && s.streams[id].phase.Live?
    requires e in s.log && Lost(s, s.streams[id], e)
    requires !(step.Close? && step.id == id)
    ensures var s' := Apply(s, step);
      && id in s'.streams && s'.streams[id].phase.Live?
      && s.streams[id].sent <= s'.streams[id].sent
      && Lost(s', s'.streams[id], e) && e !in s'.streams[id].sent
  {
    var s', st := Apply(s, step), s.streams[id];
    LiveStreamStep(s, step, id);
    var st' := s'.streams[id];
    LostKept(s, s', st, st', step, e);
    assert SentOk(st') by {
      StepKeepsInv(s, step);
      assert StreamOk(s'.log, s'.stored, st');
    }
    LostNotSent(s', st', e);
  }

  lemma LostKept(s: State, s': State, st: Stream, st': Stream, step: Step, e: Event)
    requires NumbersOk(s.counter, s.log, s.numbered, s.stored) && Enabled(s, step)
    requires s' == Apply(s, step) && e in s.log && Lost(s, st, e)
    requires
      || (st' == st && !step.Announce? && !step.Hush?)
      || (step.Receive? && st.chan != [] && st' == TakeOne(st))
      || (step.Announce? && st' == Offer(st, step.event, true))
      || (step.Hush? && st' == Offer(st, step.event, false))
    ensures Lost(s', st', e)
  {
    if step.Store? {
      assert step.event.seqNo != e.seqNo;
    }
  }

  /** Losing an event is final: however the run goes on, a stream that stays open never sends it. */
  lemma {:induction false} LostForGood(trace: seq<State>, steps: seq<Step>, id: nat, e: Event, i: nat, j: nat)
    requires Run(trace, steps) && trace[0] == Init && i <= j <= |steps|
    requires id in trace[i].streams && trace[i].streams[id].phase.Live?
    requires e in trace[i].log && Lost(trace[i], trace[i].streams[id], e)
    requires forall k :: i <= k < j ==> steps[k] != Close(id)
    ensures id in trace[j].streams && trace[j].streams[id].phase.Live?
    ensures Lost(trace[j], trace[j].streams[id], e) && e !in trace[j].streams[id].sent
  {
    hide Inv, Lost, Apply, Enabled, SentOk;
    RunKeepsInv(trace, steps, j);
    if i < j {
      LostForGood(trace, steps, id, e, i, j - 1);
      RunKeepsInv(trace, steps, j - 1);
      LinkOf(trace, steps, j - 1);
      LogGrows(trace, steps, i, j - 1);
      LostStaysLost(trace[j - 1], steps[j - 1], id, e);
    } else {
      LostNotSentNow(trace[i], id, e);
    }
  }

  lemma LinkOf(trace: seq<State>, steps: seq<Step>, k: nat)
    requires Run(trace, steps) && k < |steps|
    ensures Enabled(trace[k], steps[k]) && trace[k + 1] == Apply(trace[k], steps[k])
  {
    hide Apply, Enabled;
    assert Link(trace, steps, k);
  }

  lemma LostNotSentNow(s: State, id: nat, e: Event)
    requires Inv(s) && id in s.streams && s.streams[id].phase.Live? && Lost(s, s.streams[id], e)
    ensures e !in s.streams[id].sent
  {
    assert StreamOk(s.log, s.stored, s.streams[id]);
    hide Inv, SentOk, OfferedOk, HistOk, Lost;
    LostNotSent(s, s.streams[id], e);
  }

  lemma LostNotSent(s: State, st: Stream, e: Event)
    requires SentOk(st) && st.phase.Live? && Lost(s, st, e)
    ensures e !in st.sent
  {
    var live := Accepted(st)[..st.taken];
    AboveMembers(live, st.maxSeq, e);
    AcceptedMembers(st, e);
  }

  lemma {:induction false} LogGrows(trace: seq<State>, steps: seq<Step>, i: nat, j: nat)
    requires Run(trace, steps) && i <= j < |trace|
    ensures trace[i].log <= trace[j].log
  {
    if i < j {
      LogGrows(trace, steps, i, j - 1);
      assert Link(trace, steps, j - 1);
    }
  }
}
