/** Runs of the protocol in which a stream repeats or loses an event. */
module DeliveryRuns {
  import opened Options
  import opened Events
  import opened Delivery
  import opened SerialDelivery

  lemma AboveOfOne(e: Event, n: int)
    ensures Above([e], n) == (if e.seqNo > n then [e] else [])
    ensures MaxSeq([e]) == (if e.seqNo > 0 then e.seqNo else 0)
  {
    assert [e][..0] == [];
  }

  const E1 := Event(1, "message_end", Message("assistant", "a"), 0)
  const E2 := Event(2, "message_end", Message("assistant", "b"), 0)
  const E3 := Event(3, "message_end", Message("assistant", "c"), 0)

  function NumberOf(e: Event): Step {
    Number(e.kind, e.payload, e.timestamp)
  }

  /** The echo race as a run: the anchor event is stored but not yet announced as the client,
      which has already seen it in the history, opens its stream. It is sent again. */
  const ECHO_STEPS := [NumberOf(E1), Store(E1), Open(0, 1), ReadLog(0), GoLive(0), Announce(E1), Receive(0)]
  const ECHO_TRACE :=
    var st := Stream(1, Opened, [], 0, [], [], 1, 0, 0, [], {}, 0);
    var stored := State(1, [E1], {}, {E1}, map[]);
    var live := st.(readAt := 1, phase := Live);
    [ Init, State(1, [], {E1}, {}, map[]), stored, stored.(streams := map[0 := st]),
      stored.(streams := map[0 := st.(readAt := 1, phase := Sending(0))]),
      stored.(streams := map[0 := live]),
      stored.(stored := {}, streams := map[0 := live.(chan := [E1], offered := [E1])]),
      stored.(stored := {}, streams := map[0 := live.(offered := [E1], taken := 1, sent := [E1])]) ]

  lemma EchoLink(i: int)
    requires 0 <= i < |ECHO_STEPS|
    ensures Link(ECHO_TRACE, ECHO_STEPS, i)
  {
    assert {E1} - {E1} == {};
    if i == 3 {
      AboveOfOne(E1, 1);
    } else if i == 5 {
      var s, s' := ECHO_TRACE[i], ECHO_TRACE[i + 1];
      assert Offer(s.streams[0], E1, true) == s'.streams[0];
      assert OfferAll(s.streams, E1, true) == s'.streams;
    } else if i == 6 {
      assert TakeOne(ECHO_TRACE[i].streams[0]) == ECHO_TRACE[i + 1].streams[0];
    }
  }

  lemma EchoRun()
    ensures SerialRun(ECHO_TRACE, ECHO_STEPS) && ECHO_TRACE[0] == Init
    ensures var s := ECHO_TRACE[|ECHO_STEPS|]; 0 in s.streams && var st := s.streams[0];
      st.phase.Live? && |s.log| == 1 && IsMessage(s.log[0]) && st.since == MaxSeq(s.log) && st.sent == [s.log[0]]
  {
    AboveOfOne(E1, 1);
    forall i | 0 <= i < |ECHO_STEPS| ensures Link(ECHO_TRACE, ECHO_STEPS, i) {
      EchoLink(i);
    }
  }

  /** Two ingests of one task in flight at once lose an event for good: 3 is stored first, a
      client resuming from 1 is sent 3, and 2, announced later, is skipped as already seen. */
  const LOSS_STEPS := [ NumberOf(E1), Store(E1), Announce(E1), NumberOf(E2), NumberOf(E3), Store(E3),
                        Open(0, 1), ReadLog(0), SendNext(0), GoLive(0), Store(E2), Announce(E2), Receive(0)]
  const LOSS_TRACE :=
    var st := Stream(1, Opened, [], 0, [], [], 2, 1, 0, [], {}, 0);
    var live := st.(hist := [E3], readAt := 2, sent := [E3], maxSeq := 3, phase := Live);
    var two, three := State(3, [E1, E3], {E2}, {E3}, map[]), State(3, [E1, E3, E2], {}, {E3, E2}, map[0 := live]);
    [ Init, State(1, [], {E1}, {}, map[]), State(1, [E1], {}, {E1}, map[]), State(1, [E1], {}, {}, map[]),
      State(2, [E1], {E2}, {}, map[]), State(3, [E1], {E2, E3}, {}, map[]), two,
      two.(streams := map[0 := st]),
      two.(streams := map[0 := st.(hist := [E3], readAt := 2, phase := Sending(0))]),
      two.(streams := map[0 := live.(phase := Sending(1))]),
      two.(streams := map[0 := live]),
      three,
      three.(stored := {E3}, streams := map[0 := live.(chan := [E2], offered := [E2])]),
      three.(stored := {E3}, streams := map[0 := live.(offered := [E2], taken := 1)]) ]

  lemma LossLinkBefore(i: int)
    requires 0 <= i < 7
    ensures Link(LOSS_TRACE, LOSS_STEPS, i)
  {
    assert {E1} - {E1} == {} && {E2, E3} - {E3} == {E2};
    if i == 2 {
      assert OfferAll(map[], E1, true) == map[];
    }
  }

  lemma ReplayOfLoss()
    ensures Replayed([E1, E3], 1, STREAM_REPLAY_LIMIT) == [E3]
  {
    hide Above;
    AboveConcat([E1], [E3], 1);
    AboveOfOne(E1, 1);
    AboveOfOne(E3, 1);
    assert [E1] + [E3] == [E1, E3];
    assert Above([E1, E3], 1) == [E3];
  }

  lemma LossLinkReplay(i: int)
    requires 7 <= i < 10
    ensures Link(LOSS_TRACE, LOSS_STEPS, i)
  {
    hide Replayed;
    if i == 7 {
      ReplayOfLoss();
    } else if i == 8 {
      assert SendOne(LOSS_TRACE[8].streams[0]) == LOSS_TRACE[9].streams[0];
    }
  }

  lemma LossLinkAfter(i: int)
    requires 10 <= i < 13
    ensures Link(LOSS_TRACE, LOSS_STEPS, i)
  {
    hide Replayed;
    var s, s' := LOSS_TRACE[i], LOSS_TRACE[i + 1];
    assert {E2} - {E2} == {} && {E3, E2} - {E2} == {E3};
    if i == 11 {
      assert Offer(s.streams[0], E2, true) == s'.streams[0];
      assert OfferAll(s.streams, E2, true) == s'.streams;
    } else if i == 12 {
      assert TakeOne(s.streams[0]) == s'.streams[0];
    }
  }

  lemma ConcurrentLossRun()
    ensures Run(LOSS_TRACE, LOSS_STEPS) && LOSS_TRACE[0] == Init
    ensures var s := LOSS_TRACE[|LOSS_STEPS|]; 0 in s.streams && var st := s.streams[0];
      st.phase.Live? && E2 in s.log && E2.seqNo > st.since && st.missed == {} && Lost(s, st, E2) && E2 !in st.sent
  {
    forall i | 0 <= i < |LOSS_STEPS| ensures Link(LOSS_TRACE, LOSS_STEPS, i) {
      if i < 7 {
        LossLinkBefore(i);
      } else if i < 10 {
        LossLinkReplay(i);
      } else {
        LossLinkAfter(i);
      }
    }
  }
}
