/** Every step of the event channel keeps its invariant: records are committed exactly once and in
    order, and a started channel has exactly one way to recover. */
module ChannelProofs {
  import opened Text
  import opened ChannelModel

  lemma InitialInv()
    ensures Inv(Initial())
  {
  }

  // ---------- Committing keeps the order ----------

  lemma CommitOrdered(s: Channel, record: Record, generation: nat)
    requires Ordered(s)
    ensures Ordered(Commit(s, record, generation).0)
  {
  }

  lemma CommitPageOrdered(s: Channel, records: seq<Record>, generation: nat)
    requires Ordered(s)
    ensures Ordered(CommitPage(s, records, generation).0)
    decreases |records|
  {
    if records != [] {
      CommitOrdered(s, records[0], generation);
      CommitPageOrdered(Commit(s, records[0], generation).0, records[1..], generation);
    }
  }

  // ---------- The building blocks ----------

  /** What a channel function needs of a state that may be between two recovery modes: `owed` says
      how many modes are missing. */
  ghost predicate Between(s: Channel, owed: nat) {
    && Ordered(s) && WellFormed(s)
    && (!s.stopped ==>
          |Reconnecting(s)| + (if s.timer.Some? then 1 else 0) + (if s.connection.Some? then 1 else 0) + owed == 1)
  }

  lemma AddFrameReconnecting(s: Channel, frame: Frame)
    requires s.next !in s.frames
    ensures var t := AddFrame(s, frame);
            |Reconnecting(t)|
            == |Reconnecting(s)| + if frame.reconnects && frame.generation == s.generation then 1 else 0
  {
    var t := AddFrame(s, frame);
    assert Reconnecting(t) ==
           Reconnecting(s) + if frame.reconnects && frame.generation == s.generation then {s.next} else {};
  }

  lemma AddFrameInv(s: Channel, frame: Frame)
    requires Between(s, if frame.reconnects then 1 else 0) && frame.generation <= s.generation
    requires frame.reconnects ==> IsCurrent(s, frame.generation)
    requires frame.phase.Awaiting? ==>
               frame.phase.op in s.operations && s.operations[frame.phase.op].generation == frame.generation
    ensures Inv(AddFrame(s, frame))
  {
    AddFrameReconnecting(s, frame);
  }

  lemma NewOperation(s: Channel, owed: nat)
    requires Between(s, owed) && !s.stopped
    ensures Between(BeginOperation(s, s.generation), owed)
  {
    assert s.next !in s.operations;
    assert Reconnecting(BeginOperation(s, s.generation)) == Reconnecting(s);
  }

  lemma BeginCatchUpInv(s: Channel, generation: nat, reconnects: bool)
    requires Between(s, if reconnects then 1 else 0) && generation <= s.generation
    requires reconnects ==> IsCurrent(s, generation)
    ensures Inv(BeginCatchUp(s, generation, reconnects))
  {
    if !IsCurrent(s, generation) {
      AddFrameInv(s, Frame(generation, reconnects, Returned(true)));
    } else if s.operation.Some? {
      AddFrameInv(s, Frame(generation, reconnects, Awaiting(s.operation.value, false)));
    } else {
      NewOperation(s, if reconnects then 1 else 0);
      AddFrameInv(BeginOperation(s, generation), Frame(generation, reconnects, Awaiting(s.next, true)));
    }
  }

  lemma ScheduleReconnectInv(s: Channel, generation: nat)
    requires IsCurrent(s, generation) && s.timer.None? && Between(s.(connecting := None), 1)
    requires s.connecting.Some? ==> s.connecting.value in s.connections
    ensures Inv(ScheduleReconnect(s, generation))
  {
    assert s.next !in s.timers;
    assert Reconnecting(ScheduleReconnect(s, generation)) == Reconnecting(s.(connecting := None));
  }

  // ---------- Each step ----------

  /** Closing a stream touches nothing else. */
  lemma CloseKeeps(s: Channel, connection: nat)
    ensures CloseStream(s, connection) == s.(streams := CloseStream(s, connection).streams)
  {
  }

  lemma StreamsDoNotMatter(s: Channel, owed: nat, streams: Streams)
    requires Between(s, owed)
    ensures Between(s.(streams := streams), owed)
  {
    assert Reconnecting(s.(streams := streams)) == Reconnecting(s);
  }

  lemma DropConnection(s: ValidChannel)
    requires s.connection.Some?
    ensures Between(s.(connection := None, connecting := None), if s.stopped then 0 else 1)
  {
    assert Reconnecting(s.(connection := None, connecting := None)) == Reconnecting(s);
  }

  lemma DisconnectInv(s: ValidChannel, connection: nat, generation: nat)
    ensures Inv(Disconnect(s, connection, generation))
  {
    if IsCurrent(s, generation) && s.connection == Some(connection) {
      var t := CloseStream(s.(connection := None), connection);
      CloseKeeps(s.(connection := None), connection);
      DropConnection(s);
      StreamsDoNotMatter(s.(connection := None, connecting := None), 1, t.streams);
      assert t.(connecting := None) == s.(connection := None, connecting := None).(streams := t.streams);
      ScheduleReconnectInv(t, generation);
    }
  }

  lemma SettleInv(s: ValidChannel, op: nat, status: Status)
    requires op in s.operations && (status.Fetching? ==> status.after <= s.cursor)
    ensures Inv(Settle(s, op, status))
  {
    assert Reconnecting(Settle(s, op, status)) == Reconnecting(s);
  }

  lemma AfterFetchInv(s: ValidChannel, op: nat, outcome: FetchOutcome)
    requires op in s.operations
    ensures Inv(AfterFetch(s, op, outcome))
  {
    var generation := s.operations[op].generation;
    if outcome.Page? && outcome.records != [] && IsCurrent(s, generation) {
      var (t, gap) := CommitPage(s, outcome.records, generation);
      CommitPageFrame(s, outcome.records, generation);
      CommitPageOrdered(s, outcome.records, generation);
      assert Reconnecting(t) == Reconnecting(s);
      assert Inv(t);
      SettleInv(t, op, if gap then Settled(false) else Fetching(t.cursor));
    } else {
      SettleInv(s, op, Settled(false));
      SettleInv(s, op, Settled(true));
    }
  }

  lemma UnwindInv(s: ValidChannel, f: nat)
    requires Enabled(s, Unwind(f))
    ensures Inv(UnwindFrame(s, f))
  {
    assert Reconnecting(UnwindFrame(s, f)) == Reconnecting(s);
  }

  lemma DropFrameReconnecting(s: Channel, f: nat)
    requires f in s.frames
    ensures |Reconnecting(s.(frames := s.frames - {f}))| ==
            |Reconnecting(s)| - if s.frames[f].reconnects && s.frames[f].generation == s.generation then 1 else 0
  {
    assert Reconnecting(s.(frames := s.frames - {f})) == Reconnecting(s) - {f};
    assert f in Reconnecting(s) <==> s.frames[f].reconnects && s.frames[f].generation == s.generation;
  }

  lemma DropFrameWellFormed(s: Channel, f: nat)
    requires WellFormed(s)
    ensures WellFormed(s.(frames := s.frames - {f}))
  {
  }

  lemma DropFrame(s: ValidChannel, f: nat)
    requires f in s.frames
    ensures Between(s.(frames := s.frames - {f}),
                    if s.frames[f].reconnects && IsCurrent(s, s.frames[f].generation) then 1 else 0)
  {
    DropFrameReconnecting(s, f);
    DropFrameWellFormed(s, f);
  }

  lemma AttachInv(s: Channel)
    requires Between(s, 1) && !s.stopped && s.connecting.None?
    ensures Inv(Attach(s, s.generation)) && Attach(s, s.generation).connection.Some?
  {
    assert s.next !in s.connections;
    assert Reconnecting(Attach(s, s.generation)) == Reconnecting(s);
  }

  lemma ProceedInv(s: ValidChannel, f: nat)
    requires Enabled(s, Proceed(f))
    ensures Inv(ProceedFrame(s, f))
  {
    var frame := s.frames[f];
    var t := s.(frames := s.frames - {f});
    DropFrame(s, f);
    if frame.reconnects && IsCurrent(s, frame.generation) {
      if frame.phase.ok {
        AttachInv(t);
      } else {
        ScheduleReconnectInv(t, frame.generation);
      }
    }
  }

  lemma FireTimerInv(s: ValidChannel, timer: nat)
    requires Enabled(s, TimerFires(timer))
    ensures Inv(FireTimer(s, timer))
  {
    if s.timer == Some(timer) && IsCurrent(s, s.timers[timer].generation) {
      var t := s.(timer := None);
      assert Reconnecting(t) == Reconnecting(s);
      BeginCatchUpInv(t, s.timers[timer].generation, true);
    }
  }

  lemma ReceiveInv(s: ValidChannel, connection: nat, record: Record)
    requires connection in s.connections
    ensures Inv(Receive(s, connection, record))
  {
    var generation := s.connections[connection];
    if IsCurrent(s, generation) && s.connection == Some(connection) {
      var t := Commit(s, record, generation).0;
      CommitOrdered(s, record, generation);
      assert Reconnecting(t) == Reconnecting(s);
      assert Inv(t);
      DisconnectInv(t, connection, generation);
    }
  }

  lemma FailAttachInv(s: ValidChannel)
    requires Enabled(s, ConnectThrows)
    ensures Inv(FailAttach(s, s.connecting.value))
  {
    var generation := s.connections[s.connecting.value];
    var t := s.(connecting := None, connection := if s.connection == s.connecting then None else s.connection);
    assert Reconnecting(t) == Reconnecting(s);
    if IsCurrent(t, generation) && t.timer.None? {
      ScheduleReconnectInv(t, generation);
    } else {
      assert t == s.(connecting := None);
    }
  }

  lemma FinishAttachInv(s: ValidChannel)
    requires Enabled(s, ConnectReturns)
    ensures Inv(FinishAttach(s, s.connecting.value))
    ensures var t := FinishAttach(s, s.connecting.value);
            t == s.(connecting := None, streams := t.streams)
  {
    var t := FinishAttach(s, s.connecting.value);
    assert t.connection == s.connection;
    assert Reconnecting(t) == Reconnecting(s);
  }

  lemma OlderFramesDoNotReconnect(s: Channel, t: Channel)
    requires WellFormed(s) && t.frames == s.frames && t.generation > s.generation
    ensures Reconnecting(t) == {}
  {
  }

  lemma StartInv(s: ValidChannel)
    ensures Inv(StartChannel(s))
  {
    if s.stopped {
      var t := s.(stopped := false, generation := s.generation + 1);
      OlderFramesDoNotReconnect(s, t);
      assert Between(t, 1);
      BeginCatchUpInv(t, t.generation, true);
    }
  }

  lemma StopKeeps(s: Channel)
    ensures StopChannel(s)
         == s.(generation := s.generation + 1, stopped := true, operation := None, timer := None, connection := None,
               streams := DropInstalled(s).streams)
  {
  }

  lemma HaltedInv(s: ValidChannel, streams: Streams)
    ensures Inv(s.(generation := s.generation + 1, stopped := true, operation := None, timer := None,
                   connection := None, streams := streams))
  {
  }

  lemma StopInv(s: ValidChannel)
    ensures Inv(StopChannel(s))
  {
    StopKeeps(s);
    HaltedInv(s, DropInstalled(s).streams);
  }

  lemma StepInv(s: ValidChannel, step: Step)
    ensures Inv(Next(s, step))
  {
    if Enabled(s, step) {
      match step
      case Start => StartInv(s);
      case Stop => StopInv(s);
      case CatchUp => BeginCatchUpInv(s, s.generation, false);
      case Fetched(op, outcome) => AfterFetchInv(s, op, outcome);
      case Unwind(f) => UnwindInv(s, f);
      case Proceed(f) => ProceedInv(s, f);
      case TimerFires(t) => FireTimerInv(s, t);
      case Opened(c) => assert Reconnecting(Open(s, c)) == Reconnecting(s);
      case Received(c, record) => ReceiveInv(s, c, record);
      case Errored(c) => DisconnectInv(s, c, s.connections[c]);
      case ConnectReturns => FinishAttachInv(s);
      case ConnectThrows => FailAttachInv(s);
    }
  }

  lemma {:induction false} RunInv(s: ValidChannel, steps: seq<Step>)
    ensures Inv(Run(s, steps))
    decreases |steps|
  {
    if steps != [] {
      StepInv(s, steps[0]);
      RunInv(Next(s, steps[0]), steps[1..]);
    }
  }
}
