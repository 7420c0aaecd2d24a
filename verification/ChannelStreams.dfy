/** Every stream the channel opens is the live connection's or has been closed exactly once. */
module ChannelStreams {
  import opened Text
  import opened ChannelModel
  import opened ChannelProofs

  /** No stream leaks, none is closed twice, and the live connection has one once `connect` returned. */
  ghost predicate Accounted(s: Channel) {
    && (forall c :: s.streams.closed[c] == if c in s.streams.returned && s.connection != Some(c) then 1 else 0)
    && (forall c :: c in s.streams.returned ==> c in s.connections)
    && (s.connecting.Some? ==> s.connecting.value !in s.streams.returned)
    && (s.connection.Some? && s.connecting != s.connection ==> s.connection.value in s.streams.returned)
  }

  lemma CloseAccounted(s: Channel, t: Channel)
    requires Accounted(s) && s.connection.Some?
    requires t == CloseStream(s, s.connection.value).(connection := None)
    ensures Accounted(t)
  {
  }

  /** Steps that leave connections and streams alone. */
  lemma SameStreams(s: Channel, t: Channel)
    requires Accounted(s) && t.connections == s.connections && t.connection == s.connection
    requires t.connecting == s.connecting && t.streams == s.streams
    ensures Accounted(t)
  {
  }

  lemma DisconnectAccounted(s: Channel, connection: nat, generation: nat)
    requires Accounted(s)
    ensures Accounted(Disconnect(s, connection, generation))
  {
    if IsCurrent(s, generation) && s.connection == Some(connection) {
      var t := CloseStream(s.(connection := None), connection);
      CloseAccounted(s, t);
      SameStreams(t, ScheduleReconnect(t, generation));
    }
  }

  lemma AttachAccounted(s: Channel, generation: nat)
    requires Accounted(s) && s.next !in s.connections && s.connecting.None?
    ensures Accounted(Attach(s, generation))
  {
    assert s.next !in s.streams.returned;
  }

  lemma ProceedAccounted(s: ValidChannel, f: nat)
    requires Accounted(s) && Enabled(s, Proceed(f))
    ensures Accounted(ProceedFrame(s, f))
  {
    var t := s.(frames := s.frames - {f});
    SameStreams(s, t);
    if s.frames[f].reconnects {
      if s.frames[f].phase.ok {
        AttachAccounted(t, s.frames[f].generation);
      } else {
        SameStreams(t, ScheduleReconnect(t, s.frames[f].generation));
      }
    }
  }

  lemma FinishAccounted(s: ValidChannel)
    requires Accounted(s) && Enabled(s, ConnectReturns)
    ensures Accounted(FinishAttach(s, s.connecting.value))
  {
    FinishAttachInv(s);
  }

  lemma FailAccounted(s: ValidChannel)
    requires Accounted(s) && Enabled(s, ConnectThrows)
    ensures Accounted(FailAttach(s, s.connecting.value))
  {
  }

  lemma ReceiveAccounted(s: Channel, connection: nat, record: Record)
    requires Accounted(s) && connection in s.connections
    ensures Accounted(Receive(s, connection, record))
  {
    var t := Commit(s, record, s.connections[connection]).0;
    SameStreams(s, t);
    DisconnectAccounted(t, connection, s.connections[connection]);
  }

  lemma FetchAccounted(s: Channel, op: nat, outcome: FetchOutcome)
    requires Accounted(s) && op in s.operations
    ensures Accounted(AfterFetch(s, op, outcome))
  {
    if outcome.Page? {
      CommitPageFrame(s, outcome.records, s.operations[op].generation);
    }
    SameStreams(s, AfterFetch(s, op, outcome));
  }

  lemma BeginAccounted(s: Channel, generation: nat, reconnects: bool)
    requires Accounted(s)
    ensures Accounted(BeginCatchUp(s, generation, reconnects))
  {
    SameStreams(s, BeginCatchUp(s, generation, reconnects));
  }

  lemma StartAccounted(s: Channel)
    requires Accounted(s)
    ensures Accounted(StartChannel(s))
  {
    var t := s.(stopped := false, generation := s.generation + 1);
    SameStreams(s, t);
    BeginAccounted(t, t.generation, true);
  }

  lemma TimerAccounted(s: Channel, timer: nat)
    requires Accounted(s) && timer in s.timers
    ensures Accounted(FireTimer(s, timer))
  {
    SameStreams(s, s.(timer := None));
    BeginAccounted(s.(timer := None), s.timers[timer].generation, true);
  }

  lemma StopAccounted(s: Channel)
    requires Accounted(s)
    ensures Accounted(StopChannel(s))
  {
    if s.connection.Some? {
      CloseAccounted(s, CloseStream(s, s.connection.value).(connection := None));
    }
  }

  lemma StepAccounted(s: ValidChannel, step: Step)
    requires Accounted(s)
    ensures Accounted(Next(s, step))
  {
    if Enabled(s, step) {
      match step
      case Start => StartAccounted(s);
      case Stop => StopAccounted(s);
      case CatchUp => BeginAccounted(s, s.generation, false);
      case Fetched(op, outcome) => FetchAccounted(s, op, outcome);
      case Unwind(f) => SameStreams(s, UnwindFrame(s, f));
      case Proceed(f) => ProceedAccounted(s, f);
      case TimerFires(t) => TimerAccounted(s, t);
      case Opened(c) => SameStreams(s, Open(s, c));
      case Received(c, record) => ReceiveAccounted(s, c, record);
      case Errored(c) => DisconnectAccounted(s, c, s.connections[c]);
      case ConnectReturns => FinishAccounted(s);
      case ConnectThrows => FailAccounted(s);
    }
  }

  lemma {:induction false} RunAccounted(s: ValidChannel, steps: seq<Step>)
    requires Accounted(s)
    ensures Accounted(Run(s, steps))
    decreases |steps|
  {
    if steps != [] {
      StepInv(s, steps[0]);
      StepAccounted(s, steps[0]);
      RunAccounted(Next(s, steps[0]), steps[1..]);
    }
  }

  predicate StillOpen(s: Channel, c: nat) {
    c in s.streams.returned && s.streams.closed[c] == 0
  }

  /** In every interleaving each stream that `connect` returned has been closed exactly once, except that
      of the live connection, which is open; so at most one stream is open, and none after a stop. */
  lemma StreamsClosedOnce(steps: seq<Step>)
    ensures var t := Run(Initial(), steps);
            && (forall c :: t.streams.closed[c] == if c in t.streams.returned && t.connection != Some(c) then 1 else 0)
            && (forall c, d :: StillOpen(t, c) && StillOpen(t, d) ==> c == d)
            && (t.stopped ==> forall c :: c in t.streams.returned ==> t.streams.closed[c] == 1)
  {
    InitialInv();
    RunInv(Initial(), steps);
    RunAccounted(Initial(), steps);
  }
}
