/** What the channel does with each record, page and failure it is given, and that a live connection fed
    with the log in order delivers all of it. */
module ChannelLive {
  import opened Text
  import opened ChannelModel
  import opened ChannelProofs
  import opened ChannelRuns
  import opened ChannelConvergence

  // ---------- The live stream ----------

  /** The next record is committed and the connection stays. */
  lemma LiveRecordCommits(s: ValidChannel, record: Record)
    requires s.connection.Some? && record.wellFormed && record.sequence == s.cursor + 1
    ensures Next(s, Received(s.connection.value, record))
         == s.(committed := s.committed + [record], cursor := s.cursor + 1)
  {
  }

  /** A malformed record and one that was already committed change nothing. */
  lemma LiveDuplicateIgnored(s: ValidChannel, record: Record)
    requires s.connection.Some? && (!record.wellFormed || record.sequence <= s.cursor)
    ensures Next(s, Received(s.connection.value, record)) == s
  {
  }

  /** The channel has given up its connection for a backoff timer. */
  ghost predicate BackedOff(s: Channel, t: Channel, delay: nat) {
    && t.connection.None? && t.attempt == s.attempt + 1
    && t.timer == Some(s.next) && s.next in t.timers && t.timers[s.next] == Timer(s.generation, delay)
    && t.committed == s.committed && t.cursor == s.cursor
    && t.generation == s.generation && t.stopped == s.stopped
  }

  lemma DisconnectBacksOff(s: Channel, c: nat)
    requires !s.stopped && s.connection == Some(c) && s.timer.None?
    ensures BackedOff(s, Disconnect(s, c, s.generation), ReconnectDelay(s.attempt))
  {
    var t := CloseStream(s.(connection := None), c);
    CloseKeeps(s.(connection := None), c);
    assert Disconnect(s, c, s.generation) == ScheduleReconnect(t, s.generation);
  }

  /** A record that leaves a gap disconnects without being committed. */
  lemma LiveGapDisconnects(s: ValidChannel, record: Record)
    requires s.connection.Some? && record.wellFormed && record.sequence > s.cursor + 1
    ensures BackedOff(s, Next(s, Received(s.connection.value, record)), ReconnectDelay(s.attempt))
  {
    LiveIsCurrent(s);
    DisconnectBacksOff(s, s.connection.value);
  }

  lemma LiveIsCurrent(s: ValidChannel)
    requires s.connection.Some?
    ensures s.connection.value in s.connections && s.connections[s.connection.value] == s.generation
    ensures !s.stopped && s.timer.None?
  {
  }

  /** So does an error of the stream. */
  lemma LiveErrorDisconnects(s: ValidChannel)
    requires s.connection.Some?
    ensures BackedOff(s, Next(s, Errored(s.connection.value)), ReconnectDelay(s.attempt))
  {
    LiveIsCurrent(s);
    DisconnectBacksOff(s, s.connection.value);
  }

  /** And a `connect` that throws, unless its callbacks have given the connection up already. */
  lemma ThrownConnectBacksOff(s: ValidChannel)
    requires s.connection.Some? && s.connecting == s.connection
    ensures BackedOff(s, Next(s, ConnectThrows), ReconnectDelay(s.attempt))
  {
  }

  /** A connection that has opened starts its next backoff at half a second, one that has not goes on
      doubling. */
  lemma OpeningResetsBackoff(s: ValidChannel)
    requires s.connection.Some?
    ensures var c := s.connection.value;
            && Next(s, Opened(c)) == s.(attempt := 0)
            && BackedOff(s.(attempt := 0), Next(Next(s, Opened(c)), Errored(c)), 500)
  {
    var c := s.connection.value;
    var t := Next(s, Opened(c));
    StepInv(s, Opened(c));
    LiveErrorDisconnects(t);
  }

  // ---------- Replay pages ----------

  /** What a page of records does to a current channel: every valid record of it has then been committed,
      or one of them left a gap, which stops the page there. */
  lemma {:induction false} PageOutcome(s: Channel, records: seq<Record>, generation: nat) returns (k: nat)
    requires IsCurrent(s, generation)
    ensures var (t, gap) := CommitPage(s, records, generation);
            && k <= |records| && (gap <==> k < |records|)
            && (forall i :: 0 <= i < k && ValidRecord(records[i]) ==> records[i].sequence <= t.cursor)
            && (gap ==> ValidRecord(records[k]) && records[k].sequence > t.cursor + 1)
            && (t.cursor == s.cursor
                || exists i :: 0 <= i < k && ValidRecord(records[i]) && records[i].sequence == t.cursor)
    decreases |records|
  {
    if records == [] {
      return 0;
    }
    var (u, result) := Commit(s, records[0], generation);
    if result == Gap {
      return 0;
    }
    var j := PageOutcome(u, records[1..], generation);
    CommitPageFrame(u, records[1..], generation);
    k := j + 1;
    var t := CommitPage(u, records[1..], generation).0;
    if t.cursor != s.cursor && t.cursor != u.cursor {
      var i :| 0 <= i < j && ValidRecord(records[1..][i]) && records[1..][i].sequence == t.cursor;
      assert records[i + 1] == records[1..][i];
    }
    forall i | 0 <= i < k && ValidRecord(records[i]) ensures records[i].sequence <= t.cursor {
      if i > 0 {
        assert records[i] == records[1..][i - 1];
      }
    }
  }

  /** How a catch-up ends or goes on with a response: it fails when the request was rejected or, while
      current, when the response is no list or leaves a gap; it succeeds on an empty page, and when it has
      become stale; otherwise it asks for what follows its new cursor. */
  lemma FetchOutcomes(s: ValidChannel, op: nat, outcome: FetchOutcome)
    requires Enabled(s, Fetched(op, outcome))
    ensures var t := Next(s, Fetched(op, outcome));
            var current := IsCurrent(s, s.operations[op].generation);
            && op in t.operations
            && (outcome.Rejected? ==> t.operations[op].status == Settled(false))
            && (!outcome.Rejected? && !current ==> t.operations[op].status == Settled(true))
            && (current && outcome.NotArray? ==> t.operations[op].status == Settled(false))
            && (current && outcome.Page? && outcome.records == [] ==> t.operations[op].status == Settled(true))
            && (current && outcome.Page? && outcome.records != [] ==>
                  t.operations[op].status
                  == if CommitPage(s, outcome.records, s.operations[op].generation).1 then Settled(false)
                     else Fetching(t.cursor))
            && (!current || !outcome.Page? ==> t.committed == s.committed)
  {
    if outcome.Page? {
      CommitPageFrame(s, outcome.records, s.operations[op].generation);
    }
  }

  /** The call that created an operation clears it when it resumes, a call that joined it does not. */
  lemma UnwindClears(s: ValidChannel, f: nat)
    requires Enabled(s, Unwind(f)) && s.operation == Some(s.frames[f].phase.op)
    ensures Next(s, Unwind(f)).operation == if s.frames[f].phase.creator then None else s.operation
  {
  }

  /** A catch-up that fails is tried again: its reconnect backs off, and when the timer fires a new
      operation asks for what follows the cursor. */
  lemma FailedCatchUpRetries(s: ValidChannel, f: nat)
    requires !s.stopped && f in Reconnecting(s) && Enabled(s, Unwind(f)) && s.frames[f].phase.creator
    requires s.operation == Some(s.frames[f].phase.op)
    requires !s.operations[s.frames[f].phase.op].status.ok
    ensures var waiting := Next(Next(s, Unwind(f)), Proceed(f));
            && waiting.timer.Some? && waiting.operation.None?
            && var t := Next(waiting, TimerFires(waiting.timer.value));
               t.operation.Some? && t.operation.value in t.operations
               && t.operations[t.operation.value] == Operation(s.generation, Fetching(s.cursor))
  {
    var u := Next(s, Unwind(f));
    StepInv(s, Unwind(f));
    assert f in Reconnecting(u);
    StepInv(u, Proceed(f));
  }

  /** A public catch-up joins the operation in flight, and its own call waits for that one. */
  lemma CatchUpJoins(s: ValidChannel)
    requires s.operation.Some?
    ensures Next(s, CatchUp)
         == s.(frames := s.frames[s.next := Frame(s.generation, false, Awaiting(s.operation.value, false))],
               next := s.next + 1)
  {
  }

  /** A second call of `start` changes nothing. */
  lemma StartOnlyOnce(s: ValidChannel)
    requires !s.stopped
    ensures Next(s, Start) == s
  {
  }

  // ---------- A live connection delivers the log ----------

  /** The records a connection receives in a run are the log's from `from` on, in order; nothing stops the
      channel or breaks the connection; what else it is served agrees with the log. */
  ghost predicate Feeds(connection: nat, steps: seq<Step>, log: seq<Record>, from: nat)
    decreases |steps|
  {
    steps == [] ||
    (var step := steps[0];
     && step != Stop && step != ConnectThrows && step != Errored(connection) && Agrees(step, log)
     && if step.Received? && step.connection == connection
        then from < |log| && step.record == log[from] && Feeds(connection, steps[1..], log, from + 1)
        else Feeds(connection, steps[1..], log, from))
  }

  /** How many records the connection receives. */
  ghost function Heard(connection: nat, steps: seq<Step>): nat
    decreases |steps|
  {
    if steps == [] then 0
    else (if steps[0].Received? && steps[0].connection == connection then 1 else 0) + Heard(connection, steps[1..])
  }

  /** What else happens leaves the live connection alone. */
  lemma OthersKeepConnection(s: ValidChannel, step: Step)
    requires s.connection.Some? && step != Stop && step != ConnectThrows
    requires step != Errored(s.connection.value) && !(step.Received? && step.connection == s.connection.value)
    ensures Next(s, step).connection == s.connection && s.cursor <= Next(s, step).cursor
  {
    if Enabled(s, step) {
      match step
      case Fetched(op, outcome) =>
        if outcome.Page? {
          CommitPageFrame(s, outcome.records, s.operations[op].generation);
        }
      case Proceed(f) => LiveHasNoReconnect(s, f);
      case ConnectReturns => FinishAttachInv(s);
      case _ =>
    }
  }

  /** While a connection is live, no call that resumes is a reconnect of the current generation. */
  lemma LiveHasNoReconnect(s: ValidChannel, f: nat)
    requires s.connection.Some? && f in s.frames
    ensures s.frames[f].reconnects ==> !IsCurrent(s, s.frames[f].generation)
  {
    assert Reconnecting(s) == {};
    assert f in Reconnecting(s) <==> s.frames[f].reconnects && s.frames[f].generation == s.generation;
  }

  lemma FedRecordCommits(s: ValidChannel, log: seq<Record>, from: nat)
    requires s.connection.Some? && Numbered(log) && from <= s.cursor && from < |log|
    ensures var t := Next(s, Received(s.connection.value, log[from]));
            t.connection == s.connection && t.cursor == if from == s.cursor then from + 1 else s.cursor
  {
    if from == s.cursor {
      LiveRecordCommits(s, log[from]);
    } else {
      LiveDuplicateIgnored(s, log[from]);
    }
  }

  /** A live connection that receives the log in order, starting no later than the record after the cursor,
      delivers it: it stays live, and all it has received is committed, whatever runs in between. */
  lemma {:induction false} LiveDelivers(s: ValidChannel, steps: seq<Step>, log: seq<Record>, from: nat)
    requires s.connection.Some? && Numbered(log) && s.committed <= log && from <= s.cursor
    requires Feeds(s.connection.value, steps, log, from)
    ensures var t, n := Run(s, steps), from + Heard(s.connection.value, steps);
            t.connection == s.connection && t.committed <= log && n <= t.cursor == |t.committed|
    decreases |steps|
  {
    if steps != [] {
      var c, step := s.connection.value, steps[0];
      var t := Next(s, step);
      StepInv(s, step);
      StepAgrees(s, step, log);
      if step.Received? && step.connection == c {
        FedRecordCommits(s, log, from);
        LiveDelivers(t, steps[1..], log, from + 1);
      } else {
        OthersKeepConnection(s, step);
        LiveDelivers(t, steps[1..], log, from);
      }
    }
  }

  /** Fed with the whole rest of the log, it ends with the whole log committed. */
  lemma LiveReachesEnd(s: ValidChannel, steps: seq<Step>, log: seq<Record>)
    requires s.connection.Some? && Numbered(log) && s.committed <= log
    requires Feeds(s.connection.value, steps, log, s.cursor)
    requires s.cursor + Heard(s.connection.value, steps) == |log|
    ensures Run(s, steps).committed == log && Run(s, steps).connection == s.connection
  {
    LiveDelivers(s, steps, log, s.cursor);
    var committed := Run(s, steps).committed;
    assert committed <= log && |committed| >= |log|;
  }
}
