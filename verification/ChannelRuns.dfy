/** Guarantees of the event channel over every interleaving. */
module ChannelRuns {
  import opened Text
  import opened ChannelModel
  import opened ChannelProofs

  // ---------- Exactly-once, ordered delivery ----------

  lemma CommitPageExtends(s: Channel, records: seq<Record>, generation: nat)
    ensures s.committed <= CommitPage(s, records, generation).0.committed
    decreases |records|
  {
    if records != [] {
      CommitPageExtends(Commit(s, records[0], generation).0, records[1..], generation);
    }
  }

  lemma StepExtends(s: Channel, step: Step)
    ensures s.committed <= Next(s, step).committed
  {
    if Enabled(s, step) && step.Fetched? && step.outcome.Page? {
      CommitPageExtends(s, step.outcome.records, s.operations[step.op].generation);
    }
  }

  /** From a new channel, whatever pages, stream records, gaps, duplicates, stale callbacks, catch-ups,
      stops and restarts follow in whatever order, exactly the records 1..cursor have been committed,
      each once and in order, and no commit is ever taken back. */
  lemma {:induction false} ExactlyOnceInOrder(steps: seq<Step>, more: seq<Step>)
    ensures var t := Run(Initial(), steps);
            && |t.committed| == t.cursor
            && (forall i :: 0 <= i < t.cursor ==> t.committed[i].sequence == i + 1)
            && t.committed <= Run(t, more).committed
  {
    InitialInv();
    RunInv(Initial(), steps);
    RunExtends(Run(Initial(), steps), more);
  }

  lemma {:induction false} RunExtends(s: ValidChannel, steps: seq<Step>)
    ensures s.committed <= Run(s, steps).committed
    decreases |steps|
  {
    if steps != [] {
      StepInv(s, steps[0]);
      StepExtends(s, steps[0]);
      RunExtends(Next(s, steps[0]), steps[1..]);
    }
  }

  /** A served record that would pass validation is the server's record of that number. */
  predicate RecordAgrees(record: Record, log: seq<Record>) {
    ValidRecord(record) ==> record.sequence <= |log| && log[record.sequence - 1] == record
  }

  predicate Agrees(step: Step, log: seq<Record>) {
    match step
    case Fetched(_, Page(records)) => forall i :: 0 <= i < |records| ==> RecordAgrees(records[i], log)
    case Received(_, record) => RecordAgrees(record, log)
    case _ => true
  }

  lemma CommitAgrees(s: Channel, record: Record, generation: nat, log: seq<Record>)
    requires Ordered(s) && s.committed <= log && RecordAgrees(record, log)
    ensures Commit(s, record, generation).0.committed <= log
  {
    var t := Commit(s, record, generation).0;
    assert t.committed == s.committed || t.committed == s.committed + [log[|s.committed|]];
  }

  lemma CommitPageAgrees(s: Channel, records: seq<Record>, generation: nat, log: seq<Record>)
    requires Ordered(s) && s.committed <= log
    requires forall i :: 0 <= i < |records| ==> RecordAgrees(records[i], log)
    ensures CommitPage(s, records, generation).0.committed <= log
    decreases |records|
  {
    if records != [] {
      CommitOrdered(s, records[0], generation);
      CommitAgrees(s, records[0], generation, log);
      CommitPageAgrees(Commit(s, records[0], generation).0, records[1..], generation, log);
    }
  }

  lemma StepAgrees(s: Channel, step: Step, log: seq<Record>)
    requires Ordered(s) && s.committed <= log && Agrees(step, log)
    ensures Next(s, step).committed <= log
  {
    if Enabled(s, step) {
      if step.Fetched? && step.outcome.Page? {
        CommitPageAgrees(s, step.outcome.records, s.operations[step.op].generation, log);
      } else if step.Received? {
        CommitAgrees(s, step.record, s.connections[step.connection], log);
      }
    }
  }

  /** If every served record agrees with a server log, what was committed is that log's prefix. */
  lemma {:induction false} CommitsLogPrefix(s: ValidChannel, steps: seq<Step>, log: seq<Record>)
    requires s.committed <= log && forall i :: 0 <= i < |steps| ==> Agrees(steps[i], log)
    ensures var t := Run(s, steps); t.cursor <= |log| && t.committed == log[..t.cursor]
    decreases |steps|
  {
    if steps != [] {
      StepInv(s, steps[0]);
      StepAgrees(s, steps[0], log);
      CommitsLogPrefix(Next(s, steps[0]), steps[1..], log);
    }
  }

  // ---------- A single recovery path ----------

  /** In every reachable state a started channel has exactly one recovery mode and a stopped one none. */
  lemma SinglePath(steps: seq<Step>)
    ensures var t := Run(Initial(), steps);
            if t.stopped
            then t.timer.None? && t.connection.None? && t.operation.None? && Reconnecting(t) == {}
            else |Reconnecting(t)| + (if t.timer.Some? then 1 else 0) + (if t.connection.Some? then 1 else 0) == 1
  {
    InitialInv();
    RunInv(Initial(), steps);
  }

  /** The generation of the work a step resumes. */
  function Carried(s: Channel, step: Step): Option<nat>
    requires Enabled(s, step)
  {
    match step
    case Start => None
    case Stop => None
    case CatchUp => None
    case Fetched(op, _) => Some(s.operations[op].generation)
    case Unwind(f) => Some(s.frames[f].generation)
    case Proceed(f) => Some(s.frames[f].generation)
    case TimerFires(t) => Some(s.timers[t].generation)
    case Opened(c) => Some(s.connections[c])
    case Received(c, _) => Some(s.connections[c])
    case Errored(c) => Some(s.connections[c])
    case ConnectReturns => Some(s.connections[s.connecting.value])
    case ConnectThrows => Some(s.connections[s.connecting.value])
  }

  /** Nothing is committed, attached, scheduled or requested between the two states, and a stream that
      was opened is closed again. */
  ghost predicate Inert(s: Channel, t: Channel) {
    && t == s.(operations := t.operations, frames := t.frames, connecting := t.connecting, streams := t.streams)
    && (forall c :: c in t.streams.returned && c !in s.streams.returned ==> c in t.streams.closed)
    && t.frames.Keys <= s.frames.Keys
    && t.operations.Keys == s.operations.Keys
    && forall o :: o in t.operations ==> t.operations[o] == s.operations[o] || t.operations[o].status.Settled?
  }

  lemma StaleFetchIsInert(s: ValidChannel, op: nat, outcome: FetchOutcome)
    requires Enabled(s, Fetched(op, outcome)) && !IsCurrent(s, s.operations[op].generation)
    ensures Inert(s, AfterFetch(s, op, outcome))
  {
    assert AfterFetch(s, op, outcome) == Settle(s, op, Settled(!outcome.Rejected?));
  }

  lemma StaleStepIsInert(s: ValidChannel, step: Step)
    requires Enabled(s, step) && Carried(s, step).Some? && !IsCurrent(s, Carried(s, step).value)
    ensures Inert(s, Next(s, step))
  {
    if step.Fetched? {
      StaleFetchIsInert(s, step.op, step.outcome);
    }
  }

  /** After `stop`, no matter what runs next, including restarts, no work of the stopped or an older
      generation ever commits, attaches, schedules or requests a page again. */
  lemma {:induction false} NoLateWork(s: ValidChannel, steps: seq<Step>, late: Step)
    ensures var t := Run(StopChannel(s), steps);
            Enabled(t, late) && Carried(t, late).Some? && Carried(t, late).value <= s.generation ==>
              Inert(t, Next(t, late))
  {
    StopInv(s);
    StaleForever(StopChannel(s), steps, s.generation);
    RunInv(StopChannel(s), steps);
    var t := Run(StopChannel(s), steps);
    if Enabled(t, late) && Carried(t, late).Some? && Carried(t, late).value <= s.generation {
      StaleStepIsInert(t, late);
    }
  }

  lemma {:induction false} StaleForever(s: ValidChannel, steps: seq<Step>, generation: nat)
    requires generation < s.generation
    ensures generation < Run(s, steps).generation
    decreases |steps|
  {
    if steps != [] {
      StepInv(s, steps[0]);
      GenerationGrows(s, steps[0]);
      StaleForever(Next(s, steps[0]), steps[1..], generation);
    }
  }

  lemma GenerationGrows(s: Channel, step: Step)
    ensures s.generation <= Next(s, step).generation
    ensures step != Stop && !s.stopped ==> Next(s, step).generation == s.generation && !Next(s, step).stopped
    ensures step != Start && step != Stop ==> Next(s, step).stopped == s.stopped
  {
    if Enabled(s, step) && step.Fetched? && step.outcome.Page? {
      CommitPageFrame(s, step.outcome.records, s.operations[step.op].generation);
    }
  }

  /** A started channel without a live connection never stalls: outside a `connect` call some step of
      the current generation can run. */
  lemma NeverStalls(s: ValidChannel) returns (step: Step)
    requires !s.stopped && s.connecting.None? && s.connection.None?
    ensures Enabled(s, step) && Carried(s, step) == Some(s.generation)
    ensures !step.Received? && !step.Opened? && !step.Errored?
  {
    if s.timer.Some? {
      step := TimerFires(s.timer.value);
    } else {
      assert |Reconnecting(s)| == 1;
      var f :| f in Reconnecting(s);
      match s.frames[f].phase
      case Returned(_) => step := Proceed(f);
      case Awaiting(op, _) =>
        step := if s.operations[op].status.Fetching? then Fetched(op, Rejected) else Unwind(f);
    }
  }

  /** Once its catch-up has settled, the reconnect of the current generation ends in a connection
      attempt or in a backoff timer. */
  lemma ReconnectCompletes(s: ValidChannel, f: nat)
    requires !s.stopped && f in Reconnecting(s) && Enabled(s, Unwind(f))
    ensures var ok := s.operations[s.frames[f].phase.op].status.ok;
            var t := Run(s, [Unwind(f), Proceed(f)]);
            && Reconnecting(t) == {}
            && (ok ==> t.connection.Some? && t.connecting == t.connection && t.timer.None?)
            && (!ok ==> t.timer.Some? && t.connection.None? && t.attempt == s.attempt + 1
                        && t.timer.value in t.timers
                        && t.timers[t.timer.value] == Timer(s.generation, ReconnectDelay(s.attempt)))
  {
    var u := Next(s, Unwind(f));
    StepInv(s, Unwind(f));
    assert f in Reconnecting(u);
    var t := Next(u, Proceed(f));
    StepInv(u, Proceed(f));
    assert Run(s, [Unwind(f), Proceed(f)]) == t by {
      assert [Unwind(f), Proceed(f)][1..] == [Proceed(f)];
      assert Run(u, [Proceed(f)]) == Run(t, []);
    }
    assert u.timer.None? && u.connection.None?;
  }

  /** Backoff starts at half a second and doubles with every attempt, up to eight seconds. */
  lemma BackoffDoubles(attempt: nat)
    ensures ReconnectDelay(0) == 500
    ensures ReconnectDelay(attempt + 1)
         == if 2 * ReconnectDelay(attempt) <= 8000 then 2 * ReconnectDelay(attempt) else 8000
  {
    assert attempt in {0, 1, 2, 3} || attempt >= 4;
  }
}
