/** Catch-up against a fixed log ends, with everything committed, whatever else runs meanwhile. */
module ChannelConvergence {
  import opened Text
  import opened ChannelModel
  import opened ChannelProofs
  import opened ChannelRuns

  /** A log numbered from 1. */
  ghost predicate Numbered(log: seq<Record>) {
    forall i :: 0 <= i < |log| ==> log[i].wellFormed && log[i].sequence == i + 1
  }

  /** The replay endpoint answers with a nonempty run of the log right after `after` while there is
      one, and with an empty page otherwise. */
  predicate Serves(page: seq<Record>, after: nat, log: seq<Record>) {
    if after < |log| then 0 < |page| <= |log| - after && page == log[after..after + |page|] else page == []
  }

  /** A held page of consecutive records never leaves a gap, however far the cursor has moved on. */
  lemma CommitConsecutive(s: Channel, records: seq<Record>, after: nat, log: seq<Record>, generation: nat)
    requires IsCurrent(s, generation) && after <= s.cursor && Numbered(log)
    requires after + |records| <= |log| && records == log[after..after + |records|]
    ensures var (t, gap) := CommitPage(s, records, generation);
            !gap && t.cursor == if after + |records| > s.cursor then after + |records| else s.cursor
    decreases |records|
  {
    if records != [] {
      assert records[0] == log[after];
      assert records[1..] == log[after + 1..after + 1 + |records[1..]|];
      CommitConsecutive(Commit(s, records[0], generation).0, records[1..], after + 1, log, generation);
    }
  }

  /** One page either moves the request position strictly forward or ends the catch-up at the log's end. */
  lemma PageAdvances(s: ValidChannel, op: nat, page: seq<Record>, log: seq<Record>)
    requires Numbered(log) && s.committed <= log
    requires op in s.operations && s.operations[op].status.Fetching? && IsCurrent(s, s.operations[op].generation)
    requires Serves(page, s.operations[op].status.after, log)
    ensures var after := s.operations[op].status.after;
            var t := AfterFetch(s, op, Page(page));
            && op in t.operations && t.committed <= log && IsCurrent(t, t.operations[op].generation)
            && if after < |log| then t.operations[op].status == Fetching(t.cursor) && after < t.cursor <= |log|
               else t.operations[op].status == Settled(true) && t.cursor == |log|
  {
    var after := s.operations[op].status.after;
    if after < |log| {
      CommitConsecutive(s, page, after, log, s.operations[op].generation);
      CommitPageFrame(s, page, s.operations[op].generation);
      forall i | 0 <= i < |page| ensures RecordAgrees(page[i], log) {
        assert page[i] == log[after + i];
      }
      CommitPageAgrees(s, page, s.operations[op].generation, log);
      AfterFetchInv(s, op, Page(page));
    }
  }

  /** The run does not stop the channel, serves nothing but the log, and answers the operation's
      requests as the replay endpoint does. */
  ghost predicate Disciplined(s: Channel, op: nat, steps: seq<Step>, log: seq<Record>)
    decreases |steps|
  {
    steps == [] ||
    (&& steps[0] != Stop
     && Agrees(steps[0], log)
     && (Enabled(s, steps[0]) && steps[0].Fetched? && steps[0].op == op ==>
           steps[0].outcome.Page? && Serves(steps[0].outcome.records, s.operations[op].status.after, log))
     && Disciplined(Next(s, steps[0]), op, steps[1..], log))
  }

  /** How many pages the operation receives during the run. */
  ghost function PagesReceived(s: Channel, op: nat, steps: seq<Step>): nat
    decreases |steps|
  {
    if steps == [] then 0
    else (if Enabled(s, steps[0]) && steps[0].Fetched? && steps[0].op == op then 1 else 0)
         + PagesReceived(Next(s, steps[0]), op, steps[1..])
  }

  /** A new catch-up leaves older calls and operations alone. */
  lemma BeginKeeps(s: Channel, generation: nat, reconnects: bool)
    ensures var t := BeginCatchUp(s, generation, reconnects);
            && (forall o :: o in s.operations && o < s.next ==> o in t.operations && t.operations[o] == s.operations[o])
            && (forall f :: f in s.frames && f < s.next ==> f in t.frames && t.frames[f] == s.frames[f])
  {
  }

  lemma OtherStepsKeepOperation(s: Channel, step: Step, op: nat)
    requires op in s.operations && op < s.next && !(step.Fetched? && step.op == op)
    ensures op in Next(s, step).operations && Next(s, step).operations[op] == s.operations[op]
  {
    if Enabled(s, step) {
      match step
      case Start => BeginKeeps(s.(stopped := false, generation := s.generation + 1), s.generation + 1, true);
      case CatchUp => BeginKeeps(s, s.generation, false);
      case TimerFires(t) => BeginKeeps(s.(timer := None), s.timers[t].generation, true);
      case Fetched(o, outcome) =>
        if outcome.Page? {
          CommitPageFrame(s, outcome.records, s.operations[o].generation);
        }
      case _ =>
    }
  }

  /** A settled operation that reached the end of the log, or one that is still working towards it. */
  ghost predicate OnCourse(s: Channel, op: nat, log: seq<Record>) {
    && op in s.operations && IsCurrent(s, s.operations[op].generation) && s.committed <= log
    && (s.operations[op].status.Settled? ==> s.operations[op].status.ok && s.cursor == |log|)
  }

  /** Pages the operation may still receive. */
  ghost function Remaining(s: Channel, op: nat, log: seq<Record>): int
    requires op in s.operations
  {
    match s.operations[op].status
    case Fetching(after) => |log| - after + 1
    case Settled(_) => 0
  }

  lemma StepOnCourse(s: ValidChannel, op: nat, step: Step, log: seq<Record>)
    requires Numbered(log) && OnCourse(s, op, log) && Disciplined(s, op, [step], log)
    ensures OnCourse(Next(s, step), op, log)
    ensures Remaining(Next(s, step), op, log) + PagesReceived(s, op, [step]) <= Remaining(s, op, log)
  {
    assert [step][0] == step;
    var t := Next(s, step);
    if Enabled(s, step) && step.Fetched? && step.op == op {
      PageAdvances(s, op, step.outcome.records, log);
      assert PagesReceived(s, op, [step]) == 1;
    } else {
      StepInv(s, step);
      StepAgrees(s, step, log);
      StepExtends(s, step);
      GenerationGrows(s, step);
      if step.Fetched? && step.op == op {
        assert t == s;
      } else {
        OtherStepsKeepOperation(s, step, op);
      }
      assert PagesReceived(s, op, [step]) == 0;
    }
  }

  /** Convergence: in any such run the operation receives at most one page per missing record and one
      empty page, and if it has settled it succeeded with the cursor at the end of the log, however
      live records interleaved with held pages. */
  lemma {:induction false} CatchUpConverges(s: ValidChannel, op: nat, steps: seq<Step>, log: seq<Record>)
    requires Numbered(log) && OnCourse(s, op, log) && Disciplined(s, op, steps, log)
    ensures PagesReceived(s, op, steps) <= Remaining(s, op, log)
    ensures OnCourse(Run(s, steps), op, log)
    decreases |steps|
  {
    if steps != [] {
      StepInv(s, steps[0]);
      DisciplinedHead(s, op, steps, log);
      StepOnCourse(s, op, steps[0], log);
      CatchUpConverges(Next(s, steps[0]), op, steps[1..], log);
    } else {
      assert Remaining(s, op, log) >= 0;
    }
  }

  /** A start, or a public catch-up with none in flight, begins an operation that is on course and has
      one page per missing record and one empty page to go. */
  lemma FreshCatchUp(s: ValidChannel, step: Step, log: seq<Record>)
    requires s.committed <= log
    requires (step == Start && s.stopped) || (step == Step.CatchUp && !s.stopped && s.operation.None?)
    ensures var t := Next(s, step);
            && Inv(t) && t.operation.Some? && OnCourse(t, t.operation.value, log)
            && Remaining(t, t.operation.value, log) == |log| - s.cursor + 1
  {
    StepInv(s, step);
  }

  lemma DisciplinedHead(s: Channel, op: nat, steps: seq<Step>, log: seq<Record>)
    requires steps != [] && Disciplined(s, op, steps, log)
    ensures Disciplined(s, op, [steps[0]], log)
    ensures PagesReceived(s, op, steps)
         == PagesReceived(s, op, [steps[0]]) + PagesReceived(Next(s, steps[0]), op, steps[1..])
  {
    assert [steps[0]][1..] == [];
  }

  // ---------- Recovery reaches a connection at the end of the log ----------

  /** The reconnect `f` of the current generation awaits an operation that is on course, or has seen it
      succeed. */
  ghost predicate Recovering(s: Channel, f: nat, op: nat, log: seq<Record>) {
    && !s.stopped && f in Reconnecting(s) && OnCourse(s, op, log)
    && match s.frames[f].phase
       case Awaiting(awaited, _) => awaited == op
       case Returned(ok) => ok && s.operations[op].status.Settled?
  }

  /** Steps the reconnect has to go: pages, the resumption of its call, the attach. */
  ghost function Distance(s: Channel, f: nat, op: nat, log: seq<Record>): int
    requires f in s.frames && op in s.operations
  {
    if s.frames[f].phase.Returned? then 1 else Remaining(s, op, log) + 2
  }

  /** The reconnect's own steps. */
  predicate Own(s: Channel, f: nat, op: nat, step: Step) {
    Enabled(s, step) && ((step.Fetched? && step.op == op) || step == Unwind(f) || step == Proceed(f))
  }

  ghost function OwnSteps(s: Channel, f: nat, op: nat, steps: seq<Step>): nat
    decreases |steps|
  {
    if steps == [] then 0
    else (if Own(s, f, op, steps[0]) then 1 else 0) + OwnSteps(Next(s, steps[0]), f, op, steps[1..])
  }

  /** The channel has just opened a connection, with the whole log committed. */
  ghost predicate CaughtUp(s: Channel, log: seq<Record>) {
    s.connection.Some? && s.connecting == s.connection && s.cursor == |log| && s.committed == log
  }

  lemma ProceedAttaches(s: ValidChannel, f: nat, op: nat, log: seq<Record>)
    requires Recovering(s, f, op, log) && s.frames[f].phase.Returned? && s.connecting.None?
    ensures CaughtUp(Next(s, Proceed(f)), log) && f !in Next(s, Proceed(f)).frames
  {
    assert s.connection.None?;
    StepInv(s, Proceed(f));
  }

  lemma OtherStepsKeepFrame(s: Channel, f: nat, step: Step)
    requires f in s.frames && f < s.next && step != Unwind(f) && step != Proceed(f)
    ensures f in Next(s, step).frames && Next(s, step).frames[f] == s.frames[f]
  {
    if Enabled(s, step) {
      match step
      case Start => BeginKeeps(s.(stopped := false, generation := s.generation + 1), s.generation + 1, true);
      case CatchUp => BeginKeeps(s, s.generation, false);
      case TimerFires(t) => BeginKeeps(s.(timer := None), s.timers[t].generation, true);
      case Fetched(o, outcome) =>
        if outcome.Page? {
          CommitPageFrame(s, outcome.records, s.operations[o].generation);
        }
      case _ =>
    }
  }

  lemma StepRecovers(s: ValidChannel, f: nat, op: nat, step: Step, log: seq<Record>)
    requires Numbered(log) && Recovering(s, f, op, log) && Disciplined(s, op, [step], log)
    requires !(Enabled(s, step) && step == Proceed(f))
    ensures var t := Next(s, step);
            && Recovering(t, f, op, log)
            && Distance(t, f, op, log) + (if Own(s, f, op, step) then 1 else 0) <= Distance(s, f, op, log)
  {
    var t := Next(s, step);
    StepOnCourse(s, op, step, log);
    assert [step][0] == step;
    GenerationGrows(s, step);
    if step == Unwind(f) || step == Proceed(f) {
      assert t == s || t == UnwindFrame(s, f);
    } else {
      OtherStepsKeepFrame(s, f, step);
      PagesOfStep(s, op, step);
      if !step.Fetched? || step.op != op {
        OtherStepsKeepOperation(s, step, op);
      }
    }
  }

  lemma PagesOfStep(s: Channel, op: nat, step: Step)
    ensures PagesReceived(s, op, [step]) == if Enabled(s, step) && step.Fetched? && step.op == op then 1 else 0
  {
    assert [step][1..] == [];
    assert PagesReceived(Next(s, step), op, []) == 0;
  }

  /** Recovery converges: in any disciplined run, however it interleaves, the reconnect takes at most its
      distance of own steps; until it has taken them it is still recovering, and otherwise some moment of
      the run opened a connection with the whole log committed. */
  lemma {:induction false} RecoveryConverges(s: ValidChannel, f: nat, op: nat, steps: seq<Step>, log: seq<Record>)
    requires Numbered(log) && Recovering(s, f, op, log) && Disciplined(s, op, steps, log)
    ensures StillRecovering(s, f, op, steps, log) || exists i :: CaughtUpWithin(s, f, op, steps, i, log)
    decreases |steps|
  {
    if steps != [] {
      var t := Next(s, steps[0]);
      StepInv(s, steps[0]);
      DisciplinedHead(s, op, steps, log);
      if Enabled(s, steps[0]) && steps[0] == Proceed(f) {
        ProceedAttaches(s, f, op, log);
        assert steps[..1] == [steps[0]] && steps[..1][1..] == [];
        assert Run(t, []) == t && OwnSteps(t, f, op, []) == 0;
        assert CaughtUpWithin(s, f, op, steps, 1, log);
      } else {
        StepRecovers(s, f, op, steps[0], log);
        RecoveryConverges(t, f, op, steps[1..], log);
        if !StillRecovering(t, f, op, steps[1..], log) {
          var i :| CaughtUpWithin(t, f, op, steps[1..], i, log);
          assert steps[..i + 1][1..] == steps[1..][..i] && steps[..i + 1][0] == steps[0];
          assert CaughtUpWithin(s, f, op, steps, i + 1, log);
        }
      }
    }
  }

  ghost predicate StillRecovering(s: Channel, f: nat, op: nat, steps: seq<Step>, log: seq<Record>)
    requires f in s.frames && op in s.operations
  {
    && Recovering(Run(s, steps), f, op, log)
    && OwnSteps(s, f, op, steps) + Distance(Run(s, steps), f, op, log) <= Distance(s, f, op, log)
  }

  /** The first `i` steps open a connection with the whole log committed, at most `Distance` of them the
      reconnect's own. */
  ghost predicate CaughtUpWithin(s: Channel, f: nat, op: nat, steps: seq<Step>, i: int, log: seq<Record>)
    requires f in s.frames && op in s.operations
  {
    && 0 <= i <= |steps| && CaughtUp(Run(s, steps[..i]), log)
    && OwnSteps(s, f, op, steps[..i]) <= Distance(s, f, op, log)
  }

  /** While it is recovering, one of its own steps can run, outside a `connect` call. */
  lemma RecoveryMoves(s: ValidChannel, f: nat, op: nat, log: seq<Record>) returns (step: Step)
    requires Recovering(s, f, op, log) && s.connecting.None?
    ensures Own(s, f, op, step)
    ensures step.Fetched? ==>
              step.outcome.Page? && Serves(step.outcome.records, s.operations[op].status.after, log)
  {
    if s.frames[f].phase.Returned? {
      return Proceed(f);
    } else if s.operations[op].status.Settled? {
      return Unwind(f);
    }
    var after := s.operations[op].status.after;
    var page := if after < |log| then log[after..after + 1] else [];
    step := Fetched(op, Page(page));
  }

  /** Started anew, a channel that is served from a fixed log opens a connection with the whole log
      committed after at most one own step per missing record and three more, whatever runs in between. */
  lemma StartReachesLog(s: ValidChannel, steps: seq<Step>, log: seq<Record>)
    requires Numbered(log) && s.stopped && s.committed <= log
    requires Disciplined(Next(s, Start), s.next, steps, log)
    ensures var t, op, f := Next(s, Start), s.next, s.next + 1;
            && Recovering(t, f, op, log) && Distance(t, f, op, log) == |log| - s.cursor + 3
            && (StillRecovering(t, f, op, steps, log) || exists i :: CaughtUpWithin(t, f, op, steps, i, log))
  {
    StepInv(s, Start);
    RecoveryConverges(Next(s, Start), s.next + 1, s.next, steps, log);
  }

  /** The same after a backoff, when the timer fires: a catch-up of its own has one step per missing record
      and three more to go, one it joins in flight at most one per record since its last request. */
  lemma TimerReachesLog(s: ValidChannel, steps: seq<Step>, log: seq<Record>)
    requires Numbered(log) && s.committed <= log && s.timer.Some? && s.connecting.None?
    requires s.operation.Some? ==> OnCourse(s, s.operation.value, log)
    requires Disciplined(Next(s, TimerFires(s.timer.value)), TimerOperation(s), steps, log)
    ensures var t, op, f := Next(s, TimerFires(s.timer.value)), TimerOperation(s), TimerFrame(s);
            && Recovering(t, f, op, log)
            && Distance(t, f, op, log)
               == (if s.operation.None? then |log| - s.cursor + 1 else Remaining(s, op, log)) + 2
            && (StillRecovering(t, f, op, steps, log) || exists i :: CaughtUpWithin(t, f, op, steps, i, log))
  {
    var t := Next(s, TimerFires(s.timer.value));
    StepInv(s, TimerFires(s.timer.value));
    TimerRecovers(s, log);
    RecoveryConverges(t, TimerFrame(s), TimerOperation(s), steps, log);
  }

  /** The operation the timer's reconnect awaits: the one in flight, or a new one. */
  function TimerOperation(s: Channel): nat {
    if s.operation.Some? then s.operation.value else s.next
  }

  function TimerFrame(s: Channel): nat {
    if s.operation.Some? then s.next else s.next + 1
  }

  lemma TimerRecovers(s: ValidChannel, log: seq<Record>)
    requires s.committed <= log && s.timer.Some? && s.connecting.None?
    requires s.operation.Some? ==> OnCourse(s, s.operation.value, log)
    ensures var t, op, f := Next(s, TimerFires(s.timer.value)), TimerOperation(s), TimerFrame(s);
            && Recovering(t, f, op, log)
            && Distance(t, f, op, log)
               == (if s.operation.None? then |log| - s.cursor + 1 else Remaining(s, op, log)) + 2
  {
  }
}
