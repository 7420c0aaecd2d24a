/** The room runtime rebuilds a director from its stored snapshot on every turn. This module compares
    that persisted machine with one director kept alive throughout. */
module RestartContinuity {
  import opened Text
  import opened Sequences
  import opened DirectorModel
  import opened DirectorProofs
  import opened DirectorRuns

  /** What the room keeps between turns: the roster, the mute flags and the last stored snapshot. */
  datatype Room = Room(personas: seq<Text>, muted: set<Text>, stored: Option<Snapshot>)

  // ---------- The restore validator is exact ----------

  /** Every accepted snapshot, even one no run produced, restores to a state with the full invariant. */
  lemma AcceptedIsValid(personas: seq<Text>, budget: Option<int>, snapshot: Snapshot)
    requires ValidRoster(personas) && Admissible(personas, budget, snapshot)
    ensures Inv(Restored(personas, snapshot))
    ensures TakeSnapshot(Restored(personas, snapshot)) == snapshot
  {
  }

  /** The snapshot of a state with the invariant is accepted exactly while its event counter is a safe
      integer, and restores everything but the mutes. */
  lemma SnapshotRoundTrip(s: ValidState, budget: Option<int>)
    ensures Admissible(s.personas, budget, TakeSnapshot(s)) <==>
            s.accepted <= MAX_SAFE_INTEGER && (budget.Some? ==> budget.value == s.maxTurns)
    ensures Restored(s.personas, TakeSnapshot(s)) == s.(muted := {})
    ensures Restored(s.personas, TakeSnapshot(s)) == s <==> s.muted == {}
  {
  }

  // ---------- The persisted machine ----------

  /** The loop that re-applies every persona's mute flag, from roster position `i` on. */
  function Reapply(s: State, flags: set<Text>, i: nat): (t: State)
    requires i <= |s.personas|
    ensures t == s.(muted := t.muted)
    decreases |s.personas| - i
  {
    if i == |s.personas| then s
    else Reapply(SetMuted(s, s.personas[i], s.personas[i] in flags), flags, i + 1)
  }

  lemma ReapplyMutes(s: State, flags: set<Text>, i: nat)
    requires i <= |s.personas|
    ensures forall p :: p in Reapply(s, flags, i).muted <==>
                        if p in s.personas[i..] then p in flags else p in s.muted
    decreases |s.personas| - i
  {
    if i < |s.personas| {
      var t := SetMuted(s, s.personas[i], s.personas[i] in flags);
      ReapplyMutes(t, flags, i + 1);
      assert s.personas[i..] == [s.personas[i]] + s.personas[i + 1..];
    }
  }

  /** The director of the next turn: fresh without a snapshot, else restored; nothing when the
      validator rejects the snapshot. */
  ghost function Rebuild(room: Room): (director: Option<State>)
    ensures director.Some? ==> director.value.fallback >= 0
  {
    if room.stored.None? then
      Some(Reapply(Fresh(room.personas, DEFAULT_AUTONOMOUS_TURN_BUDGET), room.muted, 0))
    else if Admissible(room.personas, None, room.stored.value) then
      Some(Reapply(Restored(room.personas, room.stored.value), room.muted, 0))
    else None
  }

  /** One call, with the personas for whom a request could not be built at that moment. */
  datatype Call = Call(op: Op, unsendable: set<Text>)

  /** The turn names a speaker for whom no request can be built: it throws after scheduling. */
  ghost predicate Aborts(call: Call, reply: Reply) {
    Spoke(reply) && reply.outcome.speaker.value in call.unsendable
  }

  /** One call against the persisted room. Before anything is stored a refused directive and a duplicate
      request throw, and so do, without any reply, a turn whose request cannot be built and any turn or
      cancel on a rejected snapshot. */
  ghost function PersistedStep(room: Room, call: Call): (Room, Option<Reply>) {
    var op := call.op;
    if op.Mute? then
      if op.persona in room.personas
      then (room.(muted := if op.muted then room.muted + {op.persona} else room.muted - {op.persona}), Some(Done))
      else (room, Some(NoSuchPersona))
    else
      var director := Rebuild(room);
      if director.None? then (room, None)
      else
        var (t, reply) := Step(director.value, op);
        Conclude(room, call, reply, TakeSnapshot(t))
  }

  /** What a call leaves in the room and answers, once its director has stepped. */
  ghost function Conclude(room: Room, call: Call, reply: Reply, snapshot: Snapshot): (Room, Option<Reply>) {
    if reply.Answer? && (reply.outcome.Refused? || reply.outcome.reason == Duplicate) then (room, Some(reply))
    else if Aborts(call, reply) then (room, None)
    else (room.(stored := Some(snapshot)), Some(reply))
  }

  /** The snapshot an observer of the room sees. */
  ghost function View(room: Room): Snapshot {
    if room.stored.Some? then room.stored.value
    else TakeSnapshot(Fresh(room.personas, DEFAULT_AUTONOMOUS_TURN_BUDGET))
  }

  datatype Observation = Observation(reply: Option<Reply>, snapshot: Snapshot)

  ghost function PersistedTrace(room: Room, calls: seq<Call>): seq<Observation>
    decreases |calls|
  {
    if calls == [] then []
    else
      var (next, reply) := PersistedStep(room, calls[0]);
      [Observation(reply, View(next))] + PersistedTrace(next, calls[1..])
  }

  ghost function LiveTrace(s: ValidState, calls: seq<Call>): seq<Observation>
    decreases |calls|
  {
    if calls == [] then []
    else
      var (next, reply) := Step(s, calls[0].op);
      StepInv(s, calls[0].op);
      [Observation(Some(reply), TakeSnapshot(next))] + LiveTrace(next, calls[1..])
  }

  /** A director kept alive that is never asked the turns that would abort. */
  ghost function SkippingStep(s: ValidState, call: Call): (ValidState, Option<Reply>) {
    StepInv(s, call.op);
    var (next, reply) := Step(s, call.op);
    if Aborts(call, reply) then (s, None) else (next, Some(reply))
  }

  ghost function SkippingTrace(s: ValidState, calls: seq<Call>): seq<Observation>
    decreases |calls|
  {
    if calls == [] then []
    else
      var (next, reply) := SkippingStep(s, calls[0]);
      [Observation(reply, TakeSnapshot(next))] + SkippingTrace(next, calls[1..])
  }

  ghost predicate NeverAborts(s: ValidState, calls: seq<Call>)
    decreases |calls|
  {
    calls == [] ||
    (StepInv(s, calls[0].op);
     !Aborts(calls[0], Step(s, calls[0].op).1) && NeverAborts(Step(s, calls[0].op).0, calls[1..]))
  }

  // ---------- Continuity ----------

  /** The room and the live director describe the same conversation. */
  ghost predicate Corresponds(room: Room, s: State) {
    room.personas == s.personas && room.muted == s.muted && View(room) == TakeSnapshot(s)
  }

  lemma RebuildIsLive(room: Room, s: ValidState)
    requires Corresponds(room, s) && s.accepted <= MAX_SAFE_INTEGER
    ensures Rebuild(room) == Some(s)
  {
    SnapshotRoundTrip(s, None);
    var blank := s.(muted := {});
    assert if room.stored.Some? then Restored(room.personas, room.stored.value) == blank
           else Fresh(room.personas, DEFAULT_AUTONOMOUS_TURN_BUDGET) == blank;
    ReapplyMutes(blank, room.muted, 0);
    assert s.personas[0..] == s.personas;
    assert Reapply(blank, room.muted, 0).muted == s.muted;
  }

  lemma PersistedStepSkips(room: Room, s: ValidState, call: Call)
    requires Corresponds(room, s) && s.accepted <= MAX_SAFE_INTEGER
    ensures PersistedStep(room, call).1 == SkippingStep(s, call).1
    ensures Corresponds(PersistedStep(room, call).0, SkippingStep(s, call).0)
  {
    RebuildIsLive(room, s);
    if call.op.Turn? {
      TurnSkips(room, s, call.op.event, call.op.directed, call.unsendable);
    } else {
      OtherCallSkips(room, s, call);
    }
  }

  lemma OtherCallSkips(room: Room, s: ValidState, call: Call)
    requires !call.op.Turn? && Corresponds(room, s) && Rebuild(room) == Some(s)
    ensures PersistedStep(room, call).1 == SkippingStep(s, call).1
    ensures Corresponds(PersistedStep(room, call).0, SkippingStep(s, call).0)
  {
  }

  lemma TurnSkips(room: Room, s: ValidState, event: Event, directed: Option<Text>, unsendable: set<Text>)
    requires Corresponds(room, s) && Rebuild(room) == Some(s)
    ensures var call := Call(Turn(event, directed), unsendable);
            && PersistedStep(room, call).1 == SkippingStep(s, call).1
            && Corresponds(PersistedStep(room, call).0, SkippingStep(s, call).0)
  {
    ScheduleInv(s, event, directed);
    ThrowsUnchanged(s, event, directed);
  }

  /** A refused directive and a duplicate leave the director as it was, and name nobody. */
  lemma ThrowsUnchanged(s: State, event: Event, directed: Option<Text>)
    requires Inv(s)
    ensures var (t, outcome) := Schedule(s, event, directed);
            outcome.Refused? || outcome.reason == Duplicate ==> t == s && !Spoke(Answer(outcome))
  {
    GuaranteedSpeaker(s, event, directed);
  }

  /** An aborted turn has moved the live director. */
  lemma AbortMoves(s: ValidState, call: Call)
    requires Aborts(call, Step(s, call.op).1)
    ensures TakeSnapshot(Step(s, call.op).0) != TakeSnapshot(s)
  {
    SpeakerRecorded(s, call.op.event, call.op.directed);
  }

  /** One persisted call replies like the live director and stays in step with it, exactly when it does
      not abort. */
  lemma PersistedStepIsLive(room: Room, s: ValidState, call: Call)
    requires Corresponds(room, s) && s.accepted <= MAX_SAFE_INTEGER
    ensures PersistedStep(room, call).1 == Some(Step(s, call.op).1) <==> !Aborts(call, Step(s, call.op).1)
    ensures Corresponds(PersistedStep(room, call).0, Step(s, call.op).0) <==> !Aborts(call, Step(s, call.op).1)
  {
    PersistedStepSkips(room, s, call);
    if Aborts(call, Step(s, call.op).1) {
      AbortMoves(s, call);
    }
  }

  /** Who speaks next, if anybody does. */
  ghost function NextSpeaker(s: ValidState, directed: Option<Text>): (speaker: Text)
    requires directed.None? ==> |Cast(s)| > 0
  {
    if directed.Some? then directed.value else CastNames(s)[NextPlace(s)]
  }

  /** What a caller can check before the call: a turn aborts exactly when the director would name a
      speaker and the next speaker is one for whom no request can be built. */
  lemma AbortsExactly(s: ValidState, event: Event, directed: Option<Text>, unsendable: set<Text>)
    ensures Aborts(Call(Turn(event, directed), unsendable), Step(s, Turn(event, directed)).1)
            <==> && Directive(s, directed).None? && !s.cancelled && IsFresh(s, event)
                 && event.isHuman && event.wantsResponse && |Cast(s)| > 0
                 && NextSpeaker(s, directed) in unsendable
  {
    GuaranteedSpeaker(s, event, directed);
    if directed.None? && |Cast(s)| > 0 {
      UndirectedTurn(s, event);
    }
  }

  lemma {:induction false} ContinuityFrom(room: Room, s: ValidState, calls: seq<Call>)
    requires Corresponds(room, s) && s.accepted + |calls| <= MAX_SAFE_INTEGER
    ensures PersistedTrace(room, calls) == SkippingTrace(s, calls)
    decreases |calls|
  {
    if calls != [] {
      StepInv(s, calls[0].op);
      PersistedStepSkips(room, s, calls[0]);
      ContinuityFrom(PersistedStep(room, calls[0]).0, SkippingStep(s, calls[0]).0, calls[1..]);
    }
  }

  lemma {:induction false} SkippingIsLive(s: ValidState, calls: seq<Call>)
    ensures SkippingTrace(s, calls) == LiveTrace(s, calls) <==> NeverAborts(s, calls)
    decreases |calls|
  {
    if calls != [] {
      StepInv(s, calls[0].op);
      var (t, reply) := Step(s, calls[0].op);
      if Aborts(calls[0], reply) {
        assert SkippingTrace(s, calls)[0].reply.None? && LiveTrace(s, calls)[0].reply.Some?;
      } else {
        SkippingIsLive(t, calls[1..]);
        var seen := [Observation(Some(reply), TakeSnapshot(t))];
        assert SkippingTrace(s, calls) == seen + SkippingTrace(t, calls[1..]);
        assert LiveTrace(s, calls) == seen + LiveTrace(t, calls[1..]);
        SamePrefix(seen, SkippingTrace(t, calls[1..]), LiveTrace(t, calls[1..]));
      }
    }
  }

  lemma SamePrefix(p: seq<Observation>, x: seq<Observation>, y: seq<Observation>)
    ensures p + x == p + y <==> x == y
  {
    if p + x == p + y {
      PrefixCancels(p, x, y);
    }
  }

  /** Aborted turns leave no trace: over any run of turns, directed turns, mutes and cancels, restoring,
      re-applying mutes, scheduling and storing on each call shows the same replies and snapshots as one
      director kept alive throughout and never asked the turns that abort, for as long as event numbers
      remain safe integers. */
  lemma AbortedTurnsLeaveNoTrace(personas: seq<Text>, calls: seq<Call>)
    requires ValidRoster(personas) && |calls| <= MAX_SAFE_INTEGER
    ensures Inv(Fresh(personas, DEFAULT_AUTONOMOUS_TURN_BUDGET))
    ensures PersistedTrace(Room(personas, {}, None), calls)
         == SkippingTrace(Fresh(personas, DEFAULT_AUTONOMOUS_TURN_BUDGET), calls)
  {
    var s := Fresh(personas, DEFAULT_AUTONOMOUS_TURN_BUDGET);
    FreshInv(personas, DEFAULT_AUTONOMOUS_TURN_BUDGET);
    ContinuityFrom(Room(personas, {}, None), s, calls);
  }

  /** Exact restart continuity: such a run cannot be told apart from one director kept alive and asked
      every turn, exactly when no turn of it aborts. */
  lemma ExactRestartContinuity(personas: seq<Text>, calls: seq<Call>)
    requires ValidRoster(personas) && |calls| <= MAX_SAFE_INTEGER
    ensures Inv(Fresh(personas, DEFAULT_AUTONOMOUS_TURN_BUDGET))
    ensures var s := Fresh(personas, DEFAULT_AUTONOMOUS_TURN_BUDGET);
            PersistedTrace(Room(personas, {}, None), calls) == LiveTrace(s, calls) <==> NeverAborts(s, calls)
  {
    AbortedTurnsLeaveNoTrace(personas, calls);
    SkippingIsLive(Fresh(personas, DEFAULT_AUTONOMOUS_TURN_BUDGET), calls);
  }

  // ---------- The demonstration turn ----------

  /** A demonstration turn stores nothing unless a speaker was chosen. */
  ghost function DemoTurn(room: Room, event: Event, directed: Option<Text>): Room {
    var (next, reply) := PersistedStep(room, Call(Turn(event, directed), {}));
    if reply.Some? && reply.value.Answer? && reply.value.outcome.Decision? && reply.value.outcome.speaker.None?
    then room
    else next
  }

  /** The demonstration turn stays in step with the live director exactly when it is not given a fresh
      event, admitted by an uncancelled director, while every persona is muted. */
  lemma DemoTurnContinuity(room: Room, s: ValidState, id: Identity, directed: Option<Text>)
    requires Corresponds(room, s) && s.accepted <= MAX_SAFE_INTEGER && CanonicalIdentity(id)
    ensures Corresponds(DemoTurn(room, Verified(id, true, true), directed),
                        Schedule(s, Verified(id, true, true), directed).0)
            <==> !(directed.None? && !s.cancelled && id !in s.seen && EveryoneMuted(s))
  {
    var event: Event := Verified(id, true, true);
    PersistedStepIsLive(room, s, Call(Turn(event, directed), {}));
    GuaranteedSpeaker(s, event, directed);
    EmptyCast(s);
    var outcome := Schedule(s, event, directed).1;
    if outcome.Decision? && outcome.speaker.None? {
      DemoMoves(s, event, directed);
    }
  }

  /** A room of one muted persona, with nothing stored yet: the live director records and counts the
      event, while the room stores nothing and would take the same event again as a fresh one. */
  lemma DemoTurnDiverges(persona: Text, id: Identity)
    requires Canonical(persona) && CanonicalIdentity(id)
    ensures var room := Room([persona], {persona}, None);
            var s := Fresh([persona], DEFAULT_AUTONOMOUS_TURN_BUDGET).(muted := {persona});
            var event: Event := Verified(id, true, true);
            var live := Schedule(s, event, None).0;
            && Inv(s) && Corresponds(room, s)
            && live.seen == [id] && live.accepted == 1
            && DemoTurn(room, event, None) == room
            && !Corresponds(DemoTurn(room, event, None), live)
  {
    var room := Room([persona], {persona}, None);
    var s := Fresh([persona], DEFAULT_AUTONOMOUS_TURN_BUDGET).(muted := {persona});
    FreshInv([persona], DEFAULT_AUTONOMOUS_TURN_BUDGET);
    DemoTurnContinuity(room, s, id, None);
    RebuildIsLive(room, s);
    EmptyCast(s);
    GuaranteedSpeaker(s, Verified(id, true, true), None);
  }

  ghost predicate EveryoneMuted(s: State) {
    forall p :: p in s.personas ==> p in s.muted
  }

  lemma EmptyCast(s: State)
    ensures |Cast(s)| == 0 <==> EveryoneMuted(s)
  {
    if |Cast(s)| > 0 {
      assert s.personas[Cast(s)[0]] in s.personas;
    } else {
      forall p | p in s.personas ensures p in s.muted {
        if p !in s.muted {
          var k := UnmutedComplete(s.personas, s.muted, 0, IndexOf(s.personas, p));
        }
      }
    }
  }

  /** Without a speaker, the director's snapshot moves exactly for a fresh event while uncancelled. */
  lemma DemoMoves(s: ValidState, event: Event, directed: Option<Text>)
    requires event.Verified? && event.isHuman && event.wantsResponse
    requires Schedule(s, event, directed).1.Decision? && Schedule(s, event, directed).1.speaker.None?
    ensures TakeSnapshot(Schedule(s, event, directed).0) == TakeSnapshot(s) <==> s.cancelled || event.identity in s.seen
  {
  }
}
