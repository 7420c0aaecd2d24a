/** The runtime's turn: rebuild a director, re-apply the mute flags in a loop, schedule, pack the request,
    store. */
module RoomTurn {
  import opened Text
  import opened DirectorModel
  import opened DirectorRuns
  import opened DirectorClass
  import opened RestartContinuity
  import opened ProviderTurn
  import P = ContextPacking

  method RebuildDirector(room: Room) returns (director: Director?)
    requires ValidRoster(room.personas)
    ensures director != null <==> Rebuild(room).Some?
    ensures director != null ==> fresh(director) && director.Valid() && director.Value() == Rebuild(room).value
  {
    if room.stored.None? {
      director := new Director(room.personas, DEFAULT_AUTONOMOUS_TURN_BUDGET);
    } else {
      director := Director.Restore(room.personas, room.stored.value, None);
      if director == null {
        return;
      }
    }
    ghost var start := director.Value();
    for i := 0 to |room.personas|
      invariant fresh(director) && director.Valid() && director.personas == room.personas
      invariant Reapply(start, room.muted, 0) == Reapply(director.Value(), room.muted, i)
    {
      var _ := director.SetMuted(room.personas[i], room.personas[i] in room.muted);
    }
  }

  method BuildRequest(speaker: Text, catalog: Catalog, message: Message) returns (request: Option<seq<P.Message>>)
    ensures request == RequestFor(catalog, speaker, message)
    ensures request.Some? ==> speaker in catalog && IsPacked(request.value, catalog[speaker], message)
  {
    if RequestFor(catalog, speaker, message).Some? {
      RequestIsPacked(catalog, speaker, message);
    }
    if speaker !in catalog {
      return None;
    }
    request := P.ProviderMessages(catalog[speaker], EventsOf(message), message.source);
  }

  method ScheduleTurn(director: Director, event: Event, directed: Option<Text>)
    returns (outcome: Outcome, snapshot: Snapshot)
    requires director.Valid()
    modifies director
    ensures outcome == Schedule(old(director.Value()), event, directed).1
    ensures snapshot == TakeSnapshot(Schedule(old(director.Value()), event, directed).0)
  {
    outcome := director.Schedule(event, directed);
    snapshot := director.TakeSnapshot();
  }

  /** A request is made exactly when a speaker is answered: the one for that speaker, packed from the whole
      conversation. */
  ghost predicate Answers(request: Option<seq<P.Message>>, reply: Option<Reply>, catalog: Catalog, message: Message) {
    && (request.Some? <==> reply.Some? && Spoke(reply.value))
    && (request.Some? ==>
          var speaker := reply.value.outcome.speaker.value;
          && request == RequestFor(catalog, speaker, message)
          && speaker in catalog && IsPacked(request.value, catalog[speaker], message))
  }

  /** The rest of the turn once the director has scheduled it. */
  method FinishTurn(room: Room, outcome: Outcome, snapshot: Snapshot,
                    catalog: Catalog, message: Message, ghost call: Call)
    returns (next: Room, reply: Option<Reply>, request: Option<seq<P.Message>>)
    requires Aborts(call, Answer(outcome))
             <==> Spoke(Answer(outcome)) && RequestFor(catalog, outcome.speaker.value, message).None?
    requires outcome.Decision? && outcome.speaker.Some? ==> outcome.reason != Duplicate
    ensures (next, reply) == Conclude(room, call, Answer(outcome), snapshot)
    ensures Answers(request, reply, catalog, message)
  {
    request := None;
    if outcome.Refused? || outcome.reason == Duplicate {
      return room, Some(Answer(outcome)), None;
    }
    if outcome.speaker.Some? {
      request := BuildRequest(outcome.speaker.value, catalog, message);
      if request.None? {
        return room, None, None;
      }
    }
    next, reply := room.(stored := Some(snapshot)), Some(Answer(outcome));
  }

  /** Exactly one step of the persisted machine, with the request that is stored beside the snapshot. */
  method TakeTurn(room: Room, event: Event, directed: Option<Text>, catalog: Catalog, message: Message)
    returns (next: Room, reply: Option<Reply>, request: Option<seq<P.Message>>)
    requires ValidRoster(room.personas)
    ensures var unsendable := Unsendable(catalog, room.personas, message);
            (next, reply) == PersistedStep(room, Call(Turn(event, directed), unsendable))
    ensures Answers(request, reply, catalog, message)
  {
    var director := RebuildDirector(room);
    if director == null {
      return room, None, None;
    }
    ghost var call := Call(Turn(event, directed), Unsendable(catalog, room.personas, message));
    ghost var s := director.Value();
    AbortsWithoutRequest(s, event, directed, catalog, message);
    ThrowsUnchanged(s, event, directed);
    var outcome, snapshot := ScheduleTurn(director, event, directed);
    assert PersistedStep(room, call) == Conclude(room, call, Answer(outcome), snapshot);
    next, reply, request := FinishTurn(room, outcome, snapshot, catalog, message, call);
  }
}
