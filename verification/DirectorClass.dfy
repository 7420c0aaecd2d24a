/** The mutable director: the two-level duplicate index, the speaker scan and the restore loops,
    each proved against the value model. */
module DirectorClass {
  import opened Text
  import opened DirectorModel
  import opened DirectorProofs

  /** The namespace-to-identifiers index holds exactly the identities of the FIFO list, and no
      namespace is kept without identifiers. */
  ghost predicate Indexes(index: map<Text, set<Text>>, order: seq<Identity>) {
    && (forall ns, id :: (ns in index && id in index[ns]) <==> Identity(ns, id) in order)
    && (forall ns :: ns in index ==> index[ns] != {})
  }

  function AddTo(index: map<Text, set<Text>>, id: Identity): map<Text, set<Text>> {
    if id.namespace in index then index[id.namespace := index[id.namespace] + {id.eventId}]
    else index[id.namespace := {id.eventId}]
  }

  function RemoveFrom(index: map<Text, set<Text>>, id: Identity): map<Text, set<Text>>
    requires id.namespace in index
  {
    var rest := index[id.namespace] - {id.eventId};
    if rest == {} then index - {id.namespace} else index[id.namespace := rest]
  }

  lemma AddIndexes(index: map<Text, set<Text>>, order: seq<Identity>, id: Identity)
    requires Indexes(index, order)
    ensures Indexes(AddTo(index, id), order + [id])
  {
    var added := AddTo(index, id);
    forall ns, e ensures (ns in added && e in added[ns]) <==> Identity(ns, e) in order + [id] {
      assert Identity(ns, e) in order + [id] <==> Identity(ns, e) in order || Identity(ns, e) == id;
    }
    assert id.eventId in added[id.namespace];
  }

  lemma RemoveIndexes(index: map<Text, set<Text>>, order: seq<Identity>)
    requires Indexes(index, order) && |order| > 0 && Distinct(order)
    ensures order[0].namespace in index && Indexes(RemoveFrom(index, order[0]), order[1..])
  {
    var id := order[0];
    assert Identity(id.namespace, id.eventId) in order;
    var removed := RemoveFrom(index, id);
    forall ns, e ensures (ns in removed && e in removed[ns]) <==> Identity(ns, e) in order[1..] {
      assert Identity(ns, e) in order <==> Identity(ns, e) in order[1..] || Identity(ns, e) == id;
      assert id !in order[1..];
      if ns == id.namespace && ns !in removed {
        assert e !in index[ns] - {id.eventId};
      }
    }
  }

  class Director {
    const personas: seq<Text>
    var muted: set<Text>
    var lastSelectedAt: seq<Selection>
    var seenByNamespace: map<Text, set<Text>>
    var seenOrder: seq<Identity>
    const maxAutonomousTurns: int
    var autonomousTurns: int
    var acceptedHumanEventNumber: int
    var fallbackIndex: int
    var cancelled: bool

    ghost function Value(): State
      reads this
    {
      State(personas, muted, lastSelectedAt, seenOrder, maxAutonomousTurns, autonomousTurns,
            acceptedHumanEventNumber, fallbackIndex, cancelled)
    }

    ghost predicate Valid()
      reads this
    {
      Indexes(seenByNamespace, seenOrder) && Inv(Value())
    }

    constructor (personas: seq<Text>, maxAutonomousTurns: int)
      requires ValidRoster(personas) && SafeCount(maxAutonomousTurns)
      ensures Valid() && Value() == Fresh(personas, maxAutonomousTurns)
    {
      this.personas := personas;
      this.maxAutonomousTurns := maxAutonomousTurns;
      muted, lastSelectedAt, seenByNamespace, seenOrder := {}, [], map[], [];
      autonomousTurns, acceptedHumanEventNumber, fallbackIndex, cancelled := 0, 0, 0, false;
    }

    method Cancel()
      requires Valid()
      modifies this`cancelled
      ensures Valid() && Value() == old(Value()).(cancelled := true)
    {
      cancelled := true;
    }

    method TakeSnapshot() returns (snapshot: Snapshot)
      requires Valid()
      ensures snapshot == DirectorModel.TakeSnapshot(Value())
    {
      snapshot := Snapshot(1, autonomousTurns, acceptedHumanEventNumber, fallbackIndex, cancelled,
                           maxAutonomousTurns, lastSelectedAt, seenOrder);
    }

    method SetMuted(persona: Text, flag: bool) returns (known: bool)
      requires Valid()
      modifies this`muted
      ensures Valid() && known == (persona in personas)
      ensures Value() == DirectorModel.SetMuted(old(Value()), persona, flag)
    {
      known := persona in personas;
      if !known {
        return;
      }
      if flag {
        muted := muted + {persona};
      } else {
        muted := muted - {persona};
      }
    }

    predicate HasSeen(id: Identity)
      requires Indexes(seenByNamespace, seenOrder)
      reads this
      ensures HasSeen(id) <==> id in seenOrder
    {
      assert id == Identity(id.namespace, id.eventId);
      id.namespace in seenByNamespace && id.eventId in seenByNamespace[id.namespace]
    }

    method RecordSeen(id: Identity)
      requires Indexes(seenByNamespace, seenOrder) && Distinct(seenOrder) && id !in seenOrder
      modifies this`seenByNamespace, this`seenOrder
      ensures Indexes(seenByNamespace, seenOrder) && seenOrder == Remember(old(seenOrder), id)
    {
      AddIndexes(seenByNamespace, seenOrder, id);
      if id.namespace !in seenByNamespace {
        seenByNamespace := seenByNamespace[id.namespace := {id.eventId}];
      } else {
        seenByNamespace := seenByNamespace[id.namespace := seenByNamespace[id.namespace] + {id.eventId}];
      }
      assert seenByNamespace == AddTo(old(seenByNamespace), id);
      seenOrder := seenOrder + [id];
      if |seenOrder| <= MAX_TRACKED_EVENT_IDENTITIES {
        return;
      }
      assert Distinct(seenOrder);
      RemoveIndexes(seenByNamespace, seenOrder);
      var oldest := seenOrder[0];
      seenOrder := seenOrder[1..];
      var remaining := seenByNamespace[oldest.namespace] - {oldest.eventId};
      if remaining == {} {
        seenByNamespace := seenByNamespace - {oldest.namespace};
      } else {
        seenByNamespace := seenByNamespace[oldest.namespace := remaining];
      }
    }

    method EligibleSpeaker() returns (index: Option<nat>)
      requires 0 <= fallbackIndex
      ensures index == Scan(Value(), 0)
    {
      var offset := 0;
      while offset < |personas|
        invariant 0 <= offset <= |personas|
        invariant Scan(Value(), 0) == Scan(Value(), offset)
      {
        var candidate := (fallbackIndex + offset) % |personas|;
        if personas[candidate] !in muted {
          var last := LastSelected(lastSelectedAt, personas[candidate]);
          if last.None? || acceptedHumanEventNumber - last.value > ONE_EVENT_COOLDOWN {
            return Some(candidate);
          }
        }
        offset := offset + 1;
      }
      index := None;
    }

    method CheckDirective(directed: Option<Text>) returns (refusal: Option<Refusal>)
      ensures refusal == Directive(Value(), directed)
    {
      if directed.Some? {
        if !Canonical(directed.value) {
          return Some(NotCanonical);
        }
        if directed.value !in personas {
          return Some(UnknownPersona);
        }
        if directed.value in muted {
          return Some(MutedPersona);
        }
      }
      refusal := None;
    }

    method Schedule(event: Event, directed: Option<Text>) returns (outcome: Outcome)
      requires Valid()
      modifies this
      ensures Valid() && (Value(), outcome) == DirectorModel.Schedule(old(Value()), event, directed)
    {
      ScheduleInv(Value(), event, directed);
      var refusal := CheckDirective(directed);
      if refusal.Some? {
        return Refused(refusal.value);
      }
      if cancelled {
        return Decision(None, Cancelled);
      }
      if event.Unverified? {
        return Decision(None, UnverifiedEvent);
      }
      if HasSeen(event.identity) {
        return Decision(None, Duplicate);
      }
      outcome := Admit(event, directed);
    }

    /** The rest of `schedule` for a verified event not seen before. */
    method Admit(event: Event, directed: Option<Text>) returns (outcome: Outcome)
      requires Indexes(seenByNamespace, seenOrder) && Distinct(seenOrder)
      requires event.Verified? && event.identity !in seenOrder
      requires 0 <= fallbackIndex && (directed.Some? ==> directed.value in personas)
      modifies this
      ensures Indexes(seenByNamespace, seenOrder)
      ensures (Value(), outcome) == DirectorModel.Admit(old(Value()), event, directed)
    {
      RecordSeen(event.identity);
      if !event.isHuman {
        return Decision(None, SelfTriggerBlocked);
      }
      acceptedHumanEventNumber := acceptedHumanEventNumber + 1;
      if !event.wantsResponse {
        return Decision(None, DeliberateSilence);
      }
      outcome := Respond(directed);
    }

    /** The rest of `schedule` once the event is counted. */
    method Respond(directed: Option<Text>) returns (outcome: Outcome)
      requires 0 <= fallbackIndex && (directed.Some? ==> directed.value in personas)
      modifies this`lastSelectedAt, this`fallbackIndex, this`autonomousTurns
      ensures (Value(), outcome) == Choose(old(Value()), directed)
    {
      if |personas| == 0 {
        return Decision(None, NoPersona);
      }
      var unmuted := UnmutedFrom(personas, muted, 0);
      if |unmuted| == 0 {
        return Decision(None, NoEligiblePersona);
      }
      var speaker: Option<nat>;
      if directed.Some? {
        speaker := Some(IndexOf(personas, directed.value));
      } else if |unmuted| == 1 {
        speaker := Some(unmuted[0]);
      } else {
        speaker := EligibleSpeaker();
      }
      if speaker.None? {
        return Decision(None, Cooldown);
      }
      lastSelectedAt := Put(lastSelectedAt, personas[speaker.value], acceptedHumanEventNumber);
      fallbackIndex := (speaker.value + 1) % |personas|;
      autonomousTurns := autonomousTurns + 1;
      outcome := Decision(Some(personas[speaker.value]), if directed.None? then Selected else Directed);
    }

    /** `Director.restore`: a director exactly for the admissible snapshots. */
    static method Restore(personas: seq<Text>, snapshot: Snapshot, budget: Option<int>) returns (director: Director?)
      requires ValidRoster(personas)
      ensures director != null <==> Admissible(personas, budget, snapshot)
      ensures director != null ==> fresh(director) && director.Valid()
      ensures director != null ==> director.Value() == Restored(personas, snapshot)
    {
      if !(0 <= snapshot.maxAutonomousTurns <= MAX_SAFE_INTEGER) {
        return null;
      }
      if budget.Some? && budget.value != snapshot.maxAutonomousTurns {
        return null;
      }
      var candidate := new Director(personas, snapshot.maxAutonomousTurns);
      var accepted := candidate.RestoreFrom(snapshot);
      director := if accepted then candidate else null;
    }

    method RestoreFrom(snapshot: Snapshot) returns (accepted: bool)
      requires Valid() && Value() == Fresh(personas, maxAutonomousTurns)
      requires snapshot.maxAutonomousTurns == maxAutonomousTurns
      modifies this
      ensures accepted <==> Admissible(personas, None, snapshot)
      ensures accepted ==> Valid() && Value() == Restored(personas, snapshot)
    {
      accepted := RestoreCounters(snapshot);
      if !accepted || |snapshot.seen| > MAX_TRACKED_EVENT_IDENTITIES {
        return false;
      }
      accepted := RestoreSelections(snapshot.lastSelectedAt);
      if !accepted {
        return;
      }
      accepted := CheckHistory();
      if !accepted || |snapshot.seen| < Min(acceptedHumanEventNumber, MAX_TRACKED_EVENT_IDENTITIES) {
        return false;
      }
      accepted := RestoreSeen(snapshot.seen);
    }

    method RestoreCounters(snapshot: Snapshot) returns (ok: bool)
      modifies this`autonomousTurns, this`acceptedHumanEventNumber, this`fallbackIndex, this`cancelled
      ensures ok <==>
              && snapshot.version == 1
              && 0 <= snapshot.autonomousTurns <= snapshot.acceptedHumanEventNumber <= MAX_SAFE_INTEGER
              && SafeCount(snapshot.fallbackIndex)
              && (if |personas| == 0 then snapshot.fallbackIndex == 0 else snapshot.fallbackIndex < |personas|)
      ensures ok ==> autonomousTurns == snapshot.autonomousTurns && fallbackIndex == snapshot.fallbackIndex
      ensures ok ==> acceptedHumanEventNumber == snapshot.acceptedHumanEventNumber && cancelled == snapshot.cancelled
    {
      if snapshot.version != 1 {
        return false;
      }
      if !SafeCount(snapshot.autonomousTurns) || !SafeCount(snapshot.acceptedHumanEventNumber) {
        return false;
      }
      autonomousTurns := snapshot.autonomousTurns;
      acceptedHumanEventNumber := snapshot.acceptedHumanEventNumber;
      if autonomousTurns > acceptedHumanEventNumber || !SafeCount(snapshot.fallbackIndex) {
        return false;
      }
      fallbackIndex := snapshot.fallbackIndex;
      if if |personas| == 0 then fallbackIndex != 0 else fallbackIndex >= |personas| {
        return false;
      }
      cancelled := snapshot.cancelled;
      ok := true;
    }

    method RestoreSelections(entries: seq<Selection>) returns (ok: bool)
      requires lastSelectedAt == []
      modifies this`lastSelectedAt
      ensures ok <==> DistinctSelections(entries) && SelectionsWithin(personas, entries, acceptedHumanEventNumber)
                      && forall i :: 0 <= i < |entries| ==> SafeCount(entries[i].at)
      ensures ok ==> lastSelectedAt == entries
    {
      var numbers: set<int> := {};
      for i := 0 to |entries|
        invariant lastSelectedAt == entries[..i]
        invariant DistinctSelections(entries[..i]) && SelectionsWithin(personas, entries[..i], acceptedHumanEventNumber)
        invariant forall j :: 0 <= j < i ==> SafeCount(entries[j].at)
        invariant numbers == set j | 0 <= j < i :: entries[j].at
      {
        var entry := entries[i];
        assert entries[..i + 1] == entries[..i] + [entry];
        if entry.persona !in personas || Slot(lastSelectedAt, entry.persona) >= 0 {
          return false;
        }
        if !SafeCount(entry.at) || entry.at == 0 || entry.at > acceptedHumanEventNumber || entry.at in numbers {
          return false;
        }
        numbers := numbers + {entry.at};
        lastSelectedAt := Put(lastSelectedAt, entry.persona, entry.at);
      }
      assert entries[..|entries|] == entries;
      ok := true;
    }

    method CheckHistory() returns (ok: bool)
      requires 0 <= autonomousTurns && ValidRoster(personas)
      requires SelectionsWithin(personas, lastSelectedAt, acceptedHumanEventNumber)
      requires DistinctSelections(lastSelectedAt)
      ensures ok <==>
              && |lastSelectedAt| <= autonomousTurns
              && (autonomousTurns == 0 <==> |lastSelectedAt| == 0)
              && (autonomousTurns == 0 ==> fallbackIndex == 0)
              && (autonomousTurns > 0 ==> FollowsLatest(personas, lastSelectedAt, autonomousTurns, fallbackIndex))
    {
      if |lastSelectedAt| > autonomousTurns || (autonomousTurns == 0) != (|lastSelectedAt| == 0) {
        return false;
      }
      if autonomousTurns == 0 {
        return fallbackIndex == 0;
      }
      var latest := 0;
      for i := 1 to |lastSelectedAt|
        invariant 0 <= latest < i
        invariant forall j :: 0 <= j < i ==> lastSelectedAt[j].at <= lastSelectedAt[latest].at
      {
        if lastSelectedAt[i].at > lastSelectedAt[latest].at {
          latest := i;
        }
      }
      assert LatestAt(lastSelectedAt, latest);
      assert forall i :: LatestAt(lastSelectedAt, i) ==> i == latest;
      ok := lastSelectedAt[latest].at >= autonomousTurns
        && fallbackIndex == (IndexOf(personas, lastSelectedAt[latest].persona) + 1) % |personas|;
    }

    method RestoreSeen(seen: seq<Identity>) returns (ok: bool)
      requires Indexes(seenByNamespace, seenOrder) && seenOrder == [] && |seen| <= MAX_TRACKED_EVENT_IDENTITIES
      modifies this`seenByNamespace, this`seenOrder
      ensures ok <==> Distinct(seen) && forall i :: 0 <= i < |seen| ==> CanonicalIdentity(seen[i])
      ensures ok ==> Indexes(seenByNamespace, seenOrder) && seenOrder == seen
    {
      for i := 0 to |seen|
        invariant Indexes(seenByNamespace, seenOrder) && seenOrder == seen[..i]
        invariant Distinct(seen[..i]) && forall j :: 0 <= j < i ==> CanonicalIdentity(seen[j])
      {
        assert seen[..i + 1] == seen[..i] + [seen[i]];
        if !CanonicalIdentity(seen[i]) || HasSeen(seen[i]) {
          return false;
        }
        RecordSeen(seen[i]);
      }
      assert seen[..|seen|] == seen;
      ok := true;
    }
  }
}
