/** The answers, refusals and records of the director, written out; and what a cancel ends. */
module DirectorOutcomes {
  import opened Text
  import opened DirectorModel
  import opened DirectorProofs
  import opened DirectorRuns

  // ---------- Refusals ----------

  function TrimStart(v: Text): (r: Text)
    ensures |r| <= |v| && (r == v <==> v == [] || !IsSpace(v[0]))
  {
    if v != [] && IsSpace(v[0]) then TrimStart(v[1..]) else v
  }

  function TrimEnd(v: Text): (r: Text)
    ensures |r| <= |v| && (r == v <==> v == [] || !IsSpace(v[|v| - 1]))
  {
    if v != [] && IsSpace(v[|v| - 1]) then TrimEnd(v[..|v| - 1]) else v
  }

  /** `String.prototype.trim`. */
  function Trim(v: Text): Text {
    TrimEnd(TrimStart(v))
  }

  /** An identifier is canonical when it is nonempty and its own trimmed form. */
  lemma CanonicalIsTrimmed(v: Text)
    ensures Canonical(v) <==> v != [] && Trim(v) == v
  {
    if v != [] && IsSpace(v[0]) {
      assert |Trim(v)| <= |TrimStart(v)| < |v|;
    }
  }

  /** White space and line terminators, one by one. */
  lemma SpacesAre(u: CodeUnit)
    ensures IsSpace(u) <==>
            u in {0x09, 0x0A, 0x0B, 0x0C, 0x0D, 0x20, 0xA0, 0x1680, 0x2000, 0x2001, 0x2002, 0x2003, 0x2004,
                  0x2005, 0x2006, 0x2007, 0x2008, 0x2009, 0x200A, 0x2028, 0x2029, 0x202F, 0x205F, 0x3000, 0xFEFF}
  {
  }

  /** Which refusal a directed turn gets, before anything else is looked at. */
  lemma RefusalReasons(s: ValidState, event: Event, directed: Option<Text>)
    ensures var (t, outcome) := Schedule(s, event, directed);
            && (outcome == Refused(NotCanonical) <==>
                directed.Some? && (directed.value == [] || Trim(directed.value) != directed.value))
            && (outcome == Refused(UnknownPersona) <==>
                directed.Some? && directed.value != [] && Trim(directed.value) == directed.value
                && directed.value !in s.personas)
            && (outcome == Refused(MutedPersona) <==>
                directed.Some? && directed.value in s.personas && directed.value in s.muted)
            && (outcome.Refused? ==> t == s)
  {
    GuaranteedSpeaker(s, event, directed);
    if directed.Some? {
      CanonicalIsTrimmed(directed.value);
      if directed.value in s.personas {
        assert Canonical(s.personas[IndexOf(s.personas, directed.value)]);
      }
    }
  }

  // ---------- The order of the selection record ----------

  function PersonasOf(entries: seq<Selection>): (r: seq<Text>)
    ensures |r| == |entries| && forall i :: 0 <= i < |r| ==> r[i] == entries[i].persona
  {
    seq(|entries|, i requires 0 <= i < |entries| => entries[i].persona)
  }

  /** A name is listed when it first comes up. */
  function Listed(names: seq<Text>, name: Text): seq<Text> {
    if name in names then names else names + [name]
  }

  function ListedAll(names: seq<Text>, more: seq<Text>): seq<Text>
    decreases |more|
  {
    if more == [] then names else ListedAll(Listed(names, more[0]), more[1..])
  }

  lemma PutLists(entries: seq<Selection>, persona: Text, at: int)
    ensures PersonasOf(Put(entries, persona, at)) == Listed(PersonasOf(entries), persona)
  {
    var i := Slot(entries, persona);
    if i >= 0 {
      assert PersonasOf(entries)[i] == persona;
      assert PersonasOf(Put(entries, persona, at)) == PersonasOf(entries);
    } else {
      assert persona !in PersonasOf(entries);
      assert PersonasOf(Put(entries, persona, at)) == PersonasOf(entries) + [persona];
    }
  }

  lemma StepLists(s: ValidState, op: Op)
    ensures var (t, reply) := Step(s, op);
            var before := PersonasOf(s.lastSelectedAt);
            PersonasOf(t.lastSelectedAt)
            == if Spoke(reply) then Listed(before, reply.outcome.speaker.value) else before
  {
    if op.Turn? {
      SpeakerRecorded(s, op.event, op.directed);
      GuaranteedSpeaker(s, op.event, op.directed);
      var (t, outcome) := Schedule(s, op.event, op.directed);
      if outcome.Decision? && outcome.speaker.Some? {
        var counted := s.(seen := Remember(s.seen, op.event.identity), accepted := s.accepted + 1);
        assert (t, outcome) == Choose(counted, op.directed);
        PutLists(s.lastSelectedAt, outcome.speaker.value, counted.accepted);
      }
    }
  }

  /** The selection record lists the speakers in the order in which each first spoke. */
  lemma {:induction false} RecordOrder(s: ValidState, ops: seq<Op>)
    ensures PersonasOf(Run(s, ops).lastSelectedAt) == ListedAll(PersonasOf(s.lastSelectedAt), Speakers(s, ops))
    decreases |ops|
  {
    if ops != [] {
      var (t, reply) := Step(s, ops[0]);
      StepInv(s, ops[0]);
      StepLists(s, ops[0]);
      RecordOrder(t, ops[1..]);
      if Spoke(reply) {
        assert Speakers(s, ops)[0] == reply.outcome.speaker.value && Speakers(s, ops)[1..] == Speakers(t, ops[1..]);
      } else {
        assert Speakers(s, ops) == Speakers(t, ops[1..]);
      }
    }
  }

  // ---------- After a cancel ----------

  /** After a cancel nobody speaks and nothing is recorded any more; only mutes still change. */
  lemma {:induction false} CancelIsFinal(s: ValidState, ops: seq<Op>)
    requires s.cancelled
    ensures Speakers(s, ops) == [] && Run(s, ops) == s.(muted := Run(s, ops).muted)
    decreases |ops|
  {
    if ops != [] {
      StepInv(s, ops[0]);
      CancelledStep(s, ops[0]);
      CancelIsFinal(Step(s, ops[0]).0, ops[1..]);
    }
  }

  lemma CancelledStep(s: ValidState, op: Op)
    requires s.cancelled
    ensures var (t, reply) := Step(s, op);
            && t == s.(muted := t.muted) && !Spoke(reply)
            && (op.Turn?
                && (op.directed.None? || (op.directed.value in s.personas && op.directed.value !in s.muted)) ==>
                  reply == Answer(Decision(None, Cancelled)))
  {
    if op.Turn? {
      GuaranteedSpeaker(s, op.event, op.directed);
      if op.directed.Some? && op.directed.value in s.personas {
        assert Canonical(s.personas[IndexOf(s.personas, op.directed.value)]);
      }
    }
  }

  /** A cancel and a mute change what they name and nothing else. */
  lemma OtherCalls(s: State, persona: Text, flag: bool)
    requires 0 <= s.fallback
    ensures Step(s, Cancel) == (s.(cancelled := true), Done)
    ensures persona !in s.personas ==> Step(s, Mute(persona, flag)) == (s, NoSuchPersona)
    ensures persona in s.personas ==>
              var (t, reply) := Step(s, Mute(persona, flag));
              && reply == Done && t == s.(muted := t.muted)
              && forall p :: p in t.muted <==> if p == persona then flag else p in s.muted
  {
  }

  // ---------- The snapshot ----------

  lemma SnapshotFields(s: State)
    ensures var x := TakeSnapshot(s);
            && x.version == 1 && x.autonomousTurns == s.turns && x.acceptedHumanEventNumber == s.accepted
            && x.fallbackIndex == s.fallback && x.cancelled == s.cancelled && x.maxAutonomousTurns == s.maxTurns
            && x.lastSelectedAt == s.lastSelectedAt && x.seen == s.seen
    ensures DEFAULT_AUTONOMOUS_TURN_BUDGET == 10
  {
  }

  /** An identity within its limits, as the adapter and the validator require it. */
  predicate WrittenIdentity(id: Identity) {
    && id.namespace != [] && Trim(id.namespace) == id.namespace && |id.namespace| <= 128
    && id.eventId != [] && Trim(id.eventId) == id.eventId && |id.eventId| <= 256
  }

  /** Entry `i` holds the largest event number. */
  ghost predicate IsLatest(entries: seq<Selection>, i: int) {
    0 <= i < |entries| && forall j :: 0 <= j < |entries| ==> entries[j].at <= entries[i].at
  }

  predicate WrittenSelections(personas: seq<Text>, entries: seq<Selection>, accepted: int) {
    && (forall i, j :: 0 <= i < j < |entries| ==>
          entries[i].persona != entries[j].persona && entries[i].at != entries[j].at)
    && (forall i :: 0 <= i < |entries| ==> entries[i].persona in personas && 1 <= entries[i].at <= accepted)
  }

  /** No more speakers than turns, no turns without speakers, and the fallback after the latest of them, who
      spoke no earlier than there were turns. */
  ghost predicate WrittenHistory(personas: seq<Text>, entries: seq<Selection>, turns: int, fallback: int) {
    && |entries| <= turns
    && (turns == 0 <==> entries == [])
    && (turns == 0 ==> fallback == 0)
    && (turns > 0 ==>
          exists i :: IsLatest(entries, i) && entries[i].at >= turns && personas != []
                      && fallback == (IndexOf(personas, entries[i].persona) + 1) % |personas|)
  }

  predicate WrittenSeen(seen: seq<Identity>, accepted: int) {
    && |seen| <= 500 && (accepted <= |seen| || |seen| == 500)
    && (forall i :: 0 <= i < |seen| ==> WrittenIdentity(seen[i]))
    && (forall i, j :: 0 <= i < j < |seen| ==> seen[i] != seen[j])
  }

  lemma SelectionsExactly(personas: seq<Text>, entries: seq<Selection>, turns: int, accepted: int, fallback: int)
    ensures CoherentSelections(personas, entries, turns, accepted, fallback) <==>
            && 0 <= turns <= accepted
            && (if personas == [] then fallback == 0 else 0 <= fallback < |personas|)
            && WrittenSelections(personas, entries, accepted)
            && WrittenHistory(personas, entries, turns, fallback)
  {
    forall i ensures LatestAt(entries, i) <==> IsLatest(entries, i) {
    }
    if turns > 0 && FollowsLatest(personas, entries, turns, fallback) {
      var i :| LatestAt(entries, i) && turns <= entries[i].at && |personas| > 0 &&
               fallback == (IndexOf(personas, entries[i].persona) + 1) % |personas|;
      assert IsLatest(entries, i);
    }
    if turns > 0 && WrittenHistory(personas, entries, turns, fallback) {
      var i :| IsLatest(entries, i) && entries[i].at >= turns && personas != []
               && fallback == (IndexOf(personas, entries[i].persona) + 1) % |personas|;
      assert LatestAt(entries, i);
    }
  }

  lemma SeenExactly(seen: seq<Identity>, accepted: int)
    ensures CoherentSeen(seen, accepted) <==> WrittenSeen(seen, accepted)
  {
    forall i | 0 <= i < |seen| ensures CanonicalIdentity(seen[i]) <==> WrittenIdentity(seen[i]) {
      CanonicalIsTrimmed(seen[i].namespace);
      CanonicalIsTrimmed(seen[i].eventId);
    }
  }

  /** What the validator accepts, check by check. */
  lemma AcceptedExactly(personas: seq<Text>, budget: Option<int>, x: Snapshot)
    ensures Admissible(personas, budget, x) <==>
            && x.version == 1
            && 0 <= x.maxAutonomousTurns <= 9007199254740991
            && (budget.Some? ==> budget.value == x.maxAutonomousTurns)
            && 0 <= x.autonomousTurns <= x.acceptedHumanEventNumber <= 9007199254740991
            && (if personas == [] then x.fallbackIndex == 0 else 0 <= x.fallbackIndex < |personas|)
            && WrittenSelections(personas, x.lastSelectedAt, x.acceptedHumanEventNumber)
            && WrittenHistory(personas, x.lastSelectedAt, x.autonomousTurns, x.fallbackIndex)
            && WrittenSeen(x.seen, x.acceptedHumanEventNumber)
  {
    SelectionsExactly(personas, x.lastSelectedAt, x.autonomousTurns, x.acceptedHumanEventNumber, x.fallbackIndex);
    SeenExactly(x.seen, x.acceptedHumanEventNumber);
  }
}
