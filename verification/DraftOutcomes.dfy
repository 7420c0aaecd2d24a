/** What the draft writer does with each edit and each completed save, and why a draft is ever skipped. */
module DraftOutcomes {
  import opened Text
  import opened DraftQueue

  /** The drain takes the waiting draft: to be saved when writes are allowed, else to be skipped, which
      leaves the writer idle. */
  lemma DrainOutcome(s: Queue)
    ensures s.pendingDraft.None? ==> Drain(s) == s.(draftWriteRunning := false)
    ensures s.pendingDraft.Some? && s.writesAllowed ==>
              var d := s.pendingDraft.value;
              Drain(s) == s.(pendingDraft := None, inFlight := s.inFlight + [d], started := s.started + [d.revision],
                             fates := s.fates[d.revision := Saving])
    ensures s.pendingDraft.Some? && !s.writesAllowed ==>
              Drain(s) == s.(pendingDraft := None, draftWriteRunning := false,
                             fates := s.fates[s.pendingDraft.value.revision := Skipped])
  {
    if s.pendingDraft.Some? && !s.writesAllowed {
      var t := s.(pendingDraft := None, fates := s.fates[s.pendingDraft.value.revision := Skipped]);
      assert Drain(t) == t.(draftWriteRunning := false);
    }
  }

  /** The draft an edit makes. */
  function EditedDraft(s: Queue, text: string): Draft
    requires s.activeRoom.Some?
  {
    Draft(s.draftRevision + 1, s.activeRoom.value, text)
  }

  /** An idle writer takes the edit at once: its draft is saved when writes are allowed and skipped when
      they are blocked. A busy writer keeps it as the one draft that waits. */
  lemma EditOutcome(s: ValidQueue, text: string)
    requires s.activeRoom.Some?
    ensures var d, t := EditedDraft(s, text), Next(s, Edit(text));
            && t.draftRevision == d.revision && t.newest == Some(d) && d.revision in t.fates
            && t.stored == s.stored && t.pendingDraftFailure == s.pendingDraftFailure
            && (s.inFlight == [] && s.writesAllowed ==>
                  t.inFlight == [d] && t.started == s.started + [d.revision] && t.pendingDraft.None?)
            && (s.inFlight == [] && !s.writesAllowed ==>
                  t.inFlight == [] && t.started == s.started && t.pendingDraft.None? && t.fates[d.revision] == Skipped)
            && (s.inFlight != [] ==>
                  t.inFlight == s.inFlight && t.started == s.started && t.pendingDraft == Some(d))
            && (s.pendingDraft.Some? ==>
                  s.pendingDraft.value.revision in t.fates && t.fates[s.pendingDraft.value.revision] == Replaced)
  {
    var waiting := Replace(s.(draftRevision := s.draftRevision + 1), EditedDraft(s, text));
    DrainOutcome(waiting.(draftWriteRunning := true));
  }

  /** An edit with no room open is counted and changes nothing else. */
  lemma RoomlessEdit(s: ValidQueue, text: string)
    requires s.activeRoom.None?
    ensures Next(s, Edit(text)) == s.(draftRevision := s.draftRevision + 1)
  {
  }

  /** A completed save has its outcome: on success the room's text is stored and no other room's changes;
      the recorded failure changes for the newest revision only. Then the waiting draft is taken: saved
      when writes are allowed, skipped when they are blocked. */
  lemma SaveOutcome(s: ValidQueue, d: Draft, saved: bool)
    requires s.inFlight == [d]
    ensures var t := Next(s, SaveEnded(0, saved));
            && d.revision in t.fates && t.fates[d.revision] == (if saved then Saved else Failed)
            && StoredText(t.stored, d.room) == (if saved then d.text else StoredText(s.stored, d.room))
            && (forall room :: room != d.room ==> StoredText(t.stored, room) == StoredText(s.stored, room))
            && t.pendingDraftFailure == (if d.revision != s.draftRevision then s.pendingDraftFailure
                                         else if saved then None else Some(d))
            && t.pendingDraft.None?
            && (s.pendingDraft.Some? && s.writesAllowed ==>
                  t.inFlight == [s.pendingDraft.value] && t.started == s.started + [s.pendingDraft.value.revision])
            && (s.pendingDraft.Some? && !s.writesAllowed ==>
                  t.inFlight == [] && t.started == s.started
                  && s.pendingDraft.value.revision in t.fates && t.fates[s.pendingDraft.value.revision] == Skipped)
            && (s.pendingDraft.None? ==> t.inFlight == [] && t.started == s.started)
  {
    assert s.inFlight[..0] + s.inFlight[1..] == [];
    assert SaveAccounted(s, d);
    DrainOutcome(Settle(s, 0, saved));
  }

  /** Rooms and the gate change when they are told to, and nothing else does. */
  lemma OutsideChanges(s: Queue, room: string, allowed: bool)
    ensures Next(s, Open(room)) == s.(activeRoom := Some(room))
    ensures Next(s, Gate(allowed)) == s.(writesAllowed := allowed)
  {
  }

  // ---------- A draft is skipped only while writes are blocked ----------

  ghost predicate IsSkipped(s: Queue, r: nat) {
    r in s.fates && s.fates[r] == Skipped
  }

  lemma SkippingNeedsBlock(s: ValidQueue, step: Step, r: nat)
    requires IsSkipped(Next(s, step), r) && !IsSkipped(s, r)
    ensures !s.writesAllowed
  {
    StepDrains(s, step);
  }

  /** The state a step hands to the drain, if it does. */
  lemma StepDrains(s: Queue, step: Step)
    ensures step.Edit? && s.activeRoom.Some? ==>
              DrainsTo(Replace(s.(draftRevision := s.draftRevision + 1), EditedDraft(s, step.text))
                         .(draftWriteRunning := true))
    ensures step.SaveEnded? && step.index < |s.inFlight| ==> DrainsTo(Settle(s, step.index, step.saved))
  {
    if step.Edit? && s.activeRoom.Some? {
      DrainOutcome(Replace(s.(draftRevision := s.draftRevision + 1), EditedDraft(s, step.text))
                     .(draftWriteRunning := true));
    } else if step.SaveEnded? && step.index < |s.inFlight| {
      DrainOutcome(Settle(s, step.index, step.saved));
    }
  }

  ghost predicate DrainsTo(s: Queue) {
    && Drain(s).writesAllowed == s.writesAllowed
    && forall r :: IsSkipped(Drain(s), r) ==> IsSkipped(s, r) || !s.writesAllowed
  }

  /** Whenever a run skips a draft, writes were blocked at the step that took it. */
  lemma {:induction false} SkippedWasBlocked(s: ValidQueue, steps: seq<Step>, r: nat) returns (i: nat)
    requires IsSkipped(Run(s, steps), r) && !IsSkipped(s, r)
    ensures i < |steps| && !Run(s, steps[..i]).writesAllowed
    ensures !IsSkipped(Run(s, steps[..i]), r) && IsSkipped(Run(s, steps[..i + 1]), r)
    decreases |steps|
  {
    var t := Next(s, steps[0]);
    StepInv(s, steps[0]);
    if IsSkipped(t, r) {
      SkippingNeedsBlock(s, steps[0], r);
      i := 0;
      assert steps[..1] == [steps[0]] && [steps[0]][1..] == [];
      assert Run(t, []) == t;
    } else {
      var j := SkippedWasBlocked(t, steps[1..], r);
      i := j + 1;
      assert steps[..i][1..] == steps[1..][..j] && steps[..i + 1][1..] == steps[1..][..j + 1];
    }
  }

  /** With the gate open throughout, every queued draft is saved, fails or gives way to a newer one, and at
      quiescence the newest one is stored or is the retryable failure. */
  lemma NothingSkippedWhileAllowed(steps: seq<Step>)
    requires forall i :: 0 <= i < |steps| ==> steps[i] != Gate(false)
    ensures var t := Run(Initial(true), steps);
            && (forall r :: r in t.fates ==> t.fates[r] != Skipped)
            && (!t.draftWriteRunning && t.newest.Some? ==>
                  StoredText(t.stored, t.newest.value.room) == t.newest.value.text
                  || t.pendingDraftFailure == t.newest)
  {
    SingleLatestWriter(true, steps);
    var t := Run(Initial(true), steps);
    forall r | r in t.fates ensures t.fates[r] != Skipped {
      if t.fates[r] == Skipped {
        var i := SkippedWasBlocked(Initial(true), steps, r);
        StaysAllowed(Initial(true), steps[..i]);
        assert false;
      }
    }
  }

  lemma {:induction false} StaysAllowed(s: ValidQueue, steps: seq<Step>)
    requires s.writesAllowed && forall i :: 0 <= i < |steps| ==> steps[i] != Gate(false)
    ensures Run(s, steps).writesAllowed
    decreases |steps|
  {
    if steps != [] {
      StepInv(s, steps[0]);
      GateStays(s, steps[0]);
      StaysAllowed(Next(s, steps[0]), steps[1..]);
    }
  }

  lemma GateStays(s: Queue, step: Step)
    ensures Next(s, step).writesAllowed == if step.Gate? then step.writesAllowed else s.writesAllowed
  {
    StepDrains(s, step);
  }

  /** A room is opened and a line typed: its save starts. */
  lemma FirstEditIsSaved(room: string, text: string)
    ensures Run(Initial(true), [Open(room), Edit(text)]).inFlight == [Draft(1, room, text)]
    ensures text != "" ==>
              var t := Run(Initial(true), [Open(room), Edit(text), SaveEnded(0, true)]);
              t.stored == map[room := text] && !t.draftWriteRunning
  {
    var entered := Next(Initial(true), Open(room));
    var edited := Next(entered, Edit(text));
    var saved := Next(edited, SaveEnded(0, true));
    assert [Open(room), Edit(text)][1..] == [Edit(text)];
    assert Run(entered, [Edit(text)]) == Run(edited, []);
    assert [Open(room), Edit(text), SaveEnded(0, true)][1..] == [Edit(text), SaveEnded(0, true)];
    assert [Edit(text), SaveEnded(0, true)][1..] == [SaveEnded(0, true)];
    assert Run(edited, [SaveEnded(0, true)]) == Run(saved, []);
    assert edited.inFlight[..0] + edited.inFlight[1..] == [];
  }
}
