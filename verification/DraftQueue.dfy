/** The coalescing draft writer of `ios-web/room-runtime.js`: a single-writer, latest-wins slot. */
module DraftQueue {
  import opened Text
  import opened Sequences

  datatype Draft = Draft(revision: nat, room: string, text: string)

  /** What became of a queued draft. */
  datatype Fate = Queued | Saving | Saved | Failed | Skipped | Replaced

  datatype Queue = Queue(
    activeRoom: Option<string>,
    draftRevision: nat,
    pendingDraft: Option<Draft>,
    draftWriteRunning: bool,
    pendingDraftFailure: Option<Draft>,
    writesAllowed: bool,
    // Saves the database has not answered yet.
    inFlight: seq<Draft>,
    // Revisions whose save was started, in order; the fate of each queued revision; the newest draft.
    started: seq<nat>,
    fates: map<nat, Fate>,
    newest: Option<Draft>,
    stored: map<string, string>)

  /** A room once open is replaced by another, never closed. */
  datatype Step =
    | Open(room: string)
    | Edit(text: string)
    | Gate(writesAllowed: bool)
    | SaveEnded(index: nat, saved: bool)

  function Initial(writesAllowed: bool): Queue {
    Queue(None, 0, None, false, None, writesAllowed, [], [], map[], None, map[])
  }

  /** The drain loop from its head to its next suspension or its end. */
  function Drain(s: Queue): (t: Queue)
    ensures t.newest == s.newest && t.draftRevision == s.draftRevision && t.activeRoom == s.activeRoom
    decreases if s.pendingDraft.Some? then 1 else 0
  {
    if s.pendingDraft.None? then s.(draftWriteRunning := false)
    else
      var draft := s.pendingDraft.value;
      var t := s.(pendingDraft := None);
      if !s.writesAllowed then Drain(t.(fates := t.fates[draft.revision := Skipped]))
      else t.(inFlight := t.inFlight + [draft], started := t.started + [draft.revision],
              fates := t.fates[draft.revision := Saving])
  }

  function StartDrain(s: Queue): Queue {
    if s.draftWriteRunning then s else Drain(s.(draftWriteRunning := true))
  }

  /** Put the draft of an edit into the slot; a draft still waiting there is dropped. */
  function Replace(s: Queue, draft: Draft): Queue {
    var dropped := if s.pendingDraft.Some? then s.fates[s.pendingDraft.value.revision := Replaced] else s.fates;
    s.(pendingDraft := Some(draft), fates := dropped[draft.revision := Queued], newest := Some(draft))
  }

  function QueueDraft(s: Queue, text: string): Queue {
    var t := s.(draftRevision := s.draftRevision + 1);
    if t.activeRoom.None? then t
    else StartDrain(Replace(t, Draft(t.draftRevision, t.activeRoom.value, text)))
  }

  /** An empty text deletes the stored draft. */
  function Store(stored: map<string, string>, draft: Draft): map<string, string> {
    if draft.text == "" then stored - {draft.room} else stored[draft.room := draft.text]
  }

  /** The outcome of a save; only the newest revision may change the recorded failure. */
  function Settle(s: Queue, index: nat, saved: bool): Queue
    requires index < |s.inFlight|
  {
    var draft := s.inFlight[index];
    var latest := draft.revision == s.draftRevision;
    s.(inFlight := s.inFlight[..index] + s.inFlight[index + 1..],
       fates := s.fates[draft.revision := if saved then Saved else Failed],
       stored := if saved then Store(s.stored, draft) else s.stored,
       pendingDraftFailure := if !latest then s.pendingDraftFailure else if saved then None else Some(draft))
  }

  function Next(s: Queue, step: Step): Queue {
    match step
    case Open(room) => s.(activeRoom := Some(room))
    case Edit(text) => QueueDraft(s, text)
    case Gate(allowed) => s.(writesAllowed := allowed)
    case SaveEnded(index, saved) => if index < |s.inFlight| then Drain(Settle(s, index, saved)) else s
  }

  function Run(s: Queue, steps: seq<Step>): Queue
    decreases |steps|
  {
    if steps == [] then s else Run(Next(s, steps[0]), steps[1..])
  }

  // ---------- The invariant ----------

  /** The stored text of a room; no entry stands for the empty draft. */
  function StoredText(stored: map<string, string>, room: string): string {
    if room in stored then stored[room] else ""
  }

  /** The newest draft waits, is being saved, or has met its fate. */
  ghost predicate NewestAccounted(s: Queue, d: Draft) {
    && d.revision == s.draftRevision && d.revision in s.fates && s.activeRoom.Some?
    && match s.fates[d.revision]
       case Queued => s.pendingDraft == Some(d)
       case Saving => s.pendingDraft.None? && s.inFlight == [d]
       case Saved => s.pendingDraft.None? && s.inFlight == [] && StoredText(s.stored, d.room) == d.text
                     && s.pendingDraftFailure.None?
       case Failed => s.pendingDraft.None? && s.inFlight == [] && s.pendingDraftFailure == Some(d)
       case Skipped => s.pendingDraft.None? && s.inFlight == []
       case Replaced => false
  }

  ghost predicate SlotAccounted(s: Queue, d: Draft) {
    && s.newest == Some(d) && d.revision in s.fates && s.fates[d.revision] == Queued
    && forall i :: 0 <= i < |s.started| ==> s.started[i] < d.revision
  }

  ghost predicate SaveAccounted(s: Queue, d: Draft) {
    && s.started != [] && d.revision == s.started[|s.started| - 1]
    && d.revision in s.fates && s.fates[d.revision] == Saving
  }

  ghost predicate Core(s: Queue) {
    && |s.inFlight| <= 1
    && Increasing(s.started)
    && (forall i :: 0 <= i < |s.started| ==> s.started[i] <= s.draftRevision)
    && (forall r :: r in s.fates ==> r <= s.draftRevision)
    && (s.inFlight != [] ==> SaveAccounted(s, s.inFlight[0]))
    && (s.pendingDraft.Some? ==> SlotAccounted(s, s.pendingDraft.value))
    && (forall r :: r in s.fates ==> Accounted(s, r))
    && (s.pendingDraftFailure.Some? ==> FailedBefore(s, s.pendingDraftFailure.value))
    && (s.newest.Some? ==> NewestAccounted(s, s.newest.value))
    && (s.newest.None? ==> s.inFlight == [] && s.pendingDraft.None?)
  }

  /** A draft that has not met its fate is in the slot or being saved. */
  ghost predicate Accounted(s: Queue, r: nat)
    requires r in s.fates
  {
    match s.fates[r]
    case Queued => s.pendingDraft.Some? && s.pendingDraft.value.revision == r
    case Saving => s.inFlight != [] && s.inFlight[0].revision == r
    case _ => true
  }

  /** The recorded failure is of a draft whose save did fail. */
  ghost predicate FailedBefore(s: Queue, d: Draft) {
    d.revision in s.fates && s.fates[d.revision] == Failed
  }

  ghost predicate Inv(s: Queue) {
    && Core(s)
    && (s.draftWriteRunning <==> s.inFlight != [])
    && (!s.draftWriteRunning ==> s.pendingDraft.None?)
  }

  type ValidQueue = s: Queue | Inv(s) ghost witness Initial(true)

  lemma DrainInv(s: Queue)
    requires Core(s) && s.inFlight == [] && s.draftWriteRunning
    ensures Inv(Drain(s))
  {
    if s.pendingDraft.Some? && !s.writesAllowed {
      var draft := s.pendingDraft.value;
      assert Core(s.(pendingDraft := None, fates := s.fates[draft.revision := Skipped]));
    }
  }

  lemma ReplaceCore(s: ValidQueue, draft: Draft)
    requires s.activeRoom.Some? && draft.revision == s.draftRevision + 1
    ensures Core(Replace(s.(draftRevision := s.draftRevision + 1), draft))
  {
  }

  lemma EditInv(s: ValidQueue, text: string)
    ensures Inv(QueueDraft(s, text))
  {
    if s.activeRoom.Some? {
      var draft := Draft(s.draftRevision + 1, s.activeRoom.value, text);
      var t := Replace(s.(draftRevision := s.draftRevision + 1), draft);
      ReplaceCore(s, draft);
      if !s.draftWriteRunning {
        DrainInv(t.(draftWriteRunning := true));
      }
    }
  }

  lemma SettleCore(s: ValidQueue, index: nat, saved: bool)
    requires index < |s.inFlight|
    ensures Core(Settle(s, index, saved)) && Settle(s, index, saved).inFlight == []
  {
    assert s.inFlight[..index] + s.inFlight[index + 1..] == [];
  }

  lemma StepInv(s: ValidQueue, step: Step)
    ensures Inv(Next(s, step))
  {
    match step
    case Open(_) =>
    case Edit(text) => EditInv(s, text);
    case Gate(_) =>
    case SaveEnded(index, saved) =>
      if index < |s.inFlight| {
        SettleCore(s, index, saved);
        DrainInv(Settle(s, index, saved));
      }
  }

  lemma {:induction false} RunInv(s: ValidQueue, steps: seq<Step>)
    ensures Inv(Run(s, steps))
    decreases |steps|
  {
    if steps != [] {
      StepInv(s, steps[0]);
      RunInv(Next(s, steps[0]), steps[1..]);
    }
  }

  /** In every interleaving of edits, room changes, gate changes and save completions at most one save is
      in flight and saves start in strictly increasing revision order. At quiescence the slot is empty,
      every queued draft has met its fate, and the newest one, which is that of the newest revision, is
      stored, or is the retryable failure, or was skipped because writes were blocked when it was taken. */
  lemma SingleLatestWriter(writesAllowed: bool, steps: seq<Step>)
    ensures var t := Run(Initial(writesAllowed), steps);
            && |t.inFlight| <= 1
            && Increasing(t.started)
            && (t.draftWriteRunning <==> |t.inFlight| == 1)
            && (t.pendingDraftFailure.Some? ==> FailedBefore(t, t.pendingDraftFailure.value))
            && (!t.draftWriteRunning ==> t.pendingDraft.None?)
            && (!t.draftWriteRunning && t.newest.Some? ==> Settled(t, t.newest.value))
            && (!t.draftWriteRunning ==>
                  forall r :: r in t.fates ==> t.fates[r] in {Saved, Failed, Skipped, Replaced})
  {
    RunInv(Initial(writesAllowed), steps);
    var t := Run(Initial(writesAllowed), steps);
    assert forall r :: r in t.fates ==> Accounted(t, r);
  }

  ghost predicate Settled(s: Queue, d: Draft) {
    && d.revision == s.draftRevision && d.revision in s.fates
    && match s.fates[d.revision]
       case Saved => StoredText(s.stored, d.room) == d.text && s.pendingDraftFailure.None?
       case Failed => s.pendingDraftFailure == Some(d)
       case Skipped => true
       case _ => false
  }

  /** A draft was queued exactly when some edit was made with a room open. */
  lemma {:induction false} EveryRoomEditQueues(s: ValidQueue, steps: seq<Step>)
    ensures Run(s, steps).newest.Some? <==> s.newest.Some? || EditedInRoom(s.activeRoom.Some?, steps)
    decreases |steps|
  {
    if steps != [] {
      StepInv(s, steps[0]);
      StepQueues(s, steps[0]);
      EveryRoomEditQueues(Next(s, steps[0]), steps[1..]);
    }
  }

  lemma StepQueues(s: Queue, step: Step)
    ensures Next(s, step).newest.Some? <==> s.newest.Some? || (s.activeRoom.Some? && step.Edit?)
    ensures Next(s, step).activeRoom.Some? <==> s.activeRoom.Some? || step.Open?
  {
  }

  predicate EditedInRoom(open: bool, steps: seq<Step>)
    decreases |steps|
  {
    steps != [] && ((open && steps[0].Edit?) || EditedInRoom(open || steps[0].Open?, steps[1..]))
  }

  /** The draft writer with the variables of the program, refining the queue step by step; what the
      program does not hold (saves in flight, fates, stored drafts) is ghost. */
  class DraftWriter {
    var activeRoom: Option<string>
    var draftRevision: nat
    var pendingDraft: Option<Draft>
    var draftWriteRunning: bool
    var pendingDraftFailure: Option<Draft>
    var writesAllowed: bool
    ghost var model: Queue

    ghost predicate Represents()
      reads this
    {
      && model.activeRoom == activeRoom && model.draftRevision == draftRevision
      && model.pendingDraft == pendingDraft && model.draftWriteRunning == draftWriteRunning
      && model.pendingDraftFailure == pendingDraftFailure && model.writesAllowed == writesAllowed
    }

    constructor (writesAllowed: bool)
      ensures Represents() && model == Initial(writesAllowed)
    {
      activeRoom, draftRevision, pendingDraft, draftWriteRunning, pendingDraftFailure := None, 0, None, false, None;
      this.writesAllowed := writesAllowed;
      model := Initial(writesAllowed);
    }

    /** The drain loop from its head to its next suspension, with the save it starts, or to its end. */
    method DrainDrafts() returns (save: Option<Draft>)
      requires Represents()
      modifies this
      ensures Represents() && model == Drain(old(model))
      ensures model.inFlight == old(model).inFlight + if save.Some? then [save.value] else []
    {
      ghost var start := model;
      while pendingDraft.Some?
        invariant Represents() && Drain(model) == Drain(start) && model.inFlight == start.inFlight
        decreases if pendingDraft.Some? then 1 else 0
      {
        var draft := pendingDraft.value;
        pendingDraft := None;
        model := model.(pendingDraft := None);
        if !writesAllowed {
          model := model.(fates := model.fates[draft.revision := Skipped]);
          continue;
        }
        model := Drain(start);
        return Some(draft);
      }
      draftWriteRunning := false;
      model := Drain(start);
      save := None;
    }

    method DrainVisibleDrafts() returns (save: Option<Draft>)
      requires Represents()
      modifies this
      ensures Represents() && model == StartDrain(old(model))
      ensures model.inFlight == old(model).inFlight + if save.Some? then [save.value] else []
    {
      if draftWriteRunning {
        return None;
      }
      draftWriteRunning := true;
      model := model.(draftWriteRunning := true);
      save := DrainDrafts();
    }

    /** The slot takes the draft, and the writer starts if it is idle. */
    method TakeDraft(draft: Draft) returns (save: Option<Draft>)
      requires Represents()
      modifies this
      ensures Represents() && model == StartDrain(Replace(old(model), draft))
      ensures model.inFlight == old(model).inFlight + if save.Some? then [save.value] else []
    {
      pendingDraft := Some(draft);
      model := Replace(model, draft);
      save := DrainVisibleDrafts();
    }

    /** An edit: the revision rises, and with a room open its draft is queued. */
    method QueueVisibleDraft(text: string) returns (save: Option<Draft>)
      requires Represents()
      modifies this
      ensures Represents() && model == Next(old(model), Edit(text))
      ensures model.inFlight == old(model).inFlight + if save.Some? then [save.value] else []
    {
      draftRevision := draftRevision + 1;
      model := model.(draftRevision := draftRevision);
      if activeRoom.None? {
        return None;
      }
      save := TakeDraft(Draft(draftRevision, activeRoom.value, text));
    }

    /** The save of a draft has ended; the drain loop goes on. */
    method OnSaveEnded(draft: Draft, saved: bool) returns (save: Option<Draft>)
      requires Represents() && model.inFlight == [draft]
      modifies this
      ensures Represents() && model == Next(old(model), SaveEnded(0, saved))
      ensures model.inFlight == if save.Some? then [save.value] else []
    {
      model := Settle(model, 0, saved);
      if draft.revision == draftRevision {
        pendingDraftFailure := if saved then None else Some(draft);
      }
      save := DrainDrafts();
    }
  }
}
