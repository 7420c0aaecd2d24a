/** How a room selection ends: the last one commits its room and reports whether it was accepted. */
module SelectionOutcomes {
  import opened Text
  import opened SelectionFence

  /** The call a step answers. */
  function CallOf(step: Step): Option<nat> {
    match step
    case Select => None
    case Requested(g, _) => Some(g)
    case RoomRead(g, _) => Some(g)
    case CommitEnded(g, _) => Some(g)
  }

  function ReplyOf(step: Step): Reply
    requires !step.Select?
  {
    match step
    case Requested(_, reply) => reply
    case RoomRead(_, reply) => reply
    case CommitEnded(_, reply) => reply
  }

  /** A new selection becomes the latest, starts requesting, and aborts the one before if it is unsettled. */
  lemma SelectOutcome(s: ValidFence)
    ensures var t, g := Next(s, Select), s.generation + 1;
            && t.generation == g && t.busy && t.calls == s.calls[g := Requesting] && t.commits == s.commits
            && t.aborted == s.aborted + (if s.busy then {s.generation} else {})
  {
  }

  /** Each answer takes the latest call one stage on: the request to the room read, the room read to the
      start of the commit, the commit to the result, which is true exactly when the selection was accepted. */
  lemma LatestAdvances(s: ValidFence, g: nat, accepted: bool, answer: bool)
    requires g == s.generation && g in s.calls
    ensures s.calls[g] == Requesting ==>
              Next(s, Requested(g, Answer(accepted))) == s.(calls := s.calls[g := Reading(accepted)])
    ensures s.calls[g] == Reading(accepted) ==>
              Next(s, RoomRead(g, Answer(answer)))
              == s.(calls := s.calls[g := Committing(accepted)], commits := s.commits + [g])
    ensures s.calls[g] == Committing(accepted) ==>
              var t := Next(s, CommitEnded(g, Answer(answer)));
              t.calls == s.calls[g := Settled(if accepted then ResolvedTrue else ResolvedFalse)] && !t.busy
              && t.commits == s.commits
  {
  }

  /** A failure of the latest call at any stage rejects it, unless the failure is an abort. */
  lemma LatestFails(s: ValidFence, step: Step)
    requires Enabled(s, step) && CallOf(step) == Some(s.generation) && ReplyOf(step).Failure?
    ensures var t := Next(s, step);
            && t.calls == s.calls[s.generation := Settled(if ReplyOf(step).aborted then ResolvedFalse else Rejected)]
            && !t.busy && t.commits == s.commits
  {
  }

  /** A superseded call ends at its next answer or failure, with false, whatever it was doing; a commit it
      had started is not taken back and no other begins. */
  lemma SupersededEnds(s: ValidFence, g: nat, step: Step)
    requires Enabled(s, step) && CallOf(step) == Some(g) && g != s.generation
    ensures var t := Next(s, step);
            t == s.(calls := s.calls[g := Settled(ResolvedFalse)])
  {
  }

  // ---------- Over runs ----------

  ghost predicate NoSelect(steps: seq<Step>) {
    forall i :: 0 <= i < |steps| ==> !steps[i].Select?
  }

  /** Until the next selection, what other calls do leaves the latest alone. */
  lemma OthersKeepLatest(s: ValidFence, step: Step)
    requires s.generation > 0 && !step.Select? && CallOf(step) != Some(s.generation)
    ensures var t := Next(s, step);
            && t.generation == s.generation && s.generation in t.calls
            && t.calls[s.generation] == s.calls[s.generation] && t.commits == s.commits
  {
    if Enabled(s, step) {
      SupersededEnds(s, CallOf(step).value, step);
    }
  }

  /** The answers the latest call gets: its request is answered with `accepted`, nothing of it fails. */
  ghost predicate Succeeds(g: nat, accepted: bool, steps: seq<Step>) {
    forall i :: 0 <= i < |steps| && CallOf(steps[i]) == Some(g) ==>
      ReplyOf(steps[i]).Answer? && (steps[i].Requested? ==> ReplyOf(steps[i]).accepted == accepted)
  }

  /** How far the latest call has come, and the commits that belong to that. */
  ghost predicate UnderWay(s: Fence, g: nat, accepted: bool, before: seq<nat>) {
    && s.generation == g && g in s.calls
    && match s.calls[g]
       case Requesting => s.commits == before
       case Reading(a) => a == accepted && s.commits == before
       case Committing(a) => a == accepted && s.commits == before + [g]
       case Settled(result) =>
         result == (if accepted then ResolvedTrue else ResolvedFalse) && s.commits == before + [g]
  }

  lemma StepUnderWay(s: ValidFence, step: Step, g: nat, accepted: bool, before: seq<nat>)
    requires UnderWay(s, g, accepted, before) && !step.Select? && Succeeds(g, accepted, [step])
    ensures UnderWay(Next(s, step), g, accepted, before)
  {
    assert [step][0] == step;
    if CallOf(step) != Some(g) {
      OthersKeepLatest(s, step);
    } else if Enabled(s, step) {
      LatestAdvances(s, g, accepted, ReplyOf(step).accepted);
    }
  }

  /** The last selection wins: as long as no other selection follows and nothing of it fails, it commits
      once, before it settles, and settles to whether it was accepted, however older calls end meanwhile. */
  lemma {:induction false} LastSelectionCommits(s: ValidFence, g: nat, accepted: bool, before: seq<nat>,
                                                steps: seq<Step>)
    requires UnderWay(s, g, accepted, before) && NoSelect(steps) && Succeeds(g, accepted, steps)
    ensures UnderWay(Run(s, steps), g, accepted, before)
    decreases |steps|
  {
    if steps != [] {
      StepInv(s, steps[0]);
      assert Succeeds(g, accepted, [steps[0]]);
      StepUnderWay(s, steps[0], g, accepted, before);
      LastSelectionCommits(Next(s, steps[0]), g, accepted, before, steps[1..]);
    }
  }

  /** From a new selection on. */
  lemma SelectionSettles(s: ValidFence, accepted: bool, steps: seq<Step>)
    requires NoSelect(steps) && Succeeds(s.generation + 1, accepted, steps)
    ensures var t, g := Run(Next(s, Select), steps), s.generation + 1;
            && g in t.calls
            && (t.calls[g].Settled? ==>
                  && t.calls[g] == Settled(if accepted then ResolvedTrue else ResolvedFalse)
                  && t.commits == s.commits + [g])
  {
    StepInv(s, Select);
    SelectOutcome(s);
    LastSelectionCommits(Next(s, Select), s.generation + 1, accepted, s.commits, steps);
  }

  /** Undisturbed, a selection goes through its three stages, commits and settles. */
  lemma SelectionAlone(s: ValidFence, accepted: bool, read: bool, committed: bool)
    ensures var g := s.generation + 1;
            var t := Run(s, [Select, Requested(g, Answer(accepted)), RoomRead(g, Answer(read)),
                             CommitEnded(g, Answer(committed))]);
            && t.commits == s.commits + [g] && !t.busy && g in t.calls
            && t.calls[g] == Settled(if accepted then ResolvedTrue else ResolvedFalse)
  {
    var g := s.generation + 1;
    var b, c, d := Requested(g, Answer(accepted)), RoomRead(g, Answer(read)), CommitEnded(g, Answer(committed));
    var s1 := Next(s, Select);
    StepInv(s, Select);
    SelectOutcome(s);
    var s2 := Next(s1, b);
    StepInv(s1, b);
    LatestAdvances(s1, g, accepted, read);
    var s3 := Next(s2, c);
    StepInv(s2, c);
    LatestAdvances(s2, g, accepted, read);
    var s4 := Next(s3, d);
    LatestAdvances(s3, g, accepted, committed);
    assert [Select, b, c, d][1..] == [b, c, d] && [b, c, d][1..] == [c, d] && [c, d][1..] == [d] && [d][1..] == [];
    assert Run(s3, [d]) == Run(s4, []) && Run(s2, [c, d]) == Run(s3, [d]) && Run(s1, [b, c, d]) == Run(s2, [c, d]);
  }

  /** A call that is still the latest when one of its requests fails rejects, unless it was aborted. */
  lemma LatestFailureEnds(s: ValidFence, steps: seq<Step>, step: Step)
    requires Enabled(Run(s, steps), step) && CallOf(step) == Some(Run(s, steps).generation) && ReplyOf(step).Failure?
    ensures var t := Next(Run(s, steps), step);
            && t.generation in t.calls && !t.busy
            && t.calls[t.generation] == Settled(if ReplyOf(step).aborted then ResolvedFalse else Rejected)
  {
    RunInv(s, steps);
    LatestFails(Run(s, steps), step);
  }
}
