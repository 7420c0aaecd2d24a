/** The room selection fence of `public/app.js`: overlapping `select` calls, of which the last wins. */
module SelectionFence {
  import opened Text
  import opened Sequences

  datatype Result = ResolvedTrue | ResolvedFalse | Rejected

  /** Where a `select` call is suspended, or how it ended. */
  datatype Phase = Requesting | Reading(accepted: bool) | Committing(accepted: bool) | Settled(result: Result)

  datatype Fence = Fence(
    generation: nat,
    activeController: Option<nat>,
    busy: bool,
    calls: map<nat, Phase>,
    // The calls whose controller has been aborted.
    aborted: set<nat>,
    // The generations for which `commitRoom` was started, in order.
    commits: seq<nat>)

  datatype Reply = Answer(accepted: bool) | Failure(aborted: bool)

  datatype Step =
    | Select
    | Requested(call: nat, reply: Reply)
    | RoomRead(call: nat, reply: Reply)
    | CommitEnded(call: nat, reply: Reply)

  function Initial(): Fence {
    Fence(0, None, false, map[], {}, [])
  }

  function Begin(s: Fence): Fence {
    var own := s.generation + 1;
    var aborted := if s.activeController.Some? then s.aborted + {s.activeController.value} else s.aborted;
    Fence(own, Some(own), true, s.calls[own := Requesting], aborted, s.commits)
  }

  /** The `finally` block. */
  function Finish(s: Fence, call: nat, result: Result): Fence {
    var t := s.(calls := s.calls[call := Settled(result)]);
    if call == s.generation then t.(activeController := None, busy := false) else t
  }

  /** The `catch` block. */
  function Caught(s: Fence, call: nat, aborted: bool): Fence {
    Finish(s, call, if call != s.generation || aborted then ResolvedFalse else Rejected)
  }

  predicate Enabled(s: Fence, step: Step) {
    match step
    case Select => true
    case Requested(g, _) => g in s.calls && s.calls[g].Requesting?
    case RoomRead(g, _) => g in s.calls && s.calls[g].Reading?
    case CommitEnded(g, _) => g in s.calls && s.calls[g].Committing?
  }

  function Next(s: Fence, step: Step): Fence {
    if !Enabled(s, step) then s
    else match step
      case Select => Begin(s)
      case Requested(g, Failure(aborted)) => Caught(s, g, aborted)
      case Requested(g, Answer(accepted)) =>
        if g != s.generation then Finish(s, g, ResolvedFalse) else s.(calls := s.calls[g := Reading(accepted)])
      case RoomRead(g, Failure(aborted)) => Caught(s, g, aborted)
      case RoomRead(g, Answer(_)) =>
        if g != s.generation then Finish(s, g, ResolvedFalse)
        else s.(calls := s.calls[g := Committing(s.calls[g].accepted)], commits := s.commits + [g])
      case CommitEnded(g, Failure(aborted)) => Caught(s, g, aborted)
      case CommitEnded(g, Answer(_)) =>
        Finish(s, g, if s.calls[g].accepted && g == s.generation then ResolvedTrue else ResolvedFalse)
  }

  function Run(s: Fence, steps: seq<Step>): Fence
    decreases |steps|
  {
    if steps == [] then s else Run(Next(s, steps[0]), steps[1..])
  }

  ghost predicate Inv(s: Fence) {
    && (forall g :: g in s.calls <==> 1 <= g <= s.generation)
    && (s.busy <==> s.generation > 0 && !s.calls[s.generation].Settled?)
    && s.activeController == (if s.busy then Some(s.generation) else None)
    && (forall g :: g in s.aborted ==> g in s.calls && g < s.generation)
    && (forall g :: g in s.calls && g < s.generation && !s.calls[g].Settled? ==> g in s.aborted)
    && Increasing(s.commits)
    && (forall i :: 0 <= i < |s.commits| ==>
          s.commits[i] in s.calls && (s.calls[s.commits[i]].Committing? || s.calls[s.commits[i]].Settled?))
    && (forall g :: g in s.calls && (s.calls[g].Committing? || s.calls[g] == Settled(ResolvedTrue)) ==> g in s.commits)
  }

  type ValidFence = s: Fence | Inv(s) ghost witness Initial()

  lemma BeginInv(s: ValidFence)
    ensures Inv(Begin(s))
  {
    assert s.generation + 1 !in s.calls;
  }

  lemma FinishInv(s: ValidFence, call: nat, result: Result)
    requires call in s.calls && !s.calls[call].Settled? && (result == ResolvedTrue ==> call in s.commits)
    ensures Inv(Finish(s, call, result))
  {
  }

  lemma CaughtInv(s: ValidFence, call: nat, aborted: bool)
    requires call in s.calls && !s.calls[call].Settled?
    ensures Inv(Caught(s, call, aborted))
  {
    FinishInv(s, call, if call != s.generation || aborted then ResolvedFalse else Rejected);
  }

  lemma AdvanceInv(s: ValidFence, call: nat, phase: Phase)
    requires call in s.calls && !s.calls[call].Settled? && call !in s.commits && phase.Reading?
    ensures Inv(s.(calls := s.calls[call := phase]))
  {
  }

  lemma CommitInv(s: ValidFence, accepted: bool)
    requires s.generation in s.calls && s.calls[s.generation].Reading?
    ensures Inv(s.(calls := s.calls[s.generation := Committing(accepted)], commits := s.commits + [s.generation]))
  {
    assert s.generation !in s.commits;
    var commits := s.commits + [s.generation];
    assert commits[|s.commits|] == s.generation;
    assert forall g :: g in s.commits ==> g in commits;
  }

  lemma StepInv(s: ValidFence, step: Step)
    ensures Inv(Next(s, step))
  {
    if Enabled(s, step) {
      match step
      case Select => BeginInv(s);
      case Requested(g, reply) =>
        if reply.Failure? {
          CaughtInv(s, g, reply.aborted);
        } else if g != s.generation {
          FinishInv(s, g, ResolvedFalse);
        } else {
          AdvanceInv(s, g, Reading(reply.accepted));
        }
      case RoomRead(g, reply) =>
        if reply.Failure? {
          CaughtInv(s, g, reply.aborted);
        } else if g != s.generation {
          FinishInv(s, g, ResolvedFalse);
        } else {
          CommitInv(s, s.calls[g].accepted);
        }
      case CommitEnded(g, reply) =>
        if reply.Failure? {
          CaughtInv(s, g, reply.aborted);
        } else {
          FinishInv(s, g, if s.calls[g].accepted && g == s.generation then ResolvedTrue else ResolvedFalse);
        }
    }
  }

  lemma {:induction false} RunInv(s: ValidFence, steps: seq<Step>)
    ensures Inv(Run(s, steps))
    decreases |steps|
  {
    if steps != [] {
      StepInv(s, steps[0]);
      RunInv(Next(s, steps[0]), steps[1..]);
    }
  }

  /** A room commit starts only for the call that is the latest at that moment. */
  lemma OnlyLatestCommits(s: ValidFence, step: Step)
    ensures Next(s, step).commits == s.commits || Next(s, step).commits == s.commits + [s.generation]
  {
  }

  /** In every reachable state commits were started in strictly increasing order of selection, the busy
      signal is on exactly while the latest call has not settled, and of the unsettled calls exactly the
      superseded ones have been told to abort. */
  lemma LastSelectionWins(steps: seq<Step>)
    ensures var t := Run(Initial(), steps);
            && Increasing(t.commits)
            && (t.busy <==> t.generation > 0 && t.generation in t.calls && !t.calls[t.generation].Settled?)
            && (t.activeController.Some? <==> t.busy)
            && (forall g :: g in t.calls && t.calls[g] == Settled(ResolvedTrue) ==> g in t.commits)
            && (forall g :: g in t.calls && !t.calls[g].Settled? ==> (g in t.aborted <==> g < t.generation))
  {
    RunInv(Initial(), steps);
  }

  /** A call superseded before it settled resolves to false, and never rejects, however the requests end. */
  lemma SupersededStep(s: Fence, call: nat, step: Step)
    requires call in s.calls && call < s.generation
    requires !s.calls[call].Settled? || s.calls[call] == Settled(ResolvedFalse)
    ensures var t := Next(s, step);
            && call in t.calls && call < t.generation
            && (!t.calls[call].Settled? || t.calls[call] == Settled(ResolvedFalse))
            && (s.calls[call].Settled? ==> t.calls[call].Settled?)
  {
  }

  lemma {:induction false} SupersededResolvesFalse(s: ValidFence, call: nat, steps: seq<Step>)
    requires call in s.calls && call < s.generation
    requires !s.calls[call].Settled? || s.calls[call] == Settled(ResolvedFalse)
    ensures var t := Run(s, steps);
            call in t.calls && (t.calls[call].Settled? ==> t.calls[call] == Settled(ResolvedFalse))
    ensures s.calls[call].Settled? ==> Run(s, steps).calls[call].Settled?
    decreases |steps|
  {
    if steps != [] {
      StepInv(s, steps[0]);
      SupersededStep(s, call, steps[0]);
      SupersededResolvesFalse(Next(s, steps[0]), call, steps[1..]);
    }
  }

  /** An `AbortController`. */
  class Controller {
    var aborted: bool

    constructor ()
      ensures !aborted
    {
      aborted := false;
    }
  }

  /** The fence with the variables of the program, refining the transition system step by step; the
      suspended calls, each with the generation and the controller it captured, are ghost. */
  class RoomSelectionFence {
    var generation: nat
    var activeController: Controller?
    var busy: bool
    ghost var model: Fence
    ghost var controllers: map<nat, Controller>

    ghost predicate Represents()
      reads this, controllers.Values
    {
      && model.generation == generation && model.busy == busy
      && model.activeController == (if activeController == null then None else Some(generation))
      && (activeController != null ==> generation in controllers && controllers[generation] == activeController)
      && (forall g :: g in controllers ==> g <= generation && (controllers[g].aborted <==> g in model.aborted))
      && model.aborted <= controllers.Keys
      && (forall g, h :: g in controllers && h in controllers && controllers[g] == controllers[h] ==> g == h)
    }

    constructor ()
      ensures Represents() && model == Initial()
    {
      generation, activeController, busy := 0, null, false;
      model, controllers := Initial(), map[];
    }

    /** `select` up to its first suspension; the call carries its generation and controller along. */
    method Select() returns (ownGeneration: nat, controller: Controller)
      requires Represents()
      modifies this, activeController
      ensures Represents() && model == Next(old(model), Step.Select)
      ensures ownGeneration == model.generation && model.calls[ownGeneration] == Requesting
      ensures fresh(controller) && controllers == old(controllers)[ownGeneration := controller]
    {
      ownGeneration := generation + 1;
      generation := ownGeneration;
      if activeController != null {
        activeController.aborted := true;
      }
      controller := new Controller();
      activeController := controller;
      busy := true;
      controllers := controllers[ownGeneration := controller];
      model := Begin(model);
    }

    /** The `finally` block. */
    method Finally(ghost result: Result, ownGeneration: nat)
      requires Represents()
      modifies this
      ensures Represents() && model == Finish(old(model), ownGeneration, result)
      ensures controllers == old(controllers)
    {
      if ownGeneration == generation {
        activeController := null;
        busy := false;
      }
      model := Finish(model, ownGeneration, result);
    }

    method Catch(ownGeneration: nat, isAbort: bool) returns (result: Result)
      requires Represents()
      modifies this
      ensures Represents() && model == Caught(old(model), ownGeneration, isAbort)
      ensures controllers == old(controllers) && model.calls[ownGeneration] == Settled(result)
    {
      result := if ownGeneration != generation || isAbort then ResolvedFalse else Rejected;
      Finally(result, ownGeneration);
    }

    /** From the reply to `requestSelection` to the next suspension or the end of the call. */
    method OnRequested(ownGeneration: nat, reply: Reply) returns (phase: Phase)
      requires Represents() && Enabled(model, Requested(ownGeneration, reply))
      modifies this
      ensures Represents() && model == Next(old(model), Requested(ownGeneration, reply))
      ensures controllers == old(controllers) && model.calls[ownGeneration] == phase
    {
      if reply.Failure? {
        var result := Catch(ownGeneration, reply.aborted);
        return Settled(result);
      }
      if ownGeneration != generation {
        Finally(ResolvedFalse, ownGeneration);
        return Settled(ResolvedFalse);
      }
      phase := Reading(reply.accepted);
      model := model.(calls := model.calls[ownGeneration := phase]);
    }

    /** From the room read to the start of its commit or the end of the call. */
    method OnRoomRead(ownGeneration: nat, accepted: bool, reply: Reply) returns (phase: Phase)
      requires Represents() && Enabled(model, RoomRead(ownGeneration, reply))
      requires model.calls[ownGeneration] == Reading(accepted)
      modifies this
      ensures Represents() && model == Next(old(model), RoomRead(ownGeneration, reply))
      ensures controllers == old(controllers) && model.calls[ownGeneration] == phase
      ensures model.commits == old(model).commits + if phase.Committing? then [ownGeneration] else []
    {
      if reply.Failure? {
        var result := Catch(ownGeneration, reply.aborted);
        return Settled(result);
      }
      if ownGeneration != generation {
        Finally(ResolvedFalse, ownGeneration);
        return Settled(ResolvedFalse);
      }
      phase := Committing(accepted);
      model := model.(calls := model.calls[ownGeneration := phase], commits := model.commits + [ownGeneration]);
    }

    /** From the end of the room commit to the end of the call. */
    method OnCommitEnded(ownGeneration: nat, accepted: bool, reply: Reply) returns (result: Result)
      requires Represents() && Enabled(model, CommitEnded(ownGeneration, reply))
      requires model.calls[ownGeneration] == Committing(accepted)
      modifies this
      ensures Represents() && model == Next(old(model), CommitEnded(ownGeneration, reply))
      ensures controllers == old(controllers) && model.calls[ownGeneration] == Settled(result)
    {
      if reply.Failure? {
        result := Catch(ownGeneration, reply.aborted);
        return;
      }
      result := if accepted && ownGeneration == generation then ResolvedTrue else ResolvedFalse;
      Finally(result, ownGeneration);
    }
  }
}
