/** What each page event does to the channels, and the stretches of a run in which nothing runs. */
module LifecycleOutcomes {
  import opened Text
  import opened Lifecycle
  import C = ChannelModel

  /** Nothing runs after the page was hidden, suspended or disposed of. */
  lemma StopsWhenTold(s: ValidPage, id: nat, persisted: bool)
    ensures !s.disposed ==> !Running(Next(s, PageHide(persisted)), id)
    ensures !s.disposed && s.hasDocument ==> !Running(Next(s, Visibility(false)), id)
    ensures !Running(Next(s, Suspend), id)
    ensures !Running(Next(s, Dispose), id)
    ensures !s.disposed ==> Next(s, PageHide(false)).disposed && Next(s, PageHide(true)).disposed == s.disposed
    ensures Next(s, Dispose).disposed
  {
    HaltedInv(s.(pageActive := false));
    HaltedInv(s.(visible := false, pageActive := false));
    HaltedInv(s.(ready := false));
    HaltedInv(s);
  }

  /** The current channel is stopped by `stop` itself, the others are left as they are. */
  lemma HaltStopsCurrent(s: ValidPage, id: nat)
    requires id in s.channels
    ensures id in Halted(s).channels
    ensures Halted(s).channels[id] == if Running(s, id) then C.StopChannel(s.channels[id]) else s.channels[id]
  {
  }

  /** A replaced channel is stopped, the new one is current and not yet running, and nothing happens when
      it is current already. */
  lemma ReplaceOutcome(s: ValidPage, id: nat)
    requires id in s.channels
    ensures s.current == Some(id) ==> Next(s, Replace(id)) == s
    ensures s.current != Some(id) ==>
              var t := Next(s, Replace(id));
              && t.current == Some(id) && !t.currentStarted && t.channels == Halted(s).channels
              && (forall i :: !Running(t, i))
  {
    HaltedInv(s);
  }

  /** A channel that runs is not started again. */
  lemma StartedOnce(s: ValidPage, step: Step)
    requires s.currentStarted && step in {Activate, StartIfActive, PageShow(true), Visibility(true)}
    requires step == PageShow(true) ==> Showing(s)
    ensures Next(s, step).channels == s.channels
  {
  }

  /** A start is `start` itself, on the current channel only. */
  lemma LaunchStartsCurrent(s: ValidPage, id: nat)
    requires id in s.channels
    ensures id in Launched(s).channels
    ensures Launched(s).channels[id]
         == if s.current == Some(id) && s.ready && s.pageActive && !s.disposed && !s.currentStarted
            then C.StartChannel(s.channels[id]) else s.channels[id]
  {
  }

  /** A channel's own step is that channel's step, and no other channel's. */
  lemma ChannelOutcome(s: ValidPage, id: nat, inner: C.Step, other: nat)
    requires id in s.channels && other in s.channels && inner != C.Start && inner != C.Stop
    ensures var t := Next(s, Channel(id, inner));
            && other in t.channels
            && t.channels[other] == if other == id then C.Next(s.channels[id], inner) else s.channels[other]
  {
  }

  /** A new page starts its first channel on activation, unless its document is hidden. */
  lemma FirstActivation(hasDocument: bool, visible: bool)
    ensures Running(Run(Initial(hasDocument, visible), [Create(0), Replace(0), Activate]), 0)
            <==> !hasDocument || visible
  {
    var s := Initial(hasDocument, visible);
    var created := Next(s, Create(0));
    var installed := Next(created, Replace(0));
    var activated := Next(installed, Activate);
    assert [Create(0), Replace(0), Activate][1..] == [Replace(0), Activate];
    assert [Replace(0), Activate][1..] == [Activate] && [Activate][1..] == [];
    assert Run(installed, [Activate]) == Run(activated, []);
    assert Run(created, [Replace(0), Activate]) == Run(installed, [Activate]);
    StepInv(s, Create(0));
    StepInv(created, Replace(0));
    LaunchedInv(installed.(ready := true));
  }

  /** Events the binder does not answer: a page shown that was not kept, a second disposal, anything the
      page or its document does after a disposal but the change of visibility itself. */
  lemma UnansweredEvents(s: ValidPage, persisted: bool, visible: bool)
    ensures Next(s, PageShow(false)) == s
    ensures s.disposed ==> Next(s, Dispose) == s
    ensures s.disposed ==> Next(s, PageHide(persisted)) == s && Next(s, PageShow(persisted)) == s
    ensures s.disposed || !s.hasDocument ==> Next(s, Visibility(visible)) == s.(visible := visible)
  {
  }

  // ---------- Quiet stretches ----------

  /** What ends the quiet after a hidden page, a suspension, a disposal. */
  predicate Shows(s: Page, step: Step) {
    step == PageShow(true) || (s.hasDocument && step == Visibility(true))
  }

  ghost predicate Quiet(s: Page) {
    !s.pageActive || !s.ready || s.disposed
  }

  lemma QuietRunsNothing(s: ValidPage, id: nat)
    requires Quiet(s)
    ensures !Running(s, id)
  {
  }

  ghost predicate StaysQuiet(s: Page, steps: seq<Step>) {
    || s.disposed
    || (!s.ready && forall i :: 0 <= i < |steps| ==> steps[i] != Activate)
    || (!s.pageActive && forall i :: 0 <= i < |steps| ==> !Shows(s, steps[i]))
  }

  ghost predicate SameFlags(s: Page, t: Page) {
    t.hasDocument == s.hasDocument && t.disposed == s.disposed && t.ready == s.ready && t.pageActive == s.pageActive
  }

  /** Starting and stopping channels leaves the page's other fields alone. */
  lemma FlagsKept(s: Page)
    ensures SameFlags(s, Halted(s)) && SameFlags(s, Launched(s))
  {
  }

  /** Only a page shown again, an activation and nothing at all undo a hidden page, a suspension and a
      disposal. */
  ghost predicate FlagsStay(s: Page, t: Page, step: Step) {
    && t.hasDocument == s.hasDocument
    && (s.disposed ==> t.disposed)
    && (!s.ready && step != Activate ==> !t.ready)
    && (!s.pageActive && !Shows(s, step) ==> !t.pageActive)
  }

  lemma StepFlags(s: Page, step: Step)
    ensures FlagsStay(s, Next(s, step), step)
  {
    match step
    case PageHide(persisted) => FlagsKept(s.(pageActive := false));
    case PageShow(persisted) => FlagsKept(s.(pageActive := Showing(s)));
    case Visibility(visible) => VisibilityFlags(s, visible);
    case Activate => FlagsKept(s.(ready := true));
    case StartIfActive => FlagsKept(s);
    case Replace(_) => FlagsKept(s);
    case Suspend => FlagsKept(s.(ready := false));
    case Dispose => FlagsKept(s);
    case _ =>
  }

  lemma VisibilityFlags(s: Page, visible: bool)
    ensures FlagsStay(s, Next(s, Visibility(visible)), Visibility(visible))
  {
    FlagsKept(s.(visible := visible, pageActive := visible));
  }

  lemma StepStaysQuiet(s: ValidPage, steps: seq<Step>)
    requires steps != [] && StaysQuiet(s, steps)
    ensures StaysQuiet(Next(s, steps[0]), steps[1..]) && Next(s, steps[0]).hasDocument == s.hasDocument
  {
    StepFlags(s, steps[0]);
    assert forall i :: 0 <= i < |steps[1..]| ==> steps[1..][i] == steps[i + 1];
  }

  /** From a hidden page until it shows again, from a suspension until the next activation, and for ever
      after a disposal, nothing runs and nothing is committed. */
  lemma {:induction false} NothingRunsInQuiet(s: ValidPage, steps: seq<Step>, id: nat)
    requires StaysQuiet(s, steps)
    ensures !Running(s, id) && !Running(Run(s, steps), id)
    ensures Committed(Run(s, steps), id) == Committed(s, id)
    decreases |steps|
  {
    QuietRunsNothing(s, id);
    if steps != [] {
      StepInv(s, steps[0]);
      StepStaysQuiet(s, steps);
      OnlyRunningCommits(s, steps[0], id);
      NothingRunsInQuiet(Next(s, steps[0]), steps[1..], id);
    }
  }

  /** After `pagehide` nothing runs or commits until the page shows again; after one that does not keep the
      page, never again. */
  lemma QuietAfterPageHide(s: ValidPage, persisted: bool, steps: seq<Step>, id: nat)
    requires !s.disposed
    requires persisted ==> forall i :: 0 <= i < |steps| ==> !Shows(s, steps[i])
    ensures var t := Next(s, PageHide(persisted));
            !Running(Run(t, steps), id) && Committed(Run(t, steps), id) == Committed(s, id)
  {
    var t := Next(s, PageHide(persisted));
    StepInv(s, PageHide(persisted));
    HaltedInv(s.(pageActive := false));
    assert t.hasDocument == s.hasDocument && !t.pageActive && (!persisted ==> t.disposed);
    NothingRunsInQuiet(t, steps, id);
    PageStepCommitsNothing(s, PageHide(persisted), id);
  }

  /** The same after the document was hidden. */
  lemma QuietAfterHiding(s: ValidPage, steps: seq<Step>, id: nat)
    requires !s.disposed && s.hasDocument
    requires forall i :: 0 <= i < |steps| ==> !Shows(s, steps[i])
    ensures var t := Next(s, Visibility(false));
            !Running(Run(t, steps), id) && Committed(Run(t, steps), id) == Committed(s, id)
  {
    var t := Next(s, Visibility(false));
    StepInv(s, Visibility(false));
    HaltedInv(s.(visible := false, pageActive := false));
    assert t.hasDocument == s.hasDocument && !t.pageActive;
    NothingRunsInQuiet(t, steps, id);
    PageStepCommitsNothing(s, Visibility(false), id);
  }

  /** After `suspend` nothing runs or commits until the next activation. */
  lemma QuietAfterSuspend(s: ValidPage, steps: seq<Step>, id: nat)
    requires forall i :: 0 <= i < |steps| ==> steps[i] != Activate
    ensures var t := Next(s, Suspend);
            !Running(Run(t, steps), id) && Committed(Run(t, steps), id) == Committed(s, id)
  {
    StepInv(s, Suspend);
    HaltedInv(s.(ready := false));
    NothingRunsInQuiet(Next(s, Suspend), steps, id);
    PageStepCommitsNothing(s, Suspend, id);
  }

  /** After `dispose` nothing ever runs or commits. */
  lemma QuietAfterDispose(s: ValidPage, steps: seq<Step>, id: nat)
    ensures var t := Next(s, Dispose);
            !Running(Run(t, steps), id) && Committed(Run(t, steps), id) == Committed(s, id)
  {
    StepInv(s, Dispose);
    HaltedInv(s);
    NothingRunsInQuiet(Next(s, Dispose), steps, id);
    PageStepCommitsNothing(s, Dispose, id);
  }
}
