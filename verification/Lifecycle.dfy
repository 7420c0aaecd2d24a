/** The page lifecycle binder of `public/app.js` over its channel holder, composed with the real event
    channels: only the binder starts and stops them, while each runs its own steps. */
module Lifecycle {
  import opened Text
  import C = ChannelModel
  import P = ChannelProofs
  import R = ChannelRuns

  datatype Page = Page(
    hasDocument: bool,
    visible: bool,
    disposed: bool,
    ready: bool,
    pageActive: bool,
    currentStarted: bool,
    current: Option<nat>,
    channels: map<nat, C.Channel>)

  datatype Step =
    | Create(id: nat)
    | Activate
    | StartIfActive
    | Replace(id: nat)
    | Suspend
    | Dispose
    | PageHide(persisted: bool)
    | PageShow(persisted: bool)
    | Visibility(visible: bool)
    | Channel(id: nat, step: C.Step)

  /** A step of the channel's own: a callback, a timer, a response, a public catch-up. */
  function Advance(channel: C.Channel, step: C.Step): (r: C.Channel)
    requires step != C.Start && step != C.Stop
    ensures r.stopped == channel.stopped
  {
    R.GenerationGrows(channel, step);
    C.Next(channel, step)
  }

  function Initial(hasDocument: bool, visible: bool): Page {
    Page(hasDocument, visible, false, false, !hasDocument || visible, false, None, map[])
  }

  predicate Showing(s: Page) {
    !s.hasDocument || s.visible
  }

  function Halted(s: Page): Page {
    if !s.currentStarted then s
    else
      var t := s.(currentStarted := false);
      if s.current.Some? && s.current.value in s.channels
      then t.(channels := s.channels[s.current.value := C.StopChannel(s.channels[s.current.value])])
      else t
  }

  predicate MayStart(s: Page) {
    s.ready && s.pageActive && !s.disposed && !s.currentStarted && s.current.Some? && s.current.value in s.channels
  }

  function Launched(s: Page): Page {
    if !MayStart(s) then s
    else s.(currentStarted := true,
            channels := s.channels[s.current.value := C.StartChannel(s.channels[s.current.value])])
  }

  /** The listeners are gone once disposed. A visibility change reaches its listener at once. */
  function Next(s: Page, step: Step): Page {
    match step
    case Create(id) => if id in s.channels then s else s.(channels := s.channels[id := C.Initial()])
    case Activate => Launched(s.(ready := true))
    case StartIfActive => Launched(s)
    case Replace(id) =>
      if id !in s.channels || s.current == Some(id) then s
      else Halted(s).(current := Some(id), currentStarted := false)
    case Suspend => Halted(s.(ready := false))
    case Dispose => if s.disposed then s else Halted(s).(disposed := true)
    case PageHide(persisted) =>
      if s.disposed then s
      else
        var t := Halted(s.(pageActive := false));
        if persisted then t else t.(disposed := true)
    case PageShow(persisted) =>
      if s.disposed || !persisted then s
      else
        var t := s.(pageActive := Showing(s));
        if t.ready then Launched(t) else t
    case Visibility(visible) =>
      var t := s.(visible := visible);
      if s.disposed || !s.hasDocument then t
      else if !visible then Halted(t.(pageActive := false))
      else if t.ready then Launched(t.(pageActive := true))
      else t.(pageActive := true)
    case Channel(id, inner) =>
      if id !in s.channels || inner == C.Start || inner == C.Stop then s
      else s.(channels := s.channels[id := Advance(s.channels[id], inner)])
  }

  /** What a handler of one channel does to the page. */
  lemma OwnStep(s: Page, t: Page, id: nat, inner: C.Step)
    requires inner != C.Start && inner != C.Stop && id in s.channels
    requires t == s.(channels := s.channels[id := C.Next(s.channels[id], inner)])
    ensures t == Next(s, Channel(id, inner))
  {
  }

  function Run(s: Page, steps: seq<Step>): Page
    decreases |steps|
  {
    if steps == [] then s else Run(Next(s, steps[0]), steps[1..])
  }

  // ---------- The invariant ----------

  predicate Running(s: Page, id: nat) {
    id in s.channels && !s.channels[id].stopped
  }

  /** The started flag tells which channel runs. */
  ghost predicate Tracked(s: Page) {
    && (forall id :: id in s.channels ==> (!s.channels[id].stopped <==> s.currentStarted && s.current == Some(id)))
    && (s.current.Some? ==> s.current.value in s.channels)
    && (s.currentStarted ==> s.current.Some?)
    && (s.pageActive && !s.disposed ==> Showing(s))
  }

  ghost predicate Inv(s: Page) {
    Tracked(s) && (s.currentStarted ==> s.ready && s.pageActive && !s.disposed)
  }

  type ValidPage = s: Page | Inv(s) ghost witness Initial(false, false)

  lemma HaltedInv(s: Page)
    requires Tracked(s)
    ensures Inv(Halted(s)) && !Halted(s).currentStarted
    ensures forall id :: id in s.channels ==> Halted(s).channels[id].stopped
    ensures var t := Halted(s);
            t == s.(currentStarted := false, channels := t.channels) && t.channels.Keys == s.channels.Keys
  {
  }

  lemma LaunchedInv(s: Page)
    requires Inv(s)
    ensures Inv(Launched(s))
    ensures forall id :: id in s.channels ==>
              (Running(Launched(s), id) <==> s.current == Some(id) && s.ready && s.pageActive && !s.disposed)
  {
  }

  lemma ReplaceInv(s: ValidPage, id: nat)
    ensures Inv(Next(s, Replace(id)))
  {
    HaltedInv(s);
  }

  lemma PageHideInv(s: ValidPage, persisted: bool)
    ensures Inv(Next(s, PageHide(persisted)))
  {
    HaltedInv(s.(pageActive := false));
  }

  lemma PageShowInv(s: ValidPage, persisted: bool)
    ensures Inv(Next(s, PageShow(persisted)))
  {
    var t := s.(pageActive := Showing(s));
    if !s.disposed {
      assert Inv(t);
      LaunchedInv(t);
    }
  }

  lemma VisibilityInv(s: ValidPage, visible: bool)
    ensures Inv(Next(s, Visibility(visible)))
  {
    var t := s.(visible := visible);
    if !s.disposed && s.hasDocument {
      if visible {
        assert Inv(t.(pageActive := true));
        LaunchedInv(t.(pageActive := true));
      } else {
        assert Tracked(t.(pageActive := false));
        HaltedInv(t.(pageActive := false));
      }
    }
  }

  lemma ChannelInv(s: ValidPage, id: nat, inner: C.Step)
    ensures Inv(Next(s, Channel(id, inner)))
  {
  }

  lemma StepInv(s: ValidPage, step: Step)
    ensures Inv(Next(s, step))
  {
    match step
    case Create(id) =>
    case Activate => LaunchedInv(s.(ready := true));
    case StartIfActive => LaunchedInv(s);
    case Replace(id) => ReplaceInv(s, id);
    case Suspend => HaltedInv(s.(ready := false));
    case Dispose => HaltedInv(s);
    case PageHide(persisted) => PageHideInv(s, persisted);
    case PageShow(persisted) => PageShowInv(s, persisted);
    case Visibility(visible) => VisibilityInv(s, visible);
    case Channel(id, inner) => ChannelInv(s, id, inner);
  }

  /** Every channel keeps its own invariant, whoever drives it. */
  ghost predicate AllValid(channels: map<nat, C.Channel>) {
    forall id :: id in channels ==> C.Inv(channels[id])
  }

  lemma UpdateValid(channels: map<nat, C.Channel>, id: nat, channel: C.Channel)
    requires AllValid(channels) && C.Inv(channel)
    ensures AllValid(channels[id := channel])
  {
  }

  lemma HaltedValid(s: Page)
    requires AllValid(s.channels)
    ensures AllValid(Halted(s).channels)
  {
    if s.currentStarted && s.current.Some? && s.current.value in s.channels {
      P.StopInv(s.channels[s.current.value]);
      UpdateValid(s.channels, s.current.value, C.StopChannel(s.channels[s.current.value]));
    }
  }

  lemma LaunchedValid(s: Page)
    requires AllValid(s.channels)
    ensures AllValid(Launched(s).channels)
  {
    if MayStart(s) {
      P.StartInv(s.channels[s.current.value]);
      UpdateValid(s.channels, s.current.value, C.StartChannel(s.channels[s.current.value]));
    }
  }

  lemma OwnStepValid(s: Page, id: nat, inner: C.Step)
    requires AllValid(s.channels)
    ensures AllValid(Next(s, Channel(id, inner)).channels)
  {
    if id in s.channels && inner != C.Start && inner != C.Stop {
      P.StepInv(s.channels[id], inner);
      UpdateValid(s.channels, id, C.Next(s.channels[id], inner));
    }
  }

  lemma CreateValid(s: Page, id: nat)
    requires AllValid(s.channels)
    ensures AllValid(Next(s, Create(id)).channels)
  {
    P.InitialInv();
    UpdateValid(s.channels, id, C.Initial());
  }

  /** Each page step leaves the channels alone, or starts or stops the current one. */
  lemma StepChannels(s: Page, step: Step) returns (t: Page)
    requires !step.Channel? && !step.Create?
    ensures t.channels == s.channels
    ensures Next(s, step).channels in {s.channels, Halted(t).channels, Launched(t).channels}
  {
    match step
    case Activate => t := s.(ready := true);
    case StartIfActive => t := s;
    case Replace(id) => t := s;
    case Suspend => t := s.(ready := false);
    case Dispose => t := s;
    case PageHide(_) => t := s.(pageActive := false);
    case PageShow(_) => t := s.(pageActive := Showing(s));
    case Visibility(visible) => t := s.(visible := visible, pageActive := visible);
  }

  lemma StepValid(s: Page, step: Step)
    requires AllValid(s.channels)
    ensures AllValid(Next(s, step).channels)
  {
    if step.Channel? {
      OwnStepValid(s, step.id, step.step);
    } else if step.Create? {
      CreateValid(s, step.id);
    } else {
      var t := StepChannels(s, step);
      HaltedValid(t);
      LaunchedValid(t);
    }
  }

  lemma {:induction false} RunInv(s: ValidPage, steps: seq<Step>)
    requires AllValid(s.channels)
    ensures Inv(Run(s, steps)) && AllValid(Run(s, steps).channels)
    decreases |steps|
  {
    if steps != [] {
      StepInv(s, steps[0]);
      StepValid(s, steps[0]);
      RunInv(Next(s, steps[0]), steps[1..]);
    }
  }

  /** Over any sequence of activations, replacements, suspensions, disposals, page and visibility
      events and channel activity: at most one channel ever created runs, the started flag is true
      exactly when the current channel runs, and none runs while hidden, suspended or disposed. */
  lemma OneRunningChannel(hasDocument: bool, visible: bool, steps: seq<Step>)
    ensures var t := Run(Initial(hasDocument, visible), steps);
            && (forall i: nat, j: nat :: Running(t, i) && Running(t, j) ==> i == j)
            && (t.currentStarted <==> t.current.Some? && Running(t, t.current.value))
            && (forall i: nat :: Running(t, i) ==>
                  t.current == Some(i) && t.ready && t.pageActive && Showing(t) && !t.disposed)
            && AllValid(t.channels)
  {
    RunInv(Initial(hasDocument, visible), steps);
  }

  /** The binder starts the current channel whenever it may: `activate` on an active page, and a
      return to view while ready. */
  lemma StartsWhenAllowed(s: ValidPage, id: nat)
    requires s.current == Some(id) && !s.disposed
    ensures Running(Next(s, Activate), id) <==> s.pageActive
    ensures Running(Next(s, StartIfActive), id) <==> s.ready && s.pageActive
    ensures Running(Next(s, PageShow(true)), id) <==> s.ready && Showing(s)
    ensures s.hasDocument ==> (Running(Next(s, Visibility(true)), id) <==> s.ready)
  {
    assert Running(Next(s, Activate), id) <==> s.pageActive by { LaunchedInv(s.(ready := true)); }
    assert Running(Next(s, StartIfActive), id) <==> s.ready && s.pageActive by { LaunchedInv(s); }
    assert Running(Next(s, PageShow(true)), id) <==> s.ready && Showing(s) by {
      assert Inv(s.(pageActive := Showing(s)));
      LaunchedInv(s.(pageActive := Showing(s)));
    }
    if s.hasDocument {
      assert Running(Next(s, Visibility(true)), id) <==> s.ready by {
        assert Inv(s.(visible := true, pageActive := true));
        LaunchedInv(s.(visible := true, pageActive := true));
      }
    }
  }

  // ---------- Nothing is committed out of sight ----------

  /** What a channel has committed; nothing before it is created. */
  function Committed(s: Page, id: nat): seq<C.Record> {
    if id in s.channels then s.channels[id].committed else []
  }

  lemma StoppedStepCommitsNothing(channel: C.Channel, step: C.Step)
    requires channel.stopped
    ensures C.Next(channel, step).committed == channel.committed
  {
    if C.Enabled(channel, step) && step.Fetched? && step.outcome.Page? {
      StoppedPageCommitsNothing(channel, step.outcome.records, channel.operations[step.op].generation);
    }
  }

  lemma {:induction false} StoppedPageCommitsNothing(channel: C.Channel, records: seq<C.Record>, generation: nat)
    requires channel.stopped
    ensures C.CommitPage(channel, records, generation).0 == channel
    decreases |records|
  {
    if records != [] {
      StoppedPageCommitsNothing(channel, records[1..], generation);
    }
  }

  /** Starting and stopping a channel commit nothing by themselves. */
  lemma PageStepCommitsNothing(s: Page, step: Step, id: nat)
    requires !step.Channel?
    ensures Committed(Next(s, step), id) == Committed(s, id)
  {
    if !step.Create? {
      var t := StepChannels(s, step);
      HaltCommitsNothing(t, id);
      LaunchCommitsNothing(t, id);
    }
  }

  lemma HaltCommitsNothing(s: Page, id: nat)
    ensures Committed(Halted(s), id) == Committed(s, id)
  {
  }

  lemma LaunchCommitsNothing(s: Page, id: nat)
    ensures Committed(Launched(s), id) == Committed(s, id)
  {
  }

  lemma OnlyRunningCommits(s: Page, step: Step, id: nat)
    ensures Committed(Next(s, step), id) != Committed(s, id) ==> Running(s, id)
  {
    if !step.Channel? {
      PageStepCommitsNothing(s, step, id);
    } else if step.id in s.channels && s.channels[step.id].stopped {
      StoppedStepCommitsNothing(s.channels[step.id], step.step);
    }
  }

  /** In every reachable state, whatever happens next: only a running channel commits, so nothing is
      committed while the page is hidden, suspended or disposed, nor by a channel that was replaced. */
  lemma CommitsOnlyInSight(hasDocument: bool, visible: bool, steps: seq<Step>, step: Step, id: nat)
    ensures var t := Run(Initial(hasDocument, visible), steps);
            Committed(Next(t, step), id) != Committed(t, id) ==>
              Running(t, id) && t.current == Some(id) && t.ready && t.pageActive && Showing(t) && !t.disposed
  {
    OneRunningChannel(hasDocument, visible, steps);
    OnlyRunningCommits(Run(Initial(hasDocument, visible), steps), step, id);
  }
}
