/** The page lifecycle binder with its mutable fields, starting and stopping real event channels. The
    channels ever created are ghost, each under a name; the binder itself holds only the current one. */
module LifecycleClass {
  import opened Text
  import C = ChannelModel
  import opened ChannelClass
  import opened Lifecycle

  class RoomChannelLifecycle {
    const hasDocument: bool
    var visible: bool
    var disposed: bool
    var ready: bool
    var pageActive: bool
    var currentStarted: bool
    var current: RoomEventChannel?
    ghost var currentId: Option<nat>
    ghost var objects: map<nat, RoomEventChannel>

    /** The states the channels are in now. */
    ghost function Channels(): map<nat, C.Channel>
      reads this`objects, objects.Values
    {
      map id | id in objects :: objects[id].model
    }

    ghost function View(): Page
      reads this, objects.Values
    {
      Page(hasDocument, visible, disposed, ready, pageActive, currentStarted, currentId, Channels())
    }

    /** Every channel has one name, and the current one represents its state. */
    ghost predicate Represents()
      reads this`current, this`currentId, this`objects, current
    {
      && (current == null <==> currentId.None?)
      && (current != null ==> Named(current, currentId.value) && current.Represents())
      && forall i, j :: i in objects && j in objects && objects[i] == objects[j] ==> i == j
    }

    ghost predicate Named(channel: RoomEventChannel, id: nat)
      reads this`objects
    {
      id in objects && objects[id] == channel
    }

    constructor (hasDocument: bool, visible: bool)
      ensures Represents() && View() == Initial(hasDocument, visible) && objects == map[]
    {
      this.hasDocument := hasDocument;
      this.visible := visible;
      disposed, ready, currentStarted, current, currentId, objects := false, false, false, null, None, map[];
      pageActive := !hasDocument || visible;
    }

    lemma SameChannel(channel: RoomEventChannel, id: nat)
      requires Represents() && Named(channel, id)
      ensures current == channel <==> currentId == Some(id)
    {
    }

    /** `channelHolder.replace(channel)`; the new channel is not started. */
    method Install(channel: RoomEventChannel, ghost id: nat)
      requires Represents() && Named(channel, id) && channel.Represents()
      modifies this`current, this`currentId, this`currentStarted
      ensures Represents() && current == channel
      ensures View() == old(View()).(current := Some(id), currentStarted := false)
    {
      ghost var states := Channels();
      current, currentId := channel, Some(id);
      currentStarted := false;
      assert Channels() == states;
    }

    /** `channelHolder.stop()`. */
    method HolderStop()
      requires Represents() && current != null
      modifies current
      ensures Represents() && currentId.value in old(Channels())
      ensures Channels() == old(Channels())[currentId.value := C.StopChannel(old(Channels())[currentId.value])]
    {
      var _ := current.Stop();
    }

    method HolderStart()
      requires Represents() && current != null
      modifies current
      ensures Represents() && currentId.value in old(Channels())
      ensures Channels() == old(Channels())[currentId.value := C.StartChannel(old(Channels())[currentId.value])]
    {
      current.Start();
    }

    method StopCurrent()
      requires Represents()
      modifies this`currentStarted, current
      ensures Represents() && View() == Halted(old(View()))
    {
      if !currentStarted {
        return;
      }
      currentStarted := false;
      if current != null {
        HolderStop();
      }
    }

    /** Whether the current channel was started. */
    method StartIfActive() returns (started: bool)
      requires Represents()
      modifies this`currentStarted, current
      ensures Represents() && View() == Launched(old(View())) && started == MayStart(old(View()))
    {
      if !ready || !pageActive || disposed || currentStarted || current == null {
        return false;
      }
      currentStarted := true;
      HolderStart();
      started := true;
    }

    method Activate()
      requires Represents()
      modifies this, current
      ensures Represents() && View() == Next(old(View()), Step.Activate) && objects == old(objects)
    {
      ready := true;
      var _ := StartIfActive();
    }

    method Replace(channel: RoomEventChannel, ghost id: nat)
      requires Represents() && Named(channel, id) && channel.Represents()
      modifies this, current
      ensures Represents() && View() == Next(old(View()), Step.Replace(id)) && objects == old(objects)
      ensures current == channel && (old(current) != null ==> old(current).Represents())
    {
      SameChannel(channel, id);
      if current != channel {
        Swap(channel, id);
      }
    }

    method Swap(channel: RoomEventChannel, ghost id: nat)
      requires Represents() && Named(channel, id) && channel.Represents() && current != channel
      modifies this, current
      ensures Represents() && objects == old(objects)
      ensures View() == Halted(old(View())).(current := Some(id), currentStarted := false)
      ensures current == channel && (old(current) != null ==> old(current).Represents())
    {
      StopCurrent();
      assert View() == Halted(old(View()));
      Install(channel, id);
    }

    method Suspend()
      requires Represents()
      modifies this, current
      ensures Represents() && View() == Next(old(View()), Step.Suspend) && objects == old(objects)
    {
      ghost var states := Channels();
      ready := false;
      assert Channels() == states;
      StopCurrent();
    }

    method Dispose()
      requires Represents()
      modifies this, current
      ensures Represents() && View() == Next(old(View()), Step.Dispose) && objects == old(objects)
    {
      if disposed {
        return;
      }
      StopCurrent();
      RemoveListeners();
    }

    method RemoveListeners()
      requires Represents()
      modifies this`disposed
      ensures Represents() && View() == old(View()).(disposed := true)
    {
      ghost var states := Channels();
      disposed := true;
      assert Channels() == states;
    }

    /** Called only while the listeners are registered. */
    method OnPageHide(persisted: bool)
      requires Represents() && !disposed
      modifies this, current
      ensures Represents() && View() == Next(old(View()), Step.PageHide(persisted)) && objects == old(objects)
    {
      pageActive := false;
      assert View() == old(View()).(pageActive := false);
      StopCurrent();
      assert View() == Halted(old(View()).(pageActive := false));
      if !persisted {
        RemoveListeners();
      }
    }

    method OnPageShow(persisted: bool)
      requires Represents()
      modifies this, current
      ensures Represents() && View() == Next(old(View()), Step.PageShow(persisted)) && objects == old(objects)
    {
      if !persisted || disposed {
        return;
      }
      pageActive := !hasDocument || visible;
      assert View() == old(View()).(pageActive := Showing(old(View())));
      if ready {
        var _ := StartIfActive();
      }
    }

    /** The document's visibility changes and its listener runs. */
    method OnVisibilityChange(nowVisible: bool)
      requires Represents()
      modifies this, current
      ensures Represents() && View() == Next(old(View()), Step.Visibility(nowVisible)) && objects == old(objects)
    {
      visible := nowVisible;
      if disposed || !hasDocument {
        return;
      }
      pageActive := visible;
      assert View() == old(View()).(visible := nowVisible, pageActive := nowVisible);
      if !pageActive {
        StopCurrent();
      } else if ready {
        var _ := StartIfActive();
      }
    }

    /** A new channel gets a name. */
    ghost method Name(channel: RoomEventChannel, id: nat)
      requires Represents() && channel.Represents() && channel.model == C.Initial()
      requires id !in objects && forall i :: i in objects ==> objects[i] != channel
      modifies this`objects
      ensures Represents() && View() == Next(old(View()), Create(id)) && Named(channel, id)
    {
      objects := objects[id := channel];
      assert Channels() == old(Channels())[id := C.Initial()];
    }
  }

  // A handler of one channel is a step of the page: the binder and the other channels keep their states.

  /** A stream record reaches one of the page's channels, the current one or not. */
  method DeliverEvent(page: RoomChannelLifecycle, ghost id: nat,
                      channel: RoomEventChannel, active: Handle, operationGeneration: nat, record: C.Record)
    returns (closed: bool)
    requires page.Represents() && page.Named(channel, id) && channel.Represents()
    requires channel.Attached(active, operationGeneration)
    modifies channel
    ensures page.Represents() && channel.Represents()
    ensures page.View() == Next(old(page.View()), Channel(id, C.Received(active.id, record)))
  {
    ghost var before, step := page.View(), C.Received(active.id, record);
    closed := channel.OnEvent(active, operationGeneration, record);
    assert page.Channels() == before.channels[id := C.Next(before.channels[id], step)];
    OwnStep(before, page.View(), id, step);
  }

  /** A replay response reaches one of the page's channels. */
  method DeliverPage(page: RoomChannelLifecycle, ghost id: nat,
                     channel: RoomEventChannel, operation: CatchUpOperation, outcome: C.FetchOutcome)
    returns (status: C.Status)
    requires page.Represents() && page.Named(channel, id) && channel.Represents()
    requires channel.Operation(operation) && C.Enabled(channel.model, C.Fetched(operation.id, outcome))
    modifies channel
    ensures page.Represents() && channel.Represents()
    ensures page.View() == Next(old(page.View()), Channel(id, C.Fetched(operation.id, outcome)))
  {
    ghost var before, step := page.View(), C.Fetched(operation.id, outcome);
    status := channel.OnFetched(operation, outcome);
    assert forall i :: i in page.objects && i != id ==> page.objects[i] != channel;
    assert page.Channels() == before.channels[id := C.Next(before.channels[id], step)];
    OwnStep(before, page.View(), id, step);
  }

  /** A backoff timer of one of the page's channels fires. */
  method DeliverTimer(page: RoomChannelLifecycle, ghost id: nat,
                      channel: RoomEventChannel, scheduled: Handle, operationGeneration: nat)
    requires page.Represents() && page.Named(channel, id) && channel.Represents()
    requires C.Enabled(channel.model, C.TimerFires(scheduled.id))
    requires scheduled.id in channel.timers && channel.timers[scheduled.id] == scheduled
    requires channel.model.timers[scheduled.id].generation == operationGeneration
    modifies channel
    ensures page.Represents() && channel.Represents()
    ensures page.View() == Next(old(page.View()), Channel(id, C.TimerFires(scheduled.id)))
  {
    ghost var before, step := page.View(), C.TimerFires(scheduled.id);
    channel.OnTimer(scheduled, operationGeneration);
    assert page.Channels() == before.channels[id := C.Next(before.channels[id], step)];
    OwnStep(before, page.View(), id, step);
  }
}
