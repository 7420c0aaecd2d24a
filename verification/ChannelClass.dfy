/** The event channel with the variables of the program. It refines the transition system step by step:
    timers, connections and catch-up operations are objects told apart by identity, each handler gets
    what its closure captured, and what the event loop holds (suspended calls, requests, callbacks) is
    ghost. */
module ChannelClass {
  import opened Text
  import opened ChannelModel

  /** An object of which only the identity matters: a scheduled timer or an active connection. */
  class Handle {
    ghost const id: nat

    constructor (ghost id: nat)
      ensures this.id == id
    {
      this.id := id;
    }
  }

  class CatchUpOperation {
    const generation: nat
    ghost const id: nat

    constructor (generation: nat, ghost id: nat)
      ensures this.generation == generation && this.id == id
    {
      this.generation := generation;
      this.id := id;
    }
  }

  ghost function IdOf(handle: Handle?): Option<nat> {
    if handle == null then None else Some(handle.id)
  }

  ghost function Closes(closed: bool, active: Handle): multiset<nat> {
    if closed then multiset{active.id} else multiset{}
  }

  ghost function OperationId(operation: CatchUpOperation?): Option<nat> {
    if operation == null then None else Some(operation.id)
  }

  /** The objects created so far, by identity. */
  ghost predicate Names(handles: map<nat, Handle>, ids: set<nat>) {
    handles.Keys == ids && forall i :: i in handles ==> handles[i].id == i
  }

  ghost predicate NamesOperations(objects: map<nat, CatchUpOperation>, operations: map<nat, Operation>) {
    && objects.Keys == operations.Keys
    && forall i :: i in objects ==> objects[i].id == i && objects[i].generation == operations[i].generation
  }

  /** Streams belong to connections, and a new identity is none of theirs. */
  ghost predicate Older(s: Channel) {
    s.streams.returned <= s.connections.Keys && forall c :: c in s.connections ==> c < s.next
  }

  class RoomEventChannel {
    var cursor: nat
    var connection: Handle?
    // Whether the stream of the installed connection has been returned: `connection.source`.
    var sourceReady: bool
    var timer: Handle?
    var attempt: nat
    var stopped: bool
    var generation: nat
    var catchUpOperation: CatchUpOperation?
    // Every record handed to `options.commit`, in order.
    var committed: seq<Record>
    ghost var model: Channel
    ghost var timers: map<nat, Handle>
    ghost var connections: map<nat, Handle>
    ghost var operations: map<nat, CatchUpOperation>

    ghost predicate Represents()
      reads this
    {
      && model.cursor == cursor && model.attempt == attempt && model.stopped == stopped
      && model.generation == generation && model.committed == committed
      && model.connection == IdOf(connection) && model.timer == IdOf(timer)
      && model.operation == OperationId(catchUpOperation)
      && (sourceReady <==> connection != null && connection.id in model.streams.returned)
      && Older(model)
      && Names(timers, model.timers.Keys) && Names(connections, model.connections.Keys)
      && NamesOperations(operations, model.operations)
      && (connection != null ==> Connection(connection))
      && (timer != null ==> timer.id in timers && timers[timer.id] == timer)
      && (catchUpOperation != null ==> Operation(catchUpOperation))
    }

    ghost predicate Connection(active: Handle)
      reads this
    {
      active.id in connections && connections[active.id] == active
    }

    ghost predicate Operation(operation: CatchUpOperation)
      reads this
    {
      operation.id in operations && operations[operation.id] == operation
    }

    /** A connection with the generation its callbacks captured. */
    ghost predicate Attached(active: Handle, operationGeneration: nat)
      reads this
    {
      Connection(active) && active.id in model.connections && model.connections[active.id] == operationGeneration
    }

    /** Identity of connections is equality of their objects. */
    lemma SameConnection(active: Handle)
      requires Represents() && Connection(active)
      ensures connection == active <==> model.connection == Some(active.id)
    {
    }

    constructor ()
      ensures Represents() && model == Initial()
    {
      cursor, connection, timer, attempt, stopped, generation, catchUpOperation := 0, null, null, 0, true, 0, null;
      committed, sourceReady := [], false;
      model, timers, connections, operations := Initial(), map[], map[], map[];
    }

    predicate Current(operationGeneration: nat)
      reads this
    {
      !stopped && generation == operationGeneration
    }

    method Commit(record: Record, operationGeneration: nat) returns (result: CommitResult)
      requires Represents()
      modifies this`cursor, this`committed, this`model
      ensures Represents() && (model, result) == ChannelModel.Commit(old(model), record, operationGeneration)
    {
      if !Current(operationGeneration) {
        return Stale;
      }
      if !ValidRecord(record) || record.sequence <= cursor {
        return Duplicate;
      }
      if record.sequence != cursor + 1 {
        return Gap;
      }
      committed := committed + [record];
      cursor := record.sequence;
      model := ChannelModel.Commit(model, record, operationGeneration).0;
      return Committed;
    }

    method CommitPage(records: seq<Record>, operationGeneration: nat) returns (gap: bool)
      requires Represents()
      modifies this`cursor, this`committed, this`model
      ensures Represents() && (model, gap) == ChannelModel.CommitPage(old(model), records, operationGeneration)
    {
      for i := 0 to |records|
        invariant Represents()
        invariant ChannelModel.CommitPage(model, records[i..], operationGeneration)
                  == ChannelModel.CommitPage(old(model), records, operationGeneration)
      {
        assert records[i..][1..] == records[i + 1..];
        var result := Commit(records[i], operationGeneration);
        if result == Gap {
          return true;
        }
      }
      gap := false;
    }

    /** `catchUp` up to its first suspension: it has returned, or awaits the operation it joined or, as
        its creator, the one it started with a request at the cursor. */
    method BeginCatchUp(operationGeneration: nat, ghost reconnects: bool)
      returns (awaited: CatchUpOperation?, creator: bool, ghost f: nat)
      requires Represents()
      modifies this`catchUpOperation, this`model, this`operations
      ensures Represents() && model == ChannelModel.BeginCatchUp(old(model), operationGeneration, reconnects)
      ensures f in model.frames
      ensures model.frames[f].phase == if awaited == null then Returned(true) else Awaiting(awaited.id, creator)
      ensures awaited != null ==> Operation(awaited)
      ensures creator ==> awaited != null && fresh(awaited) && awaited.generation == operationGeneration
    {
      f := model.next;
      if !Current(operationGeneration) {
        awaited, creator := null, false;
      } else if catchUpOperation != null && catchUpOperation.generation == operationGeneration {
        awaited, creator := catchUpOperation, false;
      } else {
        f := model.next + 1;
        awaited := BeginOperation(operationGeneration);
        creator := true;
      }
      ghost var phase := if awaited == null then Returned(true) else Awaiting(awaited.id, creator);
      Suspend(Frame(operationGeneration, reconnects, phase));
    }

    /** The event loop keeps a suspended call. */
    ghost method Suspend(frame: Frame)
      requires Represents()
      modifies this`model
      ensures Represents() && model == AddFrame(old(model), frame)
    {
      model := AddFrame(model, frame);
    }

    /** A new operation, with its request at the cursor. */
    method BeginOperation(operationGeneration: nat) returns (operation: CatchUpOperation)
      requires Represents()
      modifies this`catchUpOperation, this`model, this`operations
      ensures Represents() && operation == catchUpOperation && Operation(operation) && fresh(operation)
      ensures operation.id == old(model).next && operation.generation == operationGeneration
      ensures model == ChannelModel.BeginOperation(old(model), operationGeneration)
    {
      operation := new CatchUpOperation(operationGeneration, model.next);
      catchUpOperation := operation;
      operations := operations[operation.id := operation];
      model := ChannelModel.BeginOperation(model, operationGeneration);
    }

    /** The timer that is scheduled, if any, and its delay. */
    method ScheduleReconnect(operationGeneration: nat) returns (scheduled: Handle?, delay: nat)
      requires Represents()
      modifies this`timer, this`attempt, this`model, this`timers
      ensures Represents() && model == ChannelModel.ScheduleReconnect(old(model), operationGeneration)
      ensures scheduled == null <==> model == old(model)
      ensures scheduled != null ==>
                && scheduled == timer && fresh(scheduled)
                && model.timers == old(model).timers[scheduled.id := Timer(operationGeneration, delay)]
    {
      scheduled, delay := null, 0;
      if !Current(operationGeneration) || timer != null {
        return;
      }
      delay := ReconnectDelay(attempt);
      attempt := attempt + 1;
      scheduled := new Handle(model.next);
      timer := scheduled;
      timers := timers[scheduled.id := scheduled];
      model := ChannelModel.ScheduleReconnect(model, operationGeneration);
    }

    /** `source?.close()` on the installed connection, which is given up. */
    method DropConnection() returns (closed: bool)
      requires Represents() && connection != null
      modifies this`connection, this`sourceReady, this`model
      ensures Represents() && model == CloseStream(old(model).(connection := None), old(connection).id)
      ensures model.streams.closed == old(model).streams.closed + Closes(closed, old(connection))
    {
      closed := sourceReady;
      model := CloseStream(model.(connection := None), connection.id);
      connection, sourceReady := null, false;
    }

    method Disconnect(active: Handle, operationGeneration: nat) returns (closed: bool)
      requires Represents() && Connection(active)
      modifies this`connection, this`sourceReady, this`timer, this`attempt, this`model, this`timers
      ensures Represents() && model == ChannelModel.Disconnect(old(model), active.id, operationGeneration)
      ensures model.streams.closed == old(model).streams.closed + Closes(closed, active)
    {
      SameConnection(active);
      if !Current(operationGeneration) || connection != active {
        return false;
      }
      closed := DropConnection();
      var _, _ := ScheduleReconnect(operationGeneration);
    }

    /** `attach` up to its call of `options.connect`, with the position it asks the stream to follow. */
    method Attach(operationGeneration: nat) returns (active: Handle?, after: nat)
      requires Represents()
      modifies this`connection, this`sourceReady, this`model, this`connections
      ensures Represents() && model == ChannelModel.Attach(old(model), operationGeneration)
      ensures active == null <==> model == old(model)
      ensures active != null ==> Attached(active, operationGeneration) && model.connecting == Some(active.id)
      ensures after == cursor
    {
      active, after := null, cursor;
      if !Current(operationGeneration) || connection != null {
        return;
      }
      active := new Handle(model.next);
      connection, sourceReady := active, false;
      connections := connections[active.id := active];
      model := ChannelModel.Attach(model, operationGeneration);
    }

    // ---------- The event handlers ----------

    /** The catch-up loop from a response to the next request, or to the end of the operation. */
    method OnFetched(operation: CatchUpOperation, outcome: FetchOutcome) returns (status: Status)
      requires Represents() && Operation(operation) && Enabled(model, Fetched(operation.id, outcome))
      modifies this`cursor, this`committed, this`model
      ensures Represents() && model == Next(old(model), Fetched(operation.id, outcome))
      ensures operation.id in model.operations && model.operations[operation.id].status == status
    {
      if outcome.Rejected? {
        status := Settled(false);
      } else if !Current(operation.generation) {
        status := Settled(true);
      } else if outcome.NotArray? {
        status := Settled(false);
      } else if outcome.records == [] {
        status := Settled(true);
      } else {
        status := TakePage(outcome.records, operation.generation);
      }
      SettleOperation(operation, status);
    }

    method TakePage(records: seq<Record>, operationGeneration: nat) returns (status: Status)
      requires Represents()
      modifies this`cursor, this`committed, this`model
      ensures Represents()
      ensures var (t, gap) := ChannelModel.CommitPage(old(model), records, operationGeneration);
              model == t && status == if gap then Settled(false) else Fetching(t.cursor)
    {
      var gap := CommitPage(records, operationGeneration);
      status := if gap then Settled(false) else Fetching(cursor);
    }

    ghost method SettleOperation(operation: CatchUpOperation, status: Status)
      requires Represents() && operation.id in model.operations
      modifies this`model
      ensures Represents() && model == Settle(old(model), operation.id, status)
    {
      model := Settle(model, operation.id, status);
    }

    /** A suspended caller of `catchUp` resumes: its `finally` block, if it created the operation. */
    method OnUnwind(operation: CatchUpOperation, creator: bool, ghost f: nat)
      requires Represents() && Operation(operation) && Enabled(model, Unwind(f))
      requires model.frames[f].phase == Awaiting(operation.id, creator)
      modifies this`catchUpOperation, this`model
      ensures Represents() && model == Next(old(model), Unwind(f))
    {
      if creator && catchUpOperation == operation {
        catchUpOperation := null;
      }
      model := UnwindFrame(model, f);
    }

    /** The rest of `reconnect`, or of the public `catchUp`, after its catch-up returned or threw. */
    method OnProceed(operationGeneration: nat, reconnects: bool, ok: bool, ghost f: nat)
      requires Represents() && Enabled(model, Proceed(f))
      requires model.frames[f] == Frame(operationGeneration, reconnects, Returned(ok))
      modifies this
      ensures Represents() && model == Next(old(model), Proceed(f))
    {
      model := model.(frames := model.frames - {f});
      if !reconnects {
        return;
      }
      if ok {
        var _, _ := Attach(operationGeneration);
      } else {
        var _, _ := ScheduleReconnect(operationGeneration);
      }
    }

    method OnTimer(scheduled: Handle, operationGeneration: nat)
      requires Represents() && Enabled(model, TimerFires(scheduled.id))
      requires scheduled.id in timers && timers[scheduled.id] == scheduled
      requires model.timers[scheduled.id].generation == operationGeneration
      modifies this
      ensures Represents() && model == Next(old(model), TimerFires(scheduled.id))
    {
      if timer != scheduled || !Current(operationGeneration) {
        return;
      }
      timer := null;
      model := model.(timer := None);
      var _, _, _ := BeginCatchUp(operationGeneration, true);
    }

    method OnOpen(active: Handle, operationGeneration: nat)
      requires Represents() && Attached(active, operationGeneration)
      modifies this`attempt, this`model
      ensures Represents() && model == Next(old(model), Opened(active.id))
    {
      if !Current(operationGeneration) || connection != active {
        return;
      }
      attempt := 0;
      model := model.(attempt := 0);
    }

    method OnEvent(active: Handle, operationGeneration: nat, record: Record) returns (closed: bool)
      requires Represents() && Attached(active, operationGeneration)
      modifies this
      ensures Represents() && model == Next(old(model), Received(active.id, record))
      ensures model.streams.closed == old(model).streams.closed + Closes(closed, active)
    {
      closed := false;
      if !Current(operationGeneration) || connection != active {
        return;
      }
      var result := Commit(record, operationGeneration);
      if result == Gap {
        closed := Disconnect(active, operationGeneration);
      }
    }

    method OnError(active: Handle, operationGeneration: nat) returns (closed: bool)
      requires Represents() && Attached(active, operationGeneration)
      modifies this
      ensures Represents() && model == Next(old(model), Errored(active.id))
      ensures model.streams.closed == old(model).streams.closed + Closes(closed, active)
    {
      closed := Disconnect(active, operationGeneration);
    }

    /** `options.connect` has returned; a stream that was superseded meanwhile is closed again. */
    method OnConnected(active: Handle, operationGeneration: nat) returns (closed: bool)
      requires Represents() && Attached(active, operationGeneration) && model.connecting == Some(active.id)
      modifies this`connection, this`sourceReady, this`model
      ensures Represents() && model == Next(old(model), ConnectReturns)
      ensures model.streams.closed == old(model).streams.closed + Closes(closed, active)
      ensures closed <==> !(old(Current(operationGeneration)) && old(connection) == active)
    {
      SameConnection(active);
      ghost var returned := ReturnStream(model, active.id);
      assert FinishAttach(model, active.id)
          == if Current(operationGeneration) && connection == active then returned
             else CloseSuperseded(returned, active.id);
      StreamReturned(active);
      closed := !Current(operationGeneration) || connection != active;
      if closed {
        CloseReturned(active);
      }
    }

    /** `activeConnection.source = activeSource`. */
    method StreamReturned(active: Handle)
      requires Represents() && Connection(active)
      modifies this`sourceReady, this`model
      ensures Represents() && model == ReturnStream(old(model), active.id)
    {
      sourceReady := sourceReady || connection == active;
      model := ReturnStream(model, active.id);
    }

    /** Close the stream that `connect` returned, and give the connection up if it is the installed one. */
    method CloseReturned(active: Handle)
      requires Represents() && Connection(active) && active.id in model.streams.returned
      modifies this`connection, this`sourceReady, this`model
      ensures Represents() && model == CloseSuperseded(old(model), active.id)
      ensures model.streams.closed == old(model).streams.closed + multiset{active.id}
    {
      SameConnection(active);
      if connection == active {
        connection, sourceReady := null, false;
      }
      model := CloseSuperseded(model, active.id);
    }

    method OnConnectThrew(active: Handle, operationGeneration: nat)
      requires Represents() && Attached(active, operationGeneration) && model.connecting == Some(active.id)
      modifies this
      ensures Represents() && model == Next(old(model), ConnectThrows)
    {
      if connection == active {
        connection, sourceReady := null, false;
      }
      model := model.(connecting := None, connection := IdOf(connection));
      var _, _ := ScheduleReconnect(operationGeneration);
    }

    // ---------- The public operations ----------

    method Start()
      requires Represents()
      modifies this
      ensures Represents() && model == Next(old(model), ChannelModel.Step.Start)
    {
      if !stopped {
        return;
      }
      stopped := false;
      generation := generation + 1;
      model := model.(stopped := false, generation := generation);
      assert ChannelModel.BeginCatchUp(model, generation, true) == StartChannel(old(model));
      var _, _, _ := BeginCatchUp(generation, true);
    }

    method CatchUp()
      requires Represents()
      modifies this`catchUpOperation, this`model, this`operations
      ensures Represents() && model == Next(old(model), ChannelModel.Step.CatchUp)
    {
      var _, _, _ := BeginCatchUp(generation, false);
    }

    method CloseInstalled() returns (closed: Handle?)
      requires Represents()
      modifies this`connection, this`sourceReady, this`model
      ensures Represents() && model == DropInstalled(old(model))
      ensures model.streams.closed
           == old(model).streams.closed + if closed == null then multiset{} else multiset{closed.id}
    {
      closed := null;
      if connection != null {
        var active := connection;
        var wasOpen := DropConnection();
        closed := if wasOpen then active else null;
      }
    }

    /** The connection whose stream is closed, if any. */
    method Stop() returns (closed: Handle?)
      requires Represents()
      modifies this`generation, this`stopped, this`catchUpOperation, this`timer, this`connection
      modifies this`sourceReady, this`model
      ensures Represents() && model == Next(old(model), ChannelModel.Step.Stop)
      ensures model.streams.closed
           == old(model).streams.closed + if closed == null then multiset{} else multiset{closed.id}
    {
      closed := CloseInstalled();
      EndGeneration();
    }

    method EndGeneration()
      requires Represents()
      modifies this`generation, this`stopped, this`catchUpOperation, this`timer, this`model
      ensures Represents() && model == Halt(old(model))
    {
      generation := generation + 1;
      stopped := true;
      catchUpOperation := null;
      if timer != null {
        timer := null;
      }
      model := Halt(model);
    }
  }
}
