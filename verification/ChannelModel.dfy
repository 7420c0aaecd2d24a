/** The room event channel of `public/app.js` as a transition system. Every `await` boundary, timer
    firing, stream callback and public call is one step; the environment picks the order, the pages
    and the records. */
module ChannelModel {
  import opened Text

  const RECONNECT_DELAYS_MS: seq<nat> := [500, 1000, 2000, 4000, 8000]

  /** `wellFormed` stands for the shape checks of `validRecord` other than the sign of the number. */
  datatype Record = Record(wellFormed: bool, sequence: int, body: string)

  datatype Status = Fetching(after: nat) | Settled(ok: bool)

  /** One catch-up operation: its replay request in flight, or its outcome. */
  datatype Operation = Operation(generation: nat, status: Status)

  datatype Phase = Awaiting(op: nat, creator: bool) | Returned(ok: bool)

  /** A suspended call of `catchUp`, made by `reconnect` or by the public method. */
  datatype Frame = Frame(generation: nat, reconnects: bool, phase: Phase)

  datatype Timer = Timer(generation: nat, delay: nat)

  /** The connections whose stream `options.connect` has returned, and the `close` calls made on them. */
  datatype Streams = Streams(returned: set<nat>, closed: multiset<nat>)

  datatype Channel = Channel(
    cursor: nat,
    connection: Option<nat>,
    timer: Option<nat>,
    attempt: nat,
    stopped: bool,
    generation: nat,
    operation: Option<nat>,
    // Work the environment still holds: it may call back at any time, however stale.
    operations: map<nat, Operation>,
    frames: map<nat, Frame>,
    timers: map<nat, Timer>,
    connections: map<nat, nat>,
    // The connection whose `options.connect` call is on the stack.
    connecting: Option<nat>,
    next: nat,
    streams: Streams,
    // Every record handed to `options.commit`, in order.
    committed: seq<Record>)

  datatype FetchOutcome = Rejected | NotArray | Page(records: seq<Record>)

  datatype Step =
    | Start
    | Stop
    | CatchUp
    | Fetched(op: nat, outcome: FetchOutcome)
    | Unwind(frame: nat)
    | Proceed(frame: nat)
    | TimerFires(timer: nat)
    | Opened(connection: nat)
    | Received(connection: nat, record: Record)
    | Errored(connection: nat)
    | ConnectReturns
    | ConnectThrows

  function Initial(): Channel {
    Channel(0, None, None, 0, true, 0, None, map[], map[], map[], map[], None, 0, Streams({}, multiset{}), [])
  }

  predicate ValidRecord(r: Record) {
    r.wellFormed && r.sequence > 0
  }

  predicate IsCurrent(s: Channel, generation: nat) {
    !s.stopped && s.generation == generation
  }

  // ---------- Committing ----------

  datatype CommitResult = Stale | Duplicate | Gap | Committed

  function Commit(s: Channel, record: Record, generation: nat): (Channel, CommitResult) {
    if !IsCurrent(s, generation) then (s, Stale)
    else if !ValidRecord(record) || record.sequence <= s.cursor then (s, Duplicate)
    else if record.sequence != s.cursor + 1 then (s, Gap)
    else (s.(committed := s.committed + [record], cursor := record.sequence), Committed)
  }

  /** Commit a replay page; `true` when a gap stops it. */
  function CommitPage(s: Channel, records: seq<Record>, generation: nat): (Channel, bool)
    decreases |records|
  {
    if records == [] then (s, false)
    else
      var (t, result) := Commit(s, records[0], generation);
      if result == Gap then (t, true) else CommitPage(t, records[1..], generation)
  }

  // ---------- The functions of the channel ----------

  /** `catchUp` up to its first suspension, called by a new frame. */
  function BeginCatchUp(s: Channel, generation: nat, reconnects: bool): Channel {
    if !IsCurrent(s, generation) then
      AddFrame(s, Frame(generation, reconnects, Returned(true)))
    else if s.operation.Some? && s.operation.value in s.operations
            && s.operations[s.operation.value].generation == generation then
      AddFrame(s, Frame(generation, reconnects, Awaiting(s.operation.value, false)))
    else
      AddFrame(BeginOperation(s, generation), Frame(generation, reconnects, Awaiting(s.next, true)))
  }

  /** A new operation, with its request at the cursor. */
  function BeginOperation(s: Channel, generation: nat): Channel {
    s.(operations := s.operations[s.next := Operation(generation, Fetching(s.cursor))],
       operation := Some(s.next), next := s.next + 1)
  }

  function AddFrame(s: Channel, frame: Frame): Channel {
    s.(frames := s.frames[s.next := frame], next := s.next + 1)
  }

  function ReconnectDelay(attempt: nat): nat {
    RECONNECT_DELAYS_MS[if attempt < |RECONNECT_DELAYS_MS| then attempt else |RECONNECT_DELAYS_MS| - 1]
  }

  function ScheduleReconnect(s: Channel, generation: nat): Channel {
    if !IsCurrent(s, generation) || s.timer.Some? then s
    else s.(timers := s.timers[s.next := Timer(generation, ReconnectDelay(s.attempt))],
            timer := Some(s.next), attempt := s.attempt + 1, next := s.next + 1)
  }

  /** `source?.close()`: nothing to close before the stream has been returned. */
  function CloseStream(s: Channel, connection: nat): Channel {
    if connection !in s.streams.returned then s
    else s.(streams := s.streams.(closed := s.streams.closed + multiset{connection}))
  }

  function Disconnect(s: Channel, connection: nat, generation: nat): Channel {
    if !IsCurrent(s, generation) || s.connection != Some(connection) then s
    else ScheduleReconnect(CloseStream(s.(connection := None), connection), generation)
  }

  /** `attach` up to the call of `options.connect`. */
  function Attach(s: Channel, generation: nat): Channel {
    if !IsCurrent(s, generation) || s.connection.Some? then s
    else s.(connections := s.connections[s.next := generation], connection := Some(s.next),
            connecting := Some(s.next), next := s.next + 1)
  }

  function Settle(s: Channel, op: nat, status: Status): Channel
    requires op in s.operations
  {
    s.(operations := s.operations[op := s.operations[op].(status := status)])
  }

  /** The catch-up loop from one response of the replay endpoint to its next suspension. */
  function AfterFetch(s: Channel, op: nat, outcome: FetchOutcome): Channel
    requires op in s.operations
  {
    var generation := s.operations[op].generation;
    if outcome.Rejected? then Settle(s, op, Settled(false))
    else if !IsCurrent(s, generation) then Settle(s, op, Settled(true))
    else if outcome.NotArray? then Settle(s, op, Settled(false))
    else if outcome.records == [] then Settle(s, op, Settled(true))
    else
      var (t, gap) := CommitPage(s, outcome.records, generation);
      CommitPageFrame(s, outcome.records, generation);
      if gap then Settle(t, op, Settled(false)) else Settle(t, op, Fetching(t.cursor))
  }

  /** Committing touches nothing but the cursor and the committed records. */
  lemma CommitPageFrame(s: Channel, records: seq<Record>, generation: nat)
    ensures var t := CommitPage(s, records, generation).0;
            s.cursor <= t.cursor && t == s.(cursor := t.cursor, committed := t.committed)
    decreases |records|
  {
    if records != [] {
      CommitPageFrame(Commit(s, records[0], generation).0, records[1..], generation);
    }
  }

  /** A caller of `catchUp` resumes; the call that created the operation clears it. */
  function UnwindFrame(s: Channel, f: nat): Channel
    requires f in s.frames && s.frames[f].phase.Awaiting? && s.frames[f].phase.op in s.operations
    requires s.operations[s.frames[f].phase.op].status.Settled?
  {
    var phase := s.frames[f].phase;
    s.(operation := if phase.creator && s.operation == Some(phase.op) then None else s.operation,
       frames := s.frames[f := s.frames[f].(phase := Returned(s.operations[phase.op].status.ok))])
  }

  /** The rest of `reconnect`, or of the public `catchUp`, once its `catchUp` call has ended. */
  function ProceedFrame(s: Channel, f: nat): Channel
    requires f in s.frames && s.frames[f].phase.Returned?
  {
    var frame := s.frames[f];
    var t := s.(frames := s.frames - {f});
    if !frame.reconnects then t
    else if frame.phase.ok then Attach(t, frame.generation)
    else ScheduleReconnect(t, frame.generation)
  }

  function FireTimer(s: Channel, timer: nat): Channel
    requires timer in s.timers
  {
    if s.timer != Some(timer) || !IsCurrent(s, s.timers[timer].generation) then s
    else BeginCatchUp(s.(timer := None), s.timers[timer].generation, true)
  }

  function Open(s: Channel, connection: nat): Channel
    requires connection in s.connections
  {
    if IsCurrent(s, s.connections[connection]) && s.connection == Some(connection) then s.(attempt := 0) else s
  }

  function Receive(s: Channel, connection: nat, record: Record): Channel
    requires connection in s.connections
  {
    var generation := s.connections[connection];
    if !IsCurrent(s, generation) || s.connection != Some(connection) then s
    else
      var (t, result) := Commit(s, record, generation);
      if result == Gap then Disconnect(t, connection, generation) else t
  }

  /** `attach` after `options.connect` returned. */
  function FinishAttach(s: Channel, connection: nat): Channel
    requires connection in s.connections
  {
    var t := ReturnStream(s, connection);
    if !IsCurrent(t, s.connections[connection]) || t.connection != Some(connection) then CloseSuperseded(t, connection)
    else t
  }

  function ReturnStream(s: Channel, connection: nat): Channel {
    s.(connecting := None, streams := s.streams.(returned := s.streams.returned + {connection}))
  }

  function CloseSuperseded(s: Channel, connection: nat): Channel {
    CloseStream(s.(connection := if s.connection == Some(connection) then None else s.connection), connection)
  }

  /** `attach` and its caller after `options.connect` threw. */
  function FailAttach(s: Channel, connection: nat): Channel
    requires connection in s.connections
  {
    var t := s.(connecting := None, connection := if s.connection == Some(connection) then None else s.connection);
    ScheduleReconnect(t, s.connections[connection])
  }

  function StartChannel(s: Channel): Channel {
    if !s.stopped then s
    else BeginCatchUp(s.(stopped := false, generation := s.generation + 1), s.generation + 1, true)
  }

  function StopChannel(s: Channel): Channel {
    Halt(DropInstalled(s))
  }

  function Halt(s: Channel): Channel {
    s.(generation := s.generation + 1, stopped := true, operation := None, timer := None)
  }

  function DropInstalled(s: Channel): Channel {
    if s.connection.None? then s else CloseStream(s.(connection := None), s.connection.value)
  }

  // ---------- Steps ----------

  /** While `options.connect` runs, only what it can call synchronously may happen. */
  predicate Enabled(s: Channel, step: Step) {
    match step
    case Start => true
    case Stop => true
    case CatchUp => true
    case Fetched(op, _) => s.connecting.None? && op in s.operations && s.operations[op].status.Fetching?
    case Unwind(f) =>
      && s.connecting.None? && f in s.frames && s.frames[f].phase.Awaiting?
      && s.frames[f].phase.op in s.operations && s.operations[s.frames[f].phase.op].status.Settled?
    case Proceed(f) => s.connecting.None? && f in s.frames && s.frames[f].phase.Returned?
    case TimerFires(t) => s.connecting.None? && t in s.timers
    case Opened(c) => c in s.connections
    case Received(c, _) => c in s.connections
    case Errored(c) => c in s.connections
    case ConnectReturns => s.connecting.Some? && s.connecting.value in s.connections
    case ConnectThrows => s.connecting.Some? && s.connecting.value in s.connections
  }

  /** The state after a step; a step that is not enabled changes nothing. */
  function Next(s: Channel, step: Step): Channel {
    if !Enabled(s, step) then s
    else match step
      case Start => StartChannel(s)
      case Stop => StopChannel(s)
      case CatchUp => BeginCatchUp(s, s.generation, false)
      case Fetched(op, outcome) => AfterFetch(s, op, outcome)
      case Unwind(f) => UnwindFrame(s, f)
      case Proceed(f) => ProceedFrame(s, f)
      case TimerFires(t) => FireTimer(s, t)
      case Opened(c) => Open(s, c)
      case Received(c, record) => Receive(s, c, record)
      case Errored(c) => Disconnect(s, c, s.connections[c])
      case ConnectReturns => FinishAttach(s, s.connecting.value)
      case ConnectThrows => FailAttach(s, s.connecting.value)
  }

  function Run(s: Channel, steps: seq<Step>): Channel
    decreases |steps|
  {
    if steps == [] then s else Run(Next(s, steps[0]), steps[1..])
  }

  // ---------- The invariant ----------

  /** The committed records are numbered 1..cursor, each once and in order. */
  ghost predicate Ordered(s: Channel) {
    |s.committed| == s.cursor && forall i :: 0 <= i < |s.committed| ==> s.committed[i].sequence == i + 1
  }

  /** No work is newer than the channel, and a stopped channel has outlived all of it. */
  predicate Known(s: Channel, generation: nat) {
    if s.stopped then generation < s.generation else generation <= s.generation
  }

  ghost predicate WellFormed(s: Channel) {
    && (forall o :: o in s.operations ==> o < s.next && Known(s, s.operations[o].generation))
    && (forall o :: o in s.operations ==> s.operations[o].status.Fetching? ==> s.operations[o].status.after <= s.cursor)
    && (forall f :: f in s.frames ==>
          && f < s.next && s.frames[f].generation <= s.generation
          && (s.frames[f].reconnects ==> Known(s, s.frames[f].generation)))
    && (forall f :: f in s.frames && s.frames[f].phase.Awaiting? ==>
          && s.frames[f].phase.op in s.operations
          && s.operations[s.frames[f].phase.op].generation == s.frames[f].generation)
    && (forall t :: t in s.timers ==> t < s.next && Known(s, s.timers[t].generation))
    && (forall c :: c in s.connections ==> c < s.next && Known(s, s.connections[c]))
    && (s.operation.Some? ==>
          s.operation.value in s.operations && IsCurrent(s, s.operations[s.operation.value].generation))
    && (s.timer.Some? ==> s.timer.value in s.timers && IsCurrent(s, s.timers[s.timer.value].generation))
    && (s.connection.Some? ==> s.connection.value in s.connections && IsCurrent(s, s.connections[s.connection.value]))
    && (s.connecting.Some? ==>
          && s.connecting.value in s.connections
          && (IsCurrent(s, s.connections[s.connecting.value]) ==> s.connection == s.connecting || s.timer.Some?))
  }

  /** The reconnect attempts of the current generation that are still in flight. */
  ghost function Reconnecting(s: Channel): set<nat> {
    set f | f in s.frames && s.frames[f].reconnects && s.frames[f].generation == s.generation
  }

  /** Exactly one of: a reconnect in flight, a backoff timer pending, a live connection. */
  ghost predicate SingleRecovery(s: Channel) {
    |Reconnecting(s)| + (if s.timer.Some? then 1 else 0) + (if s.connection.Some? then 1 else 0) == 1
  }

  ghost predicate Inv(s: Channel) {
    Ordered(s) && WellFormed(s) && (!s.stopped ==> SingleRecovery(s))
  }

  type ValidChannel = s: Channel | Inv(s) ghost witness Initial()
}
