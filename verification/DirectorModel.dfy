/** The turn scheduler of `ios-web/director.js` as a value: its state, its transitions and the
    invariant that its restore validator enforces. */
module DirectorModel {
  import opened Text

  const MAX_SAFE_INTEGER: int := 0x1F_FFFF_FFFF_FFFF
  const MAX_ROSTER: int := 0xFFFF_FFFF
  const MAX_NAMESPACE_LENGTH: nat := 128
  const MAX_EVENT_ID_LENGTH: nat := 256
  const MAX_TRACKED_EVENT_IDENTITIES: nat := 500
  const DEFAULT_AUTONOMOUS_TURN_BUDGET: int := 10
  const ONE_EVENT_COOLDOWN: int := 1

  datatype Identity = Identity(namespace: Text, eventId: Text)

  datatype RawEvent = Unverified | Verified(identity: Identity, isHuman: bool, wantsResponse: bool)

  predicate CanonicalIdentity(id: Identity) {
    && CanonicalWithin(id.namespace, MAX_NAMESPACE_LENGTH)
    && CanonicalWithin(id.eventId, MAX_EVENT_ID_LENGTH)
  }

  /** Only the trusted adapter can build a verified event, and it checks both identifiers. */
  type Event = e: RawEvent | e.Verified? ==> CanonicalIdentity(e.identity) witness Unverified

  /** One entry of the insertion-ordered `lastSelectedAt` map. */
  datatype Selection = Selection(persona: Text, at: int)

  datatype State = State(
    personas: seq<Text>,
    muted: set<Text>,
    lastSelectedAt: seq<Selection>,
    seen: seq<Identity>,
    maxTurns: int,
    turns: int,
    accepted: int,
    fallback: int,
    cancelled: bool)

  datatype Snapshot = Snapshot(
    version: int,
    autonomousTurns: int,
    acceptedHumanEventNumber: int,
    fallbackIndex: int,
    cancelled: bool,
    maxAutonomousTurns: int,
    lastSelectedAt: seq<Selection>,
    seen: seq<Identity>)

  datatype Reason =
    | Selected | Directed | Cancelled | UnverifiedEvent | Duplicate | SelfTriggerBlocked
    | BudgetExhausted | DeliberateSilence | NoPersona | NoEligiblePersona | Cooldown

  datatype Refusal = NotCanonical | UnknownPersona | MutedPersona

  datatype Outcome = Decision(speaker: Option<Text>, reason: Reason) | Refused(error: Refusal)

  predicate Distinct<T(==)>(xs: seq<T>) {
    forall i, j :: 0 <= i < j < |xs| ==> xs[i] != xs[j]
  }

  predicate ValidRoster(personas: seq<Text>) {
    && Distinct(personas)
    && |personas| <= MAX_ROSTER
    && forall i :: 0 <= i < |personas| ==> Canonical(personas[i])
  }

  /** `Array.prototype.indexOf`. */
  function IndexOf(xs: seq<Text>, x: Text): (i: int)
    ensures -1 <= i < |xs|
    ensures 0 <= i ==> xs[i] == x
    ensures i == -1 <==> x !in xs
  {
    if xs == [] then -1
    else if xs[0] == x then 0
    else
      var rest := IndexOf(xs[1..], x);
      if rest < 0 then -1 else rest + 1
  }

  /** Position of a persona's entry in the insertion-ordered selection map, or -1. */
  function Slot(entries: seq<Selection>, persona: Text): (i: int)
    ensures -1 <= i < |entries|
    ensures 0 <= i ==> entries[i].persona == persona
    ensures i == -1 ==> forall j :: 0 <= j < |entries| ==> entries[j].persona != persona
  {
    if entries == [] then -1
    else if entries[0].persona == persona then 0
    else
      var rest := Slot(entries[1..], persona);
      if rest < 0 then -1 else rest + 1
  }

  /** `Map.prototype.get`. */
  function LastSelected(entries: seq<Selection>, persona: Text): Option<int> {
    var i := Slot(entries, persona);
    if i < 0 then None else Some(entries[i].at)
  }

  /** `Map.prototype.set`: an existing key keeps its place, a new key goes last. */
  function Put(entries: seq<Selection>, persona: Text, at: int): seq<Selection> {
    var i := Slot(entries, persona);
    if i < 0 then entries + [Selection(persona, at)] else entries[i := Selection(persona, at)]
  }

  /** Append an identity to the bounded FIFO of tracked identities. */
  function Remember(seen: seq<Identity>, id: Identity): seq<Identity> {
    var longer := seen + [id];
    if |longer| <= MAX_TRACKED_EVENT_IDENTITIES then longer else longer[1..]
  }

  /** Roster positions from `i` on whose persona is unmuted, ascending. */
  function UnmutedFrom(personas: seq<Text>, muted: set<Text>, i: nat): (r: seq<nat>)
    requires i <= |personas|
    ensures forall k :: 0 <= k < |r| ==> i <= r[k] < |personas| && personas[r[k]] !in muted
    decreases |personas| - i
  {
    if i == |personas| then []
    else (if personas[i] in muted then [] else [i]) + UnmutedFrom(personas, muted, i + 1)
  }

  predicate Rested(s: State, persona: Text) {
    var last := LastSelected(s.lastSelectedAt, persona);
    last.None? || s.accepted - last.value > ONE_EVENT_COOLDOWN
  }

  /** Roster position `offset` steps cyclically past the fallback position. */
  function Position(s: State, offset: nat): (index: nat)
    requires 0 <= s.fallback && offset < |s.personas|
    ensures index < |s.personas|
  {
    (s.fallback + offset) % |s.personas|
  }

  /** The cooldown-filtered scan, from `offset` steps past the fallback position. */
  function Scan(s: State, offset: nat): (index: Option<nat>)
    requires 0 <= s.fallback
    requires offset <= |s.personas|
    ensures index.Some? ==> index.value < |s.personas|
    decreases |s.personas| - offset
  {
    if offset == |s.personas| then None
    else
      var index := Position(s, offset);
      if s.personas[index] !in s.muted && Rested(s, s.personas[index]) then Some(index)
      else Scan(s, offset + 1)
  }

  function Directive(s: State, directed: Option<Text>): (refusal: Option<Refusal>) {
    if directed.None? then None
    else if !Canonical(directed.value) then Some(NotCanonical)
    else if directed.value !in s.personas then Some(UnknownPersona)
    else if directed.value in s.muted then Some(MutedPersona)
    else None
  }

  /** Bookkeeping of a selection. */
  function Selecting(s: State, index: nat): State
    requires index < |s.personas|
  {
    s.(lastSelectedAt := Put(s.lastSelectedAt, s.personas[index], s.accepted),
       fallback := (index + 1) % |s.personas|,
       turns := s.turns + 1)
  }

  /** The roster position of the speaker, when somebody is unmuted. */
  function SpeakerIndex(s: State, directed: Option<Text>): (index: Option<nat>)
    requires 0 <= s.fallback
    requires directed.Some? ==> directed.value in s.personas
    ensures index.Some? ==> index.value < |s.personas|
  {
    var unmuted := UnmutedFrom(s.personas, s.muted, 0);
    if directed.Some? then Some(IndexOf(s.personas, directed.value))
    else if |unmuted| == 1 then Some(unmuted[0])
    else Scan(s, 0)
  }

  /** The part of `schedule` that runs once a human event has been counted and wants a response. */
  function Choose(s: State, directed: Option<Text>): (State, Outcome)
    requires 0 <= s.fallback
    requires directed.Some? ==> directed.value in s.personas
  {
    if |s.personas| == 0 then (s, Decision(None, NoPersona))
    else if |UnmutedFrom(s.personas, s.muted, 0)| == 0 then (s, Decision(None, NoEligiblePersona))
    else
      var index := SpeakerIndex(s, directed);
      if index.None? then (s, Decision(None, Cooldown))
      else (Selecting(s, index.value),
            Decision(Some(s.personas[index.value]), if directed.None? then Selected else Directed))
  }

  /** The part of `schedule` that runs for a verified event not seen before. */
  function Admit(s: State, event: Event, directed: Option<Text>): (State, Outcome)
    requires 0 <= s.fallback && event.Verified?
    requires directed.Some? ==> directed.value in s.personas
  {
    var noted := s.(seen := Remember(s.seen, event.identity));
    if !event.isHuman then (noted, Decision(None, SelfTriggerBlocked))
    else
      var counted := noted.(accepted := s.accepted + 1);
      if !event.wantsResponse then (counted, Decision(None, DeliberateSilence))
      else Choose(counted, directed)
  }

  function Schedule(s: State, event: Event, directed: Option<Text>): (State, Outcome)
    requires 0 <= s.fallback
  {
    var refusal := Directive(s, directed);
    if refusal.Some? then (s, Refused(refusal.value))
    else if s.cancelled then (s, Decision(None, Cancelled))
    else if event.Unverified? then (s, Decision(None, UnverifiedEvent))
    else if event.identity in s.seen then (s, Decision(None, Duplicate))
    else Admit(s, event, directed)
  }

  function SetMuted(s: State, persona: Text, muted: bool): State {
    if persona !in s.personas then s
    else s.(muted := if muted then s.muted + {persona} else s.muted - {persona})
  }

  function Fresh(personas: seq<Text>, maxTurns: int): State {
    State(personas, {}, [], [], maxTurns, 0, 0, 0, false)
  }

  function TakeSnapshot(s: State): Snapshot {
    Snapshot(1, s.turns, s.accepted, s.fallback, s.cancelled, s.maxTurns, s.lastSelectedAt, s.seen)
  }

  // ---------- The invariant ----------

  /** Entry `i` is the most recent selection. */
  predicate LatestAt(entries: seq<Selection>, i: int) {
    0 <= i < |entries| && forall j :: 0 <= j < |entries| ==> entries[j].at <= entries[i].at
  }

  predicate DistinctSelections(entries: seq<Selection>) {
    forall i, j :: 0 <= i < j < |entries| ==>
                     entries[i].persona != entries[j].persona && entries[i].at != entries[j].at
  }

  predicate SelectionsWithin(personas: seq<Text>, entries: seq<Selection>, accepted: int) {
    forall i :: 0 <= i < |entries| ==> entries[i].persona in personas && 1 <= entries[i].at <= accepted
  }

  /** The fallback position is the successor of the latest speaker, who was selected no earlier
      than the number of turns taken. */
  ghost predicate FollowsLatest(personas: seq<Text>, entries: seq<Selection>, turns: int, fallback: int) {
    exists i :: LatestAt(entries, i) && turns <= entries[i].at && |personas| > 0 &&
                fallback == (IndexOf(personas, entries[i].persona) + 1) % |personas|
  }

  ghost predicate CoherentSelections(personas: seq<Text>, entries: seq<Selection>,
                                     turns: int, accepted: int, fallback: int)
  {
    && 0 <= turns <= accepted
    && DistinctSelections(entries)
    && SelectionsWithin(personas, entries, accepted)
    && |entries| <= turns
    && (turns == 0 <==> |entries| == 0)
    && (if |personas| == 0 then fallback == 0 else 0 <= fallback < |personas|)
    && (turns == 0 ==> fallback == 0)
    && (turns > 0 ==> FollowsLatest(personas, entries, turns, fallback))
  }

  function Min(a: int, b: int): int { if a <= b then a else b }

  predicate CoherentSeen(seen: seq<Identity>, accepted: int) {
    && Min(accepted, MAX_TRACKED_EVENT_IDENTITIES) <= |seen| <= MAX_TRACKED_EVENT_IDENTITIES
    && Distinct(seen)
    && forall i :: 0 <= i < |seen| ==> CanonicalIdentity(seen[i])
  }

  predicate SafeCount(n: int) {
    0 <= n <= MAX_SAFE_INTEGER
  }

  ghost predicate Inv(s: State) {
    && ValidRoster(s.personas)
    && (forall p :: p in s.muted ==> p in s.personas)
    && SafeCount(s.maxTurns)
    && CoherentSelections(s.personas, s.lastSelectedAt, s.turns, s.accepted, s.fallback)
    && CoherentSeen(s.seen, s.accepted)
  }

  /** A director state that satisfies the invariant. */
  type ValidState = s: State | Inv(s) ghost witness Fresh([], 0)

  /** What the restore validator accepts for a given roster and optional configured budget. */
  ghost predicate Admissible(personas: seq<Text>, budget: Option<int>, snapshot: Snapshot) {
    && snapshot.version == 1
    && SafeCount(snapshot.maxAutonomousTurns)
    && (budget.Some? ==> budget.value == snapshot.maxAutonomousTurns)
    && SafeCount(snapshot.acceptedHumanEventNumber)
    && CoherentSelections(personas, snapshot.lastSelectedAt, snapshot.autonomousTurns,
                          snapshot.acceptedHumanEventNumber, snapshot.fallbackIndex)
    && CoherentSeen(snapshot.seen, snapshot.acceptedHumanEventNumber)
  }

  function Restored(personas: seq<Text>, snapshot: Snapshot): State {
    State(personas, {}, snapshot.lastSelectedAt, snapshot.seen, snapshot.maxAutonomousTurns,
          snapshot.autonomousTurns, snapshot.acceptedHumanEventNumber, snapshot.fallbackIndex, snapshot.cancelled)
  }

  // ---------- Runs ----------

  datatype Op =
    | Turn(event: Event, directed: Option<Text>)
    | Mute(persona: Text, muted: bool)
    | Cancel

  /** What one call lets its caller see. */
  datatype Reply = Answer(outcome: Outcome) | Done | NoSuchPersona

  function Step(s: State, op: Op): (State, Reply)
    requires 0 <= s.fallback
  {
    match op
    case Turn(event, directed) => var (t, outcome) := Schedule(s, event, directed); (t, Answer(outcome))
    case Mute(persona, muted) =>
      if persona in s.personas then (SetMuted(s, persona, muted), Done) else (s, NoSuchPersona)
    case Cancel => (s.(cancelled := true), Done)
  }
}
