/** The runtime's provider turn as a whole: the director names a speaker, the request for that speaker is
    packed from the room's history, and only then is anything stored. */
module ProviderTurn {
  import opened Text
  import opened Sequences
  import opened DirectorModel
  import opened DirectorProofs
  import opened DirectorRuns
  import opened RestartContinuity
  import P = ContextPacking
  import G = GreedyPacking

  /** What a turn adds to the room: the message, its place, and the history before it. */
  datatype Message = Message(history: seq<P.Record>, source: int, text: Text)

  function EventsOf(message: Message): seq<P.Record> {
    message.history + [P.Record(message.source, P.HumanMessage(message.text))]
  }

  /** The prompts of the bundled personas. */
  type Catalog = map<Text, Text>

  /** The request for a speaker; nothing when the persona is not bundled or nothing can be packed. */
  function RequestFor(catalog: Catalog, speaker: Text, message: Message): Option<seq<P.Message>> {
    if speaker !in catalog then None else P.Packed(catalog[speaker], EventsOf(message), message.source)
  }

  function Unsendable(catalog: Catalog, personas: seq<Text>, message: Message): set<Text> {
    set p | p in personas && RequestFor(catalog, p, message).None?
  }

  /** A bundled persona is sendable exactly when the newest message that fits beside its prompt is a
      person's; so it always is when the new message fits. */
  lemma SendableExactly(catalog: Catalog, speaker: Text, message: Message)
    requires speaker in catalog
    ensures var events := EventsOf(message);
            var newest := P.NewestFitting(catalog[speaker], events, message.source, |events|);
            && (RequestFor(catalog, speaker, message).Some? <==>
                newest.Some? && events[newest.value].event.HumanMessage?)
            && (Utf8Length(catalog[speaker]) + Utf8Length(message.text) <= P.MAX_PROVIDER_MESSAGE_BYTES ==>
                RequestFor(catalog, speaker, message).Some?)
  {
    P.RequestExactly(catalog[speaker], EventsOf(message), message.source);
    assert EventsOf(message)[|message.history|] == P.Record(message.source, P.HumanMessage(message.text));
  }

  // ---------- What the request says ----------

  /** A request is the prompt and the greedy choice of the room's history with the new message after it. */
  ghost predicate IsPacked(request: seq<P.Message>, prompt: Text, message: Message) {
    var events := message.history + [P.Record(message.source, P.HumanMessage(message.text))];
    exists picked: set<nat> ::
      && G.GreedyFrom(P.Items(events, message.source), Utf8Length(prompt), picked, 0)
      && request == [P.Message(P.System, prompt)] + P.History(events, picked, 0)
  }

  lemma RequestIsPacked(catalog: Catalog, speaker: Text, message: Message)
    requires RequestFor(catalog, speaker, message).Some?
    ensures speaker in catalog && IsPacked(RequestFor(catalog, speaker, message).value, catalog[speaker], message)
  {
    P.RequestWithinBounds(catalog[speaker], EventsOf(message), message.source);
  }

  /** A person speaks as the user, a persona as the assistant. */
  function SaidIn(event: P.Event): seq<P.Message> {
    match event
    case HumanMessage(text) => [P.Message(P.User, text)]
    case PersonaMessage(text) => [P.Message(P.Assistant, text)]
    case DirectorDecision => []
  }

  function BytesIn(event: P.Event): nat {
    if event.DirectorDecision? then 0 else Utf8Length(event.text)
  }

  /** What was said in the room. */
  function Said(history: seq<P.Record>): seq<P.Message> {
    if history == [] then [] else SaidIn(history[0].event) + Said(history[1..])
  }

  function SaidBytes(history: seq<P.Record>): nat {
    if history == [] then 0 else BytesIn(history[0].event) + SaidBytes(history[1..])
  }

  lemma {:induction false} SaidAppends(history: seq<P.Record>, record: P.Record)
    ensures Said(history + [record]) == Said(history) + SaidIn(record.event)
    ensures SaidBytes(history + [record]) == SaidBytes(history) + BytesIn(record.event)
    decreases |history|
  {
    var longer := history + [record];
    if history == [] {
      assert longer[0] == record && longer[1..] == [];
      Regroup(SaidIn(record.event), [], []);
    } else {
      assert longer[0] == history[0] && longer[1..] == history[1..] + [record];
      SaidAppends(history[1..], record);
      Regroup(SaidIn(history[0].event), Said(history[1..]), SaidIn(record.event));
    }
  }

  /** Everything from index `j` on, when nothing of it is left out. */
  lemma {:induction false} HistoryOfAll(events: seq<P.Record>, source: int, picked: set<nat>, j: nat)
    requires j <= |events|
    requires forall i :: j <= i < |events| ==> (i in picked <==> !events[i].event.DirectorDecision?)
    ensures P.History(events, picked, j) == Said(events[j..])
    ensures G.BytesFrom(P.Items(events, source), picked, j) == SaidBytes(events[j..])
    ensures G.CountFrom(P.Items(events, source), picked, j) == |Said(events[j..])|
    decreases |events| - j
  {
    if j < |events| {
      HistoryOfAll(events, source, picked, j + 1);
      assert events[j..][0] == events[j] && events[j..][1..] == events[j + 1..];
      assert P.Items(events, source)[j] == P.ItemOf(events[j], source);
    }
  }

  /** When everything fits, everything eligible is picked. */
  lemma {:induction false} AllPicked(events: seq<P.Record>, source: int, base: nat, picked: set<nat>, j: nat)
    requires j <= |events| && forall i :: 0 <= i < |events| ==> events[i].sequence <= source
    requires base + SaidBytes(events[j..]) <= 65536 && |Said(events[j..])| <= 31
    requires G.GreedyFrom(P.Items(events, source), base, picked, 0)
    ensures forall i :: j <= i < |events| ==> (i in picked <==> !events[i].event.DirectorDecision?)
    decreases |events| - j
  {
    if j < |events| {
      assert events[j..][0] == events[j] && events[j..][1..] == events[j + 1..];
      AllPicked(events, source, base, picked, j + 1);
      HistoryOfAll(events, source, picked, j + 1);
      assert P.Items(events, source)[j] == P.ItemOf(events[j], source);
      assert j in picked <==> G.Deserves(P.Items(events, source), base, picked, j);
    }
  }

  /** A short conversation is sent whole: the prompt, everything said in the room in order, the new
      message. */
  lemma WholeConversation(catalog: Catalog, speaker: Text, message: Message)
    requires speaker in catalog
    requires forall i :: 0 <= i < |message.history| ==> message.history[i].sequence <= message.source
    requires Utf8Length(catalog[speaker]) + SaidBytes(message.history) + Utf8Length(message.text) <= 65536
    requires |Said(message.history)| <= 30
    ensures RequestFor(catalog, speaker, message)
         == Some([P.Message(P.System, catalog[speaker])] + Said(message.history) + [P.Message(P.User, message.text)])
  {
    var prompt, last := catalog[speaker], P.Record(message.source, P.HumanMessage(message.text));
    var events := message.history + [last];
    SaidAppends(message.history, last);
    SendableExactly(catalog, speaker, message);
    RequestIsPacked(catalog, speaker, message);
    var request := RequestFor(catalog, speaker, message).value;
    var picked: set<nat> :| G.GreedyFrom(P.Items(events, message.source), Utf8Length(prompt), picked, 0)
                            && request == [P.Message(P.System, prompt)] + P.History(events, picked, 0);
    assert events[0..] == events;
    AllPicked(events, message.source, Utf8Length(prompt), picked, 0);
    HistoryOfAll(events, message.source, picked, 0);
    assert P.History(events, picked, 0) == Said(message.history) + [P.Message(P.User, message.text)];
    Regroup([P.Message(P.System, prompt)], Said(message.history), [P.Message(P.User, message.text)]);
  }

  lemma AbortsWithoutRequest(s: ValidState, event: Event, directed: Option<Text>, catalog: Catalog, message: Message)
    ensures var reply := Answer(Schedule(s, event, directed).1);
            Aborts(Call(Turn(event, directed), Unsendable(catalog, s.personas, message)), reply)
            <==> Spoke(reply) && RequestFor(catalog, reply.outcome.speaker.value, message).None?
  {
    GuaranteedSpeaker(s, event, directed);
  }

  /** A provider turn falls out of step with a live director exactly when the director would name a
      speaker and there is no request for the next speaker: all of it known before the call. */
  lemma ProviderTurnContinuity(room: Room, s: ValidState, event: Event, directed: Option<Text>,
                               catalog: Catalog, message: Message)
    requires Corresponds(room, s) && s.accepted <= MAX_SAFE_INTEGER
    ensures var call := Call(Turn(event, directed), Unsendable(catalog, s.personas, message));
            var diverges := && Directive(s, directed).None? && !s.cancelled && IsFresh(s, event)
                            && event.isHuman && event.wantsResponse && |Cast(s)| > 0
                            && RequestFor(catalog, NextSpeaker(s, directed), message).None?;
            && (Corresponds(PersistedStep(room, call).0, Schedule(s, event, directed).0) <==> !diverges)
            && (diverges ==> PersistedStep(room, call) == (room, None))
  {
    var unsendable := Unsendable(catalog, s.personas, message);
    PersistedStepIsLive(room, s, Call(Turn(event, directed), unsendable));
    AbortsExactly(s, event, directed, unsendable);
    RebuildIsLive(room, s);
    if Directive(s, directed).None? && |Cast(s)| > 0 {
      NextSpeakerKnown(s, directed);
    }
    ThrowsUnchanged(s, event, directed);
  }

  lemma NextSpeakerKnown(s: ValidState, directed: Option<Text>)
    requires Directive(s, directed).None? && |Cast(s)| > 0
    ensures NextSpeaker(s, directed) in s.personas && NextSpeaker(s, directed) !in s.muted
  {
  }

  /** The first message of a room, of the longest accepted length in three-byte characters, beside a
      prompt of 34,778 letters: the live director counts it and moves on, the room stores nothing. */
  lemma LongFirstMessageDiverges(persona: Text, prompt: Text, text: Text, id: Identity)
    requires Canonical(persona) && CanonicalIdentity(id)
    requires prompt == P.Repeated(0x61, 34778) && text == P.Repeated(0x4E00, 16384)
    ensures var room, s := Room([persona], {}, None), Fresh([persona], DEFAULT_AUTONOMOUS_TURN_BUDGET);
            var event: Event := Verified(id, true, true);
            var call := Call(Turn(event, None), Unsendable(map[persona := prompt], [persona], Message([], 1, text)));
            && Inv(s) && Corresponds(room, s)
            && Schedule(s, event, None).1 == Decision(Some(persona), Selected)
            && PersistedStep(room, call) == (room, None)
            && !Corresponds(PersistedStep(room, call).0, Schedule(s, event, None).0)
  {
    var room, s := Room([persona], {}, None), Fresh([persona], DEFAULT_AUTONOMOUS_TURN_BUDGET);
    var event: Event := Verified(id, true, true);
    var catalog, message := map[persona := prompt], Message([], 1, text);
    FreshInv([persona], DEFAULT_AUTONOMOUS_TURN_BUDGET);
    GuaranteedSpeaker(s, event, None);
    assert UnmutedFrom([persona], {}, 1) == [];
    assert Cast(s) == [0];
    assert EventsOf(message) == [P.Record(1, P.HumanMessage(text))];
    P.LongFirstMessageIsRefused(prompt, text);
    NextSpeakerKnown(s, None);
    ProviderTurnContinuity(room, s, event, None, catalog, message);
  }
}
