/** How `providerMessages` packs the room's history into a bounded provider request, newest first. */
module ContextPacking {
  import opened Text
  import opened GreedyPacking

  const MAX_PROVIDER_MESSAGE_BYTES: nat := BUDGET
  const MAX_PROVIDER_MESSAGES: nat := LIMIT + 1

  datatype Event = HumanMessage(text: Text) | PersonaMessage(text: Text) | DirectorDecision

  datatype Record = Record(sequence: int, event: Event)

  datatype Role = System | User | Assistant

  datatype Message = Message(role: Role, content: Text)

  predicate Eligible(record: Record, source: int) {
    record.sequence <= source && !record.event.DirectorDecision?
  }

  function SizeOf(record: Record): nat {
    if record.event.DirectorDecision? then 0 else Utf8Length(record.event.text)
  }

  function ItemOf(record: Record, source: int): Item {
    Item(Eligible(record, source), SizeOf(record))
  }

  /** The history as the packing loop weighs it. */
  function Items(events: seq<Record>, source: int): (items: seq<Item>)
    ensures |items| == |events|
  {
    seq(|events|, i requires 0 <= i < |events| => ItemOf(events[i], source))
  }

  function MessageOf(event: Event): seq<Message> {
    match event
    case HumanMessage(text) => [Message(User, text)]
    case PersonaMessage(text) => [Message(Assistant, text)]
    case DirectorDecision => []
  }

  /** The messages of the picked records at index `j` or later, in room order. */
  function History(events: seq<Record>, picked: set<nat>, j: nat): seq<Message>
    decreases |events| - j
  {
    if j >= |events| then []
    else (if j in picked then MessageOf(events[j].event) else []) + History(events, picked, j + 1)
  }

  lemma HistoryFrame(events: seq<Record>, p: set<nat>, q: set<nat>, j: nat)
    requires forall i: nat :: j <= i < |events| ==> (i in p <==> i in q)
    ensures History(events, p, j) == History(events, q, j)
    decreases |events| - j
  {
  }

  lemma HistoryTakes(events: seq<Record>, newer: set<nat>, k: nat)
    requires k < |events| && k !in newer
    ensures History(events, newer + {k}, k) == MessageOf(events[k].event) + History(events, newer, k + 1)
  {
    HistoryFrame(events, newer, newer + {k}, k + 1);
  }

  lemma HistorySkips(events: seq<Record>, newer: set<nat>, k: nat)
    requires k < |events| && k !in newer
    ensures History(events, newer, k) == History(events, newer, k + 1)
  {
  }

  lemma HistoryStart(events: seq<Record>, picked: set<nat>, j: nat)
    requires j <= |events| && forall i: nat :: i < j ==> i !in picked
    ensures History(events, picked, 0) == History(events, picked, j)
  {
    if j > 0 {
      HistoryStart(events, picked, j - 1);
    }
  }

  /** What the packing keeps of the room's history. */
  function Recent(prompt: Text, events: seq<Record>, source: int): seq<Message> {
    History(events, Pack(Items(events, source), |events|, Utf8Length(prompt), 0), 0)
  }

  /** The packed request, or nothing when the newest packed message is not the user's. */
  function Packed(prompt: Text, events: seq<Record>, source: int): Option<seq<Message>> {
    var recent := Recent(prompt, events, source);
    if recent == [] || recent[|recent| - 1].role != User then None else Some([Message(System, prompt)] + recent)
  }

  /** The records from `k` on are decided: those in `newer` are packed, with `bytes` used so far. */
  ghost predicate Decided(prompt: Text, events: seq<Record>, source: int,
                          k: nat, bytes: nat, recent: seq<Message>, newer: set<nat>)
  {
    && k <= |events| && (forall i :: i in newer ==> k <= i)
    && recent == History(events, newer, k)
    && Pack(Items(events, source), |events|, Utf8Length(prompt), 0)
       == newer + Pack(Items(events, source), k, bytes, |recent|)
  }

  lemma DecideTaken(prompt: Text, events: seq<Record>, source: int,
                    k: nat, bytes: nat, recent: seq<Message>, newer: set<nat>)
    requires k > 0 && Decided(prompt, events, source, k, bytes, recent, newer) && |recent| < LIMIT
    requires Eligible(events[k - 1], source) && bytes + SizeOf(events[k - 1]) <= MAX_PROVIDER_MESSAGE_BYTES
    ensures Decided(prompt, events, source, k - 1, bytes + SizeOf(events[k - 1]),
                    MessageOf(events[k - 1].event) + recent, newer + {k - 1})
  {
    assert |MessageOf(events[k - 1].event)| == 1;
    assert Items(events, source)[k - 1] == ItemOf(events[k - 1], source);
    HistoryTakes(events, newer, k - 1);
    PackRound(Items(events, source), k, bytes, |recent|, newer);
  }

  lemma DecideSkipped(prompt: Text, events: seq<Record>, source: int,
                      k: nat, bytes: nat, recent: seq<Message>, newer: set<nat>)
    requires k > 0 && Decided(prompt, events, source, k, bytes, recent, newer) && |recent| < LIMIT
    requires !(Eligible(events[k - 1], source) && bytes + SizeOf(events[k - 1]) <= MAX_PROVIDER_MESSAGE_BYTES)
    ensures Decided(prompt, events, source, k - 1, bytes, recent, newer)
  {
    PackRound(Items(events, source), k, bytes, |recent|, newer);
    HistorySkips(events, newer, k - 1);
  }

  lemma AllDecided(prompt: Text, events: seq<Record>, source: int,
                   k: nat, bytes: nat, recent: seq<Message>, newer: set<nat>)
    requires Decided(prompt, events, source, k, bytes, recent, newer) && (k == 0 || |recent| >= LIMIT)
    ensures recent == Recent(prompt, events, source)
  {
    assert newer + Pack(Items(events, source), k, bytes, |recent|) == newer;
    HistoryStart(events, newer, k);
  }

  method ProviderMessages(prompt: Text, events: seq<Record>, source: int) returns (r: Option<seq<Message>>)
    ensures r == Packed(prompt, events, source)
  {
    var bytes: nat := Utf8Length(prompt);
    var recent: seq<Message> := [];
    var k: nat := |events|;
    ghost var newer: set<nat> := {};
    while k > 0 && |recent| < MAX_PROVIDER_MESSAGES - 1
      invariant Decided(prompt, events, source, k, bytes, recent, newer)
      decreases k
    {
      ghost var before := k;
      var record := events[k - 1];
      k := k - 1;
      if record.sequence > source || record.event.DirectorDecision? {
        DecideSkipped(prompt, events, source, before, bytes, recent, newer);
        continue;
      }
      var messageBytes := Utf8Length(record.event.text);
      if bytes + messageBytes > MAX_PROVIDER_MESSAGE_BYTES {
        DecideSkipped(prompt, events, source, before, bytes, recent, newer);
        continue;
      }
      DecideTaken(prompt, events, source, before, bytes, recent, newer);
      bytes := bytes + messageBytes;
      recent := MessageOf(record.event) + recent;
      newer := newer + {k};
    }
    AllDecided(prompt, events, source, k, bytes, recent, newer);
    if recent == [] || recent[|recent| - 1].role != User {
      return None;
    }
    r := Some([Message(System, prompt)] + recent);
  }

  // ---------- The packed request ----------

  /** Total size of a request's contents. */
  function TotalBytes(messages: seq<Message>): nat {
    if messages == [] then 0 else Utf8Length(messages[0].content) + TotalBytes(messages[1..])
  }

  lemma HistorySize(events: seq<Record>, source: int, picked: set<nat>, j: nat)
    requires forall i :: i in picked ==> i < |events| && !events[i].event.DirectorDecision?
    ensures TotalBytes(History(events, picked, j)) == BytesFrom(Items(events, source), picked, j)
    ensures |History(events, picked, j)| == CountFrom(Items(events, source), picked, j)
    decreases |events| - j
  {
    if j < |events| {
      HistorySize(events, source, picked, j + 1);
      assert Items(events, source)[j] == ItemOf(events[j], source);
      var all, rest := History(events, picked, j), History(events, picked, j + 1);
      if j in picked {
        assert all == MessageOf(events[j].event) + rest && all[1..] == rest;
      } else {
        assert all == rest;
      }
    }
  }

  /** Every request has the system prompt first, at most 32 messages, and never more bytes than the
      larger of the budget and the prompt; the rest is the greedy choice of the room's history, in
      room order, ending with a user message. */
  lemma RequestWithinBounds(prompt: Text, events: seq<Record>, source: int)
    requires Packed(prompt, events, source).Some?
    ensures var base := Utf8Length(prompt);
            var picked := Pack(Items(events, source), |events|, base, 0);
            var r := Packed(prompt, events, source).value;
            && GreedyFrom(Items(events, source), base, picked, 0)
            && (forall i :: i in picked ==>
                  i < |events| && events[i].sequence <= source && !events[i].event.DirectorDecision?)
            && r == [Message(System, prompt)] + History(events, picked, 0)
            && 2 <= |r| <= 32
            && r[|r| - 1].role == User
            && TotalBytes(r) <= if base > 65536 then base else 65536
  {
    var items, base := Items(events, source), Utf8Length(prompt);
    var picked := Pack(items, |events|, base, 0);
    PackIsGreedy(items, base);
    forall i | i in picked ensures Eligible(events[i], source) {
      assert i in picked <==> Deserves(items, base, picked, i);
      assert items[i] == ItemOf(events[i], source);
    }
    GreedyWithinLimits(items, base, picked, 0);
    HistorySize(events, source, picked, 0);
    var r := [Message(System, prompt)] + History(events, picked, 0);
    assert r[1..] == History(events, picked, 0);
  }

  /** A request ends with one of the messages that were picked. */
  lemma {:induction false} LastOfHistory(events: seq<Record>, picked: set<nat>, j: nat) returns (k: nat)
    requires History(events, picked, j) != []
    ensures j <= k < |events| && k in picked && MessageOf(events[k].event) != []
    ensures var h := History(events, picked, j); [h[|h| - 1]] == MessageOf(events[k].event)
    ensures forall i: nat :: k < i < |events| && i in picked ==> events[i].event.DirectorDecision?
    decreases |events| - j
  {
    if History(events, picked, j + 1) != [] {
      k := LastOfHistory(events, picked, j + 1);
    } else {
      k := j;
      EmptyHistory(events, picked, j + 1);
    }
  }

  lemma {:induction false} EmptyHistory(events: seq<Record>, picked: set<nat>, j: nat)
    requires History(events, picked, j) == []
    ensures forall i: nat :: j <= i < |events| && i in picked ==> events[i].event.DirectorDecision?
    decreases |events| - j
  {
    if j < |events| {
      EmptyHistory(events, picked, j + 1);
    }
  }

  /** What was picked fits beside the prompt. */
  lemma PickedFits(prompt: Text, events: seq<Record>, source: int, k: nat)
    requires k in Pack(Items(events, source), |events|, Utf8Length(prompt), 0)
    ensures k < |events| && Eligible(events[k], source)
    ensures Utf8Length(prompt) + SizeOf(events[k]) <= MAX_PROVIDER_MESSAGE_BYTES
  {
    var items := Items(events, source);
    PackIsGreedy(items, Utf8Length(prompt));
    assert k in Pack(items, |events|, Utf8Length(prompt), 0)
           <==> Deserves(items, Utf8Length(prompt), Pack(items, |events|, Utf8Length(prompt), 0), k);
    assert items[k] == ItemOf(events[k], source);
  }

  ghost predicate EndsWith(request: Option<seq<Message>>, message: Message) {
    request.Some? && request.value != [] && request.value[|request.value| - 1] == message
  }

  lemma SourcePicked(prompt: Text, events: seq<Record>, source: int)
    requires events != [] && Eligible(events[|events| - 1], source)
    ensures |events| - 1 in Pack(Items(events, source), |events|, Utf8Length(prompt), 0)
            <==> Utf8Length(prompt) + SizeOf(events[|events| - 1]) <= MAX_PROVIDER_MESSAGE_BYTES
  {
    assert Items(events, source)[|events| - 1] == ItemOf(events[|events| - 1], source);
  }

  lemma LastWhenPicked(events: seq<Record>, picked: set<nat>, text: Text)
    requires events != [] && events[|events| - 1].event == HumanMessage(text) && |events| - 1 in picked
    ensures var h := History(events, picked, 0); h != [] && h[|h| - 1] == Message(User, text)
  {
    HistoryHasPicked(events, picked, 0, |events| - 1);
    var k := LastOfHistory(events, picked, 0);
    assert k == |events| - 1;
  }

  lemma LastFits(prompt: Text, events: seq<Record>, source: int)
    requires Recent(prompt, events, source) != []
    ensures var h := Recent(prompt, events, source);
            Utf8Length(prompt) + Utf8Length(h[|h| - 1].content) <= MAX_PROVIDER_MESSAGE_BYTES
  {
    var k := LastOfHistory(events, Pack(Items(events, source), |events|, Utf8Length(prompt), 0), 0);
    PickedFits(prompt, events, source, k);
  }

  lemma RequestEnds(prompt: Text, events: seq<Record>, source: int, text: Text)
    ensures var h := Recent(prompt, events, source);
            EndsWith(Packed(prompt, events, source), Message(User, text))
            <==> h != [] && h[|h| - 1] == Message(User, text)
  {
    var h := Recent(prompt, events, source);
    if h != [] {
      assert ([Message(System, prompt)] + h)[|h|] == h[|h| - 1];
    }
  }

  /** The request ends with its source message, appended last to the room's history, exactly when that
      message fits beside the prompt. */
  lemma SourceIsLast(prompt: Text, history: seq<Record>, source: int, text: Text)
    ensures EndsWith(Packed(prompt, history + [Record(source, HumanMessage(text))], source), Message(User, text))
            <==> Utf8Length(prompt) + Utf8Length(text) <= MAX_PROVIDER_MESSAGE_BYTES
  {
    var events := history + [Record(source, HumanMessage(text))];
    RequestEnds(prompt, events, source, text);
    SourcePicked(prompt, events, source);
    if Utf8Length(prompt) + Utf8Length(text) <= MAX_PROVIDER_MESSAGE_BYTES {
      LastWhenPicked(events, Pack(Items(events, source), |events|, Utf8Length(prompt), 0), text);
    } else if Recent(prompt, events, source) != [] {
      LastFits(prompt, events, source);
    }
  }

  lemma {:induction false} HistoryHasPicked(events: seq<Record>, picked: set<nat>, j: nat, k: nat)
    requires j <= k < |events| && k in picked && !events[k].event.DirectorDecision?
    ensures History(events, picked, j) != []
    decreases k - j
  {
    if j < k {
      HistoryHasPicked(events, picked, j + 1, k);
    }
  }

  // ---------- When there is a request ----------

  predicate Fits(prompt: Text, events: seq<Record>, source: int, k: nat)
    requires k < |events|
  {
    Eligible(events[k], source) && Utf8Length(prompt) + SizeOf(events[k]) <= MAX_PROVIDER_MESSAGE_BYTES
  }

  /** The newest record below `k` that is eligible and fits beside the prompt. */
  function NewestFitting(prompt: Text, events: seq<Record>, source: int, k: nat): (newest: Option<nat>)
    requires k <= |events|
    ensures newest.Some? ==> newest.value < k && Fits(prompt, events, source, newest.value)
    ensures forall i: nat :: i < k && (newest.Some? ==> newest.value < i) ==> !Fits(prompt, events, source, i)
  {
    if k == 0 then None
    else if Fits(prompt, events, source, k - 1) then Some(k - 1)
    else NewestFitting(prompt, events, source, k - 1)
  }

  lemma {:induction false} NonePicked(items: seq<Item>, picked: set<nat>, j: nat)
    requires forall i: nat :: j <= i < |items| ==> i !in picked
    ensures BytesFrom(items, picked, j) == 0 && CountFrom(items, picked, j) == 0
    decreases |items| - j
  {
    if j < |items| {
      NonePicked(items, picked, j + 1);
    }
  }

  /** A fitting record without newer picks is picked. */
  lemma FitsIsPicked(prompt: Text, events: seq<Record>, source: int, k: nat)
    requires k < |events| && Fits(prompt, events, source, k)
    requires forall i: nat :: k < i < |events| ==> i !in Pack(Items(events, source), |events|, Utf8Length(prompt), 0)
    ensures k in Pack(Items(events, source), |events|, Utf8Length(prompt), 0)
  {
    var items, base := Items(events, source), Utf8Length(prompt);
    var picked := Pack(items, |events|, base, 0);
    NonePicked(items, picked, k + 1);
    assert items[k] == ItemOf(events[k], source);
    assert Deserves(items, base, picked, k);
    PackIsGreedy(items, base);
  }

  /** The newest fitting record is the last message that is kept, if there is one. */
  lemma LastIsNewestFitting(prompt: Text, events: seq<Record>, source: int)
    ensures var newest, h := NewestFitting(prompt, events, source, |events|), Recent(prompt, events, source);
            && (newest.None? <==> h == [])
            && (newest.Some? ==> [h[|h| - 1]] == MessageOf(events[newest.value].event))
  {
    var newest := NewestFitting(prompt, events, source, |events|);
    var picked := Pack(Items(events, source), |events|, Utf8Length(prompt), 0);
    forall i | i in picked ensures i < |events| && Fits(prompt, events, source, i) {
      PickedFits(prompt, events, source, i);
    }
    if newest.Some? {
      FitsIsPicked(prompt, events, source, newest.value);
      HistoryHasPicked(events, picked, 0, newest.value);
      var last := LastOfHistory(events, picked, 0);
      assert last == newest.value;
    } else if Recent(prompt, events, source) != [] {
      var last := LastOfHistory(events, picked, 0);
    }
  }

  /** There is a request exactly when the newest eligible message that fits beside the prompt is a
      person's. */
  lemma RequestExactly(prompt: Text, events: seq<Record>, source: int)
    ensures var newest := NewestFitting(prompt, events, source, |events|);
            Packed(prompt, events, source).Some? <==> newest.Some? && events[newest.value].event.HumanMessage?
  {
    LastIsNewestFitting(prompt, events, source);
  }

  // ---------- A source message that does not fit ----------

  /** A text of `n` copies of one unit. */
  function Repeated(u: CodeUnit, n: nat): (t: Text)
    ensures |t| == n
  {
    seq(n, _ => u)
  }

  lemma {:induction false} RepeatedLength(u: CodeUnit, n: nat)
    requires u < 0xD800
    ensures Utf8Length(Repeated(u, n)) == n * if u < 0x80 then 1 else if u < 0x800 then 2 else 3
    decreases n
  {
    if n > 0 {
      assert Repeated(u, n)[1..] == Repeated(u, n - 1);
      RepeatedLength(u, n - 1);
    }
  }

  /** When the source message does not fit beside the prompt but an older message does, the request is
      still made: it ends with the older message instead of its source. */
  lemma OlderMessageStandsIn(prompt: Text, older: Text, text: Text)
    requires Utf8Length(prompt) + Utf8Length(older) <= MAX_PROVIDER_MESSAGE_BYTES
    requires Utf8Length(prompt) + Utf8Length(text) > MAX_PROVIDER_MESSAGE_BYTES
    ensures var request := Packed(prompt, [Record(1, HumanMessage(older)), Record(2, HumanMessage(text))], 2);
            EndsWith(request, Message(User, older)) && older != text
  {
    var events := [Record(1, HumanMessage(older)), Record(2, HumanMessage(text))];
    PackOlder(Items(events, 2), Utf8Length(prompt));
    assert History(events, {0}, 2) == [] && History(events, {0}, 1) == [];
    assert Recent(prompt, events, 2) == [Message(User, older)];
    RequestEnds(prompt, events, 2, older);
  }

  lemma PackOlder(items: seq<Item>, base: nat)
    requires |items| == 2 && items[0].eligible && items[1].eligible
    requires base + items[0].size <= BUDGET < base + items[1].size
    ensures Pack(items, 2, base, 0) == {0}
  {
    assert Pack(items, 0, base + items[0].size, 1) == {};
    assert Pack(items, 1, base, 0) == {0};
  }

  /** Such an input: a prompt of 34,778 letters, an older message of two letters, and a source message of
      the longest accepted length in three-byte characters. */
  lemma LongMessageDoesNotFit(prompt: Text, older: Text, text: Text)
    requires prompt == Repeated(0x61, 34778) && older == Repeated(0x61, 2) && text == Repeated(0x4E00, 16384)
    ensures var request := Packed(prompt, [Record(1, HumanMessage(older)), Record(2, HumanMessage(text))], 2);
            EndsWith(request, Message(User, older)) && !EndsWith(request, Message(User, text))
  {
    RepeatedLength(0x61, 34778);
    RepeatedLength(0x61, 2);
    RepeatedLength(0x4E00, 16384);
    OlderMessageStandsIn(prompt, older, text);
  }

  /** The same message as the first of a room makes no request at all. */
  lemma LongFirstMessageIsRefused(prompt: Text, text: Text)
    requires prompt == Repeated(0x61, 34778) && text == Repeated(0x4E00, 16384)
    ensures Packed(prompt, [Record(1, HumanMessage(text))], 1) == None
  {
    RepeatedLength(0x61, 34778);
    RepeatedLength(0x4E00, 16384);
    RefusedAlone(prompt, text);
  }

  lemma RefusedAlone(prompt: Text, text: Text)
    requires Utf8Length(prompt) + Utf8Length(text) > MAX_PROVIDER_MESSAGE_BYTES
    ensures Packed(prompt, [Record(1, HumanMessage(text))], 1) == None
  {
    var events := [Record(1, HumanMessage(text))];
    assert !Fits(prompt, events, 1, 0);
    RequestExactly(prompt, events, 1);
  }
}
