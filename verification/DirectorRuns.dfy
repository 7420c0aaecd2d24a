/** Guarantees of the director over whole runs: which event gets which answer, round-robin
    fairness, and the window of identities answered as duplicates. */
module DirectorRuns {
  import opened Text
  import opened DirectorModel
  import opened DirectorProofs

  // ---------- Every answer, characterised ----------

  /** A verified event the director has not seen within its window. */
  ghost predicate IsFresh(s: State, event: Event) {
    event.Verified? && event.identity !in s.seen
  }

  /** An uncancelled director names a speaker exactly for a fresh verified human event that wants a
      response while somebody is unmuted; COOLDOWN and BUDGET_EXHAUSTED are never answered. */
  lemma GuaranteedSpeaker(s: ValidState, event: Event, directed: Option<Text>)
    ensures var outcome := Schedule(s, event, directed).1;
            && (outcome.Refused? <==> directed.Some? && (directed.value !in s.personas || directed.value in s.muted))
            && (outcome.Decision? ==>
                  && outcome.reason != Cooldown && outcome.reason != BudgetExhausted
                  && (outcome.speaker.Some? <==>
                      !s.cancelled && IsFresh(s, event) && event.isHuman && event.wantsResponse && |Cast(s)| > 0)
                  && (outcome.speaker.Some? <==> outcome.reason == Selected || outcome.reason == Directed)
                  && (outcome.speaker.Some? ==>
                        outcome.speaker.value in s.personas && outcome.speaker.value !in s.muted)
                  && (outcome.speaker.Some? && directed.Some? ==> outcome == Decision(directed, Directed))
                  && (outcome.reason == Duplicate <==> !s.cancelled && event.Verified? && event.identity in s.seen))
  {
    if Directive(s, directed).None? && !s.cancelled && IsFresh(s, event) && event.isHuman && event.wantsResponse {
      var counted := s.(seen := Remember(s.seen, event.identity), accepted := s.accepted + 1);
      if directed.Some? {
        var k := UnmutedComplete(s.personas, s.muted, 0, IndexOf(s.personas, directed.value));
      } else if |Cast(s)| > 0 {
        assert Cast(counted) == Cast(s);
        UndirectedChoice(counted);
      }
    }
  }

  lemma RoundRobinIndex(s: ValidState, event: Event) returns (index: nat)
    requires !s.cancelled && IsFresh(s, event) && event.isHuman && event.wantsResponse && |Cast(s)| > 0
    ensures index < |s.personas| && FirstUnmuted(s, index)
    ensures var counted := s.(seen := Remember(s.seen, event.identity), accepted := s.accepted + 1);
            Schedule(s, event, None) == (Selecting(counted, index), Decision(Some(s.personas[index]), Selected))
  {
    var counted := s.(seen := Remember(s.seen, event.identity), accepted := s.accepted + 1);
    assert Cast(counted) == Cast(s);
    UndirectedChoice(counted);
    assert Schedule(s, event, None) == Choose(counted, None);
    index :| index < |s.personas| && FirstUnmuted(counted, index)
             && Choose(counted, None)
                == (Selecting(counted, index), Decision(Some(s.personas[index]), Selected));
    SameFirstUnmuted(counted, s, index);
  }

  /** The undirected choice is the first unmuted persona at or cyclically after the fallback. */
  lemma UndirectedIsRoundRobin(s: ValidState, event: Event)
    requires !s.cancelled && IsFresh(s, event) && event.isHuman && event.wantsResponse && |Cast(s)| > 0
    ensures var (t, outcome) := Schedule(s, event, None);
            exists index: nat :: index < |s.personas| && FirstUnmuted(s, index)
              && outcome == Decision(Some(s.personas[index]), Selected)
              && t.fallback == (index + 1) % |s.personas|
              && LastSelected(t.lastSelectedAt, s.personas[index]) == Some(t.accepted)
  {
    var index := RoundRobinIndex(s, event);
    PutGet(s.lastSelectedAt, s.personas[index], s.accepted + 1);
  }

  /** Which silence is answered when no speaker is named. */
  lemma SilenceReasons(s: ValidState, event: Event, directed: Option<Text>)
    requires Schedule(s, event, directed).1.Decision?
    ensures var reason := Schedule(s, event, directed).1.reason;
            var heard := !s.cancelled && IsFresh(s, event);
            && (reason == Cancelled <==> s.cancelled)
            && (reason == UnverifiedEvent <==> !s.cancelled && event.Unverified?)
            && (reason == SelfTriggerBlocked <==> heard && !event.isHuman)
            && (reason == DeliberateSilence <==> heard && event.isHuman && !event.wantsResponse)
            && (reason == NoPersona <==> heard && event.isHuman && event.wantsResponse && s.personas == [])
            && (reason == NoEligiblePersona <==>
                heard && event.isHuman && event.wantsResponse && s.personas != [] && |Cast(s)| == 0)
  {
    GuaranteedSpeaker(s, event, directed);
  }

  /** A turn that names a speaker records it under the new event number, passes the fallback to its
      successor and forgets nobody else's selection; any other turn leaves all of that alone. */
  lemma SpeakerRecorded(s: ValidState, event: Event, directed: Option<Text>)
    ensures var (t, outcome) := Schedule(s, event, directed);
            if outcome.Decision? && outcome.speaker.Some? then
              var speaker := outcome.speaker.value;
              && t.accepted == s.accepted + 1 && t.turns == s.turns + 1
              && speaker in s.personas && t.fallback == (IndexOf(s.personas, speaker) + 1) % |s.personas|
              && LastSelected(t.lastSelectedAt, speaker) == Some(t.accepted)
              && forall p :: p != speaker ==> LastSelected(t.lastSelectedAt, p) == LastSelected(s.lastSelectedAt, p)
            else
              t.turns == s.turns && t.fallback == s.fallback && t.lastSelectedAt == s.lastSelectedAt
  {
    GuaranteedSpeaker(s, event, directed);
    var (t, outcome) := Schedule(s, event, directed);
    if outcome.Decision? && outcome.speaker.Some? {
      var counted := s.(seen := Remember(s.seen, event.identity), accepted := s.accepted + 1);
      assert (t, outcome) == Choose(counted, directed);
      SelectingRecords(counted, SpeakerIndex(counted, directed).value);
    }
  }

  lemma SelectingRecords(s: State, index: nat)
    requires Distinct(s.personas) && index < |s.personas|
    ensures var t, speaker := Selecting(s, index), s.personas[index];
            && t.fallback == (IndexOf(s.personas, speaker) + 1) % |s.personas|
            && LastSelected(t.lastSelectedAt, speaker) == Some(s.accepted)
            && forall p :: p != speaker ==> LastSelected(t.lastSelectedAt, p) == LastSelected(s.lastSelectedAt, p)
  {
    var t := Selecting(s, index);
    IndexOfDistinct(s.personas, index);
    PutGet(s.lastSelectedAt, s.personas[index], s.accepted);
    forall p | p != s.personas[index]
      ensures LastSelected(t.lastSelectedAt, p) == LastSelected(s.lastSelectedAt, p)
    {
      PutKeepsOthers(s.lastSelectedAt, s.personas[index], s.accepted, p);
    }
  }

  lemma PutKeepsOthers(entries: seq<Selection>, persona: Text, at: int, other: Text)
    requires other != persona
    ensures LastSelected(Put(entries, persona, at), other) == LastSelected(entries, other)
  {
    if entries != [] {
      if entries[0].persona != persona {
        PutKeepsOthers(entries[1..], persona, at, other);
        assert Put(entries, persona, at)[1..] == Put(entries[1..], persona, at);
      } else {
        assert Put(entries, persona, at)[1..] == entries[1..];
      }
    }
  }

  lemma SameFirstUnmuted(s: State, t: State, index: nat)
    requires t.personas == s.personas && t.muted == s.muted && t.fallback == s.fallback >= 0 && FirstUnmuted(s, index)
    ensures FirstUnmuted(t, index)
  {
    var offset: nat :| offset < |s.personas| && index == Position(s, offset) && s.personas[index] !in s.muted
                       && forall o: nat :: o < offset ==> s.personas[Position(s, o)] in s.muted;
    assert index == Position(t, offset);
    forall o: nat | o < offset ensures t.personas[Position(t, o)] in t.muted {
      assert Position(t, o) == Position(s, o);
    }
  }

  lemma PutGet(entries: seq<Selection>, persona: Text, at: int)
    ensures LastSelected(Put(entries, persona, at), persona) == Some(at)
  {
    if entries != [] && entries[0].persona != persona {
      PutGet(entries[1..], persona, at);
      assert Put(entries, persona, at)[1..] == Put(entries[1..], persona, at);
    }
  }

  // ---------- Fairness ----------

  /** How many unmuted personas sit before roster position `j`. */
  function UnmutedBefore(s: State, j: nat): (n: nat)
    requires j <= |s.personas|
  {
    if j == 0 then 0 else UnmutedBefore(s, j - 1) + if s.personas[j - 1] in s.muted then 0 else 1
  }

  lemma CastSplit(s: State, j: nat)
    requires j <= |s.personas|
    ensures UnmutedBefore(s, j) <= |Cast(s)|
    ensures Cast(s)[UnmutedBefore(s, j)..] == UnmutedFrom(s.personas, s.muted, j)
  {
    if j > 0 {
      CastSplit(s, j - 1);
      var n := UnmutedBefore(s, j - 1);
      var tail := UnmutedFrom(s.personas, s.muted, j - 1);
      if s.personas[j - 1] !in s.muted {
        assert tail[1..] == UnmutedFrom(s.personas, s.muted, j);
        assert Cast(s)[n + 1..] == Cast(s)[n..][1..];
      }
    }
  }

  lemma CastAt(s: State, j: nat, k: nat)
    requires j <= |s.personas| && k < |Cast(s)|
    ensures k < UnmutedBefore(s, j) <==> Cast(s)[k] < j
  {
    var n := UnmutedBefore(s, j);
    assert Cast(s)[n..] == UnmutedFrom(s.personas, s.muted, j) by { CastSplit(s, j); }
    if k >= n {
      assert Cast(s)[k] == Cast(s)[n..][k - n];
    } else {
      CastBelow(s, j, k);
    }
  }

  lemma CastBelow(s: State, j: nat, k: nat)
    requires j <= |s.personas| && k < |Cast(s)| && k < UnmutedBefore(s, j)
    ensures Cast(s)[k] < j
  {
    var m := UnmutedBefore(s, j - 1);
    if k < m {
      CastBelow(s, j - 1, k);
    } else {
      CastSplit(s, j - 1);
      assert Cast(s)[k] == Cast(s)[m..][0];
    }
  }

  /** The place in the cast of the next undirected speaker. */
  function NextPlace(s: State): (place: nat)
    requires |Cast(s)| > 0 && 0 <= s.fallback < |s.personas|
    ensures place < |Cast(s)|
  {
    CastSplit(s, s.fallback);
    var before := UnmutedBefore(s, s.fallback);
    if before == |Cast(s)| then 0 else before
  }

  lemma NextPlaceIsFirstUnmuted(s: State)
    requires |Cast(s)| > 0 && 0 <= s.fallback < |s.personas|
    ensures FirstUnmuted(s, Cast(s)[NextPlace(s)])
  {
    var u, before := Cast(s), UnmutedBefore(s, s.fallback);
    CastSplit(s, s.fallback);
    var index := u[NextPlace(s)];
    var offset := OffsetOf(s, index);
    forall o: nat | o < offset
      ensures s.personas[Position(s, o)] in s.muted
    {
      var p := Position(s, o);
      OffsetUnique(s, o);
      if s.personas[p] !in s.muted {
        var k := UnmutedComplete(s.personas, s.muted, 0, p);
        NoneSkipped(s, index, k);
      }
    }
  }

  /** No unmuted persona is nearer to the fallback position than the next place in the cast. */
  lemma NoneSkipped(s: State, index: nat, k: nat)
    requires k < |Cast(s)| && 0 <= s.fallback < |s.personas| && index == Cast(s)[NextPlace(s)]
    ensures Cast(s)[k] < |s.personas| && OffsetOf(s, index) <= OffsetOf(s, Cast(s)[k])
  {
    var u, place := Cast(s), NextPlace(s);
    assert place == 0 || place == UnmutedBefore(s, s.fallback);
    assert k < UnmutedBefore(s, s.fallback) <==> u[k] < s.fallback by { CastAt(s, s.fallback, k); }
    assert place < UnmutedBefore(s, s.fallback) <==> u[place] < s.fallback by { CastAt(s, s.fallback, place); }
    assert place < k ==> u[place] < u[k] by {
      if place < k {
        UnmutedAscending(s.personas, s.muted, 0, place, k);
      }
    }
  }

  lemma BeforeNext(s: State, place: nat)
    requires place < |Cast(s)|
    ensures UnmutedBefore(s, Cast(s)[place] + 1) == place + 1
  {
    var next := Cast(s)[place] + 1;
    var n := UnmutedBefore(s, next);
    assert n <= |Cast(s)| by { CastSplit(s, next); }
    assert place < n by { CastAt(s, next, place); }
    if place + 1 < |Cast(s)| {
      assert Cast(s)[place + 1] >= next by { UnmutedAscending(s.personas, s.muted, 0, place, place + 1); }
      assert n <= place + 1 by { CastAt(s, next, place + 1); }
    }
  }

  lemma PlaceAdvances(s: State, t: State)
    requires |Cast(s)| > 0 && 0 <= s.fallback < |s.personas|
    requires t.personas == s.personas && t.muted == s.muted
    requires t.fallback == (Cast(s)[NextPlace(s)] + 1) % |s.personas|
    ensures Cast(t) == Cast(s) && NextPlace(t) == After(NextPlace(s), |Cast(s)|)
  {
    var u, place := Cast(s), NextPlace(s);
    var next := u[place] + 1;
    BeforeNext(s, place);
    CastSplit(s, next);
    WrapMod(next, |s.personas|);
    SameBefore(s, t, t.fallback);
    if next == |s.personas| {
      assert u[place + 1..] == [];
    }
  }

  lemma SameBefore(s: State, t: State, j: nat)
    requires t.personas == s.personas && t.muted == s.muted && j <= |s.personas|
    ensures UnmutedBefore(t, j) == UnmutedBefore(s, j)
  {
  }

  /** Undirected turns only: the mutes stay as they are and nobody is addressed by name. */
  ghost predicate Undirected(ops: seq<Op>) {
    forall i :: 0 <= i < |ops| ==> ops[i].Cancel? || (ops[i].Turn? && ops[i].directed.None?)
  }

  ghost predicate Spoke(reply: Reply) {
    reply.Answer? && reply.outcome.Decision? && reply.outcome.speaker.Some?
  }

  /** The speakers a run names, in order. */
  ghost function Speakers(s: ValidState, ops: seq<Op>): seq<Text>
    decreases |ops|
  {
    if ops == [] then []
    else
      var (t, reply) := Step(s, ops[0]);
      StepInv(s, ops[0]);
      (if Spoke(reply) then [reply.outcome.speaker.value] else []) + Speakers(t, ops[1..])
  }

  /** The place after `place` in a round of `k`. */
  function After(place: nat, k: nat): nat {
    if place + 1 == k then 0 else place + 1
  }

  /** The place `i` turns after `place`. */
  function Around(place: nat, i: nat, k: nat): nat
    decreases i
  {
    if i == 0 then place else Around(After(place, k), i - 1, k)
  }

  lemma AroundAdds(place: nat, i: nat, d: nat, k: nat)
    requires place < k && d < k
    ensures var r := Around(place, i, k);
            r < k && Around(place, i + d, k) == if r + d < k then r + d else r + d - k
    decreases i, d
  {
    if i > 0 {
      AroundAdds(After(place, k), i - 1, d, k);
    } else if d > 0 {
      AroundAdds(After(place, k), 0, d - 1, k);
    }
  }

  /** `n` names taken round after round from `place` on. */
  ghost function Rounds(names: seq<Text>, place: nat, n: nat): (r: seq<Text>)
    requires place < |names|
    ensures |r| == n
    decreases n
  {
    if n == 0 then [] else [names[place]] + Rounds(names, After(place, |names|), n - 1)
  }

  lemma RoundsAt(names: seq<Text>, place: nat, n: nat, i: nat)
    requires place < |names| && i < n
    ensures Around(place, i, |names|) < |names|
    ensures Rounds(names, place, n)[i] == names[Around(place, i, |names|)]
    decreases n
  {
    if i > 0 {
      RoundsAt(names, After(place, |names|), n - 1, i - 1);
    }
  }

  /** The `|names|` entries of `spoken` from `i` on are the names, each as often as it is listed. */
  ghost predicate AllFrom(spoken: seq<Text>, names: seq<Text>, i: nat) {
    i + |names| <= |spoken| && multiset(spoken[i..i + |names|]) == multiset(names)
  }

  /** Any `|names|` consecutive names of the rounds are all of them, once each. */
  lemma RoundsWindow(spoken: seq<Text>, names: seq<Text>, place: nat, i: nat)
    requires place < |names| && i + |names| <= |spoken| && spoken == Rounds(names, place, |spoken|)
    ensures AllFrom(spoken, names, i)
  {
    var k, n := |names|, |spoken|;
    var window := spoken[i..i + k];
    var r := Around(place, i, k);
    AroundAdds(place, i, 0, k);
    forall d | 0 <= d < k ensures window[d] == names[if r + d < k then r + d else r + d - k] {
      RoundsAt(names, place, n, i + d);
      AroundAdds(place, i, d, k);
    }
    RotationKeepsMultiset(names, window, r);
  }

  lemma RotationKeepsMultiset(xs: seq<Text>, ys: seq<Text>, r: nat)
    requires |ys| == |xs| && r < |xs|
    requires forall d :: 0 <= d < |xs| ==> ys[d] == xs[if r + d < |xs| then r + d else r + d - |xs|]
    ensures multiset(ys) == multiset(xs)
  {
    assert ys == xs[r..] + xs[..r];
    assert xs == xs[..r] + xs[r..];
  }

  lemma UndirectedTurn(s: ValidState, event: Event)
    requires |Cast(s)| > 0
    ensures var (t, outcome) := Schedule(s, event, None);
            Cast(t) == Cast(s) && t.personas == s.personas && outcome.Decision? && 0 <= t.fallback < |t.personas| &&
            if outcome.speaker.Some?
            then outcome.speaker.value == s.personas[Cast(s)[NextPlace(s)]]
                 && NextPlace(t) == After(NextPlace(s), |Cast(s)|)
            else NextPlace(t) == NextPlace(s)
  {
    ScheduleInv(s, event, None);
    GuaranteedSpeaker(s, event, None);
    var (t, outcome) := Schedule(s, event, None);
    if outcome.speaker.Some? {
      var index := SpokenIndex(s, event);
      PlaceAdvances(s, t);
    } else {
      SilenceKeepsFallback(s, event);
      SameBefore(s, t, s.fallback);
    }
  }

  lemma SpokenIndex(s: ValidState, event: Event) returns (index: nat)
    requires |Cast(s)| > 0 && !s.cancelled && IsFresh(s, event) && event.isHuman && event.wantsResponse
    ensures index == Cast(s)[NextPlace(s)] < |s.personas|
    ensures var (t, outcome) := Schedule(s, event, None);
            outcome == Decision(Some(s.personas[index]), Selected) && t.fallback == (index + 1) % |s.personas|
  {
    index := RoundRobinIndex(s, event);
    NextPlaceIsFirstUnmuted(s);
    FirstUnmutedUnique(s, index, Cast(s)[NextPlace(s)]);
  }

  lemma SilenceKeepsFallback(s: ValidState, event: Event)
    requires Schedule(s, event, None).1.Decision? && Schedule(s, event, None).1.speaker.None?
    ensures Schedule(s, event, None).0.fallback == s.fallback
  {
  }

  /** The unmuted personas in roster order. */
  ghost function NamesAt(personas: seq<Text>, places: seq<nat>): (names: seq<Text>)
    requires forall i :: 0 <= i < |places| ==> places[i] < |personas|
    ensures |names| == |places| && forall i :: 0 <= i < |places| ==> names[i] == personas[places[i]]
  {
    seq(|places|, i requires 0 <= i < |places| => personas[places[i]])
  }

  ghost function AsSet(xs: seq<Text>): set<Text> {
    set x | x in xs
  }

  ghost function CastNames(s: State): seq<Text> {
    NamesAt(s.personas, Cast(s))
  }

  lemma UndirectedStep(s: ValidState, op: Op)
    requires |Cast(s)| > 0 && (op.Cancel? || (op.Turn? && op.directed.None?))
    ensures var (t, reply) := Step(s, op);
            Inv(t) && Cast(t) == Cast(s) && t.personas == s.personas &&
            if Spoke(reply)
            then reply.outcome.speaker.value == CastNames(s)[NextPlace(s)]
                 && NextPlace(t) == After(NextPlace(s), |Cast(s)|)
            else NextPlace(t) == NextPlace(s)
  {
    StepInv(s, op);
    if op.Turn? {
      UndirectedTurn(s, op.event);
    } else {
      SameBefore(s, s.(cancelled := true), s.fallback);
    }
  }

  /** The speakers of an undirected run go round the cast, one place at a time. */
  lemma {:induction false} SpeakersGoRound(s: ValidState, ops: seq<Op>)
    requires |Cast(s)| > 0 && Undirected(ops)
    ensures Speakers(s, ops) == Rounds(CastNames(s), NextPlace(s), |Speakers(s, ops)|)
    decreases |ops|
  {
    if ops != [] {
      var (t, reply) := Step(s, ops[0]);
      UndirectedStep(s, ops[0]);
      var names, place, rest := CastNames(s), NextPlace(s), Speakers(t, ops[1..]);
      assert CastNames(t) == names;
      SpeakersGoRound(t, ops[1..]);
      if Spoke(reply) {
        assert rest == Rounds(names, After(place, |names|), |rest|);
        assert Speakers(s, ops) == [names[place]] + rest;
      } else {
        assert rest == Rounds(names, place, |rest|);
        assert Speakers(s, ops) == rest;
      }
    }
  }

  /** Fairness: with k personas unmuted, any k consecutive selections name each of them exactly once,
      whatever duplicate, non-human, unverified or silent events come between. */
  lemma Fairness(s: ValidState, ops: seq<Op>, i: nat)
    requires |Cast(s)| > 0 && Undirected(ops)
    requires i + |CastNames(s)| <= |Speakers(s, ops)|
    ensures Distinct(CastNames(s))
    ensures AsSet(CastNames(s)) == AsSet(s.personas) - s.muted
    ensures AllFrom(Speakers(s, ops), CastNames(s), i)
  {
    var spoken, names, place := Speakers(s, ops), CastNames(s), NextPlace(s);
    SpeakersGoRound(s, ops);
    assert spoken == Rounds(names, place, |spoken|);
    RoundsWindow(spoken, names, place, i);
    CastNamesDistinct(s);
    CastNamesUnmuted(s);
  }

  lemma CastNamesDistinct(s: State)
    requires ValidRoster(s.personas)
    ensures Distinct(CastNames(s))
  {
    forall i, j | 0 <= i < j < |CastNames(s)| ensures CastNames(s)[i] != CastNames(s)[j] {
      UnmutedAscending(s.personas, s.muted, 0, i, j);
      assert Cast(s)[i] < Cast(s)[j];
    }
  }

  lemma CastNamesUnmuted(s: State)
    ensures AsSet(CastNames(s)) == AsSet(s.personas) - s.muted
  {
    forall p | p in s.personas && p !in s.muted ensures p in CastNames(s) {
      var m := UnmutedComplete(s.personas, s.muted, 0, IndexOf(s.personas, p));
      assert CastNames(s)[m] == p;
    }
  }

  // ---------- Conservation of the counters ----------

  /** How many events of the run were counted as human events. */
  ghost function HumanEvents(s: ValidState, ops: seq<Op>): nat
    decreases |ops|
  {
    if ops == [] then 0
    else
      StepInv(s, ops[0]);
      (if Records(Step(s, ops[0]).1) && ops[0].Turn? && ops[0].event.Verified? && ops[0].event.isHuman then 1 else 0)
      + HumanEvents(Step(s, ops[0]).0, ops[1..])
  }

  /** The turn counter counts the speakers named, the event counter the human events heard. */
  lemma {:induction false} CountersCount(s: ValidState, ops: seq<Op>)
    ensures Run(s, ops).turns == s.turns + |Speakers(s, ops)|
    ensures Run(s, ops).accepted == s.accepted + HumanEvents(s, ops)
    decreases |ops|
  {
    if ops != [] {
      StepInv(s, ops[0]);
      if ops[0].Turn? {
        CountersStep(s, ops[0].event, ops[0].directed);
      }
      CountersCount(Step(s, ops[0]).0, ops[1..]);
    }
  }

  lemma CountersStep(s: ValidState, event: Event, directed: Option<Text>)
    ensures var (t, reply) := Step(s, Turn(event, directed));
            && t.turns == s.turns + (if Spoke(reply) then 1 else 0)
            && t.accepted == s.accepted + (if Records(reply) && event.Verified? && event.isHuman then 1 else 0)
  {
    SpeakerRecorded(s, event, directed);
    if Schedule(s, event, directed).1.Decision? {
      SilenceReasons(s, event, directed);
    }
  }

  // ---------- The duplicate window ----------

  ghost function Run(s: ValidState, ops: seq<Op>): ValidState
    decreases |ops|
  {
    if ops == [] then s else StepInv(s, ops[0]); Run(Step(s, ops[0]).0, ops[1..])
  }

  ghost predicate Records(reply: Reply) {
    reply.Answer? && reply.outcome.Decision? && reply.outcome.reason !in {Cancelled, UnverifiedEvent, Duplicate}
  }

  lemma StepSeen(s: ValidState, op: Op)
    ensures var (t, reply) := Step(s, op);
            if Records(reply) then op.Turn? && op.event.Verified? && t.seen == Remember(s.seen, op.event.identity)
            else t.seen == s.seen
  {
  }

  /** The identities a run records: those of verified events that were not answered as duplicates. */
  ghost function Recorded(s: ValidState, ops: seq<Op>): seq<Identity>
    decreases |ops|
  {
    if ops == [] then []
    else
      var (t, reply) := Step(s, ops[0]);
      StepInv(s, ops[0]);
      StepSeen(s, ops[0]);
      (if Records(reply) then [ops[0].event.identity] else []) + Recorded(t, ops[1..])
  }

  function MostRecent(ids: seq<Identity>): (recent: seq<Identity>)
    ensures recent == if |ids| <= 500 then ids else ids[|ids| - 500..]
  {
    if |ids| <= MAX_TRACKED_EVENT_IDENTITIES then ids else ids[|ids| - MAX_TRACKED_EVENT_IDENTITIES..]
  }

  lemma MostRecentAppend(ids: seq<Identity>, more: seq<Identity>, id: Identity)
    ensures MostRecent(Remember(MostRecent(ids), id) + more) == MostRecent(ids + ([id] + more))
  {
    assert ids + ([id] + more) == (ids + [id]) + more;
    var all, window := ids + [id], Remember(MostRecent(ids), id);
    assert window == all[|all| - |window|..];
    assert window + more == (all + more)[|all| - |window|..];
  }

  /** After any run the tracked list is the most recent recorded identities, in order and without repeats. */
  lemma {:induction false} DuplicateWindow(s: ValidState, ops: seq<Op>)
    ensures Run(s, ops).seen == MostRecent(s.seen + Recorded(s, ops))
    ensures Distinct(Run(s, ops).seen)
    decreases |ops|
  {
    if ops == [] {
      assert s.seen + [] == s.seen;
    } else {
      var (t, reply) := Step(s, ops[0]);
      StepInv(s, ops[0]);
      DuplicateWindow(t, ops[1..]);
      var more := Recorded(t, ops[1..]);
      StepSeen(s, ops[0]);
      if Records(reply) {
        assert Recorded(s, ops) == [ops[0].event.identity] + more;
        assert MostRecent(s.seen) == s.seen;
        MostRecentAppend(s.seen, more, ops[0].event.identity);
      } else {
        assert Recorded(s, ops) == more;
      }
    }
  }

  /** An event is answered as a duplicate exactly when its identity lies in that window. */
  lemma DuplicateExactlyInWindow(s: ValidState, ops: seq<Op>, event: Event)
    requires event.Verified? && !Run(s, ops).cancelled
    ensures Schedule(Run(s, ops), event, None).1 == Decision(None, Duplicate)
            <==> event.identity in MostRecent(s.seen + Recorded(s, ops))
  {
    DuplicateWindow(s, ops);
    GuaranteedSpeaker(Run(s, ops), event, None);
  }
}
