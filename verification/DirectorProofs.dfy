/** What every director transition keeps, and what follows from it over whole runs. */
module DirectorProofs {
  import opened Text
  import opened DirectorModel

  // ---------- The invariant is inductive ----------

  lemma FreshInv(personas: seq<Text>, maxTurns: int)
    requires ValidRoster(personas) && SafeCount(maxTurns)
    ensures Inv(Fresh(personas, maxTurns))
  {
  }

  lemma RememberCoherent(seen: seq<Identity>, id: Identity, accepted: int, accepted': int)
    requires CoherentSeen(seen, accepted) && id !in seen && CanonicalIdentity(id)
    requires accepted <= accepted' <= accepted + 1
    ensures CoherentSeen(Remember(seen, id), accepted')
  {
    var longer := seen + [id];
    assert Distinct(longer);
  }

  lemma PutSelections(personas: seq<Text>, entries: seq<Selection>, persona: Text, at: int)
    requires DistinctSelections(entries) && SelectionsWithin(personas, entries, at - 1)
    requires persona in personas && at >= 1
    ensures var r := Put(entries, persona, at);
            && DistinctSelections(r)
            && SelectionsWithin(personas, r, at)
            && exists i :: LatestAt(r, i) && r[i] == Selection(persona, at)
  {
    var r := Put(entries, persona, at);
    var slot := Slot(entries, persona);
    var k := if slot < 0 then |entries| else slot;
    assert r[k] == Selection(persona, at);
    assert LatestAt(r, k);
  }

  lemma IndexOfDistinct(xs: seq<Text>, i: nat)
    requires Distinct(xs) && i < |xs|
    ensures IndexOf(xs, xs[i]) == i
  {
    var k := IndexOf(xs, xs[i]);
    assert xs[k] == xs[i];
  }

  lemma AtLeastOnce(m: int, k: int)
    requires m >= 1 && k > 0
    ensures m * k >= k
  {
  }

  lemma ModUnique(x: int, q: int, r: int, k: int)
    requires k > 0 && x == q * k + r && 0 <= r < k
    ensures x % k == r
  {
    var q' := x / k;
    assert x == k * q' + x % k;
    assert (q - q') * k == q * k - q' * k;
    if q > q' {
      AtLeastOnce(q - q', k);
    } else if q < q' {
      AtLeastOnce(q' - q, k);
    }
  }

  lemma WrapMod(x: nat, n: nat)
    requires n > 0 && x < 2 * n
    ensures x % n == if x >= n then x - n else x
  {
    ModUnique(x, if x >= n then 1 else 0, if x >= n then x - n else x, n);
  }

  lemma SelectingInv(s: State, index: nat)
    requires ValidRoster(s.personas) && index < |s.personas|
    requires CoherentSelections(s.personas, s.lastSelectedAt, s.turns, s.accepted - 1, s.fallback)
    ensures var t := Selecting(s, index);
            CoherentSelections(t.personas, t.lastSelectedAt, t.turns, t.accepted, t.fallback)
  {
    var t := Selecting(s, index);
    PutSelections(s.personas, s.lastSelectedAt, s.personas[index], s.accepted);
    SelectingFollows(s, index);
    assert 0 < |t.lastSelectedAt| <= |s.lastSelectedAt| + 1 <= t.turns <= t.accepted;
    assert 0 <= t.fallback < |t.personas|;
  }

  lemma SelectingFollows(s: State, index: nat)
    requires Distinct(s.personas) && index < |s.personas| && s.turns < s.accepted
    requires exists i :: LatestAt(Selecting(s, index).lastSelectedAt, i)
                         && Selecting(s, index).lastSelectedAt[i] == Selection(s.personas[index], s.accepted)
    ensures var t := Selecting(s, index); FollowsLatest(t.personas, t.lastSelectedAt, t.turns, t.fallback)
  {
    IndexOfDistinct(s.personas, index);
    var t := Selecting(s, index);
    var i :| LatestAt(t.lastSelectedAt, i) && t.lastSelectedAt[i] == Selection(s.personas[index], s.accepted);
    assert t.fallback == (IndexOf(t.personas, t.lastSelectedAt[i].persona) + 1) % |t.personas|;
  }

  /** A counted event leaves older selections coherent. */
  lemma CountingKeepsSelections(s: State)
    requires CoherentSelections(s.personas, s.lastSelectedAt, s.turns, s.accepted, s.fallback)
    ensures CoherentSelections(s.personas, s.lastSelectedAt, s.turns, s.accepted + 1, s.fallback)
  {
  }

  lemma ChooseInv(s: ValidState, seen: seq<Identity>, directed: Option<Text>)
    requires CoherentSeen(seen, s.accepted + 1)
    requires directed.Some? ==> directed.value in s.personas
    ensures var counted := s.(seen := seen, accepted := s.accepted + 1);
            var t := Choose(counted, directed).0;
            Inv(t) && t == counted.(lastSelectedAt := t.lastSelectedAt, fallback := t.fallback, turns := t.turns)
  {
    var counted := s.(seen := seen, accepted := s.accepted + 1);
    CountingKeepsSelections(s);
    assert Inv(counted);
    var index := SpeakerIndex(counted, directed);
    if index.Some? {
      SelectingInv(counted, index.value);
      assert Inv(Selecting(counted, index.value));
    }
  }

  lemma AdmitInv(s: ValidState, event: Event, directed: Option<Text>)
    requires event.Verified? && event.identity !in s.seen
    requires directed.Some? ==> directed.value in s.personas
    ensures var t := Admit(s, event, directed).0;
            Inv(t) && t.personas == s.personas && t.muted == s.muted && t.maxTurns == s.maxTurns
            && t.cancelled == s.cancelled && s.accepted <= t.accepted <= s.accepted + 1
  {
    var seen := Remember(s.seen, event.identity);
    if !event.isHuman {
      RememberCoherent(s.seen, event.identity, s.accepted, s.accepted);
    } else {
      RememberCoherent(s.seen, event.identity, s.accepted, s.accepted + 1);
      CountingKeepsSelections(s);
      if event.wantsResponse {
        ChooseInv(s, seen, directed);
      }
    }
  }

  lemma ScheduleInv(s: ValidState, event: Event, directed: Option<Text>)
    ensures var t := Schedule(s, event, directed).0;
            Inv(t) && t.personas == s.personas && t.muted == s.muted && t.maxTurns == s.maxTurns
            && t.cancelled == s.cancelled && s.accepted <= t.accepted <= s.accepted + 1
  {
    if Directive(s, directed).None? && !s.cancelled && event.Verified? && event.identity !in s.seen {
      AdmitInv(s, event, directed);
    }
  }

  lemma StepInv(s: ValidState, op: Op)
    ensures var t := Step(s, op).0;
            && Inv(t) && t.personas == s.personas && t.maxTurns == s.maxTurns
            && s.accepted <= t.accepted <= s.accepted + 1
  {
    match op
    case Turn(event, directed) => ScheduleInv(s, event, directed);
    case Mute(persona, muted) =>
    case Cancel =>
  }

  // ---------- Undirected choice is plain round-robin ----------

  /** The roster position `index` is the first unmuted one at or cyclically after the fallback. */
  ghost predicate FirstUnmuted(s: State, index: nat)
    requires 0 <= s.fallback
  {
    exists offset: nat :: offset < |s.personas| && index == Position(s, offset) && s.personas[index] !in s.muted
                          && forall o: nat :: o < offset ==> s.personas[Position(s, o)] in s.muted
  }

  /** A human event has just been counted; the selections are those of the turn before. */
  ghost predicate Counted(s: State) {
    ValidRoster(s.personas) && CoherentSelections(s.personas, s.lastSelectedAt, s.turns, s.accepted - 1, s.fallback)
  }

  function OffsetOf(s: State, index: nat): (offset: nat)
    requires 0 <= s.fallback < |s.personas| && index < |s.personas|
    ensures offset < |s.personas| && Position(s, offset) == index
  {
    WrapMod(if index >= s.fallback then index else index + |s.personas|, |s.personas|);
    if index >= s.fallback then index - s.fallback else index + |s.personas| - s.fallback
  }

  lemma OffsetUnique(s: State, o: nat)
    requires 0 <= s.fallback < |s.personas| && o < |s.personas|
    ensures OffsetOf(s, Position(s, o)) == o
  {
    WrapMod(s.fallback + o, |s.personas|);
  }

  lemma FirstUnmutedUnique(s: State, i: nat, j: nat)
    requires 0 <= s.fallback && FirstUnmuted(s, i) && FirstUnmuted(s, j)
    ensures i == j
  {
  }

  lemma SuccessorIsFallback(fallback: nat, offset: nat, n: nat)
    requires fallback < n && offset < n && fallback == ((fallback + offset) % n + 1) % n
    ensures offset == n - 1
  {
    WrapMod(fallback + offset, n);
    WrapMod((fallback + offset) % n + 1, n);
  }

  /** Successor of the persona at the given entry, in roster order. */
  function SuccessorOf(personas: seq<Text>, entries: seq<Selection>, i: int): int
    requires 0 <= i < |entries| && |personas| > 0
  {
    (IndexOf(personas, entries[i].persona) + 1) % |personas|
  }

  lemma LatestEntry(s: State) returns (i: int)
    requires Counted(s) && |s.lastSelectedAt| > 0
    ensures |s.personas| > 0 && LatestAt(s.lastSelectedAt, i)
    ensures s.fallback == SuccessorOf(s.personas, s.lastSelectedAt, i)
    ensures s.lastSelectedAt[i].at <= s.accepted - 1
  {
    assert FollowsLatest(s.personas, s.lastSelectedAt, s.turns, s.fallback);
    i :| LatestAt(s.lastSelectedAt, i) && s.fallback == SuccessorOf(s.personas, s.lastSelectedAt, i);
  }

  lemma OnlyOneThatLate(entries: seq<Selection>, i: int, k: int, bound: int)
    requires DistinctSelections(entries) && LatestAt(entries, i) && 0 <= k < |entries|
    requires entries[i].at <= bound <= entries[k].at
    ensures i == k
  {
  }

  /** A persona that is cooling down is the latest speaker. */
  lemma CoolingIsLatest(s: State, persona: Text)
    requires Counted(s) && !Rested(s, persona)
    ensures exists i :: LatestAt(s.lastSelectedAt, i) && s.lastSelectedAt[i].persona == persona
    ensures |s.personas| > 0 && s.fallback == (IndexOf(s.personas, persona) + 1) % |s.personas|
  {
    var k := Slot(s.lastSelectedAt, persona);
    var i := LatestEntry(s);
    assert s.accepted - 1 <= s.lastSelectedAt[k].at;
    OnlyOneThatLate(s.lastSelectedAt, i, k, s.accepted - 1);
    assert s.lastSelectedAt[i].persona == persona;
  }

  /** Only the latest speaker can be cooling down, and that speaker is last in scan order. */
  lemma OnlyLatestCools(s: State, offset: nat)
    requires Counted(s) && offset < |s.personas| && !Rested(s, s.personas[Position(s, offset)])
    ensures offset == |s.personas| - 1
    ensures exists i :: LatestAt(s.lastSelectedAt, i) && s.lastSelectedAt[i].persona == s.personas[Position(s, offset)]
  {
    CoolingIsLatest(s, s.personas[Position(s, offset)]);
    LastInScanOrder(s, offset);
  }

  lemma LastInScanOrder(s: State, offset: nat)
    requires Distinct(s.personas) && 0 <= s.fallback < |s.personas| && offset < |s.personas|
    requires s.fallback == (IndexOf(s.personas, s.personas[Position(s, offset)]) + 1) % |s.personas|
    ensures offset == |s.personas| - 1
  {
    IndexOfDistinct(s.personas, Position(s, offset));
    SuccessorIsFallback(s.fallback, offset, |s.personas|);
  }

  /** The cooldown does bite: after the only persona has spoken once, it is cooling down when the next
      event has been counted, at offset 0 of the scan. */
  lemma SoloCools(persona: Text, seen: seq<Identity>)
    requires Canonical(persona)
    ensures var s := State([persona], {}, [Selection(persona, 1)], seen, 0, 1, 2, 0, false);
            Counted(s) && Position(s, 0) == 0 && !Rested(s, persona) && Scan(s, 0) == None
  {
    var s := State([persona], {}, [Selection(persona, 1)], seen, 0, 1, 2, 0, false);
    assert LatestAt(s.lastSelectedAt, 0) && IndexOf(s.personas, persona) == 0;
    assert Slot(s.lastSelectedAt, persona) == 0;
    assert FollowsLatest(s.personas, s.lastSelectedAt, 1, 0);
    assert Position(s, 0) == 0 && !Rested(s, s.personas[0]);
    assert Scan(s, 1) == None;
  }

  /** At the first event of a room with two personas the scan picks the first one. */
  lemma PairStarts(first: Text, second: Text)
    requires Canonical(first) && Canonical(second) && first != second
    ensures var s := Fresh([first, second], 0).(accepted := 1);
            Counted(s) && Position(s, 0) == 0 && first !in s.muted && Scan(s, 0) == Some(0)
  {
  }

  lemma ScanFindsFirstUnmuted(s: State, offset: nat, w: nat)
    requires Counted(s) && offset <= w < |s.personas| - 1
    requires s.personas[Position(s, w)] !in s.muted
    requires forall o: nat :: o < offset ==> s.personas[Position(s, o)] in s.muted
    ensures Scan(s, offset).Some? && FirstUnmuted(s, Scan(s, offset).value)
    decreases w - offset
  {
    if s.personas[Position(s, offset)] in s.muted {
      ScanFindsFirstUnmuted(s, offset + 1, w);
    } else if !Rested(s, s.personas[Position(s, offset)]) {
      OnlyLatestCools(s, offset);
    } else {
      assert FirstUnmuted(s, Position(s, offset));
    }
  }

  lemma UnmutedComplete(personas: seq<Text>, muted: set<Text>, i: nat, j: nat) returns (k: nat)
    requires i <= j < |personas| && personas[j] !in muted
    ensures k < |UnmutedFrom(personas, muted, i)| && UnmutedFrom(personas, muted, i)[k] == j
    decreases j - i
  {
    var rest := UnmutedFrom(personas, muted, i + 1);
    if i == j {
      assert UnmutedFrom(personas, muted, i) == [i] + rest;
      return 0;
    }
    k := UnmutedComplete(personas, muted, i + 1, j);
    if personas[i] in muted {
      assert UnmutedFrom(personas, muted, i) == [] + rest == rest;
    } else {
      assert UnmutedFrom(personas, muted, i) == [i] + rest && ([i] + rest)[k + 1] == rest[k];
      k := k + 1;
    }
  }

  lemma UnmutedAscending(personas: seq<Text>, muted: set<Text>, i: nat, k: nat, m: nat)
    requires i <= |personas| && k < m < |UnmutedFrom(personas, muted, i)|
    ensures UnmutedFrom(personas, muted, i)[k] < UnmutedFrom(personas, muted, i)[m]
    decreases |personas| - i
  {
    var rest := UnmutedFrom(personas, muted, i + 1);
    if personas[i] in muted {
      UnmutedAscending(personas, muted, i + 1, k, m);
    } else if k > 0 {
      UnmutedAscending(personas, muted, i + 1, k - 1, m - 1);
    } else {
      assert UnmutedFrom(personas, muted, i)[m] == rest[m - 1];
    }
  }

  /** The personas allowed to speak, in roster order, as roster positions. */
  function Cast(s: State): seq<nat> {
    UnmutedFrom(s.personas, s.muted, 0)
  }

  lemma UndirectedChoice(s: State)
    requires Counted(s) && |Cast(s)| > 0
    ensures var (t, outcome) := Choose(s, None);
            exists index: nat :: index < |s.personas| && FirstUnmuted(s, index) && t == Selecting(s, index)
              && outcome == Decision(Some(s.personas[index]), Selected)
  {
    var u := Cast(s);
    assert u[0] < |s.personas|;
    if |u| == 1 {
      OnlyUnmuted(s);
    } else {
      UnmutedAscending(s.personas, s.muted, 0, 0, 1);
      var w := if OffsetOf(s, u[0]) < |s.personas| - 1 then OffsetOf(s, u[0]) else OffsetOf(s, u[1]);
      ScanFindsFirstUnmuted(s, 0, w);
    }
  }

  lemma OnlyUnmuted(s: State)
    requires 0 <= s.fallback < |s.personas| && |Cast(s)| == 1
    ensures FirstUnmuted(s, Cast(s)[0])
  {
    var offset := OffsetOf(s, Cast(s)[0]);
    forall o: nat | o < offset ensures s.personas[Position(s, o)] in s.muted {
      OffsetUnique(s, o);
      if s.personas[Position(s, o)] !in s.muted {
        var k := UnmutedComplete(s.personas, s.muted, 0, Position(s, o));
      }
    }
  }
}
