/** `canonicalJSON` of `ios-web/room-runtime.js`: the same text for two JSON values exactly when they
    are equal up to the order of object keys. */
module CanonicalJson {
  import opened Text
  import opened Sequences
  import opened JsonText

  datatype Member = Member(key: Text, value: Json)

  /** A number stands for its rendered lexeme. */
  datatype Json =
    | Null
    | Boolean(value: bool)
    | Number(lexeme: Text)
    | String(text: Text)
    | Array(items: seq<Json>)
    | Object(members: seq<Member>)

  const COMMA: Text := [0x2C]
  const COLON: Text := [0x3A]
  const OPEN_BRACKET: CodeUnit := 0x5B
  const CLOSE_BRACKET: CodeUnit := 0x5D
  const OPEN_BRACE: CodeUnit := 0x7B
  const CLOSE_BRACE: CodeUnit := 0x7D
  const NULL: Text := [0x6E, 0x75, 0x6C, 0x6C]
  const TRUE: Text := [0x74, 0x72, 0x75, 0x65]
  const FALSE: Text := [0x66, 0x61, 0x6C, 0x73, 0x65]

  /** Digits, signs, the point and the exponent letter. */
  predicate IsNumberUnit(u: CodeUnit) {
    0x30 <= u <= 0x39 || u in {0x2B, 0x2D, 0x2E, 0x45, 0x65}
  }

  predicate IsLexeme(t: Text) {
    t != [] && (0x30 <= t[0] <= 0x39 || t[0] == 0x2D) && forall i :: 0 <= i < |t| ==> IsNumberUnit(t[i])
  }

  function Keys(members: seq<Member>): (keys: seq<Text>)
    ensures |keys| == |members| && forall i :: 0 <= i < |keys| ==> keys[i] == members[i].key
  {
    seq(|members|, i requires 0 <= i < |members| => members[i].key)
  }

  predicate DistinctKeys(members: seq<Member>) {
    forall i, j :: 0 <= i < j < |members| ==> members[i].key != members[j].key
  }

  predicate WellFormed(v: Json) {
    match v
    case Number(lexeme) => IsLexeme(lexeme)
    case Array(items) => forall i :: 0 <= i < |items| ==> WellFormed(items[i])
    case Object(members) => DistinctKeys(members) && forall i :: 0 <= i < |members| ==> WellFormed(members[i].value)
    case _ => true
  }

  /** Position of a key among the members. */
  function Place(members: seq<Member>, key: Text): (i: nat)
    requires key in Keys(members)
    ensures i < |members| && members[i].key == key
  {
    if members[0].key == key then 0
    else
      assert Keys(members[1..]) == Keys(members)[1..];
      1 + Place(members[1..], key)
  }

  // ---------- The printer ----------

  function Print(v: Json): Text
    decreases v, 1, 0
  {
    match v
    case Null => NULL
    case Boolean(value) => if value then TRUE else FALSE
    case Number(lexeme) => lexeme
    case String(text) => Quote(text)
    case Array(items) => [OPEN_BRACKET] + PrintItems(v, 0) + [CLOSE_BRACKET]
    case Object(members) =>
      SortedKeysIn(members);
      [OPEN_BRACE] + PrintMembers(v, Sort(Keys(members))) + [CLOSE_BRACE]
  }

  /** The items from `i` on, joined with commas. */
  function PrintItems(v: Json, i: nat): Text
    requires v.Array? && i <= |v.items|
    decreases v, 0, |v.items| - i
  {
    if i == |v.items| then []
    else Print(v.items[i]) + if i + 1 == |v.items| then [] else COMMA + PrintItems(v, i + 1)
  }

  /** The members of the given keys, in that order, joined with commas. */
  function PrintMembers(v: Json, keys: seq<Text>): Text
    requires v.Object? && forall k :: k in keys ==> k in Keys(v.members)
    decreases v, 0, |keys|
  {
    if keys == [] then []
    else
      Quote(keys[0]) + COLON + Print(v.members[Place(v.members, keys[0])].value)
      + if |keys| == 1 then [] else COMMA + PrintMembers(v, keys[1..])
  }

  lemma SortedKeysIn(members: seq<Member>)
    ensures forall k :: k in Sort(Keys(members)) ==> k in Keys(members)
  {
    forall k | k in Sort(Keys(members)) ensures k in Keys(members) {
      SortContains(Keys(members), k);
    }
  }

  // ---------- What is printed, unit by unit ----------

  /** Parts with commas between them. */
  function Separated(parts: seq<Text>): Text {
    if parts == [] then []
    else if |parts| == 1 then parts[0]
    else parts[0] + [0x2C] + Separated(parts[1..])
  }

  lemma PrintedScalar(v: Json)
    ensures v.Null? ==> Print(v) == [0x6E, 0x75, 0x6C, 0x6C]
    ensures v == Boolean(true) ==> Print(v) == [0x74, 0x72, 0x75, 0x65]
    ensures v == Boolean(false) ==> Print(v) == [0x66, 0x61, 0x6C, 0x73, 0x65]
    ensures v.Number? ==> Print(v) == v.lexeme
    ensures v.String? ==> Print(v) == Quote(v.text)
  {
  }

  /** An array is its items in order, separated by commas, in brackets. */
  lemma PrintedArray(v: Json, parts: seq<Text>)
    requires v.Array? && |parts| == |v.items| && forall i :: 0 <= i < |parts| ==> parts[i] == Print(v.items[i])
    ensures Print(v) == [0x5B] + Separated(parts) + [0x5D]
  {
    PrintedItems(v, parts, 0);
    assert parts[0..] == parts;
  }

  lemma {:induction false} PrintedItems(v: Json, parts: seq<Text>, i: nat)
    requires v.Array? && |parts| == |v.items| && forall j :: 0 <= j < |parts| ==> parts[j] == Print(v.items[j])
    requires i <= |parts|
    ensures PrintItems(v, i) == Separated(parts[i..])
    decreases |parts| - i
  {
    if i < |parts| {
      PrintedItems(v, parts, i + 1);
      assert parts[i..][0] == parts[i] && parts[i..][1..] == parts[i + 1..];
      Regroup(parts[i], [0x2C], Separated(parts[i + 1..]));
    }
  }

  /** A member is its quoted key, a colon and its value. */
  function PrintedMember(v: Json, key: Text): Text
    requires v.Object? && key in Keys(v.members)
  {
    Quote(key) + [0x3A] + Print(v.members[Place(v.members, key)].value)
  }

  /** An object is its members in ascending order of their keys, separated by commas, in braces. */
  lemma PrintedObject(v: Json, keys: seq<Text>, parts: seq<Text>)
    requires v.Object? && WellFormed(v) && Sorted(keys) && multiset(keys) == multiset(Keys(v.members))
    requires |parts| == |keys|
    requires forall i :: 0 <= i < |keys| ==> keys[i] in Keys(v.members) && parts[i] == PrintedMember(v, keys[i])
    ensures Print(v) == [0x7B] + Separated(parts) + [0x7D]
  {
    SortKeeps(Keys(v.members));
    SortSorts(Keys(v.members));
    SortedUnique(keys, Sort(Keys(v.members)));
    PrintedMembers(v, keys, parts);
  }

  lemma {:induction false} PrintedMembers(v: Json, keys: seq<Text>, parts: seq<Text>)
    requires v.Object? && |parts| == |keys|
    requires forall i :: 0 <= i < |keys| ==> keys[i] in Keys(v.members) && parts[i] == PrintedMember(v, keys[i])
    ensures (forall k :: k in keys ==> k in Keys(v.members)) && PrintMembers(v, keys) == Separated(parts)
    decreases |keys|
  {
    if keys != [] {
      assert forall i :: 0 <= i < |keys[1..]| ==> keys[1..][i] == keys[i + 1] && parts[1..][i] == parts[i + 1];
      PrintedMembers(v, keys[1..], parts[1..]);
      assert keys == [keys[0]] + keys[1..];
      Regroup(parts[0], [0x2C], Separated(parts[1..]));
      Regroup(parts[0], [], []);
    }
  }

  // ---------- Equality up to key order ----------

  predicate SameKeys(a: seq<Member>, b: seq<Member>) {
    (forall i :: 0 <= i < |a| ==> a[i].key in Keys(b)) && (forall i :: 0 <= i < |b| ==> b[i].key in Keys(a))
  }

  predicate Equivalent(a: Json, b: Json) {
    match (a, b)
    case (Array(xs), Array(ys)) => |xs| == |ys| && forall i :: 0 <= i < |xs| ==> Equivalent(xs[i], ys[i])
    case (Object(xs), Object(ys)) =>
      SameKeys(xs, ys) && forall i :: 0 <= i < |xs| ==> Equivalent(xs[i].value, ys[Place(ys, xs[i].key)].value)
    case _ => a == b
  }

  // ---------- Equivalent values print alike ----------

  lemma PlaceUnique(members: seq<Member>, i: nat)
    requires DistinctKeys(members) && i < |members|
    ensures members[i].key in Keys(members) && Place(members, members[i].key) == i
  {
    assert Keys(members)[i] == members[i].key;
  }

  lemma SameSortedKeys(a: seq<Member>, b: seq<Member>)
    requires DistinctKeys(a) && DistinctKeys(b)
    ensures SameKeys(a, b) <==> Sort(Keys(a)) == Sort(Keys(b))
  {
    SameKeysSortAlike(Keys(a), Keys(b));
    if SameKeys(a, b) {
      forall k ensures k in Keys(a) <==> k in Keys(b) {
        if k in Keys(a) {
          var i :| 0 <= i < |a| && Keys(a)[i] == k;
          assert a[i].key in Keys(b);
        }
        if k in Keys(b) {
          var i :| 0 <= i < |b| && Keys(b)[i] == k;
          assert b[i].key in Keys(a);
        }
      }
    } else if forall k :: k in Keys(a) <==> k in Keys(b) {
      forall i | 0 <= i < |a| ensures a[i].key in Keys(b) {
        assert Keys(a)[i] in Keys(a);
      }
      forall i | 0 <= i < |b| ensures b[i].key in Keys(a) {
        assert Keys(b)[i] in Keys(b);
      }
    }
  }

  lemma {:induction false} EquivalentPrintAlike(a: Json, b: Json)
    requires WellFormed(a) && WellFormed(b) && Equivalent(a, b)
    ensures Print(a) == Print(b)
    decreases a, 1, 0
  {
    if a.Array? {
      EquivalentItemsPrintAlike(a, b, 0);
    } else if a.Object? {
      SameSortedKeys(a.members, b.members);
      SortedKeysIn(a.members);
      SortedKeysIn(b.members);
      EquivalentMembersPrintAlike(a, b, Sort(Keys(a.members)));
    }
  }

  lemma {:induction false} EquivalentItemsPrintAlike(a: Json, b: Json, i: nat)
    requires a.Array? && b.Array? && WellFormed(a) && WellFormed(b) && Equivalent(a, b) && i <= |a.items|
    ensures PrintItems(a, i) == PrintItems(b, i)
    decreases a, 0, |a.items| - i
  {
    if i < |a.items| {
      EquivalentPrintAlike(a.items[i], b.items[i]);
      EquivalentItemsPrintAlike(a, b, i + 1);
    }
  }

  lemma {:induction false} EquivalentMembersPrintAlike(a: Json, b: Json, keys: seq<Text>)
    requires a.Object? && b.Object? && WellFormed(a) && WellFormed(b) && Equivalent(a, b)
    requires forall k :: k in keys ==> k in Keys(a.members) && k in Keys(b.members)
    ensures PrintMembers(a, keys) == PrintMembers(b, keys)
    decreases a, 0, |keys|
  {
    if keys != [] {
      var i := Place(a.members, keys[0]);
      assert Equivalent(a.members[i].value, b.members[Place(b.members, a.members[i].key)].value);
      EquivalentPrintAlike(a.members[i].value, b.members[Place(b.members, keys[0])].value);
      EquivalentMembersPrintAlike(a, b, keys[1..]);
    }
  }

  // ---------- Unique reading ----------

  /** A context in which a number lexeme has ended. */
  predicate Stops(rest: Text) {
    rest == [] || !IsNumberUnit(rest[0])
  }

  /** The first unit tells the kind of value. */
  lemma FirstUnit(v: Json)
    requires WellFormed(v)
    ensures Print(v) != []
    ensures var u := Print(v)[0];
            && (v.Null? <==> u == 0x6E)
            && (v == Boolean(true) <==> u == 0x74)
            && (v == Boolean(false) <==> u == 0x66)
            && (v.Number? <==> 0x30 <= u <= 0x39 || u == 0x2D)
            && (v.String? <==> u == QUOTE)
            && (v.Array? <==> u == OPEN_BRACKET)
            && (v.Object? <==> u == OPEN_BRACE)
  {
  }

  lemma SameKind(a: Json, b: Json, x: Text, y: Text)
    requires WellFormed(a) && WellFormed(b) && Print(a) + x == Print(b) + y
    ensures a.Null? <==> b.Null?
    ensures a.Boolean? <==> b.Boolean?
    ensures a.Boolean? ==> a == b
    ensures a.Number? <==> b.Number?
    ensures a.String? <==> b.String?
    ensures a.Array? <==> b.Array?
    ensures a.Object? <==> b.Object?
  {
    FirstUnit(a);
    FirstUnit(b);
    assert (Print(a) + x)[0] == (Print(b) + y)[0];
  }

  /** How many number units a text starts with. */
  function Lead(t: Text): nat {
    if t == [] || !IsNumberUnit(t[0]) then 0 else 1 + Lead(t[1..])
  }

  lemma {:induction false} LexemeEnds(l: Text, rest: Text)
    requires Stops(rest) && forall i :: 0 <= i < |l| ==> IsNumberUnit(l[i])
    ensures Lead(l + rest) == |l|
    decreases |l|
  {
    if l == [] {
      assert l + rest == rest;
    } else {
      assert (l + rest)[1..] == l[1..] + rest;
      LexemeEnds(l[1..], rest);
    }
  }

  lemma LexemesUnique(l: Text, m: Text, x: Text, y: Text)
    requires IsLexeme(l) && IsLexeme(m) && Stops(x) && Stops(y) && l + x == m + y
    ensures l == m && x == y
  {
    LexemeEnds(l, x);
    LexemeEnds(m, y);
    assert (l + x)[..|l|] == l && (m + y)[..|m|] == m;
    PrefixCancels(l, x, y);
  }

  /** A printed value can be read back from any context in which its lexemes end: the text determines
      the value up to key order, and where it stops. */
  lemma {:induction false} UniqueReading(a: Json, b: Json, x: Text, y: Text)
    requires WellFormed(a) && WellFormed(b) && Stops(x) && Stops(y) && Print(a) + x == Print(b) + y
    ensures Equivalent(a, b) && x == y
    decreases a, 1, 0
  {
    SameKind(a, b, x, y);
    match a
    case Null => PrefixCancels(NULL, x, y);
    case Boolean(_) => PrefixCancels(Print(a), x, y);
    case Number(l) => LexemesUnique(l, b.lexeme, x, y);
    case String(s) => UniqueString(s, b.text, x, y);
    case Array(_) =>
      OpenArrays(a, b, x, y);
      UniqueItems(a, b, 0, x, y);
    case Object(_) => UniqueObject(a, b, x, y);
  }

  lemma UniqueString(s: Text, t: Text, x: Text, y: Text)
    requires Quote(s) + x == Quote(t) + y
    ensures s == t && x == y
  {
    assert Quote(s) + x == [QUOTE] + Body(s, x) && Quote(t) + y == [QUOTE] + Body(t, y);
    PrefixCancels([QUOTE], Body(s, x), Body(t, y));
    QuotedUnique(s, t, x, y);
  }

  // Arrays

  lemma OpenArrays(a: Json, b: Json, x: Text, y: Text)
    requires a.Array? && b.Array? && Print(a) + x == Print(b) + y
    ensures ItemsThen(a, 0, x) == ItemsThen(b, 0, y)
  {
    assert Print(a) + x == [OPEN_BRACKET] + ItemsThen(a, 0, x) && Print(b) + y == [OPEN_BRACKET] + ItemsThen(b, 0, y);
    PrefixCancels([OPEN_BRACKET], ItemsThen(a, 0, x), ItemsThen(b, 0, y));
  }

  function ItemsThen(v: Json, i: nat, rest: Text): Text
    requires v.Array? && i <= |v.items|
  {
    PrintItems(v, i) + [CLOSE_BRACKET] + rest
  }

  /** What follows item `i`: a comma and more items, or the closing bracket. */
  function AfterItem(v: Json, i: nat, rest: Text): (r: Text)
    requires v.Array? && i < |v.items|
    ensures r != [] && Stops(r) && (r[0] == CLOSE_BRACKET <==> i + 1 == |v.items|)
  {
    if i + 1 == |v.items| then [CLOSE_BRACKET] + rest else COMMA + ItemsThen(v, i + 1, rest)
  }

  lemma ItemsSplit(v: Json, i: nat, rest: Text)
    requires v.Array? && WellFormed(v) && i < |v.items|
    ensures ItemsThen(v, i, rest) == Print(v.items[i]) + AfterItem(v, i, rest)
    ensures ItemsThen(v, i, rest)[0] != CLOSE_BRACKET
  {
    FirstUnit(v.items[i]);
  }

  lemma {:induction false} UniqueItems(a: Json, b: Json, i: nat, x: Text, y: Text)
    requires a.Array? && b.Array? && WellFormed(a) && WellFormed(b)
    requires i <= |a.items| && i <= |b.items| && (i > 0 ==> i < |a.items| && i < |b.items|)
    requires ItemsThen(a, i, x) == ItemsThen(b, i, y)
    ensures |a.items| == |b.items| && x == y
    ensures forall j :: i <= j < |a.items| ==> Equivalent(a.items[j], b.items[j])
    decreases a, 0, |a.items| - i
  {
    if i == |a.items| || i == |b.items| {
      NoItems(a, b, i, x, y);
    } else {
      ItemsSplit(a, i, x);
      ItemsSplit(b, i, y);
      UniqueReading(a.items[i], b.items[i], AfterItem(a, i, x), AfterItem(b, i, y));
      SameAfterItem(a, b, i, x, y);
      if i + 1 < |a.items| {
        UniqueItems(a, b, i + 1, x, y);
      }
    }
  }

  lemma SameAfterItem(a: Json, b: Json, i: nat, x: Text, y: Text)
    requires a.Array? && b.Array? && i < |a.items| && i < |b.items| && AfterItem(a, i, x) == AfterItem(b, i, y)
    ensures i + 1 == |a.items| <==> i + 1 == |b.items|
    ensures if i + 1 == |a.items| then x == y else ItemsThen(a, i + 1, x) == ItemsThen(b, i + 1, y)
  {
    if i + 1 == |a.items| {
      PrefixCancels([CLOSE_BRACKET], x, y);
    } else {
      PrefixCancels(COMMA, ItemsThen(a, i + 1, x), ItemsThen(b, i + 1, y));
    }
  }

  lemma NoItems(a: Json, b: Json, i: nat, x: Text, y: Text)
    requires a.Array? && b.Array? && WellFormed(a) && WellFormed(b) && i <= |a.items| && i <= |b.items|
    requires (i == |a.items| || i == |b.items|) && ItemsThen(a, i, x) == ItemsThen(b, i, y)
    ensures i == |a.items| == |b.items| && x == y
  {
    ItemsEnd(a, i, x);
    ItemsEnd(b, i, y);
    PrefixCancels([CLOSE_BRACKET], x, y);
  }

  /** The items have ended exactly where the bracket closes. */
  lemma ItemsEnd(v: Json, i: nat, rest: Text)
    requires v.Array? && WellFormed(v) && i <= |v.items|
    ensures ItemsThen(v, i, rest) != []
    ensures i == |v.items| <==> ItemsThen(v, i, rest)[0] == CLOSE_BRACKET
    ensures i == |v.items| ==> ItemsThen(v, i, rest) == [CLOSE_BRACKET] + rest
  {
    if i < |v.items| {
      ItemsSplit(v, i, rest);
    }
  }

  // Objects

  function MembersThen(v: Json, keys: seq<Text>, rest: Text): Text
    requires v.Object? && forall k :: k in keys ==> k in Keys(v.members)
  {
    PrintMembers(v, keys) + [CLOSE_BRACE] + rest
  }

  function AfterMember(v: Json, keys: seq<Text>, rest: Text): (r: Text)
    requires v.Object? && keys != [] && forall k :: k in keys ==> k in Keys(v.members)
    ensures r != [] && Stops(r) && (r[0] == CLOSE_BRACE <==> |keys| == 1)
  {
    if |keys| == 1 then [CLOSE_BRACE] + rest else COMMA + MembersThen(v, keys[1..], rest)
  }

  /** The text of a member's value and of all that follows it. */
  function ValueThen(v: Json, keys: seq<Text>, rest: Text): Text
    requires v.Object? && keys != [] && forall k :: k in keys ==> k in Keys(v.members)
  {
    Print(v.members[Place(v.members, keys[0])].value) + AfterMember(v, keys, rest)
  }

  lemma MembersSplit(v: Json, keys: seq<Text>, rest: Text)
    requires v.Object? && keys != [] && forall k :: k in keys ==> k in Keys(v.members)
    ensures MembersThen(v, keys, rest) == [QUOTE] + Body(keys[0], COLON + ValueThen(v, keys, rest))
  {
    var value := Print(v.members[Place(v.members, keys[0])].value);
    var more := if |keys| == 1 then [] else COMMA + PrintMembers(v, keys[1..]);
    assert more + [CLOSE_BRACE] + rest == AfterMember(v, keys, rest);
    MemberJoins(Escape(keys[0]), value, more, rest);
  }

  lemma MemberJoins(key: Text, value: Text, more: Text, rest: Text)
    ensures [QUOTE] + key + [QUOTE] + COLON + value + more + [CLOSE_BRACE] + rest
         == [QUOTE] + (key + [QUOTE] + (COLON + (value + (more + [CLOSE_BRACE] + rest))))
  {
  }

  /** The members have ended exactly where the brace closes. */
  lemma MembersEnd(v: Json, keys: seq<Text>, rest: Text)
    requires v.Object? && forall k :: k in keys ==> k in Keys(v.members)
    ensures MembersThen(v, keys, rest) != []
    ensures keys == [] <==> MembersThen(v, keys, rest)[0] == CLOSE_BRACE
    ensures keys == [] ==> MembersThen(v, keys, rest) == [CLOSE_BRACE] + rest
  {
    if keys != [] {
      MembersSplit(v, keys, rest);
    }
  }

  lemma {:induction false} UniqueMembers(a: Json, b: Json, ka: seq<Text>, kb: seq<Text>, x: Text, y: Text)
    requires a.Object? && b.Object? && WellFormed(a) && WellFormed(b)
    requires (forall k :: k in ka ==> k in Keys(a.members)) && (forall k :: k in kb ==> k in Keys(b.members))
    requires MembersThen(a, ka, x) == MembersThen(b, kb, y)
    ensures ka == kb && x == y
    ensures forall k :: k in ka ==>
              Equivalent(a.members[Place(a.members, k)].value, b.members[Place(b.members, k)].value)
    decreases a, 0, |ka|
  {
    if ka == [] || kb == [] {
      UniqueNoMembers(a, b, ka, kb, x, y);
    } else {
      UniqueFirstMember(a, b, ka, kb, x, y);
      SameAfterMember(a, b, ka, kb, x, y);
      if |ka| > 1 {
        UniqueMembers(a, b, ka[1..], kb[1..], x, y);
      }
      assert ka == [ka[0]] + ka[1..] && kb == [kb[0]] + kb[1..];
    }
  }

  lemma {:induction false} UniqueFirstMember(a: Json, b: Json, ka: seq<Text>, kb: seq<Text>, x: Text, y: Text)
    requires a.Object? && b.Object? && WellFormed(a) && WellFormed(b) && ka != [] && kb != []
    requires (forall k :: k in ka ==> k in Keys(a.members)) && (forall k :: k in kb ==> k in Keys(b.members))
    requires MembersThen(a, ka, x) == MembersThen(b, kb, y)
    ensures ka[0] == kb[0] && AfterMember(a, ka, x) == AfterMember(b, kb, y)
    ensures Equivalent(a.members[Place(a.members, ka[0])].value, b.members[Place(b.members, kb[0])].value)
    decreases a, 0, 0
  {
    MembersSplit(a, ka, x);
    MembersSplit(b, kb, y);
    SameKeyFirst(ka[0], kb[0], ValueThen(a, ka, x), ValueThen(b, kb, y));
    UniqueReading(a.members[Place(a.members, ka[0])].value, b.members[Place(b.members, kb[0])].value,
                  AfterMember(a, ka, x), AfterMember(b, kb, y));
  }

  lemma SameAfterMember(a: Json, b: Json, ka: seq<Text>, kb: seq<Text>, x: Text, y: Text)
    requires a.Object? && b.Object? && ka != [] && kb != []
    requires (forall k :: k in ka ==> k in Keys(a.members)) && (forall k :: k in kb ==> k in Keys(b.members))
    requires AfterMember(a, ka, x) == AfterMember(b, kb, y)
    ensures |ka| == 1 <==> |kb| == 1
    ensures if |ka| == 1 then x == y else MembersThen(a, ka[1..], x) == MembersThen(b, kb[1..], y)
  {
    if |ka| == 1 {
      PrefixCancels([CLOSE_BRACE], x, y);
    } else {
      PrefixCancels(COMMA, MembersThen(a, ka[1..], x), MembersThen(b, kb[1..], y));
    }
  }

  lemma SameKeyFirst(k: Text, l: Text, x: Text, y: Text)
    requires [QUOTE] + Body(k, COLON + x) == [QUOTE] + Body(l, COLON + y)
    ensures k == l && x == y
  {
    PrefixCancels([QUOTE], Body(k, COLON + x), Body(l, COLON + y));
    QuotedUnique(k, l, COLON + x, COLON + y);
    PrefixCancels(COLON, x, y);
  }

  lemma UniqueNoMembers(a: Json, b: Json, ka: seq<Text>, kb: seq<Text>, x: Text, y: Text)
    requires a.Object? && b.Object? && (ka == [] || kb == [])
    requires (forall k :: k in ka ==> k in Keys(a.members)) && (forall k :: k in kb ==> k in Keys(b.members))
    requires MembersThen(a, ka, x) == MembersThen(b, kb, y)
    ensures ka == kb == [] && x == y
  {
    MembersEnd(a, ka, x);
    MembersEnd(b, kb, y);
    PrefixCancels([CLOSE_BRACE], x, y);
  }

  lemma {:induction false} UniqueObject(a: Json, b: Json, x: Text, y: Text)
    requires a.Object? && b.Object? && WellFormed(a) && WellFormed(b) && Print(a) + x == Print(b) + y
    ensures Equivalent(a, b) && x == y
    decreases a, 0, |Sort(Keys(a.members))| + 1
  {
    var ka, kb := Sort(Keys(a.members)), Sort(Keys(b.members));
    OpenObjects(a, b, ka, kb, x, y);
    UniqueMembers(a, b, ka, kb, x, y);
    MembersEquivalent(a, b);
  }

  lemma OpenObject(v: Json, keys: seq<Text>, rest: Text)
    requires v.Object? && keys == Sort(Keys(v.members))
    ensures forall k :: k in keys ==> k in Keys(v.members)
    ensures Print(v) + rest == [OPEN_BRACE] + MembersThen(v, keys, rest)
  {
    SortedKeysIn(v.members);
    assert [OPEN_BRACE] + PrintMembers(v, keys) + [CLOSE_BRACE] + rest == [OPEN_BRACE] + MembersThen(v, keys, rest);
  }

  lemma OpenObjects(a: Json, b: Json, ka: seq<Text>, kb: seq<Text>, x: Text, y: Text)
    requires a.Object? && b.Object? && ka == Sort(Keys(a.members)) && kb == Sort(Keys(b.members))
    requires Print(a) + x == Print(b) + y
    ensures (forall k :: k in ka ==> k in Keys(a.members)) && forall k :: k in kb ==> k in Keys(b.members)
    ensures MembersThen(a, ka, x) == MembersThen(b, kb, y)
  {
    OpenObject(a, ka, x);
    OpenObject(b, kb, y);
    PrefixCancels([OPEN_BRACE], MembersThen(a, ka, x), MembersThen(b, kb, y));
  }

  lemma MembersEquivalent(a: Json, b: Json)
    requires a.Object? && b.Object? && WellFormed(a) && WellFormed(b)
    requires Sort(Keys(a.members)) == Sort(Keys(b.members))
    requires forall k :: k in Sort(Keys(a.members)) ==>
               k in Keys(a.members) && k in Keys(b.members)
               && Equivalent(a.members[Place(a.members, k)].value, b.members[Place(b.members, k)].value)
    ensures Equivalent(a, b)
  {
    SameSortedKeys(a.members, b.members);
    forall i | 0 <= i < |a.members|
      ensures Equivalent(a.members[i].value, b.members[Place(b.members, a.members[i].key)].value)
    {
      PlaceUnique(a.members, i);
      SortContains(Keys(a.members), a.members[i].key);
    }
  }

  /** Two JSON values print to the same text exactly when they are equal up to object key order. */
  lemma CanonicalText(a: Json, b: Json)
    requires WellFormed(a) && WellFormed(b)
    ensures Print(a) == Print(b) <==> Equivalent(a, b)
  {
    if Equivalent(a, b) {
      EquivalentPrintAlike(a, b);
    } else if Print(a) == Print(b) {
      assert Print(a) + [] == Print(b) + [];
      UniqueReading(a, b, [], []);
    }
  }
}
