/** Quoting of strings as `JSON.stringify` does it, and the order in which keys are sorted. */
module JsonText {
  import opened Text

  const QUOTE: CodeUnit := 0x22
  const BACKSLASH: CodeUnit := 0x5C
  const LETTER_U: CodeUnit := 0x75

  // ---------- Quoting ----------

  function HexDigit(d: int): CodeUnit
    requires 0 <= d < 16
  {
    if d < 10 then 0x30 + d else 0x57 + d
  }

  function HexValue(u: CodeUnit): int {
    if u < 0x57 then u - 0x30 else u - 0x57
  }

  function Hex4(u: CodeUnit): (r: Text)
    ensures |r| == 4
  {
    [HexDigit(u / 4096), HexDigit(u / 256 % 16), HexDigit(u / 16 % 16), HexDigit(u % 16)]
  }

  /** The letter of a two-unit escape, if the unit has one. */
  function ShortEscape(u: CodeUnit): Option<CodeUnit> {
    if u == QUOTE || u == BACKSLASH then Some(u)
    else if u == 0x08 then Some(0x62)
    else if u == 0x09 then Some(0x74)
    else if u == 0x0A then Some(0x6E)
    else if u == 0x0C then Some(0x66)
    else if u == 0x0D then Some(0x72)
    else None
  }

  predicate IsPair(s: Text) {
    |s| > 1 && IsHighSurrogate(s[0]) && IsLowSurrogate(s[1])
  }

  /** How many units the first chunk of a string has: two for a surrogate pair, else one. */
  function ChunkLength(s: Text): (n: nat)
    requires s != []
    ensures 1 <= n <= |s|
  {
    if IsPair(s) then 2 else 1
  }

  /** The first chunk as written: paired surrogates and ordinary units as they are, the rest escaped. */
  function Chunk(s: Text): (r: Text)
    requires s != []
    ensures r != []
  {
    var u := s[0];
    if IsPair(s) then s[..2]
    else if ShortEscape(u).Some? then [BACKSLASH, ShortEscape(u).value]
    else if u < 0x20 || IsHighSurrogate(u) || IsLowSurrogate(u) then [BACKSLASH, LETTER_U] + Hex4(u)
    else [u]
  }

  function Escape(s: Text): Text {
    if s == [] then [] else Chunk(s) + Escape(s[ChunkLength(s)..])
  }

  function Quote(s: Text): Text {
    [QUOTE] + Escape(s) + [QUOTE]
  }

  /** The sixteen digits, in lower case. */
  const HEX_DIGITS: Text := [
    0x30, 0x31, 0x32, 0x33, 0x34, 0x35, 0x36, 0x37, 0x38, 0x39, 0x61, 0x62, 0x63, 0x64, 0x65, 0x66
  ]

  lemma HexDigitsAre(d: int)
    requires 0 <= d < 16
    ensures HexDigit(d) == HEX_DIGITS[d]
  {
  }

  /** How a text of one unit is quoted (section 7 of RFC 8259; a lone surrogate is escaped). */
  lemma QuotedUnit(u: CodeUnit)
    ensures Quote([u]) ==
            if u == 0x22 then [0x22, 0x5C, 0x22, 0x22]
            else if u == 0x5C then [0x22, 0x5C, 0x5C, 0x22]
            else if u == 0x08 then [0x22, 0x5C, 0x62, 0x22]
            else if u == 0x09 then [0x22, 0x5C, 0x74, 0x22]
            else if u == 0x0A then [0x22, 0x5C, 0x6E, 0x22]
            else if u == 0x0C then [0x22, 0x5C, 0x66, 0x22]
            else if u == 0x0D then [0x22, 0x5C, 0x72, 0x22]
            else if u < 0x20 || 0xD800 <= u <= 0xDFFF then
              [0x22, 0x5C, 0x75, HEX_DIGITS[u / 4096], HEX_DIGITS[u / 256 % 16],
               HEX_DIGITS[u / 16 % 16], HEX_DIGITS[u % 16], 0x22]
            else [0x22, u, 0x22]
  {
    EscapeAlone(u);
    HexDigitsAre(u / 4096);
    HexDigitsAre(u / 256 % 16);
    HexDigitsAre(u / 16 % 16);
    HexDigitsAre(u % 16);
  }

  /** A text is quoted unit by unit, but a surrogate pair stays as it is. */
  lemma QuotedAppends(s: Text)
    requires s != []
    ensures var paired := 0xD800 <= s[0] <= 0xDBFF && |s| > 1 && 0xDC00 <= s[1] <= 0xDFFF;
            Escape(s) == if paired then s[..2] + Escape(s[2..]) else Escape([s[0]]) + Escape(s[1..])
  {
    if !IsPair(s) {
      EscapeAlone(s[0]);
      assert Chunk(s) == Chunk([s[0]]);
    }
  }

  lemma EscapeAlone(u: CodeUnit)
    ensures Escape([u]) == Chunk([u])
  {
    assert [u][1..] == [] && Escape([]) == [];
  }

  // ---------- Reading a quoted string back ----------

  function LongUnit(u: CodeUnit): CodeUnit {
    if u == 0x62 then 0x08 else if u == 0x74 then 0x09 else if u == 0x6E then 0x0A
    else if u == 0x66 then 0x0C else if u == 0x72 then 0x0D else u
  }

  function Unhex4(w: Text): int
    requires |w| == 4
  {
    HexValue(w[0]) * 4096 + HexValue(w[1]) * 256 + HexValue(w[2]) * 16 + HexValue(w[3])
  }

  /** Units of the first chunk of a written string, and how many units it was written with. */
  function ReadChunk(w: Text): (seq<int>, nat)
    requires w != []
  {
    if w[0] == BACKSLASH then
      if |w| >= 6 && w[1] == LETTER_U then ([Unhex4(w[2..6])], 6)
      else if |w| >= 2 then ([LongUnit(w[1])], 2)
      else ([], 1)
    else if IsPair(w) then (w[..2], 2)
    else ([w[0]], 1)
  }

  lemma NibbleRoundTrip(d: int)
    requires 0 <= d < 16
    ensures HexValue(HexDigit(d)) == d
  {
  }

  /** The two halves of a byte. */
  lemma ByteSplit(b: int)
    requires 0 <= b < 256
    ensures 0 <= b / 16 < 16 && 0 <= b % 16 < 16 && b == b / 16 * 16 + b % 16
  {
  }

  lemma UnitSplit(u: CodeUnit, high: int, low: int)
    requires high == u / 256 && low == u % 256
    ensures 0 <= high < 256 && 0 <= low < 256 && u == high * 256 + low
    ensures u / 4096 == high / 16 && u / 16 % 16 == low / 16 && u % 16 == low % 16
  {
  }

  lemma HexRoundTrip(u: CodeUnit)
    ensures Unhex4(Hex4(u)) == u
  {
    var high, low := u / 256, u % 256;
    UnitSplit(u, high, low);
    ByteSplit(high);
    ByteSplit(low);
    HexNibbles(u, high / 16, high % 16, low / 16, low % 16);
  }

  lemma HexNibbles(u: CodeUnit, a: int, b: int, c: int, d: int)
    requires 0 <= a < 16 && 0 <= b < 16 && 0 <= c < 16 && 0 <= d < 16
    requires Hex4(u) == [HexDigit(a), HexDigit(b), HexDigit(c), HexDigit(d)]
    ensures Unhex4(Hex4(u)) == a * 4096 + b * 256 + c * 16 + d
  {
    NibbleRoundTrip(a);
    NibbleRoundTrip(b);
    NibbleRoundTrip(c);
    NibbleRoundTrip(d);
  }

  lemma ReadChunkBack(s: Text, rest: Text)
    requires s != []
    ensures ReadChunk(Chunk(s) + rest) == (s[..ChunkLength(s)], |Chunk(s)|)
    ensures Chunk(s)[0] != QUOTE
  {
    var w := Chunk(s) + rest;
    assert s[..1] == [s[0]];
    if IsPair(s) {
      assert w[..2] == s[..2];
    } else if ShortEscape(s[0]).Some? {
      assert w[0] == BACKSLASH && w[1] == ShortEscape(s[0]).value != LETTER_U;
    }
    if !IsPair(s) && ShortEscape(s[0]).None? && |Chunk(s)| > 1 {
      assert w[2..6] == Hex4(s[0]);
      HexRoundTrip(s[0]);
    }
  }

  /** What follows the opening quote: the escaped text, the closing quote, the rest. */
  function Body(s: Text, rest: Text): Text {
    Escape(s) + [QUOTE] + rest
  }

  lemma BodySplit(s: Text, rest: Text)
    requires s != []
    ensures Body(s, rest) == Chunk(s) + Body(s[ChunkLength(s)..], rest)
    ensures ReadChunk(Body(s, rest)) == (s[..ChunkLength(s)], |Chunk(s)|)
    ensures Body(s, rest)[0] != QUOTE
    ensures Body(s, rest)[|Chunk(s)|..] == Body(s[ChunkLength(s)..], rest)
  {
    ReadChunkBack(s, Body(s[ChunkLength(s)..], rest));
    assert Body(s, rest) == Chunk(s) + Body(s[ChunkLength(s)..], rest);
  }

  /** A quoted string ends where its own closing quote stands, and tells its text, in any context. */
  lemma {:induction false} QuotedUnique(s: Text, t: Text, x: Text, y: Text)
    requires Body(s, x) == Body(t, y)
    ensures s == t && x == y
    decreases |s|
  {
    if s == [] || t == [] {
      EmptyBody(s, t, x, y);
    } else {
      BodySplit(s, x);
      BodySplit(t, y);
      var a, b := s[..ChunkLength(s)], s[ChunkLength(s)..];
      var c, d := t[..ChunkLength(t)], t[ChunkLength(t)..];
      assert a == c && Body(b, x) == Body(d, y);
      QuotedUnique(b, d, x, y);
      assert s == a + b && t == c + d;
    }
  }

  lemma EmptyBody(s: Text, t: Text, x: Text, y: Text)
    requires Body(s, x) == Body(t, y) && (s == [] || t == [])
    ensures s == t && x == y
  {
    assert Body([], x) == [QUOTE] + x && Body([], y) == [QUOTE] + y;
    if s != [] {
      BodySplit(s, x);
    } else if t != [] {
      BodySplit(t, y);
    } else {
      assert Body(s, x)[1..] == x && Body(t, y)[1..] == y;
    }
  }

  // ---------- Key order ----------

  /** The default order of `Array.prototype.sort`: by code units. */
  predicate Less(a: Text, b: Text) {
    b != [] && (a == [] || a[0] < b[0] || (a[0] == b[0] && Less(a[1..], b[1..])))
  }

  lemma LessTrichotomy(a: Text, b: Text)
    ensures Less(a, b) || a == b || Less(b, a)
    ensures !(Less(a, b) && Less(b, a)) && !Less(a, a)
  {
    if a != [] && b != [] {
      LessTrichotomy(a[1..], b[1..]);
      assert a == [a[0]] + a[1..] && b == [b[0]] + b[1..];
    }
    if a != [] {
      LessTrichotomy(a[1..], a[1..]);
    }
  }

  lemma LessTransitive(a: Text, b: Text, c: Text)
    requires Less(a, b) && Less(b, c)
    ensures Less(a, c)
  {
    if a != [] && a[0] == b[0] == c[0] {
      LessTransitive(a[1..], b[1..], c[1..]);
    }
  }

  /** A text is less than another when it ends first or has the smaller unit at the first difference. */
  lemma {:induction false} LessExactly(a: Text, b: Text)
    ensures Less(a, b) <==>
            exists k :: 0 <= k <= |a| && k < |b| && a[..k] == b[..k] && (k == |a| || a[k] < b[k])
    decreases |a|
  {
    if a != [] && b != [] && a[0] == b[0] {
      LessExactly(a[1..], b[1..]);
      if Less(a[1..], b[1..]) {
        var k :| 0 <= k <= |a[1..]| && k < |b[1..]| && a[1..][..k] == b[1..][..k]
                 && (k == |a[1..]| || a[1..][k] < b[1..][k]);
        assert a[..k + 1] == [a[0]] + a[1..][..k] && b[..k + 1] == [b[0]] + b[1..][..k];
      }
      if k :| 0 <= k <= |a| && k < |b| && a[..k] == b[..k] && (k == |a| || a[k] < b[k]) {
        assert k > 0;
        assert a[1..][..k - 1] == a[..k][1..] && b[1..][..k - 1] == b[..k][1..];
      }
    } else if b != [] {
      assert a[..0] == b[..0];
      assert forall k :: 0 < k <= |a| && k <= |b| ==> a[..k][0] == a[0] && b[..k][0] == b[0];
    }
  }

  ghost predicate Sorted(keys: seq<Text>) {
    forall i, j :: 0 <= i < j < |keys| ==> Less(keys[i], keys[j])
  }

  function Insert(key: Text, sorted: seq<Text>): seq<Text> {
    if sorted == [] || Less(key, sorted[0]) then [key] + sorted else [sorted[0]] + Insert(key, sorted[1..])
  }

  function Sort(keys: seq<Text>): seq<Text> {
    if keys == [] then [] else Insert(keys[0], Sort(keys[1..]))
  }

  lemma InsertKeeps(key: Text, sorted: seq<Text>)
    ensures multiset(Insert(key, sorted)) == multiset(sorted) + multiset{key}
  {
    if sorted != [] && !Less(key, sorted[0]) {
      InsertKeeps(key, sorted[1..]);
      assert sorted == [sorted[0]] + sorted[1..];
    }
  }

  lemma InsertSorted(key: Text, sorted: seq<Text>)
    requires Sorted(sorted) && key !in sorted
    ensures Sorted(Insert(key, sorted))
  {
    if sorted != [] {
      LessTrichotomy(key, sorted[0]);
      if Less(key, sorted[0]) {
        forall j | 0 <= j < |sorted| ensures Less(key, sorted[j]) {
          if j > 0 {
            LessTransitive(key, sorted[0], sorted[j]);
          }
        }
      } else {
        InsertSorted(key, sorted[1..]);
        InsertKeeps(key, sorted[1..]);
        var rest := Insert(key, sorted[1..]);
        forall j | 0 <= j < |rest| ensures Less(sorted[0], rest[j]) {
          assert rest[j] in multiset(rest);
          assert rest[j] == key || rest[j] in sorted[1..];
        }
      }
    }
  }

  lemma SortKeeps(keys: seq<Text>)
    ensures multiset(Sort(keys)) == multiset(keys)
  {
    if keys != [] {
      SortKeeps(keys[1..]);
      InsertKeeps(keys[0], Sort(keys[1..]));
      assert keys == [keys[0]] + keys[1..];
    }
  }

  lemma SortContains(keys: seq<Text>, key: Text)
    ensures key in Sort(keys) <==> key in keys
  {
    SortKeeps(keys);
    assert key in multiset(Sort(keys)) <==> key in multiset(keys);
  }

  lemma SortSorts(keys: seq<Text>)
    requires forall i, j :: 0 <= i < j < |keys| ==> keys[i] != keys[j]
    ensures Sorted(Sort(keys))
  {
    if keys != [] {
      SortSorts(keys[1..]);
      SortContains(keys[1..], keys[0]);
      InsertSorted(keys[0], Sort(keys[1..]));
    }
  }

  lemma SameHead(a: seq<Text>, b: seq<Text>)
    requires Sorted(a) && Sorted(b) && multiset(a) == multiset(b) && a != []
    ensures b != [] && a[0] == b[0]
  {
    assert a[0] in multiset(a) && a[0] in b;
    assert b[0] in multiset(b) && b[0] in a;
    LessTrichotomy(a[0], b[0]);
  }

  lemma TailMultiset(a: seq<Text>)
    requires a != []
    ensures multiset(a[1..]) == multiset(a) - multiset{a[0]}
  {
    assert a == [a[0]] + a[1..];
  }

  /** A strictly sorted list is determined by its members. */
  lemma {:induction false} SortedUnique(a: seq<Text>, b: seq<Text>)
    requires Sorted(a) && Sorted(b) && multiset(a) == multiset(b)
    ensures a == b
    decreases |a|
  {
    if a != [] {
      SameHead(a, b);
      TailMultiset(a);
      TailMultiset(b);
      SortedUnique(a[1..], b[1..]);
      assert a == [a[0]] + a[1..] && b == [b[0]] + b[1..];
    } else if b != [] {
      SameHead(b, a);
    }
  }

  lemma {:induction false} DistinctOnce(keys: seq<Text>, key: Text)
    requires forall i, j :: 0 <= i < j < |keys| ==> keys[i] != keys[j]
    ensures multiset(keys)[key] == if key in keys then 1 else 0
    decreases |keys|
  {
    if keys != [] {
      assert keys == [keys[0]] + keys[1..];
      DistinctOnce(keys[1..], key);
    }
  }

  /** Keys sort to the same list exactly when they are the same keys. */
  lemma SameKeysSortAlike(a: seq<Text>, b: seq<Text>)
    requires forall i, j :: 0 <= i < j < |a| ==> a[i] != a[j]
    requires forall i, j :: 0 <= i < j < |b| ==> b[i] != b[j]
    ensures Sort(a) == Sort(b) <==> forall k :: k in a <==> k in b
  {
    forall k ensures (k in Sort(a) <==> k in a) && (k in Sort(b) <==> k in b) {
      SortContains(a, k);
      SortContains(b, k);
    }
    if forall k :: k in a <==> k in b {
      forall k ensures multiset(a)[k] == multiset(b)[k] {
        DistinctOnce(a, k);
        DistinctOnce(b, k);
      }
      SortKeeps(a);
      SortKeeps(b);
      SortSorts(a);
      SortSorts(b);
      SortedUnique(Sort(a), Sort(b));
    }
  }
}
