/** `candidate_digest` of `docs/persona-builder/verify_golden.py`: the framed byte stream fed to the
    hash determines the file map. The hash itself is not modelled. */
module CandidateDigest {
  import opened Sequences

  type Byte = b: int | 0 <= b < 256
  type Bytes = seq<Byte>

  const COLON: Bytes := [0x3A]
  const NEWLINE: Bytes := [0x0A]

  /** What `str.encode("ascii")` accepts. */
  type Name = s: string | forall i :: 0 <= i < |s| ==> s[i] < '\U{0080}'

  const FILE_ORDER: seq<Name> := [
    "persona.yaml", "AGENTS.md", "BACKGROUND.md", "VOICE.md", "RELATIONSHIPS.md",
    "SCENARIOS.md", "PROVENANCE.md", "SOURCES.md", "LICENSE"
  ]

  function Ascii(name: Name): (r: Bytes)
    ensures |r| == |name| && forall i :: 0 <= i < |r| ==> r[i] == name[i] as int
  {
    if name == "" then [] else [name[0] as int] + Ascii(name[1..])
  }

  // ---------- Decimal lengths ----------

  predicate IsDigit(b: Byte) {
    0x30 <= b <= 0x39
  }

  /** `str(n).encode("ascii")`. */
  function Decimal(n: nat): (r: Bytes)
    ensures r != [] && forall i :: 0 <= i < |r| ==> IsDigit(r[i])
  {
    if n < 10 then [0x30 + n] else Decimal(n / 10) + [0x30 + n % 10]
  }

  function ParseDecimal(t: Bytes): int {
    if t == [] then 0 else ParseDecimal(t[..|t| - 1]) * 10 + (t[|t| - 1] as int - 0x30)
  }

  lemma {:induction false} DecimalRoundTrip(n: nat)
    ensures ParseDecimal(Decimal(n)) == n
    decreases n
  {
    if n >= 10 {
      DecimalRoundTrip(n / 10);
      assert Decimal(n)[..|Decimal(n)| - 1] == Decimal(n / 10);
    } else {
      assert ParseDecimal([]) == 0;
      assert Decimal(n)[..0] == [];
    }
  }

  /** How many digits a byte string starts with. */
  function Digits(w: Bytes): (k: nat)
    ensures k <= |w|
  {
    if w == [] || !IsDigit(w[0]) then 0 else 1 + Digits(w[1..])
  }

  lemma {:induction false} DigitsEnd(digits: Bytes, rest: Bytes)
    requires rest != [] && !IsDigit(rest[0]) && forall i :: 0 <= i < |digits| ==> IsDigit(digits[i])
    ensures Digits(digits + rest) == |digits|
    decreases |digits|
  {
    if digits == [] {
      assert digits + rest == rest;
    } else {
      assert (digits + rest)[1..] == digits[1..] + rest;
      DigitsEnd(digits[1..], rest);
    }
  }

  // ---------- Fields: a decimal length, a colon, that many bytes ----------

  function Field(content: Bytes): Bytes {
    Decimal(|content|) + COLON + content
  }

  lemma FieldLength(content: Bytes, rest: Bytes)
    ensures var w := Field(content) + rest;
            Digits(w) == |Decimal(|content|)| && w[..Digits(w)] == Decimal(|content|)
    ensures Field(content) + rest == Decimal(|content|) + (COLON + (content + rest))
  {
    var d := Decimal(|content|);
    assert Field(content) + rest == d + (COLON + (content + rest));
    DigitsEnd(d, COLON + (content + rest));
    assert (d + (COLON + (content + rest)))[..|d|] == d;
  }

  /** A field is read back from any context, whatever digits, colons or frames its content holds. */
  lemma FieldUnique(c: Bytes, d: Bytes, x: Bytes, y: Bytes)
    requires Field(c) + x == Field(d) + y
    ensures c == d && x == y
  {
    FieldLength(c, x);
    FieldLength(d, y);
    DecimalRoundTrip(|c|);
    DecimalRoundTrip(|d|);
    assert |c| == |d|;
    PrefixCancels(Decimal(|c|), COLON + (c + x), COLON + (d + y));
    PrefixCancels(COLON, c + x, d + y);
    assert (c + x)[..|c|] == c && (d + y)[..|d|] == d;
    PrefixCancels(c, x, y);
  }

  // ---------- The stream ----------

  type Files = map<Name, Bytes>

  /** The two updates of one file: its framed name and a newline, then its framed content. */
  function Frame(name: Name, content: Bytes): Bytes {
    Field(Ascii(name)) + NEWLINE + Field(content)
  }

  /** An absent file adds nothing. */
  function Part(files: Files, name: Name): Bytes {
    if name in files then Frame(name, files[name]) else []
  }

  function StreamOf(files: Files, order: seq<Name>): Bytes {
    if order == [] then []
    else Part(files, order[0]) + StreamOf(files, order[1..])
  }

  /** All the bytes that `candidate_digest` feeds to the hash. */
  function Stream(files: Files): Bytes {
    StreamOf(files, FILE_ORDER)
  }

  lemma {:induction false} StreamAppends(files: Files, order: seq<Name>, name: Name)
    ensures StreamOf(files, order + [name])
         == StreamOf(files, order) + Part(files, name)
    decreases |order|
  {
    var part, longer := Part(files, name), order + [name];
    Unfold(files, longer);
    if order == [] {
      assert longer[0] == name && longer[1..] == [];
      Regroup(part, [], []);
    } else {
      assert longer[0] == order[0] && longer[1..] == order[1..] + [name];
      StreamAppends(files, order[1..], name);
      Unfold(files, order);
      Regroup(Part(files, order[0]), StreamOf(files, order[1..]), part);
    }
  }

  lemma Unfold(files: Files, order: seq<Name>)
    requires order != []
    ensures StreamOf(files, order) == Part(files, order[0]) + StreamOf(files, order[1..])
  {
  }

  method CandidateStream(files: Files) returns (fed: Bytes)
    ensures fed == Stream(files)
  {
    fed := FeedAll(files, FILE_ORDER);
  }

  method FeedAll(files: Files, order: seq<Name>) returns (fed: Bytes)
    ensures fed == StreamOf(files, order)
  {
    fed := [];
    for i := 0 to |order|
      invariant fed == StreamOf(files, order[..i])
    {
      var name := order[i];
      assert order[..i + 1] == order[..i] + [name];
      StreamAppends(files, order[..i], name);
      if name !in files {
        continue;
      }
      var path := Ascii(name);
      var content := files[name];
      fed := fed + (Decimal(|path|) + COLON + path + NEWLINE);
      fed := fed + (Decimal(|content|) + COLON + content);
    }
    assert order[..|order|] == order;
  }

  // ---------- The stream determines the files ----------

  ghost predicate SameFiles(f: Files, g: Files, order: seq<Name>) {
    forall name :: name in order ==> (name in f <==> name in g) && (name in f ==> f[name] == g[name])
  }

  lemma FrameUnique(m: Name, n: Name, c: Bytes, d: Bytes, x: Bytes, y: Bytes)
    requires Frame(m, c) + x == Frame(n, d) + y
    ensures m == n && c == d && x == y
  {
    FrameSplits(m, c, x);
    FrameSplits(n, d, y);
    FieldUnique(Ascii(m), Ascii(n), NEWLINE + (Field(c) + x), NEWLINE + (Field(d) + y));
    PrefixCancels(NEWLINE, Field(c) + x, Field(d) + y);
    FieldUnique(c, d, x, y);
    assert forall i :: 0 <= i < |m| ==> m[i] as int == Ascii(m)[i] == n[i] as int;
  }

  lemma FrameSplits(name: Name, content: Bytes, rest: Bytes)
    ensures Frame(name, content) + rest == Field(Ascii(name)) + (NEWLINE + (Field(content) + rest))
  {
  }

  lemma StreamHead(files: Files, order: seq<Name>)
    requires order != [] && order[0] in files
    ensures StreamOf(files, order) == Frame(order[0], files[order[0]]) + StreamOf(files, order[1..])
  {
  }

  /** A stream that is not empty starts with the frame of one of its files. */
  lemma {:induction false} FirstFrame(files: Files, order: seq<Name>) returns (name: Name, rest: Bytes)
    requires StreamOf(files, order) != []
    ensures name in files && StreamOf(files, order) == Frame(name, files[name]) + rest
    decreases |order|
  {
    if order[0] in files {
      name, rest := order[0], StreamOf(files, order[1..]);
    } else {
      assert StreamOf(files, order) == StreamOf(files, order[1..]);
      name, rest := FirstFrame(files, order[1..]);
    }
  }

  /** A file whose frame leads one stream is a file of any equal stream. */
  lemma LeadingFile(f: Files, g: Files, order: seq<Name>)
    requires order != [] && order[0] in f && StreamOf(f, order) == StreamOf(g, order)
    ensures order[0] in g
  {
    StreamHead(f, order);
    var name, rest := FirstFrame(g, order);
    FrameUnique(order[0], name, f[order[0]], g[name], StreamOf(f, order[1..]), rest);
  }

  lemma {:induction false} EqualStreams(f: Files, g: Files, order: seq<Name>)
    requires StreamOf(f, order) == StreamOf(g, order)
    ensures SameFiles(f, g, order)
    decreases |order|
  {
    if order != [] {
      var n := order[0];
      if n in f || n in g {
        if n in f { LeadingFile(f, g, order); } else { LeadingFile(g, f, order); }
        StreamHead(f, order);
        StreamHead(g, order);
        FrameUnique(n, n, f[n], g[n], StreamOf(f, order[1..]), StreamOf(g, order[1..]));
      } else {
        assert StreamOf(f, order) == StreamOf(f, order[1..]) && StreamOf(g, order) == StreamOf(g, order[1..]);
      }
      EqualStreams(f, g, order[1..]);
      assert order == [n] + order[1..];
    }
  }

  lemma {:induction false} EqualFiles(f: Files, g: Files, order: seq<Name>)
    requires SameFiles(f, g, order)
    ensures StreamOf(f, order) == StreamOf(g, order)
    decreases |order|
  {
    if order != [] {
      assert order[0] in order && forall name :: name in order[1..] ==> name in order;
      EqualFiles(f, g, order[1..]);
    }
  }

  /** Two file maps feed the hash the same bytes exactly when they agree on every name of
      `FILE_ORDER`, present or absent, byte for byte. */
  lemma FramingIsInjective(f: Files, g: Files)
    ensures Stream(f) == Stream(g) <==> SameFiles(f, g, FILE_ORDER)
  {
    if Stream(f) == Stream(g) {
      EqualStreams(f, g, FILE_ORDER);
    } else if SameFiles(f, g, FILE_ORDER) {
      EqualFiles(f, g, FILE_ORDER);
    }
  }

  // ---------- The bytes, written out ----------

  /** A length is printed without leading zeros. */
  lemma {:induction false} DecimalHasNoLeadingZero(n: nat)
    ensures Decimal(n)[0] == 0x30 <==> n == 0
    ensures n < 10 ==> Decimal(n) == [0x30 + n]
    decreases n
  {
    if n >= 10 {
      DecimalHasNoLeadingZero(n / 10);
    }
  }

  /** Decimals are told apart by their numbers, so this is the only way to print a length. */
  lemma DecimalIsUnique(n: nat, digits: Bytes)
    requires digits != [] && (forall i :: 0 <= i < |digits| ==> 0x30 <= digits[i] <= 0x39)
    requires digits[0] != 0x30 || |digits| == 1
    requires ParseDecimal(digits) == n
    ensures digits == Decimal(n)
    decreases |digits|
  {
    var rest, last := digits[..|digits| - 1], digits[|digits| - 1];
    assert digits == rest + [last];
    if rest == [] {
      assert ParseDecimal([]) == 0;
    } else {
      ParsePositive(rest);
      DecimalIsUnique(n / 10, rest);
    }
  }

  lemma ParsePositive(digits: Bytes)
    requires digits != [] && (forall i :: 0 <= i < |digits| ==> 0x30 <= digits[i] <= 0x39)
    ensures ParseDecimal(digits) >= 0 && (digits[0] != 0x30 ==> ParseDecimal(digits) > 0)
    decreases |digits|
  {
    if |digits| > 1 {
      ParsePositive(digits[..|digits| - 1]);
    } else {
      assert digits[..0] == [] && ParseDecimal([]) == 0;
    }
  }

  /** A present file is its name's length, a colon, its name, a line feed, its content's length, a colon and
      its content; an absent one is nothing. */
  lemma WrittenPart(files: Files, name: Name)
    ensures Part(files, name) ==
            if name in files then
              Decimal(|name|) + [0x3A] + Ascii(name) + [0x0A] + Decimal(|files[name]|) + [0x3A] + files[name]
            else []
  {
  }

  /** The stream is the nine parts in this order. */
  lemma WrittenStream(files: Files)
    ensures Stream(files)
         == Part(files, "persona.yaml") + (Part(files, "AGENTS.md") + (Part(files, "BACKGROUND.md")
          + (Part(files, "VOICE.md") + (Part(files, "RELATIONSHIPS.md") + (Part(files, "SCENARIOS.md")
          + (Part(files, "PROVENANCE.md") + (Part(files, "SOURCES.md") + Part(files, "LICENSE"))))))))
  {
    OrderIs();
    UnfoldAt(files, 0);
    UnfoldAt(files, 1);
    UnfoldAt(files, 2);
    UnfoldAt(files, 3);
    UnfoldAt(files, 4);
    UnfoldAt(files, 5);
    UnfoldAt(files, 6);
    UnfoldAt(files, 7);
    UnfoldAt(files, 8);
    assert FILE_ORDER[9..] == [];
    Regroup(Part(files, "LICENSE"), [], []);
    assert FILE_ORDER[0..] == FILE_ORDER;
  }

  lemma OrderIs()
    ensures |FILE_ORDER| == 9 && FILE_ORDER[0] == "persona.yaml" && FILE_ORDER[1] == "AGENTS.md"
    ensures FILE_ORDER[2] == "BACKGROUND.md" && FILE_ORDER[3] == "VOICE.md" && FILE_ORDER[4] == "RELATIONSHIPS.md"
    ensures FILE_ORDER[5] == "SCENARIOS.md" && FILE_ORDER[6] == "PROVENANCE.md" && FILE_ORDER[7] == "SOURCES.md"
    ensures FILE_ORDER[8] == "LICENSE"
  {
  }

  lemma UnfoldAt(files: Files, i: nat)
    requires i < |FILE_ORDER|
    ensures StreamOf(files, FILE_ORDER[i..]) == Part(files, FILE_ORDER[i]) + StreamOf(files, FILE_ORDER[i + 1..])
  {
    UnfoldFrom(files, FILE_ORDER, i);
  }

  lemma UnfoldFrom(files: Files, order: seq<Name>, i: nat)
    requires i < |order|
    ensures StreamOf(files, order[i..]) == Part(files, order[i]) + StreamOf(files, order[i + 1..])
  {
    assert order[i..][0] == order[i] && order[i..][1..] == order[i + 1..];
    Unfold(files, order[i..]);
  }
}
