/** `canonical_slug` of `docs/persona-builder/verify_golden.py`, for any table of transliterations: the
    one-pass machine computes "split at separators, drop empty runs, transliterate, join with hyphens",
    and slugs are its fixed points. */
module Slug {
  import opened Sequences

  predicate IsWordChar(c: char) {
    'a' <= c <= 'z' || '0' <= c <= '9'
  }

  predicate IsWord(s: string) {
    s != "" && forall i :: 0 <= i < |s| ==> IsWordChar(s[i])
  }

  type Word = s: string | IsWord(s) witness "a"

  /** Transliterations: of non-ASCII characters, to words. */
  type Table = m: map<char, string> | forall c :: c in m ==> c >= '\U{0080}' && IsWord(m[c])

  /** What one character contributes; nothing when it is a separator. */
  function Value(table: Table, c: char): (r: string)
    ensures forall i :: 0 <= i < |r| ==> IsWordChar(r[i])
    ensures IsWordChar(c) ==> r == [c]
    ensures c == '-' ==> r == ""
  {
    if 'A' <= c <= 'Z' then [c + ' ']
    else if IsWordChar(c) then [c]
    else if c in table then table[c]
    else ""
  }

  /** Letters and digits pass, capitals are lowered, the table decides the rest, and what it does not list
      separates. */
  lemma ValueIs(table: Table, c: char)
    ensures 'a' <= c <= 'z' || '0' <= c <= '9' ==> Value(table, c) == [c]
    ensures 'A' <= c <= 'Z' ==> Value(table, c) == [(c as int + 32) as char] && IsWordChar((c as int + 32) as char)
    ensures c in table ==> Value(table, c) == table[c]
    ensures !('a' <= c <= 'z' || '0' <= c <= '9' || 'A' <= c <= 'Z' || c in table) ==> Value(table, c) == ""
  {
  }

  predicate IsSeparator(table: Table, c: char) {
    Value(table, c) == ""
  }

  // ---------- The contract in words ----------

  /** The runs between separators, empty ones included. */
  function Split(table: Table, name: string): (runs: seq<string>)
    ensures runs != []
  {
    if name == "" then [""]
    else Prepended(table, name[0], Split(table, name[1..]))
  }

  /** The runs of a name, from those of the name without its first character. */
  function Prepended(table: Table, c: char, runs: seq<string>): (r: seq<string>)
    requires runs != []
    ensures r != []
  {
    PrependRun(IsSeparator(table, c), c, runs)
  }

  function PrependRun(separates: bool, c: char, runs: seq<string>): (r: seq<string>)
    requires runs != []
    ensures r != []
  {
    if separates then [""] + runs else [[c] + runs[0]] + runs[1..]
  }

  function Transliterated(table: Table, run: string): string {
    if run == "" then "" else Value(table, run[0]) + Transliterated(table, run[1..])
  }

  /** The nonempty runs, transliterated. */
  function Words(table: Table, runs: seq<string>): seq<string> {
    if runs == [] then []
    else (if runs[0] == "" then [] else [Transliterated(table, runs[0])]) + Words(table, runs[1..])
  }

  function Join(words: seq<string>): string {
    if words == [] then ""
    else if |words| == 1 then words[0]
    else words[0] + "-" + Join(words[1..])
  }

  function Joined(table: Table, name: string): string {
    Join(Words(table, Split(table, name)))
  }

  function Slug(table: Table, name: string): string {
    if Joined(table, name) == "" then "persona" else Joined(table, name)
  }

  // ---------- The one-pass machine ----------

  /** `"".join(pieces)`. */
  function Flat(pieces: seq<string>): string {
    if pieces == [] then "" else Flat(pieces[..|pieces| - 1]) + pieces[|pieces| - 1]
  }

  lemma FlatAppends(pieces: seq<string>, piece: string)
    ensures Flat(pieces + [piece]) == Flat(pieces) + piece
  {
    assert (pieces + [piece])[..|pieces|] == pieces;
  }

  function LastOf(runs: seq<string>): string
    requires runs != []
  {
    runs[|runs| - 1]
  }

  /** The runs of a name, from those of the name without its last character. */
  function Appended(table: Table, runs: seq<string>, c: char): (r: seq<string>)
    requires runs != []
    ensures r != []
  {
    AppendRun(IsSeparator(table, c), runs, c)
  }

  function AppendRun(separates: bool, runs: seq<string>, c: char): (r: seq<string>)
    requires runs != []
    ensures r != []
  {
    if separates then runs + [""] else runs[..|runs| - 1] + [LastOf(runs) + [c]]
  }

  lemma EndsCommute(x: bool, d: char, runs: seq<string>, y: bool, c: char)
    requires runs != []
    ensures AppendRun(y, PrependRun(x, d, runs), c) == PrependRun(x, d, AppendRun(y, runs, c))
  {
    if !x && !y && |runs| == 1 {
      Regroup([d], runs[0], [c]);
    } else {
      assert AppendRun(y, PrependRun(x, d, runs), c) == PrependRun(x, d, AppendRun(y, runs, c));
    }
  }

  lemma {:induction false} SplitAppends(table: Table, name: string, c: char)
    ensures Split(table, name + [c]) == Appended(table, Split(table, name), c)
    decreases |name|
  {
    var longer := name + [c];
    if name == "" {
      assert longer[0] == c && longer[1..] == "";
      assert Split(table, "") == [""];
      assert [c] + "" == "" + [c];
      assert Prepended(table, c, [""]) == Appended(table, [""], c);
    } else {
      assert longer[0] == name[0] && longer[1..] == name[1..] + [c];
      SplitAppends(table, name[1..], c);
      EndsCommute(IsSeparator(table, name[0]), name[0], Split(table, name[1..]), IsSeparator(table, c), c);
    }
  }

  lemma {:induction false} WordsAppend(table: Table, runs: seq<string>, run: string)
    ensures Words(table, runs + [run]) == Words(table, runs) + if run == "" then [] else [Transliterated(table, run)]
    decreases |runs|
  {
    var longer := runs + [run];
    if runs == [] {
      assert longer[0] == run && longer[1..] == [];
    } else {
      assert longer[0] == runs[0] && longer[1..] == runs[1..] + [run];
      WordsAppend(table, runs[1..], run);
    }
  }

  lemma {:induction false} TransliteratedAppends(table: Table, run: string, c: char)
    ensures Transliterated(table, run + [c]) == Transliterated(table, run) + Value(table, c)
    decreases |run|
  {
    var longer := run + [c];
    TransliteratedUnfolds(table, longer);
    if run == "" {
      assert longer[0] == c && longer[1..] == "";
      Regroup(Value(table, c), "", "");
    } else {
      assert longer[0] == run[0] && longer[1..] == run[1..] + [c];
      TransliteratedAppends(table, run[1..], c);
      TransliteratedUnfolds(table, run);
      Regroup(Value(table, run[0]), Transliterated(table, run[1..]), Value(table, c));
    }
  }

  lemma TransliteratedUnfolds(table: Table, run: string)
    requires run != ""
    ensures Transliterated(table, run) == Value(table, run[0]) + Transliterated(table, run[1..])
  {
  }

  lemma {:induction false} JoinAppends(words: seq<string>, word: string)
    ensures Join(words + [word]) == if words == [] then word else Join(words) + "-" + word
    decreases |words|
  {
    var longer := words + [word];
    if words != [] {
      assert longer[0] == words[0] && longer[1..] == words[1..] + [word];
      JoinAppends(words[1..], word);
    }
  }

  lemma OneSeparator(table: Table, name: string, c: char)
    requires IsSeparator(table, c)
    ensures Words(table, Split(table, name + [c])) == Words(table, Split(table, name))
    ensures LastOf(Split(table, name + [c])) == ""
  {
    SplitAppends(table, name, c);
    WordsAppend(table, Split(table, name), "");
  }

  /** A kept character joins the last word, or starts a new one after a hyphen. */
  lemma OneKept(table: Table, name: string, c: char)
    requires !IsSeparator(table, c)
    ensures LastOf(Split(table, name + [c])) != "" && Words(table, Split(table, name + [c])) != []
    ensures Joined(table, name + [c]) == if LastOf(Split(table, name)) == "" && Words(table, Split(table, name)) != []
                                  then Joined(table, name) + "-" + Value(table, c)
                                  else Joined(table, name) + Value(table, c)
  {
    SplitAppends(table, name, c);
    if LastOf(Split(table, name)) == "" {
      NewWord(table, Split(table, name), c);
    } else {
      SameWord(table, Split(table, name), c);
    }
  }

  lemma NewWord(table: Table, runs: seq<string>, c: char)
    requires runs != [] && LastOf(runs) == "" && !IsSeparator(table, c)
    ensures Words(table, Appended(table, runs, c)) == Words(table, runs) + [Value(table, c)]
    ensures Join(Words(table, Appended(table, runs, c)))
         == if Words(table, runs) == [] then Value(table, c) else Join(Words(table, runs)) + "-" + Value(table, c)
  {
    var before := runs[..|runs| - 1];
    assert runs == before + [""];
    assert LastOf(runs) + [c] == [c];
    assert Appended(table, runs, c) == before + [[c]];
    WordsAppend(table, before, "");
    WordsAppend(table, before, [c]);
    TransliteratedOne(table, c);
    JoinAppends(Words(table, runs), Value(table, c));
  }

  lemma TransliteratedOne(table: Table, c: char)
    ensures Transliterated(table, [c]) == Value(table, c)
  {
    assert [c][1..] == "";
    Regroup(Value(table, c), "", "");
  }

  lemma SameWord(table: Table, runs: seq<string>, c: char)
    requires runs != [] && LastOf(runs) != "" && !IsSeparator(table, c)
    ensures Words(table, Appended(table, runs, c)) != []
    ensures Join(Words(table, Appended(table, runs, c))) == Join(Words(table, runs)) + Value(table, c)
  {
    var before, run := runs[..|runs| - 1], LastOf(runs);
    assert runs == before + [run];
    WordsAppend(table, before, run);
    WordsAppend(table, before, run + [c]);
    TransliteratedAppends(table, run, c);
    LongerLastWord(Words(table, before), Transliterated(table, run), Value(table, c));
  }

  lemma LongerLastWord(words: seq<string>, word: string, more: string)
    ensures Join(words + [word + more]) == Join(words + [word]) + more
  {
    JoinAppends(words, word);
    JoinAppends(words, word + more);
    Regroup(Join(words) + "-", word, more);
  }

  /** What the machine knows after a part of the name. */
  ghost predicate Read(table: Table, name: string, pieces: seq<string>, separatorPending: bool) {
    && Flat(pieces) == Joined(table, name)
    && (pieces == [] <==> Words(table, Split(table, name)) == [])
    && (pieces != [] ==> (separatorPending <==> LastOf(Split(table, name)) == ""))
  }

  lemma ReadNothing(table: Table)
    ensures Read(table, "", [], false)
  {
    assert Split(table, "") == [""];
    assert Words(table, [""][1..]) == [];
  }

  lemma ReadKept(table: Table, name: string, pieces: seq<string>, separatorPending: bool, c: char)
    requires Read(table, name, pieces, separatorPending) && !IsSeparator(table, c)
    ensures var hyphenated := if separatorPending && pieces != [] then pieces + ["-"] else pieces;
            Read(table, name + [c], hyphenated + [Value(table, c)], false)
  {
    OneKept(table, name, c);
    FlatAppends(pieces, "-");
    var hyphenated := if separatorPending && pieces != [] then pieces + ["-"] else pieces;
    FlatAppends(hyphenated, Value(table, c));
  }

  lemma ReadSeparator(table: Table, name: string, pieces: seq<string>, separatorPending: bool, c: char)
    requires Read(table, name, pieces, separatorPending) && IsSeparator(table, c)
    ensures Read(table, name + [c], pieces, true)
  {
    OneSeparator(table, name, c);
  }

  method CanonicalSlug(table: Table, name: string) returns (slug: string)
    ensures slug == Slug(table, name)
  {
    var pieces: seq<string>, separatorPending := [], false;
    ReadNothing(table);
    assert name[..0] == "";
    for i := 0 to |name|
      invariant Read(table, name[..i], pieces, separatorPending)
    {
      assert name[..i + 1] == name[..i] + [name[i]];
      var value := Value(table, name[i]);
      if value != "" {
        ReadKept(table, name[..i], pieces, separatorPending, name[i]);
        if separatorPending && pieces != [] {
          pieces := pieces + ["-"];
        }
        pieces := pieces + [value];
        separatorPending := false;
      } else {
        ReadSeparator(table, name[..i], pieces, separatorPending, name[i]);
        separatorPending := true;
      }
    }
    assert name[..|name|] == name;
    slug := Flat(pieces);
    if slug == "" {
      slug := "persona";
    }
  }

  // ---------- Slugs are the fixed points ----------

  /** Lower-case words joined by single hyphens. */
  ghost predicate Canonical(s: string) {
    && s != "" && s[0] != '-' && s[|s| - 1] != '-'
    && (forall i :: 0 <= i < |s| ==> IsWordChar(s[i]) || s[i] == '-')
    && forall i :: 0 < i < |s| ==> !(s[i - 1] == s[i] == '-')
  }

  ghost predicate AllWords(words: seq<string>) {
    forall i :: 0 <= i < |words| ==> IsWord(words[i])
  }

  lemma WordThen(word: string, s: string)
    requires IsWord(word) && Canonical(s)
    ensures Canonical(word + "-" + s)
  {
    var t := word + "-" + s;
    assert t[0] == word[0] && t[|t| - 1] == s[|s| - 1];
    forall i | 0 < i < |t| ensures !(t[i - 1] == t[i] == '-') {
      if i > |word| + 1 {
        assert t[i - 1] == s[i - |word| - 2] && t[i] == s[i - |word| - 1];
      }
    }
  }

  lemma {:induction false} JoinIsCanonical(words: seq<string>)
    requires words != [] && AllWords(words)
    ensures Canonical(Join(words))
    decreases |words|
  {
    assert IsWord(words[0]);
    if |words| > 1 {
      JoinIsCanonical(words[1..]);
      WordThen(words[0], Join(words[1..]));
    }
  }

  ghost predicate Kept(table: Table, run: string) {
    forall i :: 0 <= i < |run| ==> !IsSeparator(table, run[i])
  }

  lemma {:induction false} SplitKeeps(table: Table, name: string)
    ensures forall i :: 0 <= i < |Split(table, name)| ==> Kept(table, Split(table, name)[i])
    decreases |name|
  {
    if name != "" {
      SplitKeeps(table, name[1..]);
      assert Kept(table, Split(table, name[1..])[0]);
    }
  }

  lemma {:induction false} TransliteratedIsWord(table: Table, run: string)
    requires Kept(table, run)
    ensures forall i :: 0 <= i < |Transliterated(table, run)| ==> IsWordChar(Transliterated(table, run)[i])
    ensures run != "" ==> Transliterated(table, run) != ""
    decreases |run|
  {
    if run != "" {
      TransliteratedIsWord(table, run[1..]);
    }
  }

  lemma {:induction false} WordsAreWords(table: Table, runs: seq<string>)
    requires forall i :: 0 <= i < |runs| ==> Kept(table, runs[i])
    ensures AllWords(Words(table, runs))
    decreases |runs|
  {
    if runs != [] {
      assert Kept(table, runs[0]);
      TransliteratedIsWord(table, runs[0]);
      WordsAreWords(table, runs[1..]);
    }
  }

  /** The words a slug is made of. */
  function SlugWords(table: Table, name: string): seq<string> {
    var words := Words(table, Split(table, name));
    if words == [] then ["persona"] else words
  }

  lemma SlugJoinsItsWords(table: Table, name: string)
    ensures AllWords(SlugWords(table, name)) && Slug(table, name) == Join(SlugWords(table, name))
  {
    SplitKeeps(table, name);
    WordsAreWords(table, Split(table, name));
    if Words(table, Split(table, name)) != [] {
      JoinIsCanonical(Words(table, Split(table, name)));
    }
  }

  /** Every output is one or more nonempty words of lower-case letters and digits, joined by single
      hyphens. */
  lemma SlugIsCanonical(table: Table, name: string)
    ensures Canonical(Slug(table, name))
  {
    SlugJoinsItsWords(table, name);
    JoinIsCanonical(SlugWords(table, name));
  }

  /** Runs of a name that has only word characters and hyphens: joining the runs gives the name back. */
  lemma {:induction false} JoinSplit(table: Table, s: string)
    requires forall i :: 0 <= i < |s| ==> IsWordChar(s[i]) || s[i] == '-'
    ensures Join(Split(table, s)) == s
    ensures s != "" ==> (Split(table, s)[0] == "" <==> s[0] == '-')
    ensures forall i :: 0 <= i < |Split(table, s)| ==>
              forall j :: 0 <= j < |Split(table, s)[i]| ==> IsWordChar(Split(table, s)[i][j])
    decreases |s|
  {
    if s != "" {
      var runs := Split(table, s[1..]);
      JoinSplit(table, s[1..]);
      if s[0] == '-' {
        assert Split(table, s) == [""] + runs;
      } else {
        assert Split(table, s) == [[s[0]] + runs[0]] + runs[1..];
      }
    }
  }

  lemma {:induction false} RunsNotEmpty(table: Table, s: string)
    requires forall i :: 0 <= i < |s| ==> IsWordChar(s[i]) || s[i] == '-'
    requires s != "" && s[|s| - 1] != '-' && forall i :: 0 < i < |s| ==> !(s[i - 1] == s[i] == '-')
    ensures forall i :: 0 < i < |Split(table, s)| ==> Split(table, s)[i] != ""
    ensures Split(table, s)[0] == "" <==> s[0] == '-'
    decreases |s|
  {
    JoinSplit(table, s);
    if |s| > 1 {
      RunsNotEmpty(table, s[1..]);
    } else {
      assert Split(table, s[1..]) == [""];
    }
  }

  lemma {:induction false} WordsUntouched(table: Table, words: seq<string>)
    requires AllWords(words)
    ensures Words(table, words) == words
    decreases |words|
  {
    if words != [] {
      assert IsWord(words[0]);
      Untouched(table, words[0]);
      WordsUntouched(table, words[1..]);
    }
  }

  lemma {:induction false} Untouched(table: Table, word: string)
    requires forall i :: 0 <= i < |word| ==> IsWordChar(word[i])
    ensures Transliterated(table, word) == word
    decreases |word|
  {
    if word != "" {
      Untouched(table, word[1..]);
      TransliteratedUnfolds(table, word);
      assert [word[0]] + word[1..] == word;
    }
  }

  lemma CanonicalIsFixed(table: Table, s: string)
    requires Canonical(s)
    ensures Slug(table, s) == s
  {
    JoinSplit(table, s);
    RunsNotEmpty(table, s);
    forall i | 0 <= i < |Split(table, s)| ensures IsWord(Split(table, s)[i]) {
    }
    WordsUntouched(table, Split(table, s));
  }

  /** The canonical names are exactly the fixed points, so they are exactly the outputs. */
  lemma FixedExactlyWhenCanonical(table: Table, s: string)
    ensures Slug(table, s) == s <==> Canonical(s)
  {
    SlugIsCanonical(table, s);
    if Canonical(s) {
      CanonicalIsFixed(table, s);
    }
  }

  lemma SlugTwice(table: Table, name: string)
    ensures Slug(table, Slug(table, name)) == Slug(table, name)
  {
    SlugIsCanonical(table, name);
    CanonicalIsFixed(table, Slug(table, name));
  }

  // ---------- Which names share a slug ----------

  lemma {:induction false} SplitWord(table: Table, word: string, rest: string)
    requires forall i :: 0 <= i < |word| ==> IsWordChar(word[i])
    ensures Split(table, word) == [word]
    ensures Split(table, word + ("-" + rest)) == [word] + Split(table, rest)
    decreases |word|
  {
    var s := word + ("-" + rest);
    if word == "" {
      assert s[0] == '-' && s[1..] == rest;
    } else {
      assert s[0] == word[0] && s[1..] == word[1..] + ("-" + rest);
      assert [word[0]] + word[1..] == word;
      SplitWord(table, word[1..], rest);
      assert Split(table, s) == Prepended(table, word[0], [word[1..]] + Split(table, rest));
    }
  }

  lemma {:induction false} SplitJoin(table: Table, words: seq<string>)
    requires words != [] && AllWords(words)
    ensures Split(table, Join(words)) == words
    decreases |words|
  {
    assert IsWord(words[0]);
    if |words| == 1 {
      SplitWord(table, words[0], "");
    } else {
      SplitJoin(table, words[1..]);
      SplitWord(table, words[0], Join(words[1..]));
      Regroup(words[0], "-", Join(words[1..]));
    }
  }

  /** Two names share a slug exactly when they transliterate to the same words. */
  lemma SharedSlug(table: Table, x: string, y: string)
    ensures Slug(table, x) == Slug(table, y) <==> SlugWords(table, x) == SlugWords(table, y)
  {
    SlugJoinsItsWords(table, x);
    SlugJoinsItsWords(table, y);
    SplitJoin(table, SlugWords(table, x));
    SplitJoin(table, SlugWords(table, y));
  }
}
