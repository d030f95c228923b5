/** Filling a template: every replacement entry is applied with six global
    regexes, widest spelling first. Both copies of the engine do this; they
    differ only in the run allowed after a slash (`[^}]+` in the component,
    `[^}]*` in the utilities). */
module Replacement {
  import opened JsStrings
  import opened BracePatterns
  import opened Wrappers

  /** The regex for a tag written with `k` braces: `\{`×k NAME `\}`×k when
      `options` is `Nothing`, else `\{`×k NAME `/` RUN `\}`×k. The name is
      matched literally. */
  function Spelling(k: nat, name: string, options: Middle): (p: Pattern)
    requires 1 <= k <= 3
    ensures WellFormed(p) && |p.prefix| >= k && p.prefix[..k] == Opening(k) && p.prefix[k - 1] == '{'
  {
    if options == Nothing then Pattern(Opening(k) + name, Nothing, Closing(k))
    else Pattern(Opening(k) + name + "/", options, Closing(k))
  }

  /** The six regexes of one entry in the order they are applied: triple with
      options, triple, double with options, double, single with options, single. */
  function Spellings(name: string, options: Middle): (ps: seq<Pattern>)
    ensures |ps| == 6
  {
    seq(6, i requires 0 <= i < 6 => Spelling(3 - i / 2, name, if i % 2 == 0 then options else Nothing))
  }

  /** Every regex is well formed and starts with an opening brace. */
  predicate Braced(ps: seq<Pattern>) {
    forall i :: 0 <= i < |ps| ==> WellFormed(ps[i]) && ps[i].prefix[0] == '{'
  }

  /** The regexes applied one after the other, each to the previous result. */
  function ReplaceEach(s: string, ps: seq<Pattern>, v: string): string
    requires Braced(ps)
    decreases |ps|
  {
    if ps == [] then s else ReplaceEach(ReplaceAll(s, ps[0], v), ps[1..], v)
  }

  /** The same chain with JavaScript's `$` expansion of the value. */
  function ReplaceEachExpanding(s: string, ps: seq<Pattern>, v: string): string
    requires Braced(ps)
    decreases |ps|
  {
    if ps == [] then s else ReplaceEachExpanding(ReplaceAllExpanding(s, ps[0], v), ps[1..], v)
  }

  lemma {:induction false} SpellingsBraced(name: string, options: Middle)
    ensures Braced(Spellings(name, options))
  {
    var ps := Spellings(name, options);
    forall i | 0 <= i < 6 ensures WellFormed(ps[i]) && ps[i].prefix[0] == '{' {
      var k := 3 - i / 2;
      assert ps[i].prefix[..k] == Opening(k);
      assert ps[i].prefix[0] == Opening(k)[0];
    }
  }

  /** One entry `(name, value)` applied to the text, value inserted verbatim. */
  function ReplaceTag(s: string, name: string, v: string, options: Middle): string {
    SpellingsBraced(name, options);
    ReplaceEach(s, Spellings(name, options), v)
  }

  /** The loop over `Object.entries(replacements)`, value inserted verbatim. */
  function Substitute(s: string, entries: seq<(string, string)>, options: Middle): string
    decreases |entries|
  {
    if entries == [] then s
    else Substitute(ReplaceTag(s, entries[0].0, entries[0].1, options), entries[1..], options)
  }

  /** One entry as the source applies it: `String.prototype.replace` with the
      value as a replacement string. */
  function ReplaceTagExpanding(s: string, name: string, v: string, options: Middle): string {
    SpellingsBraced(name, options);
    ReplaceEachExpanding(s, Spellings(name, options), v)
  }

  /** The loop over the entries as the source performs it. */
  function SubstituteExpanding(s: string, entries: seq<(string, string)>, options: Middle): string
    decreases |entries|
  {
    if entries == [] then s
    else SubstituteExpanding(ReplaceTagExpanding(s, entries[0].0, entries[0].1, options), entries[1..], options)
  }

  /** Any of the six regexes of `name` matching at `j` spells `{name` at `j + k - 1`. */
  lemma {:induction false} SpellingHoldsKey(s: string, k: nat, name: string, options: Middle, j: nat)
    requires 1 <= k <= 3 && OccursAt(s, Spelling(k, name, options).prefix, j)
    ensures OccursAt(s, "{" + name, j + k - 1)
  {
    var pre := Spelling(k, name, options).prefix;
    var q := Opening(k) + name;
    SpellingPrefix(k, name, options);
    OpeningThen(k, name);
    OccursPrefix(s, pre, j, |q|);
    OccursSuffix(s, q, j, k - 1);
  }

  /** Where `pre` occurs, its prefixes occur too. */
  lemma {:induction false} OccursPrefix(s: string, pre: string, j: nat, b: nat)
    requires OccursAt(s, pre, j) && b <= |pre|
    ensures OccursAt(s, pre[..b], j)
  {
    SliceOfSlice(s, j, j + |pre|, 0, b);
    assert pre[..b] == pre[0..b];
  }

  /** Where `pre` occurs, its suffixes occur too. */
  lemma {:induction false} OccursSuffix(s: string, pre: string, j: nat, a: nat)
    requires OccursAt(s, pre, j) && a <= |pre|
    ensures OccursAt(s, pre[a..], j + a)
  {
    SliceOfSlice(s, j, j + |pre|, a, |pre|);
    assert pre[a..] == pre[a..|pre|];
  }

  /** A regex that matches nowhere leaves the text as it is. */
  lemma {:induction false} ReplaceAllNoMatch(s: string, p: Pattern, v: string)
    requires |p.prefix| > 0
    requires forall j :: 0 <= j <= |s| ==> MatchAt(s, j, p).None?
    ensures ReplaceAll(s, p, v) == s
  {
    NextMatchNone(s, p, 0);
  }

  lemma {:induction false} NextMatchNone(s: string, p: Pattern, from: nat)
    requires from <= |s|
    requires forall j :: from <= j <= |s| ==> MatchAt(s, j, p).None?
    ensures NextMatch(s, p, from).None?
    decreases |s| - from
  {
    if from < |s| {
      NextMatchNone(s, p, from + 1);
    }
  }

  /** The chain of regexes leaves alone a text none of them occurs in. */
  lemma {:induction false} ReplaceEachUntouched(s: string, ps: seq<Pattern>, v: string)
    requires Braced(ps)
    requires forall i, j :: 0 <= i < |ps| && 0 <= j <= |s| ==> MatchAt(s, j, ps[i]).None?
    ensures ReplaceEach(s, ps, v) == s
    decreases |ps|
  {
    if ps != [] {
      ReplaceAllNoMatch(s, ps[0], v);
      forall i, j | 0 <= i < |ps| - 1 && 0 <= j <= |s| ensures MatchAt(s, j, ps[1..][i]).None? {
        assert ps[1..][i] == ps[i + 1];
      }
      ReplaceEachUntouched(s, ps[1..], v);
    }
  }

  /** An entry whose name is not written after a brace anywhere in the text
      leaves the text as it is. */
  lemma {:induction false} ReplaceTagAbsent(s: string, name: string, v: string, options: Middle)
    requires !Includes(s, "{" + name)
    ensures ReplaceTag(s, name, v, options) == s
  {
    var ps := Spellings(name, options);
    SpellingsBraced(name, options);
    forall i, j | 0 <= i < 6 && 0 <= j <= |s| ensures MatchAt(s, j, ps[i]).None? {
      var k := 3 - i / 2;
      var o := if i % 2 == 0 then options else Nothing;
      if OccursAt(s, ps[i].prefix, j) {
        SpellingHoldsKey(s, k, name, o, j);
      }
    }
    ReplaceEachUntouched(s, ps, v);
  }

  /** A tag absent from the map stays literal: a text that mentions no entry's
      name after a brace is not changed by the substitution. */
  lemma {:induction false} SubstituteAbsent(s: string, entries: seq<(string, string)>, options: Middle)
    requires forall i :: 0 <= i < |entries| ==> !Includes(s, "{" + entries[i].0)
    ensures Substitute(s, entries, options) == s
    decreases |entries|
  {
    if entries != [] {
      ReplaceTagAbsent(s, entries[0].0, entries[0].1, options);
      forall i | 0 <= i < |entries| - 1 ensures !Includes(s, "{" + entries[1..][i].0) {
        assert entries[1..][i] == entries[i + 1];
      }
      SubstituteAbsent(s, entries[1..], options);
    }
  }

  /** A brace-free text is never changed by any substitution. */
  lemma {:induction false} SubstituteNoBrace(s: string, entries: seq<(string, string)>, options: Middle)
    requires '{' !in s
    ensures Substitute(s, entries, options) == s
  {
    forall i | 0 <= i < |entries| ensures !Includes(s, "{" + entries[i].0) {
      NoBraceExcludes(s, entries[i].0);
    }
    SubstituteAbsent(s, entries, options);
  }

  lemma {:induction false} NoBraceExcludes(s: string, name: string)
    requires '{' !in s
    ensures !Includes(s, "{" + name)
  {
    var r := IndexOfString(s, "{" + name);
    if r >= 0 {
      OccursHead(s, "{" + name, r);
    }
  }

  lemma {:induction false} OccursHead(s: string, pat: string, i: nat)
    requires OccursAt(s, pat, i) && |pat| > 0
    ensures pat[0] in s
  {
    assert s[i] == s[i..i + |pat|][0];
  }

  /** A tag as the template writes it: `k` braces, the name, optionally a slash
      and an options text, `k` closing braces. */
  function Written(k: nat, name: string, slashed: bool, opts: string): (w: string)
    requires 1 <= k <= 3
  {
    if slashed then Opening(k) + name + "/" + opts + Closing(k) else Opening(k) + name + Closing(k)
  }

  /** The written tag the regex run `options` accepts after the slash. */
  predicate Accepted(slashed: bool, opts: string, options: Middle) {
    slashed ==> '{' !in opts && '}' !in opts && (options == SomeRun ==> opts != [])
  }

  /** The only opening braces of a written tag are its first `k` characters. */
  lemma {:induction false} WrittenOpening(k: nat, name: string, slashed: bool, opts: string)
    requires 1 <= k <= 3 && '{' !in name && (slashed ==> '{' !in opts)
    ensures var w := Written(k, name, slashed, opts);
            && |w| > k + |name| && w[..k] == Opening(k) && '{' !in w[k..]
            && w[k + |name|] == (if slashed then '/' else '}')
  {
    var w := Written(k, name, slashed, opts);
    var tail := if slashed then name + "/" + opts + Closing(k) else name + Closing(k);
    assert w == Opening(k) + tail;
    assert w[k..] == tail;
    assert '{' !in Closing(k);
    assert w[k + |name|] == tail[|name|];
  }

  /** In a text whose only opening braces are its first `k` characters, a prefix
      of `k2 >= k` opening braces can only stand at index 0, with `k2 == k`. */
  lemma {:induction false} OpeningOnlyAtStart(s: string, k: nat, pre: string, k2: nat, j: nat)
    requires 1 <= k <= k2 <= 3 && |s| >= k && s[..k] == Opening(k) && '{' !in s[k..]
    requires |pre| >= k2 && forall t :: 0 <= t < k2 ==> pre[t] == '{'
    requires OccursAt(s, pre, j)
    ensures j == 0 && k2 == k
  {
    if j + k2 > k {
      OccursChar(s, pre, j, k2 - 1);
    }
  }

  /** Where `pre` occurs, the text agrees with it character by character. */
  lemma {:induction false} OccursChar(s: string, pre: string, j: nat, t: nat)
    requires OccursAt(s, pre, j) && t < |pre|
    ensures s[j + t] == pre[t]
  {
    assert s[j + t] == s[j..j + |pre|][t];
  }

  /** A written tag is denoted by the spelling of its own depth and shape. */
  lemma {:induction false} WrittenDenoted(k: nat, name: string, slashed: bool, opts: string, options: Middle)
    requires 1 <= k <= 3 && options != Nothing && Accepted(slashed, opts, options)
    ensures Denotes(Spelling(k, name, if slashed then options else Nothing), Written(k, name, slashed, opts))
  {
    var p := Spelling(k, name, if slashed then options else Nothing);
    var w := Written(k, name, slashed, opts);
    var m := if slashed then opts else [];
    if slashed {
      assert w == p.prefix + m + p.suffix;
    } else {
      assert w == p.prefix + m + p.suffix;
    }
    assert w[..|p.prefix|] == p.prefix;
    assert w[|w| - |p.suffix|..] == p.suffix;
    assert w[|p.prefix|..|w| - |p.suffix|] == m;
  }

  /** Where a written tag stands in a text, the spelling of its own depth and
      shape matches all of it there. */
  lemma {:induction false} WrittenMatches(s: string, d: nat, k: nat, name: string, slashed: bool, opts: string,
                                          options: Middle)
    requires 1 <= k <= 3 && options != Nothing && Accepted(slashed, opts, options)
    requires OccursAt(s, Written(k, name, slashed, opts), d)
    ensures MatchAt(s, d, Spelling(k, name, if slashed then options else Nothing))
            == Some(d + |Written(k, name, slashed, opts)|)
  {
    var w := Written(k, name, slashed, opts);
    WrittenDenoted(k, name, slashed, opts, options);
    MatchWhere(s, d, w, Spelling(k, name, if slashed then options else Nothing));
  }

  /** A prefix of at least `k` opening braces does not occur in a text whose only
      opening braces are its first `k`, unless it has exactly `k` and then agrees
      with the text at `k + n`. */
  lemma {:induction false} NoEarlierMatch(w: string, k: nat, pre: string, k2: nat, n: nat, j: nat)
    requires 1 <= k <= k2 <= 3 && |w| >= k && w[..k] == Opening(k) && '{' !in w[k..]
    requires |pre| >= k2 && forall t :: 0 <= t < k2 ==> pre[t] == '{'
    requires k2 == k ==> k + n < |pre| && k + n < |w| && pre[k + n] != w[k + n]
    ensures !OccursAt(w, pre, j)
  {
    if OccursAt(w, pre, j) {
      OpeningOnlyAtStart(w, k, pre, k2, j);
    }
  }

  /** The spellings applied before a written tag's own do not occur in it. */
  lemma {:induction false} EarlierAbsent(k: nat, name: string, slashed: bool, opts: string, options: Middle, i: nat, j: nat)
    requires 1 <= k <= 3 && '{' !in name && (slashed ==> '{' !in opts) && options != Nothing
    requires i < 2 * (3 - k) + (if slashed then 0 else 1)
    ensures !OccursAt(Written(k, name, slashed, opts), Spellings(name, options)[i].prefix, j)
  {
    var w := Written(k, name, slashed, opts);
    var k2 := 3 - i / 2;
    var o := if i % 2 == 0 then options else Nothing;
    var pre := Spelling(k2, name, o).prefix;
    assert Spellings(name, options)[i].prefix == pre;
    WrittenOpening(k, name, slashed, opts);
    // at the same depth the regex wants a slash where the plain tag closes
    SpellingPrefix(k2, name, o);
    NoEarlierMatch(w, k, pre, k2, |name|, j);
  }

  /** No regex of a chain occurs in a brace-free text. */
  lemma {:induction false} BraceFreeUntouched(v: string, ps: seq<Pattern>)
    requires Braced(ps) && '{' !in v
    ensures forall i, j :: 0 <= i < |ps| && 0 <= j <= |v| ==> MatchAt(v, j, ps[i]).None?
  {
    forall i, j | 0 <= i < |ps| && 0 <= j <= |v| ensures MatchAt(v, j, ps[i]).None? {
      if OccursAt(v, ps[i].prefix, j) {
        OccursHead(v, ps[i].prefix, j);
      }
    }
  }

  /** A regex that denotes the whole text replaces it by the value. */
  lemma {:induction false} ReplaceAllWhole(s: string, p: Pattern, v: string)
    requires WellFormed(p) && Denotes(p, s)
    ensures ReplaceAll(s, p, v) == v
  {
    MatchAtComplete(s, 0, |s|, p);
    assert NextMatch(s, p, 0) == Some((0, |s|));
    assert ReplaceAllFrom(s, p, v, |s|) == [];
    assert s[0..0] == [];
  }

  /** The chain turns the text into the value when the regexes before position
      `at` do not occur in it, the one at `at` denotes it, and the value has no
      opening brace for the later ones. */
  lemma {:induction false} ReplaceEachHits(s: string, ps: seq<Pattern>, v: string, at: nat)
    requires Braced(ps) && at < |ps| && '{' !in v
    requires forall i, j :: 0 <= i < at && 0 <= j <= |s| ==> MatchAt(s, j, ps[i]).None?
    requires Denotes(ps[at], s)
    ensures ReplaceEach(s, ps, v) == v
    decreases at
  {
    var rest := ps[1..];
    assert Braced(rest) by {
      forall i | 0 <= i < |rest| ensures WellFormed(rest[i]) && rest[i].prefix[0] == '{' {
        assert rest[i] == ps[i + 1];
      }
    }
    if at == 0 {
      ReplaceAllWhole(s, ps[0], v);
      BraceFreeUntouched(v, rest);
      ReplaceEachUntouched(v, rest, v);
    } else {
      ReplaceAllNoMatch(s, ps[0], v);
      forall i, j | 0 <= i < at - 1 && 0 <= j <= |s| ensures MatchAt(s, j, rest[i]).None? {
        assert rest[i] == ps[i + 1];
      }
      assert rest[at - 1] == ps[at];
      ReplaceEachHits(s, rest, v, at - 1);
    }
  }

  /** The spellings before a written tag's own match nowhere in it. */
  lemma {:induction false} EarlierNoMatch(k: nat, name: string, slashed: bool, opts: string, options: Middle)
    requires 1 <= k <= 3 && '{' !in name && (slashed ==> '{' !in opts) && options != Nothing
    ensures var w := Written(k, name, slashed, opts);
            var ps := Spellings(name, options);
            forall i, j :: 0 <= i < 2 * (3 - k) + (if slashed then 0 else 1) && 0 <= j <= |w| ==>
              MatchAt(w, j, ps[i]).None?
  {
    var w := Written(k, name, slashed, opts);
    var ps := Spellings(name, options);
    forall i, j | 0 <= i < 2 * (3 - k) + (if slashed then 0 else 1) && 0 <= j <= |w|
      ensures MatchAt(w, j, ps[i]).None?
    {
      EarlierAbsent(k, name, slashed, opts, options, i, j);
    }
  }

  /** The spelling a written tag is filled by sits at `2 * (3 - k)`, or one
      further for the plain form. */
  lemma {:induction false} OwnSpelling(k: nat, name: string, slashed: bool, options: Middle)
    requires 1 <= k <= 3
    ensures Spellings(name, options)[2 * (3 - k) + (if slashed then 0 else 1)]
            == Spelling(k, name, if slashed then options else Nothing)
  {
  }

  /** Every spelling of a tag is filled: the written tag becomes the value, for
      all three depths, with or without options. */
  lemma {:induction false} ReplaceTagWritten(k: nat, name: string, slashed: bool, opts: string, v: string, options: Middle)
    requires 1 <= k <= 3 && '{' !in name && '{' !in v && options != Nothing && Accepted(slashed, opts, options)
    ensures ReplaceTag(Written(k, name, slashed, opts), name, v, options) == v
  {
    var w := Written(k, name, slashed, opts);
    var at := 2 * (3 - k) + (if slashed then 0 else 1);
    SpellingsBraced(name, options);
    EarlierNoMatch(k, name, slashed, opts, options);
    OwnSpelling(k, name, slashed, options);
    WrittenDenoted(k, name, slashed, opts, options);
    ReplaceEachHits(w, Spellings(name, options), v, at);
  }

  /** Substituting one entry into its own written tag gives the value. */
  lemma {:induction false} SubstituteWritten(k: nat, name: string, slashed: bool, opts: string, v: string, options: Middle)
    requires 1 <= k <= 3 && '{' !in name && '{' !in v && options != Nothing && Accepted(slashed, opts, options)
    ensures Substitute(Written(k, name, slashed, opts), [(name, v)], options) == v
  {
    ReplaceTagWritten(k, name, slashed, opts, v, options);
    assert [(name, v)][1..] == [];
  }

  /** In a text whose only opening braces are its first `k` characters, a prefix
      of `k2` opening braces followed by another character ends its braces
      exactly where the text's end. */
  lemma {:induction false} BracesAlign(s: string, k: nat, pre: string, k2: nat, j: nat)
    requires 1 <= k <= 3 && 1 <= k2 && |s| >= k && s[..k] == Opening(k) && '{' !in s[k..]
    requires |pre| > k2 && pre[k2] != '{' && forall t :: 0 <= t < k2 ==> pre[t] == '{'
    requires OccursAt(s, pre, j)
    ensures j + k2 == k
  {
    OccursChar(s, pre, j, k2 - 1);
    OccursChar(s, pre, j, k2);
    if j + k2 < k {
      OpeningChar(s, k, j + k2);
    }
  }

  lemma {:induction false} OpeningChar(s: string, k: nat, t: nat)
    requires 1 <= k <= 3 && t < k <= |s| && s[..k] == Opening(k)
    ensures s[t] == '{'
  {
    assert s[t] == s[..k][t];
  }

  /** No spelling of the name matches in `{`×k NAME `/` `}`×k once the run
      after the slash must be non-empty: the plain regexes find a slash where
      they want a closing brace, the slashed ones an empty run. */
  lemma {:induction false} EmptyRunNoMatch(w: string, k: nat, n: nat, p: Pattern, k2: nat, j: nat)
    requires 1 <= k <= 3 && 1 <= k2 && |w| >= k + n + 2 && w[..k] == Opening(k) && '{' !in w[k..]
    requires w[k + n] == '/' && w[k + n + 1] == '}'
    requires |p.prefix| > k2 && p.prefix[k2] != '{' && forall t :: 0 <= t < k2 ==> p.prefix[t] == '{'
    requires || (|p.prefix| == k2 + n && p.middle == Nothing && p.suffix != [] && p.suffix[0] == '}')
             || (|p.prefix| == k2 + n + 1 && p.middle == SomeRun)
    requires j <= |w|
    ensures MatchAt(w, j, p).None?
  {
    if OccursAt(w, p.prefix, j) {
      BracesAlign(w, k, p.prefix, k2, j);
    }
  }

  /** With `[^}]+`, a slash followed directly by the closing braces is not a
      spelling of the tag: `{name/}` stays in the document. */
  lemma {:induction false} EmptyOptionsStay(k: nat, name: string, v: string)
    requires 1 <= k <= 3 && name != [] && '{' !in name
    ensures ReplaceTag(Written(k, name, true, ""), name, v, SomeRun) == Written(k, name, true, "")
  {
    var w := Written(k, name, true, "");
    var ps := Spellings(name, SomeRun);
    SpellingsBraced(name, SomeRun);
    forall i, j | 0 <= i < 6 && 0 <= j <= |w| ensures MatchAt(w, j, ps[i]).None? {
      EmptyOptionsNoMatch(k, name, i, j);
    }
    ReplaceEachUntouched(w, ps, v);
  }

  /** The last of `k` opening braces, then the name. */
  lemma {:induction false} OpeningThen(k: nat, name: string)
    requires 1 <= k <= 3
    ensures (Opening(k) + name)[k - 1..] == "{" + name
  {
    var q := Opening(k) + name;
    assert q[k - 1..] == [q[k - 1]] + q[k..];
    assert q[k..] == name;
  }

  /** The shape of one spelling's literal prefix. */
  lemma {:induction false} SpellingPrefix(k: nat, name: string, options: Middle)
    requires 1 <= k <= 3
    ensures var pre := Spelling(k, name, options).prefix;
            && |pre| == k + |name| + (if options == Nothing then 0 else 1)
            && pre[..k + |name|] == Opening(k) + name
            && (forall t :: 0 <= t < k ==> pre[t] == '{')
            && (name != [] ==> pre[k] == name[0])
            && (options != Nothing ==> pre[k + |name|] == '/')
  {
    var pre := Spelling(k, name, options).prefix;
    var q := Opening(k) + name;
    if options == Nothing {
      assert pre == q;
    } else {
      assert pre == q + "/";
    }
    assert pre[..|q|] == q;
    forall t | 0 <= t < k ensures pre[t] == '{' {
      assert pre[t] == q[t] == Opening(k)[t];
    }
    if name != [] {
      assert pre[k] == q[k];
    }
  }

  /** The characters of `{`×k NAME `/` `}`×k that the spellings meet. */
  lemma {:induction false} WrittenEmpty(k: nat, name: string)
    requires 1 <= k <= 3 && '{' !in name
    ensures var w := Written(k, name, true, "");
            && |w| == 2 * k + |name| + 1 && w[..k] == Opening(k) && '{' !in w[k..]
            && w[k + |name|] == '/' && w[k + |name| + 1] == '}'
  {
    var w := Written(k, name, true, "");
    WrittenOpening(k, name, true, "");
    assert w == Opening(k) + name + "/" + Closing(k);
    assert w[k + |name|] == '/' && w[k + |name| + 1] == '}';
  }

  /** One spelling at one index, for `EmptyOptionsStay`. */
  lemma {:induction false} EmptyOptionsNoMatch(k: nat, name: string, i: nat, j: nat)
    requires 1 <= k <= 3 && name != [] && '{' !in name && i < 6 && j <= |Written(k, name, true, "")|
    ensures MatchAt(Written(k, name, true, ""), j, Spellings(name, SomeRun)[i]).None?
  {
    var k2 := 3 - i / 2;
    var o := if i % 2 == 0 then SomeRun else Nothing;
    var p := Spelling(k2, name, o);
    assert Spellings(name, SomeRun)[i] == p;
    WrittenEmpty(k, name);
    SpellingPrefix(k2, name, o);
    EmptyRunNoMatch(Written(k, name, true, ""), k, |name|, p, k2, j);
  }

  /** `$&` in a replacement string stands for the match itself. */
  lemma {:induction false} ExpandAmp(matched: string, before: string, after: string)
    ensures ExpandReplacement("$&", matched, before, after) == matched
  {
    assert "$&"[2..] == [];
  }

  /** Replacing every match by `$&` gives back the text. */
  lemma {:induction false} AmpKeepsText(s: string, p: Pattern, from: nat)
    requires from <= |s| && |p.prefix| > 0
    ensures ReplaceAllExpandingFrom(s, p, "$&", from) == s[from..]
    decreases |s| - from
  {
    match NextMatch(s, p, from)
    case None =>
    case Some((i, e)) =>
      ExpandAmp(s[i..e], s[..i], s[e..]);
      AmpKeepsText(s, p, e);
      Rejoin(s, from, i, e);
  }

  lemma {:induction false} Rejoin(s: string, a: nat, b: nat, c: nat)
    requires a <= b <= c <= |s|
    ensures s[a..] == s[a..b] + s[b..c] + s[c..]
  {
    assert s[a..] == s[a..b] + s[b..];
    assert s[b..] == s[b..c] + s[c..];
  }

  lemma {:induction false} AmpKeepsEach(s: string, ps: seq<Pattern>)
    requires Braced(ps)
    ensures ReplaceEachExpanding(s, ps, "$&") == s
    decreases |ps|
  {
    if ps != [] {
      AmpKeepsText(s, ps[0], 0);
      assert Braced(ps[1..]) by {
        forall i | 0 <= i < |ps| - 1 ensures WellFormed(ps[1..][i]) && ps[1..][i].prefix[0] == '{' {
          assert ps[1..][i] == ps[i + 1];
        }
      }
      AmpKeepsEach(s, ps[1..]);
    }
  }

  /** As the source performs it, a form value `$&` leaves every spelling of its
      tag in the document instead of inserting the two characters. */
  lemma {:induction false} DollarValueKeepsTags(s: string, entries: seq<(string, string)>, options: Middle)
    requires forall i :: 0 <= i < |entries| ==> entries[i].1 == "$&"
    ensures SubstituteExpanding(s, entries, options) == s
    decreases |entries|
  {
    if entries != [] {
      SpellingsBraced(entries[0].0, options);
      AmpKeepsEach(s, Spellings(entries[0].0, options));
      forall i | 0 <= i < |entries| - 1 ensures entries[1..][i].1 == "$&" {
        assert entries[1..][i] == entries[i + 1];
      }
      DollarValueKeepsTags(s, entries[1..], options);
    }
  }

  /** The input that shows it: a written tag and the value `$&`. The source
      leaves `{name}` in place; the verbatim substitution writes `$&`. */
  lemma {:induction false} DollarValueDiffers(k: nat, name: string, options: Middle)
    requires 1 <= k <= 3 && '{' !in name && options != Nothing
    ensures SubstituteExpanding(Written(k, name, false, ""), [(name, "$&")], options) == Written(k, name, false, "")
    ensures Substitute(Written(k, name, false, ""), [(name, "$&")], options) == "$&"
  {
    DollarValueKeepsTags(Written(k, name, false, ""), [(name, "$&")], options);
    SubstituteWritten(k, name, false, "", "$&", options);
  }

  /** Values without `$` are inserted the same either way: the verbatim
      substitution differs from the source only on values that hold a `$`. */
  lemma {:induction false} SubstituteWithoutDollar(s: string, entries: seq<(string, string)>, options: Middle)
    requires forall i :: 0 <= i < |entries| ==> '$' !in entries[i].1
    ensures SubstituteExpanding(s, entries, options) == Substitute(s, entries, options)
    decreases |entries|
  {
    if entries != [] {
      var t := ReplaceTag(s, entries[0].0, entries[0].1, options);
      SpellingsBraced(entries[0].0, options);
      EachWithoutDollar(s, Spellings(entries[0].0, options), entries[0].1);
      forall i | 0 <= i < |entries| - 1 ensures '$' !in entries[1..][i].1 {
        assert entries[1..][i] == entries[i + 1];
      }
      SubstituteWithoutDollar(t, entries[1..], options);
    }
  }

  lemma {:induction false} EachWithoutDollar(s: string, ps: seq<Pattern>, v: string)
    requires Braced(ps) && '$' !in v
    ensures ReplaceEachExpanding(s, ps, v) == ReplaceEach(s, ps, v)
    decreases |ps|
  {
    if ps != [] {
      ExpandingIsLiteralWithoutDollar(s, ps[0], v, 0);
      assert Braced(ps[1..]) by {
        forall i | 0 <= i < |ps| - 1 ensures WellFormed(ps[1..][i]) && ps[1..][i].prefix[0] == '{' {
          assert ps[1..][i] == ps[i + 1];
        }
      }
      EachWithoutDollar(ReplaceAll(s, ps[0], v), ps[1..], v);
    }
  }
}
