/** The brace regexes of the template engine, as scanners. Every regex the engine
    builds has the shape PREFIX MIDDLE SUFFIX: a literal prefix of opening braces
    (and, for substitution, the tag name and a slash), then either nothing,
    `[^}]*` or `[^}]+`, then a literal run of closing braces. Because the middle
    class cannot cross a `}` and the suffix starts with one, such a regex matches
    at a given index in at most one way, so a match is a function of the index. */
module BracePatterns {
  import opened JsStrings
  import opened Wrappers

  /** What stands between the literal prefix and the closing braces. */
  datatype Middle = Nothing | AnyRun | SomeRun   // "", [^}]*, [^}]+

  datatype Pattern = Pattern(prefix: string, middle: Middle, suffix: string)

  /** The regex is one of the engine's: a non-empty prefix, and a suffix that
      starts with `}` whenever a middle run precedes it. */
  predicate WellFormed(p: Pattern) {
    |p.prefix| > 0 && (p.middle != Nothing ==> |p.suffix| > 0 && p.suffix[0] == '}')
  }

  /** `k` opening braces, for the depths the engine uses. */
  function Opening(k: nat): (r: string)
    requires 1 <= k <= 3
    ensures |r| == k
  {
    if k == 3 then "{{{" else if k == 2 then "{{" else "{"
  }

  /** `k` closing braces. */
  function Closing(k: nat): (r: string)
    requires 1 <= k <= 3
    ensures |r| == k
  {
    if k == 3 then "}}}" else if k == 2 then "}}" else "}"
  }

  /** The set of strings the regex denotes, stated directly. */
  predicate Denotes(p: Pattern, w: string) {
    && |w| >= |p.prefix| + |p.suffix|
    && w[..|p.prefix|] == p.prefix
    && w[|w| - |p.suffix|..] == p.suffix
    && var m := w[|p.prefix|..|w| - |p.suffix|];
       && '}' !in m
       && (p.middle == Nothing ==> m == [])
       && (p.middle == SomeRun ==> m != [])
  }

  /** End of the run of non-`}` characters that starts at `j`. */
  function RunEnd(s: string, j: nat): (e: nat)
    requires j <= |s|
    ensures j <= e <= |s|
    ensures '}' !in s[j..e]
    ensures e < |s| ==> s[e] == '}'
    decreases |s| - j
  {
    if j < |s| && s[j] != '}' then
      var e := RunEnd(s, j + 1);
      assert s[j..e] == [s[j]] + s[j + 1..e];
      e
    else j
  }

  /** The end of the regex's match starting exactly at `i`, if there is one. */
  function MatchAt(s: string, i: nat, p: Pattern): (r: Option<nat>)
    requires i <= |s|
    ensures r.Some? ==> i + |p.prefix| + |p.suffix| <= r.value <= |s|
  {
    if !OccursAt(s, p.prefix, i) then None
    else
      var j := i + |p.prefix|;
      var e := if p.middle == Nothing then j else RunEnd(s, j);
      if p.middle == SomeRun && e == j then None
      else if OccursAt(s, p.suffix, e) then Some(e + |p.suffix|)
      else None
  }

  /** A match found by the scanner is a string the regex denotes. */
  lemma {:induction false} MatchAtSound(s: string, i: nat, p: Pattern)
    requires i <= |s| && MatchAt(s, i, p).Some?
    ensures Denotes(p, s[i..MatchAt(s, i, p).value])
  {
    var e := MatchAt(s, i, p).value;
    MatchAtInPlace(s, i, p);
    InPlaceDenotes(s, i, e - |p.suffix|, e, p);
  }

  /** A match found at `i`, read off `s` itself. */
  lemma {:induction false} MatchAtInPlace(s: string, i: nat, p: Pattern)
    requires i <= |s| && MatchAt(s, i, p).Some?
    ensures var e := MatchAt(s, i, p).value;
            && i + |p.prefix| <= e - |p.suffix|
            && OccursAt(s, p.prefix, i) && OccursAt(s, p.suffix, e - |p.suffix|)
            && '}' !in s[i + |p.prefix|..e - |p.suffix|]
            && (p.middle == Nothing ==> i + |p.prefix| == e - |p.suffix|)
            && (p.middle == SomeRun ==> i + |p.prefix| < e - |p.suffix|)
  {
  }

  /** The converse of `DenotesInPlace`. */
  lemma {:induction false} InPlaceDenotes(s: string, i: nat, m: nat, e: nat, p: Pattern)
    requires i + |p.prefix| <= m && m + |p.suffix| == e <= |s|
    requires OccursAt(s, p.prefix, i) && OccursAt(s, p.suffix, m)
    requires '}' !in s[i + |p.prefix|..m]
    requires p.middle == Nothing ==> i + |p.prefix| == m
    requires p.middle == SomeRun ==> i + |p.prefix| < m
    ensures Denotes(p, s[i..e])
  {
    var w := s[i..e];
    SliceOfSlice(s, i, e, 0, |p.prefix|);
    SliceOfSlice(s, i, e, |w| - |p.suffix|, |w|);
    SliceOfSlice(s, i, e, |p.prefix|, |w| - |p.suffix|);
  }

  /** Every string the regex denotes, standing at `i`, is what the scanner finds
      there: the regex has one match at most at each index. */
  lemma {:induction false} MatchAtComplete(s: string, i: nat, e: nat, p: Pattern)
    requires WellFormed(p)
    requires i <= e <= |s| && Denotes(p, s[i..e])
    ensures MatchAt(s, i, p) == Some(e)
  {
    DenotesInPlace(s, i, e, p);
    var j := i + |p.prefix|;
    var m := e - |p.suffix|;
    if p.middle != Nothing {
      assert s[m] == s[m..e][0] == p.suffix[0];
      RunEndAt(s, j, m);
    }
  }

  /** A well-formed regex matches, where it stands, a string it denotes. */
  lemma {:induction false} MatchWhere(s: string, d: nat, w: string, p: Pattern)
    requires WellFormed(p) && Denotes(p, w) && OccursAt(s, w, d)
    ensures MatchAt(s, d, p) == Some(d + |w|)
  {
    assert s[d..d + |w|] == w;
    MatchAtComplete(s, d, d + |w|, p);
  }

  /** What `Denotes` says about the span `s[i..e]`, in terms of `s` itself. */
  lemma {:induction false} DenotesInPlace(s: string, i: nat, e: nat, p: Pattern)
    requires i <= e <= |s| && Denotes(p, s[i..e])
    ensures i + |p.prefix| + |p.suffix| <= e
    ensures OccursAt(s, p.prefix, i) && OccursAt(s, p.suffix, e - |p.suffix|)
    ensures '}' !in s[i + |p.prefix|..e - |p.suffix|]
    ensures p.middle == Nothing ==> i + |p.prefix| == e - |p.suffix|
    ensures p.middle == SomeRun ==> i + |p.prefix| < e - |p.suffix|
  {
    var w := s[i..e];
    SliceOfSlice(s, i, e, 0, |p.prefix|);
    SliceOfSlice(s, i, e, |w| - |p.suffix|, |w|);
    SliceOfSlice(s, i, e, |p.prefix|, |w| - |p.suffix|);
  }

  /** The run ends at the first `}`. */
  lemma {:induction false} RunEndAt(s: string, j: nat, m: nat)
    requires j <= m < |s| && '}' !in s[j..m] && s[m] == '}'
    ensures RunEnd(s, j) == m
    decreases m - j
  {
    if j < m {
      assert s[j] == s[j..m][0];
      assert s[j + 1..m] == s[j..m][1..];
      RunEndAt(s, j + 1, m);
    }
  }

  /** The next match at or after `from`, as `(start, end)`: what `RegExp.exec`
      returns for a global regex whose `lastIndex` is `from`. */
  function NextMatch(s: string, p: Pattern, from: nat): (r: Option<(nat, nat)>)
    requires from <= |s|
    ensures r.Some? ==> from <= r.value.0 <= |s| && MatchAt(s, r.value.0, p) == Some(r.value.1)
    decreases |s| - from
  {
    match MatchAt(s, from, p)
    case Some(e) => Some((from, e))
    case None => if from == |s| then None else NextMatch(s, p, from + 1)
  }

  /** The regex matches nowhere between `from` and the match `exec` returns, nor
      anywhere after `from` when it returns null. */
  lemma {:induction false} NextMatchFirst(s: string, p: Pattern, from: nat, i: nat)
    requires from <= i <= |s|
    requires NextMatch(s, p, from).None? || i < NextMatch(s, p, from).value.0
    ensures MatchAt(s, i, p).None?
    decreases |s| - from
  {
    if i > from {
      NextMatchFirst(s, p, from + 1, i);
    }
  }

  /** The extraction regex of depth `k`: `\{`×k `([^}]+)` `\}`×k. */
  function DepthPattern(k: nat): (p: Pattern)
    requires 1 <= k <= 3
    ensures WellFormed(p)
  {
    Pattern(Opening(k), SomeRun, Closing(k))
  }

  /** One successful `exec`: where the match starts, `match[0]` and `match[1]`. */
  datatype Found = Found(start: nat, text: string, capture: string)

  /** The `exec` result for a match spanning `s[i..e]`: its text and, inside
      the `k` braces on each side, its capture. */
  function Span(s: string, k: nat, i: nat, e: nat): (f: Found)
    requires i + 2 * k <= e <= |s|
    ensures f.start == i && |f.text| == e - i
  {
    Found(i, s[i..e], s[i + k..e - k])
  }

  /** The successive results of `exec` of the depth-`k` regex on `s`, from
      `lastIndex == from` until it returns null. */
  function FoundFrom(s: string, k: nat, from: nat): seq<Found>
    requires 1 <= k <= 3 && from <= |s|
    decreases |s| - from
  {
    match NextMatch(s, DepthPattern(k), from)
    case None => []
    case Some((i, e)) => [Span(s, k, i, e)] + FoundFrom(s, k, e)
  }

  /** When `exec` returns null the scan is over. */
  lemma {:induction false} FoundNone(s: string, k: nat, from: nat)
    requires 1 <= k <= 3 && from <= |s| && NextMatch(s, DepthPattern(k), from).None?
    ensures FoundFrom(s, k, from) == []
  {
  }

  /** A match is followed by the scan from its end. */
  lemma {:induction false} FoundCons(s: string, k: nat, from: nat, i: nat, e: nat)
    requires 1 <= k <= 3 && from <= |s| && NextMatch(s, DepthPattern(k), from) == Some((i, e))
    ensures FoundFrom(s, k, from) == [Span(s, k, i, e)] + FoundFrom(s, k, e)
  {
  }

  /** Where a match `exec` returns lies. */
  lemma {:induction false} NextMatchBounds(s: string, k: nat, from: nat, i: nat, e: nat)
    requires 1 <= k <= 3 && from <= |s| && NextMatch(s, DepthPattern(k), from) == Some((i, e))
    ensures from <= i && i + 2 * k <= e <= |s|
  {
  }

  /** Every match is `k` opening braces, a non-empty capture without `}`, and `k`
      closing braces, standing in `s` where it was found. */
  predicate WellFound(s: string, k: nat, f: Found)
    requires 1 <= k <= 3
  {
    && OccursAt(s, f.text, f.start)
    && f.text == Opening(k) + f.capture + Closing(k)
    && f.capture != [] && '}' !in f.capture
  }

  lemma {:induction false} FoundShape(s: string, k: nat, from: nat)
    requires 1 <= k <= 3 && from <= |s|
    ensures forall j :: 0 <= j < |FoundFrom(s, k, from)| ==>
              from <= FoundFrom(s, k, from)[j].start && WellFound(s, k, FoundFrom(s, k, from)[j])
    decreases |s| - from
  {
    var next := NextMatch(s, DepthPattern(k), from);
    if next.None? {
      FoundNone(s, k, from);
    } else {
      var (i, e) := next.value;
      NextMatchBounds(s, k, from, i, e);
      FoundCons(s, k, from, i, e);
      FoundShape(s, k, e);
      FoundAt(s, k, i, e);
      var fs := FoundFrom(s, k, from);
      var rest := FoundFrom(s, k, e);
      forall j | 0 <= j < |fs| ensures from <= fs[j].start && WellFound(s, k, fs[j]) {
        if j > 0 {
          assert fs[j] == rest[j - 1];
        }
      }
    }
  }

  /** Every match starts at or after where the scan began. */
  lemma {:induction false} FoundAfter(s: string, k: nat, from: nat)
    requires 1 <= k <= 3 && from <= |s|
    ensures StartsFrom(FoundFrom(s, k, from), from)
    decreases |s| - from
  {
    var next := NextMatch(s, DepthPattern(k), from);
    if next.None? {
      FoundNone(s, k, from);
    } else {
      var (i, e) := next.value;
      NextMatchBounds(s, k, from, i, e);
      FoundCons(s, k, from, i, e);
      FoundAfter(s, k, e);
      StartsFromCons(Span(s, k, i, e), FoundFrom(s, k, e), from, e);
    }
  }

  /** Lowering the bound keeps `StartsFrom`. */
  lemma {:induction false} StartsFromCons(f: Found, rest: seq<Found>, at: nat, e: nat)
    requires at <= f.start && at <= e && StartsFrom(rest, e)
    ensures StartsFrom([f] + rest, at)
  {
    var fs := [f] + rest;
    forall j | 0 <= j < |fs| ensures at <= fs[j].start {
      if j > 0 {
        assert fs[j] == rest[j - 1];
      }
    }
  }

  /** The three pieces of a match of `DepthPattern(k)`. */
  lemma {:induction false} DepthMatchParts(s: string, k: nat, i: nat, e: nat)
    requires 1 <= k <= 3 && i <= |s| && MatchAt(s, i, DepthPattern(k)) == Some(e)
    ensures i + k < e - k && e <= |s|
    ensures s[i..i + k] == Opening(k) && s[e - k..e] == Closing(k)
    ensures '}' !in s[i + k..e - k]
  {
    MatchAtInPlace(s, i, DepthPattern(k));
  }

  /** The shape of one match. */
  lemma {:induction false} FoundAt(s: string, k: nat, i: nat, e: nat)
    requires 1 <= k <= 3 && i <= |s| && MatchAt(s, i, DepthPattern(k)) == Some(e)
    ensures i + 2 * k <= e <= |s| && WellFound(s, k, Span(s, k, i, e))
  {
    DepthMatchParts(s, k, i, e);
    WellFoundOfParts(s, k, i, e);
  }

  /** Three pieces in a row make a well-formed match record. */
  lemma {:induction false} WellFoundOfParts(s: string, k: nat, i: nat, e: nat)
    requires 1 <= k <= 3 && i + k < e - k && e <= |s|
    requires s[i..i + k] == Opening(k) && s[e - k..e] == Closing(k)
    requires '}' !in s[i + k..e - k]
    ensures WellFound(s, k, Span(s, k, i, e))
  {
    SliceSplit(s, i, i + k, e);
    SliceSplit(s, i + k, e - k, e);
    var f := Span(s, k, i, e);
    assert f.text == s[i..i + k] + (s[i + k..e - k] + s[e - k..e]);
  }

  /** Each match ends at or before the next one starts. */
  predicate Ordered(fs: seq<Found>) {
    forall j :: 0 <= j < |fs| - 1 ==> fs[j].start + |fs[j].text| <= fs[j + 1].start
  }

  /** Every match starts at or after `at`. */
  predicate StartsFrom(fs: seq<Found>, at: nat) {
    forall j :: 0 <= j < |fs| ==> at <= fs[j].start
  }

  /** A match ending by `e` put before ordered matches starting from `e` keeps them ordered. */
  lemma {:induction false} OrderedCons(f: Found, rest: seq<Found>, e: nat)
    requires f.start + |f.text| <= e && StartsFrom(rest, e) && Ordered(rest)
    ensures Ordered([f] + rest)
  {
    var fs := [f] + rest;
    forall j | 0 <= j < |fs| - 1 ensures fs[j].start + |fs[j].text| <= fs[j + 1].start {
      if j == 0 {
        assert fs[1] == rest[0];
      } else {
        assert fs[j] == rest[j - 1] && fs[j + 1] == rest[j];
      }
    }
  }

  /** The matches come left to right and do not overlap. */
  lemma {:induction false} FoundOrdered(s: string, k: nat, from: nat)
    requires 1 <= k <= 3 && from <= |s|
    ensures Ordered(FoundFrom(s, k, from))
    decreases |s| - from
  {
    var next := NextMatch(s, DepthPattern(k), from);
    if next.None? {
      FoundNone(s, k, from);
    } else {
      var (i, e) := next.value;
      NextMatchBounds(s, k, from, i, e);
      FoundCons(s, k, from, i, e);
      FoundOrdered(s, k, e);
      FoundAfter(s, k, e);
      OrderedCons(Span(s, k, i, e), FoundFrom(s, k, e), e);
    }
  }

  /** No match is missed: every index where the regex matches is the start of a
      found match or lies inside one. */
  lemma {:induction false} FoundComplete(s: string, k: nat, from: nat, i: nat)
    requires 1 <= k <= 3 && from <= i <= |s| && MatchAt(s, i, DepthPattern(k)).Some?
    ensures Covered(FoundFrom(s, k, from), i)
    decreases |s| - from
  {
    var next := NextMatch(s, DepthPattern(k), from);
    if next.None? {
      NextMatchFirst(s, DepthPattern(k), from, i);
    } else {
      var (st, e) := next.value;
      NextMatchBounds(s, k, from, st, e);
      FoundCons(s, k, from, st, e);
      var f := Span(s, k, st, e);
      if i < st {
        NextMatchFirst(s, DepthPattern(k), from, i);
      } else if i < e {
        CoveredCons(f, FoundFrom(s, k, e), i);
      } else {
        FoundComplete(s, k, e, i);
        CoveredCons(f, FoundFrom(s, k, e), i);
      }
    }
  }

  /** Some match in `fs` covers index `i`. */
  predicate Covered(fs: seq<Found>, i: nat) {
    exists j :: 0 <= j < |fs| && Covers(fs[j], i)
  }

  /** Putting a match in front keeps what was covered and adds what it covers. */
  lemma {:induction false} CoveredCons(f: Found, rest: seq<Found>, i: nat)
    requires Covers(f, i) || Covered(rest, i)
    ensures Covered([f] + rest, i)
  {
    var fs := [f] + rest;
    if Covers(f, i) {
      assert Covers(fs[0], i);
    } else {
      var j :| 0 <= j < |rest| && Covers(rest[j], i);
      assert fs[j + 1] == rest[j];
    }
  }

  /** Index `i` is the start of match `f` or lies inside it. */
  predicate Covers(f: Found, i: nat) {
    f.start <= i < f.start + |f.text|
  }

  /** `s.replace(regex, v)` for a global regex, with `v` inserted as it is. */
  function ReplaceAllFrom(s: string, p: Pattern, v: string, from: nat): string
    requires from <= |s| && |p.prefix| > 0
    decreases |s| - from
  {
    match NextMatch(s, p, from)
    case None => s[from..]
    case Some((i, e)) => s[from..i] + v + ReplaceAllFrom(s, p, v, e)
  }

  /** A regex whose literal prefix occurs nowhere from `from` on leaves the rest
      of the text as it is. */
  lemma {:induction false} ReplaceAllNoPrefix(s: string, p: Pattern, v: string, from: nat)
    requires from <= |s| && |p.prefix| > 0
    requires forall j :: from <= j <= |s| ==> !OccursAt(s, p.prefix, j)
    ensures ReplaceAllFrom(s, p, v, from) == s[from..]
    decreases |s| - from
  {
    if from < |s| {
      ReplaceAllMiss(s, p, v, from);
      ReplaceAllNoPrefix(s, p, v, from + 1);
      assert s[from..] == [s[from]] + s[from + 1..];
    } else {
      assert NextMatch(s, p, from).None?;
    }
  }

  function ReplaceAll(s: string, p: Pattern, v: string): string
    requires |p.prefix| > 0
  {
    ReplaceAllFrom(s, p, v, 0)
  }

  /** Replacing starts with the value when the regex matches right where the
      scan stands. */
  lemma {:induction false} ReplaceAllHit(s: string, p: Pattern, v: string, from: nat, e: nat)
    requires from <= |s| && |p.prefix| > 0 && MatchAt(s, from, p) == Some(e)
    ensures ReplaceAllFrom(s, p, v, from) == v + ReplaceAllFrom(s, p, v, e)
  {
    assert NextMatch(s, p, from) == Some((from, e));
    assert s[from..from] == [];
  }

  /** Where the regex does not match, the character is kept and the scan moves
      on by one. */
  lemma {:induction false} ReplaceAllMiss(s: string, p: Pattern, v: string, from: nat)
    requires from < |s| && |p.prefix| > 0 && MatchAt(s, from, p).None?
    ensures ReplaceAllFrom(s, p, v, from) == [s[from]] + ReplaceAllFrom(s, p, v, from + 1)
  {
    var next := NextMatch(s, p, from + 1);
    assert NextMatch(s, p, from) == next;
    if next.None? {
      SliceCons(s, from, |s|);
    } else {
      var i, e := next.value.0, next.value.1;
      SliceCons(s, from, i);
      ConsAppend(s[from], s[from + 1..i], v, ReplaceAllFrom(s, p, v, e));
    }
  }

  lemma {:induction false} ConsAppend(c: char, m: string, v: string, r: string)
    ensures [c] + m + v + r == [c] + (m + v + r)
  {
  }

  /** A stretch where the regex matches nowhere is kept as it is. */
  lemma {:induction false} ReplaceAllSkip(s: string, p: Pattern, v: string, from: nat, to: nat)
    requires from <= to <= |s| && |p.prefix| > 0
    requires forall j :: from <= j < to ==> MatchAt(s, j, p).None?
    ensures ReplaceAllFrom(s, p, v, from) == s[from..to] + ReplaceAllFrom(s, p, v, to)
    decreases |s| - from
  {
    if from < to {
      var rest := ReplaceAllFrom(s, p, v, to);
      ReplaceAllMiss(s, p, v, from);
      ReplaceAllSkip(s, p, v, from + 1, to);
      SliceCons(s, from, to);
      AppendAssoc([s[from]], s[from + 1..to], rest);
    }
  }

  lemma {:induction false} SliceCons(s: string, from: nat, to: nat)
    requires from < to <= |s|
    ensures s[from..to] == [s[from]] + s[from + 1..to]
  {
  }

  lemma {:induction false} AppendAssoc(a: string, b: string, c: string)
    ensures a + (b + c) == (a + b) + c
  {
  }

  /** At the end of the text there is nothing left to replace. */
  lemma {:induction false} ReplaceAllEnd(s: string, p: Pattern, v: string)
    requires |p.prefix| > 0
    ensures ReplaceAllFrom(s, p, v, |s|) == []
  {
    assert NextMatch(s, p, |s|).None?;
  }

  /** The text from `d` on is the stretches `ws`, one after the other; the
      regex matches exactly the stretches marked in `hits`, each where it
      starts, and nowhere inside the others. */
  predicate Segments(s: string, d: nat, ws: seq<string>, hits: seq<bool>, p: Pattern)
    requires |ws| == |hits|
    decreases |ws|
  {
    if ws == [] then d == |s|
    else Cut(s, d, ws[0], hits[0], p) && Segments(s, d + |ws[0]|, ws[1..], hits[1..], p)
  }

  /** The stretch `w` stands at `d`; if it is marked the regex matches all of
      it there, and otherwise the regex matches nowhere inside it. */
  predicate Cut(s: string, d: nat, w: string, hit: bool, p: Pattern) {
    && OccursAt(s, w, d)
    && (hit ==> MatchAt(s, d, p) == Some(d + |w|))
    && (!hit ==> Misses(s, p, d, d + |w|))
  }

  /** The regex matches at no position from `j` up to, not including, `e`. */
  predicate Misses(s: string, p: Pattern, j: nat, e: nat)
    requires e <= |s|
    decreases e - j
  {
    j < e ==> MatchAt(s, j, p).None? && Misses(s, p, j + 1, e)
  }

  lemma {:induction false} MissesAll(s: string, p: Pattern, j: nat, e: nat)
    requires e <= |s|
    ensures Misses(s, p, j, e) <==> forall t :: j <= t < e ==> MatchAt(s, t, p).None?
    decreases e - j
  {
    if j < e {
      MissesAll(s, p, j + 1, e);
    }
  }

  /** The stretches in order, each marked one replaced by `v`. */
  function Outs(ws: seq<string>, hits: seq<bool>, v: string): string
    requires |ws| == |hits|
    decreases |ws|
  {
    if ws == [] then [] else (if hits[0] then v else ws[0]) + Outs(ws[1..], hits[1..], v)
  }

  /** Replacing every match over a text cut into such stretches puts `v` for
      each marked stretch and keeps the others. */
  lemma {:induction false} ReplaceAllSegments(s: string, d: nat, ws: seq<string>, hits: seq<bool>,
                                              p: Pattern, v: string)
    requires |ws| == |hits| && |p.prefix| > 0 && d <= |s| && Segments(s, d, ws, hits, p)
    ensures ReplaceAllFrom(s, p, v, d) == Outs(ws, hits, v)
    decreases |ws|
  {
    if ws == [] {
      ReplaceAllEnd(s, p, v);
    } else {
      var e := d + |ws[0]|;
      ReplaceAllSegments(s, e, ws[1..], hits[1..], p, v);
      if hits[0] {
        ReplaceAllHit(s, p, v, d, e);
      } else {
        MissesAll(s, p, d, e);
        ReplaceAllSkip(s, p, v, d, e);
        assert s[d..e] == ws[0];
      }
    }
  }

  /** What `$$`, `$&`, `` $` `` and `$'` stand for: a dollar sign, the match,
      the text before it and the text after it. */
  function DollarPiece(t: char, matched: string, before: string, after: string): string {
    if t == '$' then "$" else if t == '&' then matched else if t == '`' then before else after
  }

  /** `GetSubstitution` of ECMAScript applied to a replacement string, for a regex
      without capture groups: `$$` gives `$`, `$&` the match, `` $` `` the text
      before it and `$'` the text after it; any other `$` stays as it is. */
  function ExpandReplacement(v: string, matched: string, before: string, after: string): (r: string)
    ensures '$' !in v ==> r == v
    decreases |v|
  {
    if |v| == 0 then ""
    else if v[0] == '$' && |v| >= 2 && v[1] in "$&`'" then
      DollarPiece(v[1], matched, before, after) + ExpandReplacement(v[2..], matched, before, after)
    else
      assert '$' !in v ==> '$' !in v[1..];
      assert v == [v[0]] + v[1..];
      [v[0]] + ExpandReplacement(v[1..], matched, before, after)
  }

  /** A `$` before a character other than the four pattern characters stays. */
  lemma {:induction false} ExpandOther(c: char, w: string, matched: string, before: string, after: string)
    requires c !in "$&`'"
    ensures ExpandReplacement(['$', c] + w, matched, before, after) == "$" + ExpandReplacement([c] + w, matched, before, after)
  {
    assert (['$', c] + w)[1..] == [c] + w;
  }

  /** A `$` at the end of the replacement string stays. */
  lemma {:induction false} ExpandLoneDollar(matched: string, before: string, after: string)
    ensures ExpandReplacement("$", matched, before, after) == "$"
  {
    assert "$"[1..] == [];
  }

  /** A character other than `$` stays. */
  lemma {:induction false} ExpandLiteral(c: char, w: string, matched: string, before: string, after: string)
    requires c != '$'
    ensures ExpandReplacement([c] + w, matched, before, after) == [c] + ExpandReplacement(w, matched, before, after)
  {
    assert ([c] + w)[1..] == w;
  }

  /** Each of the four patterns gives its piece, and the rest is read on. */
  lemma {:induction false} ExpandPattern(t: char, w: string, matched: string, before: string, after: string)
    requires t in "$&`'"
    ensures ExpandReplacement(['$', t] + w, matched, before, after)
            == DollarPiece(t, matched, before, after) + ExpandReplacement(w, matched, before, after)
  {
    assert (['$', t] + w)[2..] == w;
  }

  /** `v.replace(/\$/g, '$$$$')`: every `$` of a value doubled. */
  function EscapeDollars(v: string): (r: string)
    ensures multiset(r)['$'] == 2 * multiset(v)['$']
    decreases |v|
  {
    if v == [] then []
    else
      assert v == [v[0]] + v[1..];
      (if v[0] == '$' then "$$" else [v[0]]) + EscapeDollars(v[1..])
  }

  /** An escaped value expands back to itself, at any match: doubling the `$`
      signs is how a value reaches the document verbatim through `replace`. */
  lemma {:induction false} ExpandEscaped(v: string, matched: string, before: string, after: string)
    ensures ExpandReplacement(EscapeDollars(v), matched, before, after) == v
    decreases |v|
  {
    if v != [] {
      ExpandEscaped(v[1..], matched, before, after);
      if v[0] == '$' {
        ExpandPattern('$', EscapeDollars(v[1..]), matched, before, after);
      } else {
        ExpandLiteral(v[0], EscapeDollars(v[1..]), matched, before, after);
      }
      assert v == [v[0]] + v[1..];
    }
  }

  /** `s.replace(regex, v)` for a global regex as JavaScript performs it: the
      replacement string's `$` patterns are expanded at every match. */
  function ReplaceAllExpandingFrom(s: string, p: Pattern, v: string, from: nat): string
    requires from <= |s| && |p.prefix| > 0
    decreases |s| - from
  {
    match NextMatch(s, p, from)
    case None => s[from..]
    case Some((i, e)) =>
      s[from..i] + ExpandReplacement(v, s[i..e], s[..i], s[e..]) + ReplaceAllExpandingFrom(s, p, v, e)
  }

  function ReplaceAllExpanding(s: string, p: Pattern, v: string): string
    requires |p.prefix| > 0
  {
    ReplaceAllExpandingFrom(s, p, v, 0)
  }

  /** Without a `$` in the value, JavaScript's replacement is the literal one. */
  lemma {:induction false} ExpandingIsLiteralWithoutDollar(s: string, p: Pattern, v: string, from: nat)
    requires from <= |s| && |p.prefix| > 0 && '$' !in v
    ensures ReplaceAllExpandingFrom(s, p, v, from) == ReplaceAllFrom(s, p, v, from)
    decreases |s| - from
  {
    match NextMatch(s, p, from)
    case None =>
    case Some((i, e)) => ExpandingIsLiteralWithoutDollar(s, p, v, e);
  }
}
