/** Filling a whole template. The text is cut into pieces: stretches of plain
    text without an opening brace, and tags as the template writes them. The
    six regexes of an entry then turn every tag of the entry's name into the
    value wherever it stands, whatever text surrounds it, and leave every
    other piece alone; the loop over the entries fills each tag with the
    value of the first entry of its name. */
module Filling {
  import opened Wrappers
  import opened JsStrings
  import opened BracePatterns
  import opened Replacement

  type Depth = k: nat | 1 <= k <= 3 witness 1

  /** A stretch of template text: plain text, or a tag written with `depth`
      braces, its name and, after a slash, an options text. */
  datatype Piece = Plain(text: string) | Tag(depth: Depth, name: string, slashed: bool, opts: string)

  function PieceText(pc: Piece): string {
    match pc
    case Plain(t) => t
    case Tag(k, n, sl, o) => Written(k, n, sl, o)
  }

  /** The template text the pieces make, in order. */
  function Assemble(pcs: seq<Piece>): string
    decreases |pcs|
  {
    if pcs == [] then "" else PieceText(pcs[0]) + Assemble(pcs[1..])
  }

  /** A name the six regexes spell without ambiguity: non-empty, without a
      brace and without a slash. */
  predicate TagName(n: string) {
    n != [] && '{' !in n && '}' !in n && '/' !in n
  }

  /** Plain text holds no opening brace; a tag has such a name and options
      the regex run `options` accepts. */
  predicate Fits(pc: Piece, options: Middle) {
    match pc
    case Plain(t) => '{' !in t
    case Tag(_, n, sl, o) => TagName(n) && Accepted(sl, o, options)
  }

  predicate AllFit(pcs: seq<Piece>, options: Middle) {
    forall i :: 0 <= i < |pcs| ==> Fits(pcs[i], options)
  }

  /** The place in an entry's chain of the regex that spells a tag of depth
      `k`, with or without options. */
  function Rank(k: Depth, slashed: bool): nat {
    2 * (3 - k) + (if slashed then 0 else 1)
  }

  /** A piece once the first `upto` regexes of `name` have run: a tag of that
      name spelled by one of them is now the value. */
  function FillPiece(pc: Piece, name: string, v: string, upto: nat): Piece {
    if pc.Tag? && pc.name == name && Rank(pc.depth, pc.slashed) < upto then Plain(v) else pc
  }

  function FillPieces(pcs: seq<Piece>, name: string, v: string, upto: nat): (r: seq<Piece>)
    ensures |r| == |pcs|
    ensures forall i :: 0 <= i < |pcs| ==> r[i] == FillPiece(pcs[i], name, v, upto)
    decreases |pcs|
  {
    if pcs == [] then []
    else
      var r := [FillPiece(pcs[0], name, v, upto)] + FillPieces(pcs[1..], name, v, upto);
      assert forall i :: 0 < i < |pcs| ==> pcs[i] == pcs[1..][i - 1];
      r
  }

  /** The tags of `name` still waiting for a regex come at `at` or later. */
  predicate PendingFrom(pcs: seq<Piece>, name: string, at: nat) {
    forall i :: 0 <= i < |pcs| && pcs[i].Tag? && pcs[i].name == name ==> Rank(pcs[i].depth, pcs[i].slashed) >= at
  }

  // ---------------------------------------------------------------------------
  // Reference: the filled template

  /** The value of the first entry named `name`. */
  function Lookup(entries: seq<(string, string)>, name: string): (r: Option<string>)
    ensures r.Some? <==> exists i :: 0 <= i < |entries| && entries[i].0 == name
    ensures r.Some? ==> exists i :: 0 <= i < |entries| && entries[i] == (name, r.value)
                                    && forall j :: 0 <= j < i ==> entries[j].0 != name
    decreases |entries|
  {
    if entries == [] then None
    else if entries[0].0 == name then Some(entries[0].1)
    else
      var r := Lookup(entries[1..], name);
      assert forall i :: 0 < i < |entries| ==> entries[i] == entries[1..][i - 1];
      r
  }

  /** A tag with an entry becomes that entry's value; every other piece stays. */
  function FilledPiece(pc: Piece, entries: seq<(string, string)>): Piece {
    if pc.Tag? && Lookup(entries, pc.name).Some? then Plain(Lookup(entries, pc.name).value) else pc
  }

  function Filled(pcs: seq<Piece>, entries: seq<(string, string)>): (r: seq<Piece>)
    ensures |r| == |pcs|
    ensures forall i :: 0 <= i < |pcs| ==> r[i] == FilledPiece(pcs[i], entries)
    decreases |pcs|
  {
    if pcs == [] then []
    else
      var r := [FilledPiece(pcs[0], entries)] + Filled(pcs[1..], entries);
      assert forall i :: 0 < i < |pcs| ==> pcs[i] == pcs[1..][i - 1];
      r
  }

  // ---------------------------------------------------------------------------
  // What a written tag and a regex match leave in the text

  /** The text at `d` holds a tag `len` characters long: `k` opening braces,
      the name `m`, then `/` or `}`, and no opening brace after the braces. */
  predicate TagAt(s: string, d: nat, len: nat, k: nat, m: string, sl: bool) {
    && k + |m| < len && d + len <= |s|
    && (forall t :: d <= t < d + k ==> s[t] == '{')
    && (forall t :: d + k <= t < d + len ==> s[t] != '{')
    && s[d + k..d + k + |m|] == m
    && s[d + k + |m|] == (if sl then '/' else '}')
  }

  /** The text at `j` holds `k2` opening braces, `name`, then `/` or `}`. */
  predicate SpelledAt(s: string, j: nat, k2: nat, name: string, slash: bool) {
    && j + k2 + |name| < |s|
    && (forall t :: j <= t < j + k2 ==> s[t] == '{')
    && s[j + k2..j + k2 + |name|] == name
    && s[j + k2 + |name|] == (if slash then '/' else '}')
  }

  /** `{`×k, the name, then `/` or `}`; no opening brace after the first `k`. */
  lemma {:induction false} WrittenChars(k: Depth, m: string, sl: bool, o: string)
    requires '{' !in m && (sl ==> '{' !in o)
    ensures var w := Written(k, m, sl, o);
            && |w| > k + |m|
            && (forall t :: 0 <= t < k ==> w[t] == '{')
            && (forall t :: k <= t < |w| ==> w[t] != '{')
            && w[k..k + |m|] == m
            && w[k + |m|] == (if sl then '/' else '}')
  {
    var w := Written(k, m, sl, o);
    WrittenOpening(k, m, sl, o);
    forall t | 0 <= t < k ensures w[t] == '{' {
      assert w[t] == w[..k][t];
    }
    forall t | k <= t < |w| ensures w[t] != '{' {
      assert w[t] == w[k..][t - k];
    }
    var tail := if sl then "/" + o + Closing(k) else Closing(k);
    assert w == Opening(k) + m + tail;
  }

  /** Where `w` stands at `d`, the text agrees with it character by character. */
  lemma {:induction false} StandsAt(s: string, w: string, d: nat, t: nat)
    requires OccursAt(s, w, d) && t < |w|
    ensures s[d + t] == w[t]
  {
    OccursChar(s, w, d, t);
  }

  /** Where `w` stands at `d`, the slice of the text is the slice of `w`. */
  lemma {:induction false} StandsSlice(s: string, w: string, d: nat, a: nat, b: nat)
    requires OccursAt(s, w, d) && a <= b <= |w|
    ensures s[d + a..d + b] == w[a..b]
  {
    SliceOfSlice(s, d, d + |w|, a, b);
  }

  /** A written tag standing in the text leaves its characters there. */
  lemma {:induction false} WrittenTagAt(s: string, d: nat, k: Depth, m: string, sl: bool, o: string)
    requires OccursAt(s, Written(k, m, sl, o), d) && '{' !in m && (sl ==> '{' !in o)
    ensures TagAt(s, d, |Written(k, m, sl, o)|, k, m, sl)
  {
    var w := Written(k, m, sl, o);
    WrittenChars(k, m, sl, o);
    forall t | d <= t < d + |w| ensures s[t] == w[t - d] {
      StandsAt(s, w, d, t - d);
    }
    StandsSlice(s, w, d, k, k + |m|);
  }

  /** A string that starts with `a + b` holds `b` right after `a`. */
  lemma {:induction false} PrefixTail(q: string, a: string, b: string)
    requires |a| + |b| <= |q| && q[..|a| + |b|] == a + b
    ensures q[|a|..|a| + |b|] == b
  {
    assert q[|a|..|a| + |b|] == q[..|a| + |b|][|a|..];
  }

  /** A match of the regex of depth `k2` for `name` leaves its braces, the
      name, then `/` if the regex takes options and `}` if not. */
  lemma {:induction false} MatchSpelled(s: string, j: nat, k2: nat, name: string, o2: Middle)
    requires 1 <= k2 <= 3 && j <= |s|
    requires MatchAt(s, j, Spelling(k2, name, o2)).Some?
    ensures SpelledAt(s, j, k2, name, o2 != Nothing)
  {
    var p := Spelling(k2, name, o2);
    var pre := p.prefix;
    MatchAtInPlace(s, j, p);
    SpellingPrefix(k2, name, o2);
    if o2 != Nothing {
      OccursChar(s, pre, j, k2 + |name|);
    } else {
      var e := MatchAt(s, j, p).value;
      OccursChar(s, p.suffix, e - |p.suffix|, 0);
    }
    SpelledFromPrefix(s, j, k2, name, pre, o2 != Nothing);
  }

  /** A prefix of braces and a name standing in the text, followed there by
      `/` or `}`, is spelled at that place. */
  lemma {:induction false} SpelledFromPrefix(s: string, j: nat, k2: nat, name: string, pre: string, slash: bool)
    requires 1 <= k2 <= 3 && OccursAt(s, pre, j)
    requires k2 + |name| <= |pre| && pre[..k2 + |name|] == Opening(k2) + name
    requires forall t :: 0 <= t < k2 ==> pre[t] == '{'
    requires j + k2 + |name| < |s| && s[j + k2 + |name|] == (if slash then '/' else '}')
    ensures SpelledAt(s, j, k2, name, slash)
  {
    forall t | j <= t < j + k2 ensures s[t] == '{' {
      OccursChar(s, pre, j, t - j);
    }
    PrefixTail(pre, Opening(k2), name);
    StandsSlice(s, pre, j, k2, k2 + |name|);
  }

  /** Two names, each followed in the text by `/` or `}`, that start at the
      same place and contain neither, are the same name. */
  lemma {:induction false} NamesAlign(s: string, c: nat, m: string, n: string)
    requires c + |m| < |s| && s[c..c + |m|] == m && (s[c + |m|] == '/' || s[c + |m|] == '}')
    requires c + |n| < |s| && s[c..c + |n|] == n && (s[c + |n|] == '/' || s[c + |n|] == '}')
    requires '/' !in m && '}' !in m && '/' !in n && '}' !in n
    ensures m == n
  {
  }

  /** A run of braces with a name after it, found inside a tag, is the
      tag's own: it starts and ends where the tag's braces do (its first
      brace is one of them, and a name starts with no brace), so the name
      is the tag's name and what follows it agrees. */
  lemma {:induction false} SpelledInTag(s: string, d: nat, len: nat, k: nat, m: string, sl: bool,
                                        j: nat, k2: nat, name: string, slash: bool)
    requires TagAt(s, d, len, k, m, sl) && SpelledAt(s, j, k2, name, slash)
    requires d <= j < d + len && 1 <= k2 && TagName(m) && TagName(name)
    ensures j + k2 == d + k && m == name && sl == slash
  {
    assert s[j + k2] == name[0] by {
      assert s[j + k2] == s[j + k2..j + k2 + |name|][0];
    }
    assert j + k2 >= d + k by {
      assert s[j] == '{' && s[j + k2] != '{';
    }
    assert j + k2 <= d + k by {
      assert s[d + k] != '{';
    }
    NamesAlign(s, d + k, m, name);
  }

  // ---------------------------------------------------------------------------
  // One regex over the pieces

  /** Inside plain text without an opening brace no regex of the chain
      matches. */
  lemma {:induction false} PlainNoMatch(s: string, w: string, d: nat, p: Pattern, j: nat)
    requires OccursAt(s, w, d) && '{' !in w && d <= j < d + |w|
    requires |p.prefix| > 0 && p.prefix[0] == '{'
    ensures MatchAt(s, j, p).None?
  {
    if OccursAt(s, p.prefix, j) {
      OccursChar(s, p.prefix, j, 0);
      StandsAt(s, w, d, j - d);
    }
  }

  /** A regex of the chain that leaves its characters inside a tag has the
      tag's name and is the tag's own regex or one after it. */
  lemma {:induction false} MatchInTag(s: string, d: nat, len: nat, k: Depth, m: string, sl: bool,
                                      name: string, at: nat, j: nat)
    requires TagAt(s, d, len, k, m, sl) && d <= j < d + len && at < 6
    requires SpelledAt(s, j, 3 - at / 2, name, at % 2 == 0)
    requires TagName(m) && TagName(name)
    ensures m == name && Rank(k, sl) <= at
  {
    SpelledInTag(s, d, len, k, m, sl, j, 3 - at / 2, name, at % 2 == 0);
  }

  /** Inside a written tag the regex at `at` of `name` matches nowhere,
      unless the tag has that name and is the one the regex spells: a regex
      of fewer braces finds the name where its prefix needs braces, a
      regex of another name disagrees before the tag's `/` or `}`, and the
      other spelling of the same depth and name wants `/` where the tag has
      `}` or the reverse. Tags of the name waiting for an earlier regex are
      gone by then. */
  lemma {:induction false} TagNoMatch(s: string, d: nat, k: Depth, m: string, sl: bool, o: string,
                                      name: string, options: Middle, at: nat, j: nat)
    requires OccursAt(s, Written(k, m, sl, o), d) && d <= j < d + |Written(k, m, sl, o)|
    requires TagName(m) && TagName(name) && (sl ==> '{' !in o) && at < 6 && options != Nothing
    requires m == name ==> Rank(k, sl) > at
    ensures MatchAt(s, j, Spelling(3 - at / 2, name, if at % 2 == 0 then options else Nothing)).None?
  {
    var k2 := 3 - at / 2;
    var o2 := if at % 2 == 0 then options else Nothing;
    if MatchAt(s, j, Spelling(k2, name, o2)).Some? {
      MatchSpelled(s, j, k2, name, o2);
      WrittenTagAt(s, d, k, m, sl, o);
      MatchInTag(s, d, |Written(k, m, sl, o)|, k, m, sl, name, at, j);
    }
  }

  /** Where `w + t` stands at `d`, `w` stands at `d` and `t` right after it. */
  lemma {:induction false} StandsCons(s: string, d: nat, w: string, t: string)
    requires d + |w| + |t| == |s| && s[d..] == w + t
    ensures OccursAt(s, w, d) && s[d + |w|..] == t
  {
    assert s[d..d + |w|] == (w + t)[..|w|];
    assert s[d + |w|..] == (w + t)[|w|..];
  }

  lemma {:induction false} AssembleCons(pcs: seq<Piece>)
    requires pcs != []
    ensures Assemble(pcs) == PieceText(pcs[0]) + Assemble(pcs[1..])
  {
  }

  /** The regex at `at` in the chain of `name`. */
  lemma {:induction false} ChainAt(name: string, options: Middle, at: nat)
    requires at < 6
    ensures Spellings(name, options)[at] == Spelling(3 - at / 2, name, if at % 2 == 0 then options else Nothing)
  {
  }

  lemma {:induction false} FillPiecesCons(pcs: seq<Piece>, name: string, v: string, upto: nat)
    requires pcs != []
    ensures Assemble(FillPieces(pcs, name, v, upto))
            == PieceText(FillPiece(pcs[0], name, v, upto)) + Assemble(FillPieces(pcs[1..], name, v, upto))
  {
    var r := FillPieces(pcs, name, v, upto);
    assert r[0] == FillPiece(pcs[0], name, v, upto) && r[1..] == FillPieces(pcs[1..], name, v, upto);
  }

  /** The tail of the pieces keeps their fit and their pending tags. */
  lemma {:induction false} RestFits(pcs: seq<Piece>, name: string, options: Middle, at: nat)
    requires pcs != [] && AllFit(pcs, options) && PendingFrom(pcs, name, at)
    ensures AllFit(pcs[1..], options) && PendingFrom(pcs[1..], name, at)
    ensures Fits(pcs[0], options) && (pcs[0].Tag? && pcs[0].name == name ==> Rank(pcs[0].depth, pcs[0].slashed) >= at)
  {
    forall i | 0 <= i < |pcs| - 1 ensures pcs[1..][i] == pcs[i + 1] { }
  }

  /** The piece is the tag the regex at `at` of `name` spells. */
  predicate Spells(pc: Piece, name: string, at: nat) {
    pc.Tag? && pc.name == name && Rank(pc.depth, pc.slashed) == at
  }

  /** The texts of the pieces, in order. */
  function PieceTexts(pcs: seq<Piece>): (ws: seq<string>)
    ensures |ws| == |pcs|
    decreases |pcs|
  {
    if pcs == [] then [] else [PieceText(pcs[0])] + PieceTexts(pcs[1..])
  }

  /** Which pieces the regex at `at` of `name` spells. */
  function Hits(pcs: seq<Piece>, name: string, at: nat): (hs: seq<bool>)
    ensures |hs| == |pcs|
    decreases |pcs|
  {
    if pcs == [] then [] else [Spells(pcs[0], name, at)] + Hits(pcs[1..], name, at)
  }

  /** The regex at `at` matches the tag it spells where it stands, and
      nowhere inside any other piece. */
  lemma {:induction false} PieceScan(s: string, d: nat, pc: Piece, name: string, options: Middle,
                                     at: nat, p: Pattern)
    requires at < 6 && options != Nothing && TagName(name)
    requires p == Spelling(3 - at / 2, name, if at % 2 == 0 then options else Nothing)
    requires Fits(pc, options) && (pc.Tag? && pc.name == name ==> Rank(pc.depth, pc.slashed) >= at)
    requires OccursAt(s, PieceText(pc), d)
    ensures Cut(s, d, PieceText(pc), Spells(pc, name, at), p)
  {
    if Spells(pc, name, at) {
      TagScan(s, d, pc, name, options, at, p);
    } else {
      MissScan(s, d, pc, name, options, at, p);
    }
  }

  /** The regex spelling a tag matches it where it stands. */
  lemma {:induction false} TagScan(s: string, d: nat, pc: Piece, name: string, options: Middle,
                                   at: nat, p: Pattern)
    requires at < 6 && options != Nothing && Spells(pc, name, at) && Fits(pc, options)
    requires p == Spelling(3 - at / 2, name, if at % 2 == 0 then options else Nothing)
    requires OccursAt(s, PieceText(pc), d)
    ensures Cut(s, d, PieceText(pc), true, p)
  {
    assert pc.depth == 3 - at / 2 && pc.slashed == (at % 2 == 0);
    WrittenMatches(s, d, pc.depth, name, pc.slashed, pc.opts, options);
  }

  /** The regex at `at` matches nowhere inside a piece it does not spell. */
  lemma {:induction false} MissScan(s: string, d: nat, pc: Piece, name: string, options: Middle,
                                    at: nat, p: Pattern)
    requires at < 6 && options != Nothing && TagName(name)
    requires p == Spelling(3 - at / 2, name, if at % 2 == 0 then options else Nothing)
    requires Fits(pc, options) && (pc.Tag? && pc.name == name ==> Rank(pc.depth, pc.slashed) > at)
    requires OccursAt(s, PieceText(pc), d)
    ensures Cut(s, d, PieceText(pc), false, p)
  {
    var w := PieceText(pc);
    SpellingPrefix(3 - at / 2, name, if at % 2 == 0 then options else Nothing);
    forall j | d <= j < d + |w| ensures MatchAt(s, j, p).None? {
      if pc.Plain? {
        PlainNoMatch(s, w, d, p, j);
      } else {
        TagNoMatch(s, d, pc.depth, pc.name, pc.slashed, pc.opts, name, options, at, j);
      }
    }
    MissesAll(s, p, d, d + |w|);
  }

  /** Where the pieces stand from `d` on, the first stands at `d` and the
      others right after it. */
  lemma {:induction false} HeadStands(s: string, d: nat, pcs: seq<Piece>)
    requires pcs != [] && d + |Assemble(pcs)| == |s| && s[d..] == Assemble(pcs)
    ensures var w := PieceText(pcs[0]);
            && OccursAt(s, w, d)
            && d + |w| + |Assemble(pcs[1..])| == |s| && s[d + |w|..] == Assemble(pcs[1..])
  {
    AssembleCons(pcs);
    StandsCons(s, d, PieceText(pcs[0]), Assemble(pcs[1..]));
  }

  /** The regex at `at` of `name` matches exactly the tags it spells, each
      where it stands, and nowhere inside any other piece. */
  lemma {:induction false} ScanPieces(s: string, d: nat, pcs: seq<Piece>, name: string, options: Middle,
                                      at: nat, p: Pattern)
    requires ScansEveryPiece(s, name, options, at, p)
    requires AllFit(pcs, options) && PendingFrom(pcs, name, at)
    requires d + |Assemble(pcs)| == |s| && s[d..] == Assemble(pcs)
    ensures Segments(s, d, PieceTexts(pcs), Hits(pcs, name, at), p)
    decreases |pcs|
  {
    if pcs != [] {
      HeadStands(s, d, pcs);
      RestFits(pcs, name, options, at);
      ScanPieces(s, d + |PieceText(pcs[0])|, pcs[1..], name, options, at, p);
      PieceTextsCons(pcs, name, at);
    }
  }

  /** Wherever a fit piece, not yet due for a regex before `at`, stands in
      the text, the regex `p` matches it as a piece of that regex, or misses it. */
  ghost predicate ScansEveryPiece(s: string, name: string, options: Middle, at: nat, p: Pattern) {
    forall d: nat, pc: Piece ::
      (&& Fits(pc, options)
       && (pc.Tag? && pc.name == name ==> Rank(pc.depth, pc.slashed) >= at)
       && OccursAt(s, PieceText(pc), d))
      ==> Cut(s, d, PieceText(pc), Spells(pc, name, at), p)
  }

  lemma {:induction false} PieceTextsCons(pcs: seq<Piece>, name: string, at: nat)
    requires pcs != []
    ensures PieceTexts(pcs)[0] == PieceText(pcs[0]) && PieceTexts(pcs)[1..] == PieceTexts(pcs[1..])
    ensures Hits(pcs, name, at)[0] == Spells(pcs[0], name, at) && Hits(pcs, name, at)[1..] == Hits(pcs[1..], name, at)
  {
  }

  /** Each piece the regex spells out as the value, the others as they are:
      the pieces with the regex's tags filled. */
  lemma {:induction false} OutsFilled(pcs: seq<Piece>, name: string, v: string, at: nat)
    requires PendingFrom(pcs, name, at)
    ensures Outs(PieceTexts(pcs), Hits(pcs, name, at), v) == Assemble(FillPieces(pcs, name, v, at + 1))
    decreases |pcs|
  {
    if pcs != [] {
      assert PendingFrom(pcs[1..], name, at) by {
        forall i | 0 <= i < |pcs| - 1 ensures pcs[1..][i] == pcs[i + 1] { }
      }
      assert pcs[0].Tag? && pcs[0].name == name ==> Rank(pcs[0].depth, pcs[0].slashed) >= at;
      OutsFilled(pcs[1..], name, v, at);
      PieceTextsCons(pcs, name, at);
      FillPiecesCons(pcs, name, v, at + 1);
    }
  }

  /** The regex at `at` of `name`, over the whole template, puts the value
      for exactly the tags of that name it spells. */
  lemma {:induction false} ReplaceAllPieces(pcs: seq<Piece>, name: string, v: string, options: Middle, at: nat)
    requires at < 6 && options != Nothing && TagName(name)
    requires AllFit(pcs, options) && PendingFrom(pcs, name, at)
    ensures |Spellings(name, options)[at].prefix| > 0
    ensures ReplaceAll(Assemble(pcs), Spellings(name, options)[at], v) == Assemble(FillPieces(pcs, name, v, at + 1))
  {
    var s := Assemble(pcs);
    var p := Spelling(3 - at / 2, name, if at % 2 == 0 then options else Nothing);
    ChainAt(name, options, at);
    forall d: nat, pc: Piece | Fits(pc, options) && (pc.Tag? && pc.name == name ==> Rank(pc.depth, pc.slashed) >= at)
                               && OccursAt(s, PieceText(pc), d)
      ensures Cut(s, d, PieceText(pc), Spells(pc, name, at), p)
    {
      PieceScan(s, d, pc, name, options, at, p);
    }
    ScanPieces(s, 0, pcs, name, options, at, p);
    ReplaceAllSegments(s, 0, PieceTexts(pcs), Hits(pcs, name, at), p, v);
    OutsFilled(pcs, name, v, at);
  }

  // ---------------------------------------------------------------------------
  // The six regexes of one entry, then the loop over the entries

  /** Filling up to `at`, then up to the end of the chain, is filling up to
      the end of the chain. */
  lemma {:induction false} FillPiecesThen(pcs: seq<Piece>, name: string, v: string, at: nat)
    ensures FillPieces(FillPieces(pcs, name, v, at), name, v, 6) == FillPieces(pcs, name, v, 6)
  {
    var q := FillPieces(pcs, name, v, at);
    forall i | 0 <= i < |pcs| ensures FillPieces(q, name, v, 6)[i] == FillPieces(pcs, name, v, 6)[i] {
    }
  }

  /** With no tag of `name` left waiting, filling changes nothing. */
  lemma {:induction false} FillPiecesDone(pcs: seq<Piece>, name: string, v: string)
    requires PendingFrom(pcs, name, 6)
    ensures FillPieces(pcs, name, v, 6) == pcs
  {
    forall i | 0 <= i < |pcs| ensures FillPieces(pcs, name, v, 6)[i] == pcs[i] {
    }
  }

  /** A value without an opening brace keeps the pieces fit. */
  lemma {:induction false} FillPiecesFit(pcs: seq<Piece>, name: string, v: string, options: Middle, upto: nat)
    requires '{' !in v && AllFit(pcs, options)
    ensures AllFit(FillPieces(pcs, name, v, upto), options)
  {
    var r := FillPieces(pcs, name, v, upto);
    forall i | 0 <= i < |r| ensures Fits(r[i], options) {
      assert Fits(pcs[i], options);
    }
  }

  /** The regex at `at` leaves waiting only the tags of later regexes. */
  lemma {:induction false} FillPiecesPending(pcs: seq<Piece>, name: string, v: string, at: nat)
    requires PendingFrom(pcs, name, at)
    ensures PendingFrom(FillPieces(pcs, name, v, at + 1), name, at + 1)
  {
    var r := FillPieces(pcs, name, v, at + 1);
    forall i | 0 <= i < |r| && r[i].Tag? && r[i].name == name ensures Rank(r[i].depth, r[i].slashed) >= at + 1 {
      assert r[i] == pcs[i];
    }
  }

  lemma {:induction false} BracedFrom(ps: seq<Pattern>, at: nat)
    requires Braced(ps) && at <= |ps|
    ensures Braced(ps[at..])
  {
    forall i | 0 <= i < |ps| - at ensures WellFormed(ps[at..][i]) && ps[at..][i].prefix[0] == '{' {
      assert ps[at..][i] == ps[at + i];
    }
  }

  /** The regexes of `name` from `at` on, run one after the other, turn every
      waiting tag of `name` into the value and leave every other piece. */
  lemma {:induction false} ReplaceEachPieces(pcs: seq<Piece>, name: string, v: string, options: Middle, at: nat)
    requires at <= 6 && options != Nothing && TagName(name) && '{' !in v
    requires AllFit(pcs, options) && PendingFrom(pcs, name, at)
    ensures Braced(Spellings(name, options)[at..])
    ensures ReplaceEach(Assemble(pcs), Spellings(name, options)[at..], v) == Assemble(FillPieces(pcs, name, v, 6))
    decreases 6 - at
  {
    var ps := Spellings(name, options);
    SpellingsBraced(name, options);
    BracedFrom(ps, at);
    if at == 6 {
      assert ps[at..] == [];
      FillPiecesDone(pcs, name, v);
    } else {
      var q := FillPieces(pcs, name, v, at + 1);
      ReplaceAllPieces(pcs, name, v, options, at);
      FillPiecesFit(pcs, name, v, options, at + 1);
      FillPiecesPending(pcs, name, v, at);
      ReplaceEachPieces(q, name, v, options, at + 1);
      FillPiecesThen(pcs, name, v, at + 1);
      assert ps[at..][0] == ps[at] && ps[at..][1..] == ps[at + 1..];
    }
  }

  /** One entry turns every tag of its name, wherever it stands and however
      it is written, into the value, and leaves the rest of the text. */
  lemma {:induction false} ReplaceTagPieces(pcs: seq<Piece>, name: string, v: string, options: Middle)
    requires options != Nothing && TagName(name) && '{' !in v && AllFit(pcs, options)
    ensures ReplaceTag(Assemble(pcs), name, v, options) == Assemble(FillPieces(pcs, name, v, 6))
  {
    ReplaceEachPieces(pcs, name, v, options, 0);
    assert Spellings(name, options)[0..] == Spellings(name, options);
  }

  /** Entries whose names the regexes spell without ambiguity and whose
      values hold no opening brace. */
  predicate PlainEntries(entries: seq<(string, string)>) {
    forall i :: 0 <= i < |entries| ==> TagName(entries[i].0) && '{' !in entries[i].1
  }

  /** Filling the first entry's tags, then the rest by the remaining entries,
      fills by all the entries. */
  lemma {:induction false} FilledStep(pcs: seq<Piece>, entries: seq<(string, string)>)
    requires entries != []
    ensures Filled(FillPieces(pcs, entries[0].0, entries[0].1, 6), entries[1..]) == Filled(pcs, entries)
  {
    var q := FillPieces(pcs, entries[0].0, entries[0].1, 6);
    forall i | 0 <= i < |pcs| ensures Filled(q, entries[1..])[i] == Filled(pcs, entries)[i] {
    }
  }

  /** The loop over the entries fills each tag with the value of the first
      entry of its name, and leaves a tag without an entry as it is written. */
  lemma {:induction false} SubstitutePieces(pcs: seq<Piece>, entries: seq<(string, string)>, options: Middle)
    requires options != Nothing && PlainEntries(entries) && AllFit(pcs, options)
    ensures Substitute(Assemble(pcs), entries, options) == Assemble(Filled(pcs, entries))
    decreases |entries|
  {
    if entries == [] {
      assert Filled(pcs, entries) == pcs;
    } else {
      var name, v := entries[0].0, entries[0].1;
      var q := FillPieces(pcs, name, v, 6);
      assert TagName(name) && '{' !in v;
      ReplaceTagPieces(pcs, name, v, options);
      FillPiecesFit(pcs, name, v, options, 6);
      assert PlainEntries(entries[1..]) by {
        forall i | 0 <= i < |entries| - 1 ensures entries[1..][i] == entries[i + 1] { }
      }
      SubstitutePieces(q, entries[1..], options);
      FilledStep(pcs, entries);
    }
  }

  /** A tag of the entry's name, whatever brace-free text stands around it,
      becomes the value, and the text around it stays. */
  lemma {:induction false} ReplaceTagInContext(a: string, k: Depth, name: string, slashed: bool, opts: string,
                                               b: string, v: string, options: Middle)
    requires options != Nothing && TagName(name) && Accepted(slashed, opts, options)
    requires '{' !in a && '{' !in b && '{' !in v
    ensures ReplaceTag(a + Written(k, name, slashed, opts) + b, name, v, options) == a + v + b
  {
    var pcs := [Plain(a), Tag(k, name, slashed, opts), Plain(b)];
    assert AllFit(pcs, options);
    AssembleThree(Plain(a), Tag(k, name, slashed, opts), Plain(b));
    ReplaceTagPieces(pcs, name, v, options);
    assert FillPieces(pcs, name, v, 6) == [Plain(a), Plain(v), Plain(b)];
    AssembleThree(Plain(a), Plain(v), Plain(b));
  }

  lemma {:induction false} AssembleThree(x: Piece, y: Piece, z: Piece)
    ensures Assemble([x, y, z]) == PieceText(x) + PieceText(y) + PieceText(z)
  {
    assert [x, y, z][1..] == [y, z] && [y, z][1..] == [z] && [z][1..] == [];
    var u, w, t := PieceText(x), PieceText(y), PieceText(z);
    assert Assemble([z]) == t + "" == t;
    assert Assemble([y, z]) == w + t;
    assert Assemble([x, y, z]) == u + (w + t);
  }

  /** Text pieces only, none with an opening brace, assemble to a text without one. */
  lemma {:induction false} PlainAssemble(pcs: seq<Piece>)
    requires forall i :: 0 <= i < |pcs| ==> pcs[i].Plain? && '{' !in pcs[i].text
    ensures '{' !in Assemble(pcs)
    decreases |pcs|
  {
    if pcs != [] {
      assert forall i :: 0 <= i < |pcs| - 1 ==> pcs[1..][i] == pcs[i + 1];
      PlainAssemble(pcs[1..]);
    }
  }

  /** When every tag of the template has an entry, no opening brace, and so
      no tag in any spelling, is left in the filled text. */
  lemma {:induction false} SubstituteLeavesNoTag(pcs: seq<Piece>, entries: seq<(string, string)>, options: Middle)
    requires options != Nothing && PlainEntries(entries) && AllFit(pcs, options)
    requires forall i :: 0 <= i < |pcs| && pcs[i].Tag? ==> Lookup(entries, pcs[i].name).Some?
    ensures '{' !in Substitute(Assemble(pcs), entries, options)
  {
    SubstitutePieces(pcs, entries, options);
    var f := Filled(pcs, entries);
    forall i | 0 <= i < |f| ensures f[i].Plain? && '{' !in f[i].text {
      if pcs[i].Tag? {
        var r := Lookup(entries, pcs[i].name);
        var j :| 0 <= j < |entries| && entries[j] == (pcs[i].name, r.value)
                 && forall t :: 0 <= t < j ==> entries[t].0 != pcs[i].name;
        assert '{' !in entries[j].1;
      } else {
        assert Fits(pcs[i], options);
      }
    }
    PlainAssemble(f);
  }
}
