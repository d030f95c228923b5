/** `extractTagsFromText` of src/components/TemplateUpload.tsx: three passes over
    the document text, triple braces first, then double, then single. Each pass
    files every match under its name unless the name is already known, and the
    matched spans of the triple and double passes are cut out of the text before
    the next pass looks at it. */
module TagExtraction {
  import opened Wrappers
  import opened JsStrings
  import opened FieldTypes
  import opened BracePatterns
  import opened FieldFormat

  // ---------------------------------------------------------------------------
  // One capture

  /** The key the double and single passes look up before filing a capture:
      `content.split('/')[0].trim()` of the trimmed capture. */
  function BaseName(capture: string): string {
    Trim(Split(Trim(capture), '/')[0])
  }

  /** The tag a capture yields at a depth whose kind is `base`: with a `/` in the
      trimmed content, the dropdown kind; otherwise the plain kind named by the
      trimmed content. */
  function Classify(capture: string, base: BaseKind): (t: Tag)
    ensures WellKinded(t) && t.kind.base == base
    ensures t.kind.dropdown <==> '/' in Trim(capture)
  {
    var content := Trim(capture);
    if '/' in content then Dropdown(content, base)
    else Tag(content, FieldType(base, false), None)
  }

  /** The dropdown tag of content holding a `/`: named by the trimmed text before
      the first `/`, with the trimmed text after it split on `,` and each piece
      cleaned as its options. */
  function Dropdown(content: string, base: BaseKind): (t: Tag)
    requires '/' in content
    ensures t.kind == FieldType(base, true) && t.options.Some?
  {
    Tag(Trim(content[..IndexOf(content, '/')]), FieldType(base, true), Some(CleanAll(Split(OptionsText(content), ','))))
  }

  /** `tagContent.substring(slashIndex + 1).trim()`: what follows the first `/`. */
  function OptionsText(content: string): string
    requires '/' in content
  {
    Trim(content[IndexOf(content, '/') + 1..])
  }

  /** `.map(opt => opt.trim().replace(/^['"]|['"]$/g, ''))`. */
  function CleanAll(pieces: seq<string>): seq<string> {
    seq(|pieces|, j requires 0 <= j < |pieces| => CleanOptionValue(pieces[j]))
  }

  /** The key looked up is the name the tag is filed under, so every pass tests
      exactly the name it would insert. */
  lemma {:induction false} ClassifyName(capture: string, base: BaseKind)
    ensures BaseName(capture) == Classify(capture, base).name
  {
    var content := Trim(capture);
    SplitHead(content, '/');
    TrimIdempotent(capture);
  }

  /** A dropdown is named by the trimmed text before the first `/`, and that
      name holds no `/`. */
  lemma {:induction false} DropdownName(content: string, base: BaseKind)
    requires '/' in content
    ensures var i := IndexOf(content, '/');
            && content[i] == '/' && '/' !in content[..i]
            && Dropdown(content, base).name == Trim(content[..i])
            && '/' !in Dropdown(content, base).name
  {
    var i := IndexOf(content, '/');
    NoSlashAfterTrim(content[..i]);
  }

  /** A dropdown has one option more than there are commas in the trimmed text
      after the first `/`, each the cleaned form of its comma-separated piece. */
  lemma {:induction false} DropdownOptions(content: string, base: BaseKind)
    requires '/' in content
    ensures var after := OptionsText(content);
            var options := Dropdown(content, base).options.value;
            && |options| == multiset(after)[','] + 1 == |Split(after, ',')|
            && forall j :: 0 <= j < |options| ==> options[j] == CleanOptionValue(Split(after, ',')[j])
  {
    var after := OptionsText(content);
    DropdownPieces(content, base);
    CleanAllShape(Split(after, ','));
    SplitCount(after, ',');
  }

  lemma {:induction false} DropdownPieces(content: string, base: BaseKind)
    requires '/' in content
    ensures Dropdown(content, base).options.value == CleanAll(Split(OptionsText(content), ','))
  {
  }

  lemma {:induction false} CleanAllShape(pieces: seq<string>)
    ensures |CleanAll(pieces)| == |pieces|
    ensures forall j :: 0 <= j < |pieces| ==> CleanAll(pieces)[j] == CleanOptionValue(pieces[j])
  {
  }

  /** Trimming text without `/` leaves none. */
  lemma {:induction false} NoSlashAfterTrim(s: string)
    requires '/' !in s
    ensures '/' !in Trim(s)
  {
    var r := Trim(s);
    var k :| OccursAt(s, r, k);
    forall m | 0 <= m < |r| ensures r[m] != '/' {
      assert r[m] == s[k + m];
    }
  }

  // ---------------------------------------------------------------------------
  // Filing tags into the map

  /** `if (!tags.has(name)) tags.set(name, tag)`: a new name appends its tag (a
      `Map` keeps insertion order); a known one changes nothing. */
  function FileTag(tags: seq<Tag>, t: Tag): seq<Tag> {
    if HasName(tags, t.name) then tags else tags + [t]
  }

  /** Filing candidate tags one after another. */
  function File(tags: seq<Tag>, cs: seq<Tag>): seq<Tag>
    decreases |cs|
  {
    if cs == [] then tags else File(FileTag(tags, cs[0]), cs[1..])
  }

  lemma {:induction false} FileCons(tags: seq<Tag>, c: Tag, cs: seq<Tag>)
    ensures File(tags, [c] + cs) == File(FileTag(tags, c), cs)
  {
    assert ([c] + cs)[0] == c && ([c] + cs)[1..] == cs;
  }

  /** Filing never changes or reorders the tags already known. */
  lemma {:induction false} FilePrefix(tags: seq<Tag>, cs: seq<Tag>)
    ensures |tags| <= |File(tags, cs)| && File(tags, cs)[..|tags|] == tags
    decreases |cs|
  {
    if cs != [] {
      var mid := FileTag(tags, cs[0]);
      FilePrefix(mid, cs[1..]);
      var r := File(tags, cs);
      assert r == File(mid, cs[1..]);
      assert r[..|tags|] == r[..|mid|][..|tags|];
    }
  }

  /** Every tag filing adds is one of the candidates. */
  lemma {:induction false} FileFrom(tags: seq<Tag>, cs: seq<Tag>)
    ensures forall j :: |tags| <= j < |File(tags, cs)| ==> File(tags, cs)[j] in cs
    decreases |cs|
  {
    if cs != [] {
      var mid := FileTag(tags, cs[0]);
      FileFrom(mid, cs[1..]);
      FilePrefix(mid, cs[1..]);
      var r := File(tags, cs);
      assert r == File(mid, cs[1..]);
      forall j | |tags| <= j < |r| ensures r[j] in cs {
        if j < |mid| {
          assert r[j] == r[..|mid|][j] == cs[0];
        } else {
          assert r[j] in cs[1..];
        }
      }
    }
  }

  /** Filing keeps names unique. */
  lemma {:induction false} FileUnique(tags: seq<Tag>, cs: seq<Tag>)
    requires UniqueNames(tags)
    ensures UniqueNames(File(tags, cs))
    decreases |cs|
  {
    if cs != [] {
      var mid := FileTag(tags, cs[0]);
      FileTagUnique(tags, cs[0]);
      FileUnique(mid, cs[1..]);
    }
  }

  lemma {:induction false} FileTagUnique(tags: seq<Tag>, t: Tag)
    requires UniqueNames(tags)
    ensures UniqueNames(FileTag(tags, t))
  {
    if !HasName(tags, t.name) {
      var r := tags + [t];
      forall i, j | 0 <= i < j < |r| ensures r[i].name != r[j].name {
        if j == |tags| {
          assert r[i] == tags[i];
        } else {
          assert r[i] == tags[i] && r[j] == tags[j];
        }
      }
    }
  }

  /** A name in a prefix is in the whole. */
  lemma {:induction false} KnownStaysKnown(tags: seq<Tag>, r: seq<Tag>, name: string)
    requires |tags| <= |r| && r[..|tags|] == tags && HasName(tags, name)
    ensures HasName(r, name)
  {
    var i :| 0 <= i < |tags| && tags[i].name == name;
    assert r[i] == tags[i];
  }

  /** After filing, every candidate's name is known. */
  lemma {:induction false} FileComplete(tags: seq<Tag>, cs: seq<Tag>)
    ensures forall c :: c in cs ==> HasName(File(tags, cs), c.name)
    decreases |cs|
  {
    if cs != [] {
      var mid := FileTag(tags, cs[0]);
      FileComplete(mid, cs[1..]);
      FilePrefix(mid, cs[1..]);
      var r := File(tags, cs);
      assert r == File(mid, cs[1..]);
      assert HasName(mid, cs[0].name) by {
        if !HasName(tags, cs[0].name) {
          assert mid[|tags|] == cs[0];
        }
      }
      KnownStaysKnown(mid, r, cs[0].name);
      forall c | c in cs ensures HasName(r, c.name) {
        if c != cs[0] {
          assert c in cs[1..];
        }
      }
    }
  }

  /** The first discovery wins: a candidate whose name is new, and differs from
      every earlier candidate's name, is filed as it is. */
  lemma {:induction false} FileFirstWins(tags: seq<Tag>, cs: seq<Tag>, j: nat)
    requires j < |cs| && !HasName(tags, cs[j].name)
    requires forall i :: 0 <= i < j ==> cs[i].name != cs[j].name
    ensures cs[j] in File(tags, cs)
    decreases |cs|
  {
    var mid := FileTag(tags, cs[0]);
    FilePrefix(mid, cs[1..]);
    assert File(tags, cs) == File(mid, cs[1..]);
    if j == 0 {
      assert mid[|tags|] == cs[0];
      InPrefix(mid, File(mid, cs[1..]), cs[0]);
    } else {
      FileTagMissing(tags, cs[0], cs[j].name);
      NamesBeforeTail(cs, j);
      FileFirstWins(mid, cs[1..], j - 1);
    }
  }

  /** Dropping the first candidate shifts the earlier-names condition by one. */
  lemma {:induction false} NamesBeforeTail(cs: seq<Tag>, j: nat)
    requires 0 < j < |cs|
    requires forall i :: 0 <= i < j ==> cs[i].name != cs[j].name
    ensures cs[1..][j - 1] == cs[j]
    ensures forall i :: 0 <= i < j - 1 ==> cs[1..][i].name != cs[1..][j - 1].name
  {
    forall i | 0 <= i < j - 1 ensures cs[1..][i].name != cs[j].name {
      assert cs[1..][i] == cs[i + 1];
    }
  }

  /** Filing a tag of another name leaves a name missing. */
  lemma {:induction false} FileTagMissing(tags: seq<Tag>, t: Tag, name: string)
    requires !HasName(tags, name) && t.name != name
    ensures !HasName(FileTag(tags, t), name)
  {
    var r := FileTag(tags, t);
    forall i | 0 <= i < |r| ensures r[i].name != name {
      if i < |tags| {
        assert r[i] == tags[i];
      }
    }
  }

  /** The candidate at `i` is the first discovery of its name: the name is
      neither known before filing nor carried by an earlier candidate. */
  predicate NewAt(prior: seq<Tag>, cs: seq<Tag>, i: nat)
    requires i < |cs|
  {
    !HasName(prior, cs[i].name) && !HasName(cs[..i], cs[i].name)
  }

  /** The candidates among the first `i` that are first discoveries, in
      candidate order: an index-by-index reference for what filing adds. */
  function FirstDiscoveries(prior: seq<Tag>, cs: seq<Tag>, i: nat): seq<Tag>
    requires i <= |cs|
  {
    if i == 0 then []
    else FirstDiscoveries(prior, cs, i - 1) + (if NewAt(prior, cs, i - 1) then [cs[i - 1]] else [])
  }

  lemma {:induction false} HasNameAppend(a: seq<Tag>, b: seq<Tag>, name: string)
    ensures HasName(a + b, name) <==> HasName(a, name) || HasName(b, name)
  {
    if HasName(a + b, name) {
      var i :| 0 <= i < |a + b| && (a + b)[i].name == name;
      if i < |a| {
        assert a[i] == (a + b)[i];
      } else {
        assert b[i - |a|] == (a + b)[i];
      }
    }
    if HasName(a, name) {
      var i :| 0 <= i < |a| && a[i].name == name;
      assert (a + b)[i] == a[i];
    }
    if HasName(b, name) {
      var i :| 0 <= i < |b| && b[i].name == name;
      assert (a + b)[|a| + i] == b[i];
    }
  }

  /** After the first `i` candidates, the known names are the prior ones and
      those of the candidates seen. */
  lemma {:induction false} KnownAfterDiscoveries(prior: seq<Tag>, cs: seq<Tag>, i: nat, name: string)
    requires i <= |cs|
    ensures HasName(prior + FirstDiscoveries(prior, cs, i), name)
            <==> HasName(prior, name) || HasName(cs[..i], name)
  {
    if i == 0 {
      assert prior + [] == prior;
      assert !HasName(cs[..0], name);
    } else {
      KnownAfterDiscoveries(prior, cs, i - 1, name);
      var before := prior + FirstDiscoveries(prior, cs, i - 1);
      var added := if NewAt(prior, cs, i - 1) then [cs[i - 1]] else [];
      assert prior + FirstDiscoveries(prior, cs, i) == before + added;
      HasNameAppend(before, added, name);
      assert cs[..i] == cs[..i - 1] + [cs[i - 1]];
      HasNameAppend(cs[..i - 1], [cs[i - 1]], name);
      assert HasName([cs[i - 1]], name) <==> cs[i - 1].name == name by {
        assert [cs[i - 1]][0] == cs[i - 1];
      }
      if added == [cs[i - 1]] {
        assert HasName(added, name) <==> cs[i - 1].name == name;
      } else {
        assert !HasName(added, name);
      }
    }
  }

  /** Filing the next candidate adds it exactly when it is a first discovery. */
  lemma {:induction false} FileTagDiscovers(prior: seq<Tag>, cs: seq<Tag>, i: nat)
    requires i < |cs|
    ensures FileTag(prior + FirstDiscoveries(prior, cs, i), cs[i]) == prior + FirstDiscoveries(prior, cs, i + 1)
  {
    var before := prior + FirstDiscoveries(prior, cs, i);
    KnownAfterDiscoveries(prior, cs, i, cs[i].name);
    if NewAt(prior, cs, i) {
      assert before + [cs[i]] == prior + (FirstDiscoveries(prior, cs, i) + [cs[i]]);
    } else {
      assert FirstDiscoveries(prior, cs, i + 1) == FirstDiscoveries(prior, cs, i) + [];
    }
  }

  lemma {:induction false} FileDiscoversFrom(prior: seq<Tag>, cs: seq<Tag>, i: nat)
    requires i <= |cs|
    ensures File(prior + FirstDiscoveries(prior, cs, i), cs[i..]) == prior + FirstDiscoveries(prior, cs, |cs|)
    decreases |cs| - i
  {
    if i < |cs| {
      var known := prior + FirstDiscoveries(prior, cs, i);
      var rest := cs[i..];
      assert rest[0] == cs[i] && rest[1..] == cs[i + 1..];
      assert File(known, rest) == File(FileTag(known, cs[i]), cs[i + 1..]);
      FileTagDiscovers(prior, cs, i);
      FileDiscoversFrom(prior, cs, i + 1);
    }
  }

  /** Filing appends exactly the first discoveries, in candidate order: the
      first candidate of each name not known before, and no other. A `Map`
      lists its keys in insertion order and `set` behind `!has` never moves a
      key. */
  lemma {:induction false} FileIsFirstDiscoveries(prior: seq<Tag>, cs: seq<Tag>)
    ensures File(prior, cs) == prior + FirstDiscoveries(prior, cs, |cs|)
  {
    FileDiscoversFrom(prior, cs, 0);
    assert prior + FirstDiscoveries(prior, cs, 0) == prior;
    assert cs[0..] == cs;
  }

  /** `{x} {y} {x}`: the second `x` is no discovery, so the order is `x`, `y`. */
  lemma {:induction false} RepeatedNameFiledOnce(x: Tag, y: Tag)
    requires x.name != y.name
    ensures File([], [x, y, x]) == [x, y]
  {
    var cs := [x, y, x];
    FileIsFirstDiscoveries([], cs);
    assert cs[..1] == [x] && cs[..2] == [x, y];
    assert HasName(cs[..2], x.name) by {
      assert cs[..2][0] == x;
    }
    assert !HasName(cs[..1], y.name) by {
      assert forall i :: 0 <= i < 1 ==> cs[..1][i] == x;
    }
    assert FirstDiscoveries([], cs, 1) == [x];
    assert FirstDiscoveries([], cs, 2) == [x, y];
  }

  /** In a list with unique names, the tag in it under a name is the only one. */
  lemma {:induction false} OnlyTagOfName(r: seq<Tag>, t: Tag)
    requires UniqueNames(r) && t in r
    ensures forall u :: u in r && u.name == t.name ==> u == t
  {
    var i :| 0 <= i < |r| && r[i] == t;
    forall u | u in r && u.name == t.name ensures u == t {
      var j :| 0 <= j < |r| && r[j] == u;
    }
  }

  /** Every tag in `ts` has kind `base`, with options exactly when a dropdown. */
  predicate AllOfKind(ts: seq<Tag>, base: BaseKind) {
    forall j :: 0 <= j < |ts| ==> ts[j].kind.base == base && WellKinded(ts[j])
  }

  /** The tags filing adds have the kind all candidates have. */
  lemma {:induction false} FileKinds(tags: seq<Tag>, cs: seq<Tag>, base: BaseKind)
    requires AllOfKind(cs, base)
    ensures |tags| <= |File(tags, cs)| && AllOfKind(File(tags, cs)[|tags|..], base)
  {
    FilePrefix(tags, cs);
    FileFrom(tags, cs);
    var r := File(tags, cs);
    forall j | 0 <= j < |r[|tags|..]| ensures r[|tags|..][j].kind.base == base && WellKinded(r[|tags|..][j]) {
      assert r[|tags|..][j] == r[|tags| + j];
    }
  }

  // ---------------------------------------------------------------------------
  // The three passes, as specification functions

  /** The tags the matches of a pass of kind `base` yield, in match order. */
  function Candidates(fs: seq<Found>, base: BaseKind): (cs: seq<Tag>)
    ensures |cs| == |fs|
  {
    if fs == [] then [] else [Classify(fs[0].capture, base)] + Candidates(fs[1..], base)
  }

  lemma {:induction false} CandidatesCons(f: Found, fs: seq<Found>, base: BaseKind)
    ensures Candidates([f] + fs, base) == [Classify(f.capture, base)] + Candidates(fs, base)
  {
    assert ([f] + fs)[0] == f && ([f] + fs)[1..] == fs;
  }

  /** A pass's candidates all have its kind, with options exactly on dropdowns. */
  lemma {:induction false} CandidatesKinds(fs: seq<Found>, base: BaseKind)
    ensures AllOfKind(Candidates(fs, base), base)
    decreases |fs|
  {
    if fs != [] {
      CandidatesKinds(fs[1..], base);
      var cs := Candidates(fs, base);
      var rest := Candidates(fs[1..], base);
      forall j | 0 <= j < |cs| ensures cs[j].kind.base == base && WellKinded(cs[j]) {
        if j > 0 {
          assert cs[j] == rest[j - 1];
        }
      }
    }
  }

  /** The `j`-th candidate is the tag of the `j`-th match. */
  lemma {:induction false} CandidateAt(fs: seq<Found>, base: BaseKind, j: nat)
    requires j < |fs|
    ensures Candidates(fs, base)[j] == Classify(fs[j].capture, base)
    decreases j
  {
    if j > 0 {
      var tail := fs[1..];
      CandidateAt(tail, base, j - 1);
      assert tail[j - 1] == fs[j];
    }
  }

  /** `match[0]` of each match, in order: the strings a pass pushes. */
  function MatchedTexts(fs: seq<Found>): (ts: seq<string>)
    ensures |ts| == |fs|
  {
    if fs == [] then [] else [fs[0].text] + MatchedTexts(fs[1..])
  }

  /** `remainingText = remainingText.replace(m, '')` for each pushed match in
      turn: each removes the first occurrence of its string, if any. */
  function DeleteAll(s: string, ms: seq<string>): (r: string)
    ensures |r| <= |s|
    decreases |ms|
  {
    if ms == [] then s else DeleteAll(DeleteFirst(s, ms[0]), ms[1..])
  }

  function TripleFound(text: string): seq<Found> {
    FoundFrom(text, 3, 0)
  }

  /** The text the double pass scans. */
  function AfterTriple(text: string): string {
    DeleteAll(text, MatchedTexts(TripleFound(text)))
  }

  function DoubleFound(text: string): seq<Found> {
    FoundFrom(AfterTriple(text), 2, 0)
  }

  /** The text the single pass scans. */
  function AfterDouble(text: string): string {
    DeleteAll(AfterTriple(text), MatchedTexts(DoubleFound(text)))
  }

  function SingleFound(text: string): seq<Found> {
    FoundFrom(AfterDouble(text), 1, 0)
  }

  function TripleTags(text: string): seq<Tag> {
    File([], Candidates(TripleFound(text), Date))
  }

  function DoubleTags(text: string): seq<Tag> {
    File(TripleTags(text), Candidates(DoubleFound(text), Number))
  }

  /** `Array.from(tags.values())` at the end of `extractTagsFromText`. */
  function ExtractTags(text: string): seq<Tag> {
    File(DoubleTags(text), Candidates(SingleFound(text), Text))
  }

  // ---------------------------------------------------------------------------
  // The passes as the source runs them

  /** One `while ((match = pattern.exec(text)) !== null)` loop of depth `depth`:
      files each capture and pushes each matched string. */
  method ScanPass(text: string, depth: nat, tags: seq<Tag>) returns (result: seq<Tag>, matched: seq<string>)
    requires 1 <= depth <= 3
    ensures result == File(tags, Candidates(FoundFrom(text, depth, 0), BaseOfDepth(depth)))
    ensures matched == MatchedTexts(FoundFrom(text, depth, 0))
  {
    var base := BaseOfDepth(depth);
    result, matched := tags, [];
    var from := 0;
    var next := NextMatch(text, DepthPattern(depth), 0);
    while next.Some?
      invariant from <= |text|
      invariant next == NextMatch(text, DepthPattern(depth), from)
      invariant File(result, Candidates(FoundFrom(text, depth, from), base))
                == File(tags, Candidates(FoundFrom(text, depth, 0), base))
      invariant matched + MatchedTexts(FoundFrom(text, depth, from)) == MatchedTexts(FoundFrom(text, depth, 0))
      decreases |text| - from
    {
      var (i, e) := next.value;
      ScanStep(text, depth, from, i, e, result);
      result := FileCapture(result, text[i + depth..e - depth], depth);
      SeqAssoc(matched, [text[i..e]], MatchedTexts(FoundFrom(text, depth, e)));
      matched := matched + [text[i..e]];
      from := e;
      next := NextMatch(text, DepthPattern(depth), from);
    }
    FoundNone(text, depth, from);
  }

  /** The body of a pass's loop for one capture: the triple pass looks up the
      tag's own name, the others the capture's base name, which is the same. */
  method FileCapture(tags: seq<Tag>, capture: string, depth: nat) returns (result: seq<Tag>)
    requires 1 <= depth <= 3
    ensures result == FileTag(tags, Classify(capture, BaseOfDepth(depth)))
  {
    var t := Classify(capture, BaseOfDepth(depth));
    ClassifyName(capture, BaseOfDepth(depth));
    var key := if depth == 3 then t.name else BaseName(capture);
    result := tags;
    if !HasName(tags, key) {
      result := tags + [t];
    }
  }

  /** One `exec` step: the match at `s[i..e]` is filed and pushed first, then the
      rest of the scan from `e`. */
  lemma {:induction false} ScanStep(s: string, k: nat, from: nat, i: nat, e: nat, tags: seq<Tag>)
    requires 1 <= k <= 3 && from <= |s| && NextMatch(s, DepthPattern(k), from) == Some((i, e))
    ensures from <= i && i + 2 * k <= e <= |s|
    ensures File(tags, Candidates(FoundFrom(s, k, from), BaseOfDepth(k)))
            == File(FileTag(tags, Classify(s[i + k..e - k], BaseOfDepth(k))), Candidates(FoundFrom(s, k, e), BaseOfDepth(k)))
    ensures MatchedTexts(FoundFrom(s, k, from)) == [s[i..e]] + MatchedTexts(FoundFrom(s, k, e))
  {
    NextMatchBounds(s, k, from, i, e);
    FoundCons(s, k, from, i, e);
    var f := Span(s, k, i, e);
    var rest := FoundFrom(s, k, e);
    var base := BaseOfDepth(k);
    CandidatesCons(f, rest, base);
    FileCons(tags, Classify(f.capture, base), Candidates(rest, base));
    assert ([f] + rest)[1..] == rest;
  }

  lemma {:induction false} SeqAssoc(a: seq<string>, b: seq<string>, c: seq<string>)
    ensures (a + b) + c == a + (b + c)
  {
  }

  /** `for (const m of matches) remainingText = remainingText.replace(m, '')`. */
  method DeleteMatches(text: string, matched: seq<string>) returns (remaining: string)
    ensures remaining == DeleteAll(text, matched)
  {
    remaining := text;
    for j := 0 to |matched|
      invariant DeleteAll(remaining, matched[j..]) == DeleteAll(text, matched)
    {
      assert matched[j..][0] == matched[j] && matched[j..][1..] == matched[j + 1..];
      remaining := DeleteFirst(remaining, matched[j]);
    }
  }

  /** `extractTagsFromText`. */
  method ExtractTagsFromText(text: string) returns (tags: seq<Tag>)
    ensures tags == ExtractTags(text)
    ensures UniqueNames(tags)
  {
    var tripleMatches, doubleMatches, singleMatches;
    tags, tripleMatches := ScanPass(text, 3, []);
    var remaining := DeleteMatches(text, tripleMatches);
    tags, doubleMatches := ScanPass(remaining, 2, tags);
    remaining := DeleteMatches(remaining, doubleMatches);
    tags, singleMatches := ScanPass(remaining, 1, tags);
    ExtractTagsUnique(text);
  }

  // ---------------------------------------------------------------------------
  // What `extractTagsFromText` guarantees

  /** Extracted names are unique. */
  lemma {:induction false} ExtractTagsUnique(text: string)
    ensures UniqueNames(ExtractTags(text))
  {
    FileUnique([], Candidates(TripleFound(text), Date));
    FileUnique(TripleTags(text), Candidates(DoubleFound(text), Number));
    FileUnique(DoubleTags(text), Candidates(SingleFound(text), Text));
  }

  /** The later passes only append: the triple pass's tags come first, then
      those the double pass adds, then those the single pass adds; within each
      segment the tags are the pass's first discoveries: the first match of each
      name not filed before, in match order. */
  lemma {:induction false} ExtractTagsOrder(text: string)
    ensures var r := ExtractTags(text);
            && |TripleTags(text)| <= |DoubleTags(text)| <= |r|
            && r[..|TripleTags(text)|] == TripleTags(text)
            && r[..|DoubleTags(text)|] == DoubleTags(text)
    ensures var r, c3 := ExtractTags(text), Candidates(TripleFound(text), Date);
            var c2, c1 := Candidates(DoubleFound(text), Number), Candidates(SingleFound(text), Text);
            && r[..|TripleTags(text)|] == FirstDiscoveries([], c3, |c3|)
            && r[|TripleTags(text)|..|DoubleTags(text)|] == FirstDiscoveries(TripleTags(text), c2, |c2|)
            && r[|DoubleTags(text)|..] == FirstDiscoveries(DoubleTags(text), c1, |c1|)
  {
    var t3 := TripleTags(text);
    var t2 := DoubleTags(text);
    var r := ExtractTags(text);
    FileTwice(t3, Candidates(DoubleFound(text), Number), Candidates(SingleFound(text), Text));
    FileIsFirstDiscoveries([], Candidates(TripleFound(text), Date));
    FileIsFirstDiscoveries(t3, Candidates(DoubleFound(text), Number));
    FileIsFirstDiscoveries(t2, Candidates(SingleFound(text), Text));
    assert t3 == [] + t3;
    assert r[|t3|..|t2|] == t2[|t3|..] by {
      assert r[|t3|..|t2|] == r[..|t2|][|t3|..];
    }
  }

  /** Two filings in a row only append. */
  lemma {:induction false} FileTwice(tags: seq<Tag>, cs: seq<Tag>, ds: seq<Tag>)
    ensures var mid := File(tags, cs);
            var r := File(mid, ds);
            && |tags| <= |mid| <= |r| && r[..|tags|] == tags && r[..|mid|] == mid
  {
    var mid := File(tags, cs);
    var r := File(mid, ds);
    FilePrefix(tags, cs);
    FilePrefix(mid, ds);
    assert r[..|tags|] == r[..|mid|][..|tags|];
  }

  /** Each segment has its pass's kind: dates, then numbers, then text, with
      options exactly on the dropdowns. */
  lemma {:induction false} ExtractTagsKinds(text: string)
    ensures var r := ExtractTags(text);
            && |TripleTags(text)| <= |DoubleTags(text)| <= |r|
            && AllOfKind(r[..|TripleTags(text)|], Date)
            && AllOfKind(r[|TripleTags(text)|..|DoubleTags(text)|], Number)
            && AllOfKind(r[|DoubleTags(text)|..], Text)
  {
    var t3 := TripleTags(text);
    var t2 := DoubleTags(text);
    var r := ExtractTags(text);
    ExtractTagsOrder(text);
    CandidatesKinds(TripleFound(text), Date);
    CandidatesKinds(DoubleFound(text), Number);
    CandidatesKinds(SingleFound(text), Text);
    FileKinds([], Candidates(TripleFound(text), Date), Date);
    FileKinds(t3, Candidates(DoubleFound(text), Number), Number);
    FileKinds(t2, Candidates(SingleFound(text), Text), Text);
    assert t3[0..] == t3;
    assert r[|t3|..|t2|] == t2[|t3|..] by {
      assert r[|t3|..|t2|] == r[..|t2|][|t3|..];
    }
  }

  /** Every match of every pass ends up under its name. */
  lemma {:induction false} ExtractTagsComplete(text: string)
    ensures forall f :: f in TripleFound(text) ==> HasName(ExtractTags(text), Classify(f.capture, Date).name)
    ensures forall f :: f in DoubleFound(text) ==> HasName(ExtractTags(text), Classify(f.capture, Number).name)
    ensures forall f :: f in SingleFound(text) ==> HasName(ExtractTags(text), Classify(f.capture, Text).name)
  {
    var t3 := TripleTags(text);
    var t2 := DoubleTags(text);
    var r := ExtractTags(text);
    var c3 := Candidates(TripleFound(text), Date);
    var c2 := Candidates(DoubleFound(text), Number);
    var c1 := Candidates(SingleFound(text), Text);
    FileComplete([], c3);
    FileComplete(t3, c2);
    FileComplete(t2, c1);
    ExtractTagsOrder(text);
    forall f | f in TripleFound(text) ensures HasName(r, Classify(f.capture, Date).name) {
      CandidateOf(f, TripleFound(text), Date);
      KnownStaysKnown(t3, r, Classify(f.capture, Date).name);
    }
    forall f | f in DoubleFound(text) ensures HasName(r, Classify(f.capture, Number).name) {
      CandidateOf(f, DoubleFound(text), Number);
      KnownStaysKnown(t2, r, Classify(f.capture, Number).name);
    }
    forall f | f in SingleFound(text) ensures HasName(r, Classify(f.capture, Text).name) {
      CandidateOf(f, SingleFound(text), Text);
    }
  }

  lemma {:induction false} CandidateOf(f: Found, fs: seq<Found>, base: BaseKind)
    requires f in fs
    ensures Classify(f.capture, base) in Candidates(fs, base)
  {
    var j :| 0 <= j < |fs| && fs[j] == f;
    CandidateAt(fs, base, j);
  }

  /** A name the triple pass files is a date in the result, whatever the later
      passes see: `{{{d}}}` never also yields a number or text tag `d`. */
  lemma {:induction false} TripleNamesStayDates(text: string, name: string)
    requires HasName(TripleTags(text), name)
    ensures forall t :: t in ExtractTags(text) && t.name == name ==> t.kind.base == Date
  {
    ExtractTagsOrder(text);
    ExtractTagsUnique(text);
    TripleTagsAreDates(text);
    PrefixNamesKeepKind(TripleTags(text), ExtractTags(text), name, Date);
  }

  lemma {:induction false} TripleTagsAreDates(text: string)
    ensures AllOfKind(TripleTags(text), Date)
  {
    CandidatesKinds(TripleFound(text), Date);
    FileKindsFromEmpty(Candidates(TripleFound(text), Date), Date);
  }

  lemma {:induction false} FileKindsFromEmpty(cs: seq<Tag>, base: BaseKind)
    requires AllOfKind(cs, base)
    ensures AllOfKind(File([], cs), base)
  {
    FileKinds([], cs, base);
    assert File([], cs)[0..] == File([], cs);
  }

  /** In a list with unique names, a name from a prefix of kind `base` names
      only that prefix's tag. */
  lemma {:induction false} PrefixNamesKeepKind(pre: seq<Tag>, r: seq<Tag>, name: string, base: BaseKind)
    requires |pre| <= |r| && r[..|pre|] == pre && UniqueNames(r)
    requires AllOfKind(pre, base) && HasName(pre, name)
    ensures forall t :: t in r && t.name == name ==> t.kind.base == base
  {
    var i :| 0 <= i < |pre| && pre[i].name == name;
    assert r[i] == r[..|pre|][i];
    forall t | t in r && t.name == name ensures t.kind.base == base {
      var j :| 0 <= j < |r| && r[j] == t;
      assert r[j].name == r[i].name;
    }
  }

  /** Every triple match is filed under its name by the triple pass. */
  lemma {:induction false} TripleFoundFiled(text: string, f: Found)
    requires f in TripleFound(text)
    ensures HasName(TripleTags(text), Classify(f.capture, Date).name)
  {
    CandidateOf(f, TripleFound(text), Date);
    FileComplete([], Candidates(TripleFound(text), Date));
  }

  /** The first triple match of a name is the tag filed under it: the `j`-th
      triple candidate, when no earlier one has its name, is in the result, and
      it is the only tag there of that name. */
  lemma {:induction false} TripleFirstWins(text: string, j: nat)
    requires j < |TripleFound(text)|
    requires forall i :: 0 <= i < j ==>
               Candidates(TripleFound(text), Date)[i].name != Candidates(TripleFound(text), Date)[j].name
    ensures Candidates(TripleFound(text), Date)[j] in ExtractTags(text)
    ensures forall t :: t in ExtractTags(text) && t.name == Candidates(TripleFound(text), Date)[j].name
                        ==> t == Candidates(TripleFound(text), Date)[j]
  {
    var cs := Candidates(TripleFound(text), Date);
    FileFirstWins([], cs, j);
    ExtractTagsOrder(text);
    InPrefix(TripleTags(text), ExtractTags(text), cs[j]);
    ExtractTagsUnique(text);
    OnlyTagOfName(ExtractTags(text), cs[j]);
  }

  /** The first double match of a name the triple pass did not file is the tag
      filed under it, and the only tag there of that name. */
  lemma {:induction false} DoubleFirstWins(text: string, j: nat)
    requires j < |DoubleFound(text)|
    requires !HasName(TripleTags(text), Candidates(DoubleFound(text), Number)[j].name)
    requires forall i :: 0 <= i < j ==>
               Candidates(DoubleFound(text), Number)[i].name != Candidates(DoubleFound(text), Number)[j].name
    ensures Candidates(DoubleFound(text), Number)[j] in ExtractTags(text)
    ensures forall t :: t in ExtractTags(text) && t.name == Candidates(DoubleFound(text), Number)[j].name
                        ==> t == Candidates(DoubleFound(text), Number)[j]
  {
    var cs := Candidates(DoubleFound(text), Number);
    FileFirstWins(TripleTags(text), cs, j);
    ExtractTagsOrder(text);
    InPrefix(DoubleTags(text), ExtractTags(text), cs[j]);
    ExtractTagsUnique(text);
    OnlyTagOfName(ExtractTags(text), cs[j]);
  }

  /** The first single match of a name neither earlier pass filed is the tag
      filed under it, and the only tag there of that name. */
  lemma {:induction false} SingleFirstWins(text: string, j: nat)
    requires j < |SingleFound(text)|
    requires !HasName(DoubleTags(text), Candidates(SingleFound(text), Text)[j].name)
    requires forall i :: 0 <= i < j ==>
               Candidates(SingleFound(text), Text)[i].name != Candidates(SingleFound(text), Text)[j].name
    ensures Candidates(SingleFound(text), Text)[j] in ExtractTags(text)
    ensures forall t :: t in ExtractTags(text) && t.name == Candidates(SingleFound(text), Text)[j].name
                        ==> t == Candidates(SingleFound(text), Text)[j]
  {
    var cs := Candidates(SingleFound(text), Text);
    FileFirstWins(DoubleTags(text), cs, j);
    ExtractTagsUnique(text);
    OnlyTagOfName(ExtractTags(text), cs[j]);
  }

  /** Every extracted tag is the tag of a match of the pass whose segment holds
      it: a triple match for the first segment, a double match for the second,
      a single match for the third. */
  lemma {:induction false} ExtractTagsSound(text: string)
    ensures var r := ExtractTags(text);
            && |TripleTags(text)| <= |DoubleTags(text)| <= |r|
            && AllFromMatches(r[..|TripleTags(text)|], TripleFound(text), Date)
            && AllFromMatches(r[|TripleTags(text)|..|DoubleTags(text)|], DoubleFound(text), Number)
            && AllFromMatches(r[|DoubleTags(text)|..], SingleFound(text), Text)
  {
    var t3 := TripleTags(text);
    var t2 := DoubleTags(text);
    var r := ExtractTags(text);
    FileTwice(t3, Candidates(DoubleFound(text), Number), Candidates(SingleFound(text), Text));
    FiledFromMatches([], TripleFound(text), Date);
    FiledFromMatches(t3, DoubleFound(text), Number);
    FiledFromMatches(t2, SingleFound(text), Text);
    assert t3[0..] == t3;
    assert r[|t3|..|t2|] == t2[|t3|..] by {
      assert r[|t3|..|t2|] == r[..|t2|][|t3|..];
    }
  }

  /** The tags one pass adds are the tags of its matches. */
  lemma {:induction false} FiledFromMatches(tags: seq<Tag>, fs: seq<Found>, base: BaseKind)
    ensures |tags| <= |File(tags, Candidates(fs, base))|
    ensures AllFromMatches(File(tags, Candidates(fs, base))[|tags|..], fs, base)
  {
    var r := File(tags, Candidates(fs, base));
    FilePrefix(tags, Candidates(fs, base));
    FileFrom(tags, Candidates(fs, base));
    forall j | 0 <= j < |r[|tags|..]| ensures FromMatch(r[|tags|..][j], fs, base) {
      assert r[|tags|..][j] == r[|tags| + j];
      MatchOf(r[|tags| + j], fs, base);
    }
  }

  /** Every tag in `ts` is the tag of a match in `fs` at kind `base`. */
  predicate AllFromMatches(ts: seq<Tag>, fs: seq<Found>, base: BaseKind) {
    forall j :: 0 <= j < |ts| ==> FromMatch(ts[j], fs, base)
  }

  /** `t` is the tag some match in `fs` yields at kind `base`. */
  predicate FromMatch(t: Tag, fs: seq<Found>, base: BaseKind) {
    exists f :: f in fs && t == Classify(f.capture, base)
  }

  /** Each candidate is the tag of a match. */
  lemma {:induction false} MatchOf(t: Tag, fs: seq<Found>, base: BaseKind)
    requires t in Candidates(fs, base)
    ensures FromMatch(t, fs, base)
  {
    var cs := Candidates(fs, base);
    var j :| 0 <= j < |cs| && cs[j] == t;
    CandidateAt(fs, base, j);
    assert fs[j] in fs;
  }

  lemma {:induction false} InPrefix(pre: seq<Tag>, r: seq<Tag>, t: Tag)
    requires |pre| <= |r| && r[..|pre|] == pre && t in pre
    ensures t in r
  {
    var i :| 0 <= i < |pre| && pre[i] == t;
    assert r[i] == r[..|pre|][i];
  }

  /** Text without `{` has no tags; in particular the empty text has none. */
  lemma {:induction false} NoBraceNoTags(text: string)
    requires '{' !in text
    ensures ExtractTags(text) == []
  {
    FoundNeedsBrace(text, 3, 0);
    assert AfterTriple(text) == text;
    FoundNeedsBrace(text, 2, 0);
    assert AfterDouble(text) == text;
    FoundNeedsBrace(text, 1, 0);
  }

  /** A scan finds nothing in text without `{`. */
  lemma {:induction false} FoundNeedsBrace(s: string, k: nat, from: nat)
    requires 1 <= k <= 3 && from <= |s|
    ensures FoundFrom(s, k, from) != [] ==> '{' in s
  {
    var next := NextMatch(s, DepthPattern(k), from);
    if next.None? {
      FoundNone(s, k, from);
    } else {
      var (i, e) := next.value;
      NextMatchBounds(s, k, from, i, e);
      DepthMatchParts(s, k, i, e);
      assert s[i..i + k][0] == '{';
      assert s[i] in s;
    }
  }
}
