/** The older, text-based template helpers of src/utils/documentUtils.ts: date
    rendering, the word limit, tag extraction into a plain object, the tag
    replacement and the split of the result into paragraphs. */
module DocumentUtils {
  import opened Wrappers
  import opened JsStrings
  import opened FieldTypes
  import opened FieldFormat
  import opened BracePatterns
  import opened TagExtraction
  import opened Replacement
  import Filling

  // ---------------------------------------------------------------------------
  // formatDate

  /** The pattern string the renderer's table files each pattern under. */
  function PatternText(p: DatePattern): (text: string)
    ensures PatternOf(text) == Some(p)
  {
    match p
    case DayMonthYearDash => "DD-MM-YYYY"
    case DayMonthYearSlash => "DD/MM/YYYY"
    case FullMonthName => "MMMM DD, YYYY"
    case ShortMonthName => "MMM DD, YYYY"
    case YearMonthDay => "YYYY-MM-DD"
    case MonthDayYearSlash => "MM/DD/YYYY"
    case MonthDayYearDash => "MM-DD-YYYY"
  }

  /** The patterns whose text starts with a month name. */
  predicate MonthNamed(p: DatePattern) {
    p == FullMonthName || p == ShortMonthName
  }

  /** One entry of `formatMap`: here the day is padded to two digits in every
      pattern, the month-name ones included. */
  function RenderPadded(p: DatePattern, d: CalendarDate): (r: string)
    ensures r != []
  {
    var day := Pad2(d.day);
    var month := Pad2(d.month + 1);
    var year := IntToString(d.year);
    match p
    case DayMonthYearDash => day + "-" + month + "-" + year
    case DayMonthYearSlash => day + "/" + month + "/" + year
    case FullMonthName => Months[d.month] + " " + day + ", " + year
    case ShortMonthName => MonthsShort[d.month] + " " + day + ", " + year
    case YearMonthDay => year + "-" + month + "-" + day
    case MonthDayYearSlash => month + "/" + day + "/" + year
    case MonthDayYearDash => month + "-" + day + "-" + year
  }

  /** `formatDate(date, formatPattern)`: a pattern the table lacks comes back as
      it is (`formatMap[formatPattern] || formatPattern`; no entry is empty, so
      the fallback only serves unknown patterns). A known pattern renders a date
      the component's reader takes back, except that a month-name pattern with a
      one-digit day is written with a leading zero. */
  function FormatDate(date: CalendarDate, formatPattern: string): (r: string)
    ensures PatternOf(formatPattern).None? ==> r == formatPattern
    ensures PatternOf(formatPattern).Some? ==> r != []
    ensures PatternOf(formatPattern).Some? ==> ParsePadded(PatternOf(formatPattern).value, r) == Some(date)
    ensures PatternOf(formatPattern).Some? && (!MonthNamed(PatternOf(formatPattern).value) || date.day >= 10) ==>
              ParseRendered(PatternOf(formatPattern).value, r) == Some(date)
  {
    match PatternOf(formatPattern)
    case None => formatPattern
    case Some(p) =>
      PaddedAgrees(p, date);
      RenderRoundTrip(p, date);
      PaddedRoundTrip(p, date);
      RenderPadded(p, date)
  }

  /** Reads `<month name> <DD>, <year>`, the day written with two digits. */
  function ParsePaddedNamed(s: string, names: seq<string>): Option<CalendarDate> {
    var parts := Split(s, ' ');
    if |parts| != 3 || |parts[1]| != 3 || parts[1][2] != ',' then None
    else
      var m := IndexIn(names, parts[0]);
      if m.None? then None
      else MakeDate(ParseInt(parts[2]), Some(m.value + 1), ParseTwoDigits(parts[1][..2]))
  }

  /** Reads a date in the form `RenderPadded(p, _)` writes: the component's
      reader for the numeric patterns, a two-digit day after a month name. */
  function ParsePadded(p: DatePattern, s: string): Option<CalendarDate> {
    match p
    case FullMonthName => ParsePaddedNamed(s, Months)
    case ShortMonthName => ParsePaddedNamed(s, MonthsShort)
    case _ => ParseRendered(p, s)
  }

  /** Every pattern's padded rendering reads back as the date, whatever its day. */
  lemma {:induction false} PaddedRoundTrip(p: DatePattern, d: CalendarDate)
    ensures ParsePadded(p, RenderPadded(p, d)) == Some(d)
  {
    if p == FullMonthName {
      MonthTables(d.month);
      PaddedNamedParts(Months, Months[d.month], d.month, d.day, d.year);
    } else if p == ShortMonthName {
      MonthTables(d.month);
      PaddedNamedParts(MonthsShort, MonthsShort[d.month], d.month, d.day, d.year);
    } else {
      PaddedAgrees(p, d);
      RenderRoundTrip(p, d);
    }
  }

  lemma {:induction false} PaddedNamedParts(names: seq<string>, name: string, m: nat, day: nat, year: int)
    requires ' ' !in name && IndexIn(names, name) == Some(m) && day < 100
    ensures ParsePaddedNamed(name + " " + Pad2(day) + ", " + IntToString(year), names)
            == MakeDate(Some(year), Some(m + 1), Some(day))
  {
    var dayText := Pad2(day);
    NoSpaceInNumber(day, year);
    NamedSplit(name, dayText, IntToString(year));
    assert (dayText + [','])[..2] == dayText;
    ParseIntToString(year);
    ParsePad2(day);
  }

  /** The two renderers of the repository agree on every numeric pattern, and on
      a month-name pattern exactly when the day has two digits. */
  lemma {:induction false} PaddedAgrees(p: DatePattern, d: CalendarDate)
    ensures !MonthNamed(p) ==> RenderPadded(p, d) == RenderDate(p, d)
    ensures MonthNamed(p) ==> (RenderPadded(p, d) == RenderDate(p, d) <==> d.day >= 10)
  {
    PadTwoDigits(d.day);
    if MonthNamed(p) && d.day < 10 {
      var m := if p == FullMonthName then Months[d.month] else MonthsShort[d.month];
      var y := IntToString(d.year);
      assert |m + " " + Pad2(d.day) + ", " + y| != |m + " " + NatToString(d.day) + ", " + y|;
    }
  }

  /** `padStart(2, '0')` changes a number's text exactly when it has one digit. */
  lemma {:induction false} PadTwoDigits(n: nat)
    ensures n >= 10 ==> Pad2(n) == NatToString(n)
    ensures n < 10 ==> |Pad2(n)| == |NatToString(n)| + 1
  {
  }

  /** Every pattern of the table, given by its own text, renders the date. */
  lemma {:induction false} FormatDateKnown(date: CalendarDate, p: DatePattern)
    ensures FormatDate(date, PatternText(p)) == RenderPadded(p, date)
    ensures !MonthNamed(p) ==> FormatDate(date, PatternText(p)) == RenderDate(p, date)
  {
    PaddedAgrees(p, date);
  }

  // ---------------------------------------------------------------------------
  // limitTextByWords

  /** `limitTextByWords(text, wordLimit)` of this file: it counts the pieces of an
      unfiltered whitespace split, so leading or trailing whitespace counts as a
      word and the empty text has one word. Over the limit, the first `limit`
      pieces are joined by single spaces, and splitting that text again gives
      exactly those pieces. */
  function LimitTextByWords(text: string, limit: nat): (r: (string, nat))
    ensures r.1 <= limit
    ensures |SplitOnSpaces(text)| <= limit ==> r == (text, |SplitOnSpaces(text)|)
    ensures |SplitOnSpaces(text)| > limit ==> r.1 == limit && r.0 == Join(SplitOnSpaces(text)[..limit], " ")
    ensures |SplitOnSpaces(text)| > limit && limit > 0 ==> SplitOnSpaces(r.0) == SplitOnSpaces(text)[..limit]
  {
    var words := SplitOnSpaces(text);
    if |words| > limit then
      if limit > 0 then
        MiddlePiecesNonEmpty(text);
        assert forall k :: 0 <= k < limit ==> SpaceFree(words[..limit][k]);
        SplitOfJoin(words[..limit]);
        (Join(words[..limit], " "), limit)
      else (Join(words[..limit], " "), limit)
    else (text, |words|)
  }

  /** The empty text counts as one word. */
  lemma {:induction false} EmptyTextOneWord(limit: nat)
    requires limit >= 1
    ensures LimitTextByWords("", limit) == ("", 1)
  {
    assert SplitOnSpaces("") == [""];
  }

  /** Limiting twice is limiting once: a cut text already splits into `limit`
      pieces. */
  lemma {:induction false} LimitIdempotent(text: string, limit: nat)
    ensures LimitTextByWords(LimitTextByWords(text, limit).0, limit) == LimitTextByWords(text, limit)
  {
    var words := SplitOnSpaces(text);
    if |words| > limit && limit == 0 {
      assert words[..0] == [];
      assert SplitOnSpaces("") == [""];
    }
  }

  /** A piece without whitespace. */
  predicate SpaceFree(w: string) {
    forall i :: 0 <= i < |w| ==> !IsSpace(w[i])
  }

  /** Pieces without whitespace, all but the first non-empty, joined by single
      spaces split back into themselves. */
  lemma {:induction false} SplitOfJoin(ps: seq<string>)
    requires |ps| >= 1
    requires forall k :: 0 <= k < |ps| ==> SpaceFree(ps[k])
    requires forall k :: 0 < k < |ps| ==> ps[k] != []
    ensures SplitOnSpaces(Join(ps, " ")) == ps
    decreases |ps|
  {
    if |ps| == 1 {
      assert SpaceFree(ps[0]);
      SplitWord(ps[0]);
    } else {
      var tail := ps[1..];
      SplitOfJoin(tail);
      JoinStartsWith(tail);
      JoinSpaceCons(ps);
      assert SpaceFree(ps[0]);
      SplitWordSpace(ps[0], Join(tail, " "));
      assert [ps[0]] + tail == ps;
    }
  }

  lemma {:induction false} JoinSpaceCons(ps: seq<string>)
    requires |ps| > 1
    ensures Join(ps, " ") == ps[0] + (" " + Join(ps[1..], " "))
  {
  }

  // ---------------------------------------------------------------------------
  // extractTagsFromTemplate

  /** The tags object: a tag name to the kind it was filed with. */
  type Kinds = map<string, BaseKind>

  /** `content.split('/')[0].trim()` of the trimmed capture of a match. */
  function NameOf(f: Found): string {
    BaseName(f.capture)
  }

  /** The names of the matches, in order. */
  function FoundNames(fs: seq<Found>): (ns: seq<string>)
    ensures |ns| == |fs|
    decreases |fs|
  {
    if fs == [] then [] else [NameOf(fs[0])] + FoundNames(fs[1..])
  }

  /** Some match of `fs` names `name`. */
  predicate NamedBy(fs: seq<Found>, name: string) {
    name in FoundNames(fs)
  }

  /** The triple pass: every match files its name as a date, whatever was there. */
  function MarkDates(tags: Kinds, fs: seq<Found>): Kinds
    decreases |fs|
  {
    if fs == [] then tags else MarkDates(tags[NameOf(fs[0]) := Date], fs[1..])
  }

  /** The double and single passes: a name is filed with `kind` unless already there. */
  function MarkAbsent(tags: Kinds, fs: seq<Found>, kind: BaseKind): Kinds
    decreases |fs|
  {
    if fs == [] then tags
    else
      var name := NameOf(fs[0]);
      MarkAbsent(if name in tags then tags else tags[name := kind], fs[1..], kind)
  }

  /** One round of a double or single pass: the match at `i..e` is filed, then
      the scan goes on from `e`. */
  lemma {:induction false} AbsentStep(text: string, k: nat, kind: BaseKind, tags: Kinds, pos: nat, i: nat, e: nat)
    requires 1 <= k <= 3 && pos <= |text| && NextMatch(text, DepthPattern(k), pos) == Some((i, e))
    ensures pos < e <= |text| && i + 2 * k <= e
    ensures var name := BaseName(text[i + k..e - k]);
            MarkAbsent(tags, FoundFrom(text, k, pos), kind)
            == MarkAbsent(if name in tags then tags else tags[name := kind], FoundFrom(text, k, e), kind)
  {
    NextMatchBounds(text, k, pos, i, e);
    FoundCons(text, k, pos, i, e);
    MarkAbsentCons(tags, Span(text, k, i, e), FoundFrom(text, k, e), kind);
  }

  lemma {:induction false} MarkAbsentCons(tags: Kinds, f: Found, rest: seq<Found>, kind: BaseKind)
    ensures var name := NameOf(f);
            MarkAbsent(tags, [f] + rest, kind) == MarkAbsent(if name in tags then tags else tags[name := kind], rest, kind)
  {
    var fs := [f] + rest;
    assert fs != [] && fs[0] == f && fs[1..] == rest;
  }

  /** The three passes over the whole text, each starting at its beginning. */
  function TemplateKinds(text: string): Kinds {
    var dates := MarkDates(map[], FoundFrom(text, 3, 0));
    var numbers := MarkAbsent(dates, FoundFrom(text, 2, 0), Number);
    MarkAbsent(numbers, FoundFrom(text, 1, 0), Text)
  }

  /** The triple pass adds exactly the names it matches, each as a date, and
      leaves every other entry alone. */
  lemma {:induction false} MarkDatesShape(tags: Kinds, fs: seq<Found>, name: string)
    ensures name in MarkDates(tags, fs) <==> name in tags || NamedBy(fs, name)
    ensures NamedBy(fs, name) ==> MarkDates(tags, fs)[name] == Date
    ensures name in tags && !NamedBy(fs, name) ==> MarkDates(tags, fs)[name] == tags[name]
    decreases |fs|
  {
    if fs != [] {
      MarkDatesShape(tags[NameOf(fs[0]) := Date], fs[1..], name);
    }
  }

  /** A pass that files only absent names adds exactly the names it matches,
      files a new one with `kind`, and never changes an entry already there. */
  lemma {:induction false} MarkAbsentShape(tags: Kinds, fs: seq<Found>, kind: BaseKind, name: string)
    ensures name in MarkAbsent(tags, fs, kind) <==> name in tags || NamedBy(fs, name)
    ensures name in tags ==> MarkAbsent(tags, fs, kind)[name] == tags[name]
    ensures name !in tags && NamedBy(fs, name) ==> MarkAbsent(tags, fs, kind)[name] == kind
    decreases |fs|
  {
    if fs != [] {
      var n := NameOf(fs[0]);
      MarkAbsentShape(if n in tags then tags else tags[n := kind], fs[1..], kind, name);
    }
  }

  /** What the extracted object holds: the names matched at any depth; a name
      matched in triple braces is a date; otherwise one matched in double braces
      is a number; otherwise it is text. */
  lemma {:induction false} TemplateKindsShape(text: string, name: string)
    ensures var r := TemplateKinds(text);
            var t, d, s := FoundFrom(text, 3, 0), FoundFrom(text, 2, 0), FoundFrom(text, 1, 0);
            && (name in r <==> NamedBy(t, name) || NamedBy(d, name) || NamedBy(s, name))
            && (NamedBy(t, name) ==> r[name] == Date)
            && (!NamedBy(t, name) && NamedBy(d, name) ==> r[name] == Number)
            && (!NamedBy(t, name) && !NamedBy(d, name) && NamedBy(s, name) ==> r[name] == Text)
  {
    var dates := MarkDates(map[], FoundFrom(text, 3, 0));
    var numbers := MarkAbsent(dates, FoundFrom(text, 2, 0), Number);
    MarkDatesShape(map[], FoundFrom(text, 3, 0), name);
    MarkAbsentShape(dates, FoundFrom(text, 2, 0), Number, name);
    MarkAbsentShape(numbers, FoundFrom(text, 1, 0), Text, name);
  }

  /** `extractTagsFromTemplate`: three `exec` loops, each from the start of the
      text. */
  method ExtractTagsFromTemplate(templateText: string) returns (tags: Kinds)
    ensures tags == TemplateKinds(templateText)
  {
    tags := map[];
    tags := DatePass(templateText, tags);
    tags := AbsentPass(templateText, 2, Number, tags);
    tags := AbsentPass(templateText, 1, Text, tags);
  }

  /** The loop over `{{{...}}}` matches. */
  method DatePass(text: string, tags0: Kinds) returns (tags: Kinds)
    ensures tags == MarkDates(tags0, FoundFrom(text, 3, 0))
  {
    tags := tags0;
    var pos := 0;
    var next := NextMatch(text, DepthPattern(3), 0);
    while next.Some?
      invariant pos <= |text| && next == NextMatch(text, DepthPattern(3), pos)
      invariant MarkDates(tags, FoundFrom(text, 3, pos)) == MarkDates(tags0, FoundFrom(text, 3, 0))
      decreases |text| - pos
    {
      var (i, e) := next.value;
      NextMatchBounds(text, 3, pos, i, e);
      FoundCons(text, 3, pos, i, e);
      var tagName := Trim(Split(Trim(text[i + 3..e - 3]), '/')[0]);
      tags := tags[tagName := Date];
      pos := e;
      next := NextMatch(text, DepthPattern(3), pos);
    }
    FoundNone(text, 3, pos);
  }

  /** The loop over `{{...}}` (depth 2) or `{...}` (depth 1) matches. */
  method AbsentPass(text: string, k: nat, kind: BaseKind, tags0: Kinds) returns (tags: Kinds)
    requires 1 <= k <= 2
    ensures tags == MarkAbsent(tags0, FoundFrom(text, k, 0), kind)
  {
    tags := tags0;
    var pos := 0;
    var next := NextMatch(text, DepthPattern(k), 0);
    while next.Some?
      invariant pos <= |text| && next == NextMatch(text, DepthPattern(k), pos)
      invariant MarkAbsent(tags, FoundFrom(text, k, pos), kind) == MarkAbsent(tags0, FoundFrom(text, k, 0), kind)
      decreases |text| - pos
    {
      var (i, e) := next.value;
      AbsentStep(text, k, kind, tags, pos, i, e);
      var tagName := Trim(Split(Trim(text[i + k..e - k]), '/')[0]);
      if tagName !in tags {
        tags := tags[tagName := kind];
      }
      pos := e;
      next := NextMatch(text, DepthPattern(k), pos);
    }
    FoundNone(text, k, pos);
  }

  // The same passes as the source writes them, on a plain JavaScript object:
  // `tags[name]` is also truthy for a name the object inherits, and assigning
  // a string to `tags['__proto__']` does not create a key.

  /** The names every plain object inherits from `Object.prototype`. */
  const Inherited: set<string> := {
    "constructor", "hasOwnProperty", "isPrototypeOf", "propertyIsEnumerable",
    "toLocaleString", "toString", "valueOf", "__defineGetter__", "__defineSetter__",
    "__lookupGetter__", "__lookupSetter__", "__proto__"
  }

  /** `tags[name] = 'date'` on a plain object. */
  function MarkDatesAsWritten(tags: Kinds, fs: seq<Found>): Kinds
    decreases |fs|
  {
    if fs == [] then tags
    else
      var name := NameOf(fs[0]);
      MarkDatesAsWritten(if name == "__proto__" then tags else tags[name := Date], fs[1..])
  }

  /** `if (!tags[name]) tags[name] = kind` on a plain object. */
  function MarkAbsentAsWritten(tags: Kinds, fs: seq<Found>, kind: BaseKind): Kinds
    decreases |fs|
  {
    if fs == [] then tags
    else
      var name := NameOf(fs[0]);
      MarkAbsentAsWritten(if name in tags || name in Inherited then tags else tags[name := kind], fs[1..], kind)
  }

  function TemplateKindsAsWritten(text: string): Kinds {
    var dates := MarkDatesAsWritten(map[], FoundFrom(text, 3, 0));
    var numbers := MarkAbsentAsWritten(dates, FoundFrom(text, 2, 0), Number);
    MarkAbsentAsWritten(numbers, FoundFrom(text, 1, 0), Text)
  }

  /** No matched name is inherited. */
  predicate OwnNames(fs: seq<Found>) {
    forall j :: 0 <= j < |fs| ==> NameOf(fs[j]) !in Inherited
  }

  lemma {:induction false} MarkDatesAsWrittenAgrees(tags: Kinds, fs: seq<Found>)
    requires OwnNames(fs)
    ensures MarkDatesAsWritten(tags, fs) == MarkDates(tags, fs)
    decreases |fs|
  {
    if fs != [] {
      assert NameOf(fs[0]) !in Inherited;
      MarkDatesAsWrittenAgrees(tags[NameOf(fs[0]) := Date], fs[1..]);
    }
  }

  lemma {:induction false} MarkAbsentAsWrittenAgrees(tags: Kinds, fs: seq<Found>, kind: BaseKind)
    requires OwnNames(fs)
    ensures MarkAbsentAsWritten(tags, fs, kind) == MarkAbsent(tags, fs, kind)
    decreases |fs|
  {
    if fs != [] {
      var n := NameOf(fs[0]);
      assert n !in Inherited;
      MarkAbsentAsWrittenAgrees(if n in tags then tags else tags[n := kind], fs[1..], kind);
    }
  }

  /** As long as no tag is named like a member of `Object.prototype`, the plain
      object behaves as the map the model uses. */
  lemma {:induction false} AsWrittenAgrees(text: string)
    requires OwnNames(FoundFrom(text, 3, 0)) && OwnNames(FoundFrom(text, 2, 0)) && OwnNames(FoundFrom(text, 1, 0))
    ensures TemplateKindsAsWritten(text) == TemplateKinds(text)
  {
    var dates := MarkDates(map[], FoundFrom(text, 3, 0));
    var numbers := MarkAbsent(dates, FoundFrom(text, 2, 0), Number);
    MarkDatesAsWrittenAgrees(map[], FoundFrom(text, 3, 0));
    MarkAbsentAsWrittenAgrees(dates, FoundFrom(text, 2, 0), Number);
    MarkAbsentAsWrittenAgrees(numbers, FoundFrom(text, 1, 0), Text);
  }

  /** The double and single passes never file an inherited name. */
  lemma {:induction false} AsWrittenSkipsInherited(tags: Kinds, fs: seq<Found>, kind: BaseKind, name: string)
    requires name in Inherited
    ensures name in MarkAbsentAsWritten(tags, fs, kind) <==> name in tags
    decreases |fs|
  {
    if fs != [] {
      var n := NameOf(fs[0]);
      AsWrittenSkipsInherited(if n in tags || n in Inherited then tags else tags[n := kind], fs[1..], kind, name);
    }
  }

  /** The triple pass never files `__proto__`. */
  lemma {:induction false} AsWrittenSkipsProto(tags: Kinds, fs: seq<Found>)
    ensures "__proto__" in MarkDatesAsWritten(tags, fs) <==> "__proto__" in tags
    decreases |fs|
  {
    if fs != [] {
      var n := NameOf(fs[0]);
      AsWrittenSkipsProto(if n == "__proto__" then tags else tags[n := Date], fs[1..]);
    }
  }

  /** A tag named like an inherited member and written only in single or double
      braces, such as `{toString}`, is missing from the object the source
      returns, while the map the model uses holds it. */
  lemma {:induction false} InheritedNameDropped(text: string, name: string)
    requires name in Inherited && !NamedBy(FoundFrom(text, 3, 0), name)
    requires NamedBy(FoundFrom(text, 2, 0), name) || NamedBy(FoundFrom(text, 1, 0), name)
    ensures name !in TemplateKindsAsWritten(text)
    ensures name in TemplateKinds(text)
  {
    TemplateKindsShape(text, name);
    var dates := MarkDatesAsWritten(map[], FoundFrom(text, 3, 0));
    var numbers := MarkAbsentAsWritten(dates, FoundFrom(text, 2, 0), Number);
    AsWrittenSkipsInherited(numbers, FoundFrom(text, 1, 0), Text, name);
    AsWrittenSkipsInherited(dates, FoundFrom(text, 2, 0), Number, name);
    if name == "__proto__" {
      AsWrittenSkipsProto(map[], FoundFrom(text, 3, 0));
    } else {
      AsWrittenDatesOnlyMatched(map[], FoundFrom(text, 3, 0), name);
    }
  }

  /** The triple pass of the source files no name it did not match. */
  lemma {:induction false} AsWrittenDatesOnlyMatched(tags: Kinds, fs: seq<Found>, name: string)
    requires !NamedBy(fs, name)
    ensures name in MarkDatesAsWritten(tags, fs) <==> name in tags
    decreases |fs|
  {
    if fs != [] {
      var n := NameOf(fs[0]);
      AsWrittenDatesOnlyMatched(if n == "__proto__" then tags else tags[n := Date], fs[1..], name);
    }
  }

  /** `{{{__proto__}}}` is lost even in triple braces. */
  lemma {:induction false} ProtoNeverFiled(text: string)
    ensures "__proto__" !in TemplateKindsAsWritten(text)
  {
    var dates := MarkDatesAsWritten(map[], FoundFrom(text, 3, 0));
    var numbers := MarkAbsentAsWritten(dates, FoundFrom(text, 2, 0), Number);
    AsWrittenSkipsProto(map[], FoundFrom(text, 3, 0));
    AsWrittenSkipsInherited(dates, FoundFrom(text, 2, 0), Number, "__proto__");
    AsWrittenSkipsInherited(numbers, FoundFrom(text, 1, 0), Text, "__proto__");
  }

  // ---------------------------------------------------------------------------
  // replaceTagsInText and generateDocumentFromTemplate

  /** `replaceTagsInText`: for every entry, the six spellings of its tag in turn;
      a slashed spelling here accepts an empty option list (`[^}]*`). */
  method ReplaceTagsInText(text: string, replacements: seq<(string, string)>) returns (result: string)
    ensures result == Substitute(text, replacements, AnyRun)
    ensures forall pcs: seq<Filling.Piece> ::
              text == Filling.Assemble(pcs) && Filling.AllFit(pcs, AnyRun) && Filling.PlainEntries(replacements)
              ==> result == Filling.Assemble(Filling.Filled(pcs, replacements))
  {
    result := text;
    for i := 0 to |replacements|
      invariant Substitute(result, replacements[i..], AnyRun) == Substitute(text, replacements, AnyRun)
    {
      assert replacements[i..][1..] == replacements[i + 1..];
      result := ReplaceTag(result, replacements[i].0, replacements[i].1, AnyRun);
    }
    forall pcs: seq<Filling.Piece> |
      text == Filling.Assemble(pcs) && Filling.AllFit(pcs, AnyRun) && Filling.PlainEntries(replacements)
      ensures result == Filling.Assemble(Filling.Filled(pcs, replacements))
    {
      Filling.SubstitutePieces(pcs, replacements, AnyRun);
    }
  }

  /** Unlike the component's rewrite, an empty option list is a tag here:
      `{name/}` is filled. */
  lemma {:induction false} EmptyOptionsFilled(k: nat, name: string, v: string)
    requires 1 <= k <= 3 && '{' !in name && '{' !in v
    ensures Substitute(Written(k, name, true, ""), [(name, v)], AnyRun) == v
  {
    SubstituteWritten(k, name, true, "", v, AnyRun);
  }

  /** `text || ' '`: an empty line becomes a single space. */
  function LineText(text: string): (r: string)
    ensures r != []
    ensures text != [] ==> r == text
  {
    if text == "" then " " else text
  }

  /** The paragraph texts of the generated document: one per line of the
      replaced text, an empty line holding one space. */
  function DocumentLines(text: string): (lines: seq<string>)
    ensures |lines| == multiset(text)['\n'] + 1 == |Split(text, '\n')|
    ensures forall j :: 0 <= j < |lines| ==> lines[j] != [] && '\n' !in lines[j]
    ensures forall j :: 0 <= j < |lines| ==> lines[j] == LineText(Split(text, '\n')[j])
  {
    SplitCount(text, '\n');
    var pieces := Split(text, '\n');
    seq(|pieces|, j requires 0 <= j < |pieces| => LineText(pieces[j]))
  }

  /** Without empty lines the paragraphs, joined by line breaks, are the text. */
  lemma {:induction false} DocumentLinesRestore(text: string)
    requires forall j :: 0 <= j < |Split(text, '\n')| ==> Split(text, '\n')[j] != []
    ensures Join(DocumentLines(text), "\n") == text
  {
    var pieces := Split(text, '\n');
    assert DocumentLines(text) == pieces;
    JoinSplit(text, '\n');
  }

  /** `generateDocumentFromTemplate` of this file: the paragraphs of the new
      document, before `docx` packs them. */
  method GenerateDocumentFromTemplate(templateText: string, replacements: seq<(string, string)>)
    returns (paragraphs: seq<string>)
    ensures paragraphs == DocumentLines(Substitute(templateText, replacements, AnyRun))
  {
    var replacedText := ReplaceTagsInText(templateText, replacements);
    paragraphs := DocumentLines(replacedText);
  }
}
