/** Field helpers of src/components/TemplateUpload.tsx: option clean-up, the date
    format table and date rendering, and the word limit for long text fields. */
module FieldFormat {
  import opened JsStrings
  import opened Wrappers

  // ---------------------------------------------------------------------------
  // Option values

  predicate IsQuote(c: char) {
    c == '\'' || c == '"'
  }

  /** `.replace(/^['"]|['"]$/g, '')`: the first character goes exactly when it
      is a quote, and the last one exactly when it is a quote too (a lone quote
      character is both, and goes once). */
  function StripQuotes(s: string): (r: string)
    ensures var front := if |s| > 0 && IsQuote(s[0]) then 1 else 0;
            var back := if |s| > front && IsQuote(s[|s| - 1]) then 1 else 0;
            r == s[front..|s| - back]
  {
    var a := if |s| > 0 && IsQuote(s[0]) then s[1..] else s;
    if |a| > 0 && IsQuote(a[|a| - 1]) then a[..|a| - 1] else a
  }

  /** `cleanOptionValue`: trim, then drop a quote at either end of what is
      left. The same expression cleans each option when a tag is extracted. */
  function CleanOptionValue(v: string): (r: string)
    ensures var t := Trim(v);
            var front := if |t| > 0 && IsQuote(t[0]) then 1 else 0;
            var back := if |t| > front && IsQuote(t[|t| - 1]) then 1 else 0;
            r == t[front..|t| - back]
  {
    StripQuotes(Trim(v))
  }

  /** A quote at one end only is dropped on its own: `'a` and `a"` clean to `a`. */
  lemma {:induction false} CleanOneSided(q: char, x: string)
    requires IsQuote(q) && x != [] && IsTrimmed(x) && !IsQuote(x[0]) && !IsQuote(x[|x| - 1])
    ensures CleanOptionValue([q] + x) == x
    ensures CleanOptionValue(x + [q]) == x
  {
    CleanLeading(q, x);
    CleanTrailing(q, x);
  }

  lemma {:induction false} CleanLeading(q: char, x: string)
    requires IsQuote(q) && x != [] && IsTrimmed(x) && !IsQuote(x[|x| - 1])
    ensures CleanOptionValue([q] + x) == x
  {
    var s := [q] + x;
    assert s[0] == q && s[|s| - 1] == x[|x| - 1];
    assert IsTrimmed(s);
    assert s[1..|s|] == x;
  }

  lemma {:induction false} CleanTrailing(q: char, x: string)
    requires IsQuote(q) && x != [] && IsTrimmed(x) && !IsQuote(x[0])
    ensures CleanOptionValue(x + [q]) == x
  {
    var s := x + [q];
    assert s[0] == x[0] && s[|s| - 1] == q;
    assert IsTrimmed(s);
    assert s[0..|s| - 1] == x;
  }

  /** A quoted option, as written in a template, cleans to its text. */
  lemma {:induction false} CleanQuoted(q1: char, x: string, q2: char)
    requires IsQuote(q1) && IsQuote(q2)
    ensures CleanOptionValue([q1] + x + [q2]) == x
  {
    var s := [q1] + x + [q2];
    assert IsTrimmed(s);
    assert s[1..] == x + [q2];
    assert (x + [q2])[..|x|] == x;
  }

  /** A trimmed, unquoted option is left as it is. */
  lemma {:induction false} CleanUnquoted(x: string)
    requires IsTrimmed(x)
    requires x == [] || (!IsQuote(x[0]) && !IsQuote(x[|x| - 1]))
    ensures CleanOptionValue(x) == x
  {
    assert Trim(x) == x;
    StripUnquoted(x);
  }

  /** Without a quote at either end, nothing is stripped. */
  lemma {:induction false} StripUnquoted(x: string)
    requires x == [] || (!IsQuote(x[0]) && !IsQuote(x[|x| - 1]))
    ensures StripQuotes(x) == x
  {
  }


  // ---------------------------------------------------------------------------
  // Dates

  /** `DATE_FORMATS`: display label to pattern. */
  const DateFormats: map<string, string> := map[
    "January 27, 2026 (Full)" := "MMMM DD, YYYY",
    "Jan 27, 2026 (Short)" := "MMM DD, YYYY",
    "27-01-2026 (DD-MM-YYYY)" := "DD-MM-YYYY",
    "27/01/2026 (DD/MM/YYYY)" := "DD/MM/YYYY",
    "2026-01-27 (ISO)" := "YYYY-MM-DD",
    "01/27/2026 (MM/DD/YYYY)" := "MM/DD/YYYY",
    "01-27-2026 (MM-DD-YYYY)" := "MM-DD-YYYY"
  ]

  /** The label every date field starts with. */
  const DefaultDateLabel: string := "January 27, 2026 (Full)"

  /** The seven patterns the date renderer knows. */
  datatype DatePattern =
    | FullMonthName | ShortMonthName
    | DayMonthYearDash | DayMonthYearSlash
    | YearMonthDay
    | MonthDayYearSlash | MonthDayYearDash

  /** The cases of the renderer's `switch` on the pattern string. */
  function PatternOf(text: string): Option<DatePattern> {
    if text == "MMMM DD, YYYY" then Some(FullMonthName)
    else if text == "MMM DD, YYYY" then Some(ShortMonthName)
    else if text == "DD-MM-YYYY" then Some(DayMonthYearDash)
    else if text == "DD/MM/YYYY" then Some(DayMonthYearSlash)
    else if text == "YYYY-MM-DD" then Some(YearMonthDay)
    else if text == "MM/DD/YYYY" then Some(MonthDayYearSlash)
    else if text == "MM-DD-YYYY" then Some(MonthDayYearDash)
    else None
  }

  /** Every label of the table leads to a pattern the renderer handles. */
  lemma {:induction false} EveryLabelHasPattern(formatLabel: string)
    requires formatLabel in DateFormats
    ensures formatLabel != ""
    ensures PatternOf(DateFormats[formatLabel]).Some?
  {
  }

  const Months: seq<string> := ["January", "February", "March", "April", "May", "June",
                                "July", "August", "September", "October", "November", "December"]
  const MonthsShort: seq<string> := ["Jan", "Feb", "Mar", "Apr", "May", "Jun",
                                     "Jul", "Aug", "Sep", "Oct", "Nov", "Dec"]

  /** `Date.prototype.getMonth()`: 0 for January. */
  type Month0 = m: nat | m < 12
  /** `Date.prototype.getDate()`. */
  type DayOfMonth = d: nat | 1 <= d <= 31 witness 1

  /** The calendar fields of a parsed JavaScript `Date`. */
  datatype CalendarDate = CalendarDate(year: int, month: Month0, day: DayOfMonth)

  /** The text of one pattern for one date, as `formatDateValue` builds it: the
      day unpadded after a month name, day and month padded to two digits in the
      numeric patterns, the month shown as `month + 1`. */
  function RenderDate(p: DatePattern, d: CalendarDate): string {
    var year := IntToString(d.year);
    match p
    case DayMonthYearDash => Pad2(d.day) + "-" + Pad2(d.month + 1) + "-" + year
    case DayMonthYearSlash => Pad2(d.day) + "/" + Pad2(d.month + 1) + "/" + year
    case FullMonthName => Months[d.month] + " " + NatToString(d.day) + ", " + year
    case ShortMonthName => MonthsShort[d.month] + " " + NatToString(d.day) + ", " + year
    case YearMonthDay => year + "-" + Pad2(d.month + 1) + "-" + Pad2(d.day)
    case MonthDayYearSlash => Pad2(d.month + 1) + "/" + Pad2(d.day) + "/" + year
    case MonthDayYearDash => Pad2(d.month + 1) + "-" + Pad2(d.day) + "-" + year
  }

  /** `formatDateValue(dateStr, format)`, where `date` is `new Date(dateStr)`:
      empty input renders empty; a label outside the table returns the input. */
  function FormatDateValue(dateStr: string, date: CalendarDate, formatLabel: string): (r: string)
    ensures dateStr == "" ==> r == ""
    ensures dateStr != "" && formatLabel !in DateFormats ==> r == dateStr
    ensures dateStr != "" && formatLabel in DateFormats ==>
              ParseRendered(PatternOf(DateFormats[formatLabel]).value, r) == Some(date)
  {
    if dateStr == "" then ""
    else
      var pattern := if formatLabel in DateFormats then PatternOf(DateFormats[formatLabel]) else None;
      match pattern
      case None => dateStr
      case Some(p) =>
        RenderRoundTrip(p, date);
        RenderDate(p, date)
  }

  // ---------------------------------------------------------------------------
  // Reading a rendered date back: the inverse of RenderDate.

  predicate AllDigits(s: string) {
    |s| > 0 && forall i :: 0 <= i < |s| ==> IsDigit(s[i])
  }

  /** An optionally negative decimal integer. */
  function ParseInt(s: string): Option<int> {
    if |s| > 0 && s[0] == '-' then
      if AllDigits(s[1..]) then Some(0 - DigitsValue(s[1..])) else None
    else if AllDigits(s) then Some(DigitsValue(s))
    else None
  }

  /** Exactly two digits. */
  function ParseTwoDigits(s: string): Option<nat> {
    if |s| == 2 && AllDigits(s) then Some(DigitsValue(s)) else None
  }

  /** A decimal without leading zeros, as `toString` writes one. */
  function ParseCanonicalNat(s: string): Option<nat> {
    if AllDigits(s) && NatToString(DigitsValue(s)) == s then Some(DigitsValue(s)) else None
  }

  /** A date from a year, a month numbered from 1 and a day. */
  function MakeDate(year: Option<int>, month1: Option<nat>, day: Option<nat>): Option<CalendarDate> {
    if year.Some? && month1.Some? && day.Some?
       && 1 <= month1.value <= 12 && 1 <= day.value <= 31
    then Some(CalendarDate(year.value, month1.value - 1, day.value))
    else None
  }

  /** The position of `x` in `xs`, if it is there. */
  function IndexIn(xs: seq<string>, x: string): (r: Option<nat>)
    ensures r.Some? ==> r.value < |xs| && xs[r.value] == x
    ensures r.None? ==> x !in xs
  {
    if |xs| == 0 then None
    else if xs[0] == x then Some(0)
    else match IndexIn(xs[1..], x)
      case None => None
      case Some(k) => Some(k + 1)
  }

  /** Reads `DD<sep>MM<sep>YEAR` (or, with `monthFirst`, `MM<sep>DD<sep>YEAR`). */
  function ParseNumeric(s: string, sep: char, monthFirst: bool): Option<CalendarDate> {
    if |s| < 7 || s[2] != sep || s[5] != sep then None
    else
      var a := ParseTwoDigits(s[..2]);
      var b := ParseTwoDigits(s[3..5]);
      if monthFirst then MakeDate(ParseInt(s[6..]), a, b) else MakeDate(ParseInt(s[6..]), b, a)
  }

  /** Reads `YEAR-MM-DD`. */
  function ParseIso(s: string): Option<CalendarDate> {
    var n := |s|;
    if n < 7 || s[n - 6] != '-' || s[n - 3] != '-' then None
    else MakeDate(ParseInt(s[..n - 6]), ParseTwoDigits(s[n - 5..n - 3]), ParseTwoDigits(s[n - 2..]))
  }

  /** Reads `<month name> <day>, <year>` against the given month names. */
  function ParseNamed(s: string, names: seq<string>): Option<CalendarDate> {
    var parts := Split(s, ' ');
    if |parts| != 3 || parts[1] == [] || parts[1][|parts[1]| - 1] != ',' then None
    else
      var m := IndexIn(names, parts[0]);
      if m.None? then None
      else MakeDate(ParseInt(parts[2]), Some(m.value + 1), ParseCanonicalNat(parts[1][..|parts[1]| - 1]))
  }

  /** Reads a date rendered with pattern `p`. */
  function ParseRendered(p: DatePattern, s: string): Option<CalendarDate> {
    match p
    case DayMonthYearDash => ParseNumeric(s, '-', false)
    case DayMonthYearSlash => ParseNumeric(s, '/', false)
    case MonthDayYearSlash => ParseNumeric(s, '/', true)
    case MonthDayYearDash => ParseNumeric(s, '-', true)
    case YearMonthDay => ParseIso(s)
    case FullMonthName => ParseNamed(s, Months)
    case ShortMonthName => ParseNamed(s, MonthsShort)
  }

  lemma {:induction false} ParseIntToString(n: int)
    ensures ParseInt(IntToString(n)) == Some(n)
  {
    if n < 0 {
      assert IntToString(n)[1..] == NatToString(-n);
    } else {
      assert IsDigit(NatToString(n)[0]);
    }
  }

  lemma {:induction false} ParsePad2(n: nat)
    requires n < 100
    ensures ParseTwoDigits(Pad2(n)) == Some(n)
  {
  }

  /** Month names hold no space, and each is found at its own index. */
  lemma {:induction false} MonthTables(k: nat)
    requires k < 12
    ensures ' ' !in Months[k] && ' ' !in MonthsShort[k]
    ensures IndexIn(Months, Months[k]) == Some(k)
    ensures IndexIn(MonthsShort, MonthsShort[k]) == Some(k)
  {
    MonthsNoSpace(k);
    MonthsDistinct();
    MonthsShortDistinct();
    IndexInDistinct(Months, k);
    IndexInDistinct(MonthsShort, k);
  }

  lemma {:induction false} MonthsNoSpace(k: nat)
    requires k < 12
    ensures ' ' !in Months[k] && ' ' !in MonthsShort[k]
  {
  }

  lemma {:induction false} MonthsDistinct()
    ensures forall i, j :: 0 <= i < j < 12 ==> Months[i] != Months[j]
  {
  }

  lemma {:induction false} MonthsShortDistinct()
    ensures forall i, j :: 0 <= i < j < 12 ==> MonthsShort[i] != MonthsShort[j]
  {
  }

  lemma {:induction false} IndexInDistinct(xs: seq<string>, k: nat)
    requires k < |xs|
    requires forall i, j :: 0 <= i < j < |xs| ==> xs[i] != xs[j]
    ensures IndexIn(xs, xs[k]) == Some(k)
  {
    if k > 0 {
      IndexInDistinct(xs[1..], k - 1);
    }
  }

  /** Both halves of a concatenation are slices of it. */
  lemma {:induction false} CatSlices(x: string, y: string)
    ensures (x + y)[..|x|] == x && (x + y)[|x|..] == y
  {
  }

  /** Every rendering reads back as the date it was made from. */
  lemma {:induction false} RenderRoundTrip(p: DatePattern, d: CalendarDate)
    ensures ParseRendered(p, RenderDate(p, d)) == Some(d)
  {
    if p == FullMonthName || p == ShortMonthName {
      NamedRenderRoundTrip(p, d);
    } else if p == YearMonthDay {
      IsoRoundTrip(d);
    } else {
      NumericRenderRoundTrip(p, d);
    }
  }

  lemma {:induction false} NamedRenderRoundTrip(p: DatePattern, d: CalendarDate)
    requires p == FullMonthName || p == ShortMonthName
    ensures ParseRendered(p, RenderDate(p, d)) == Some(d)
  {
    if p == FullMonthName {
      NamedRoundTrip(Months, d);
    } else {
      NamedRoundTrip(MonthsShort, d);
    }
  }

  lemma {:induction false} NumericRenderRoundTrip(p: DatePattern, d: CalendarDate)
    requires p != FullMonthName && p != ShortMonthName && p != YearMonthDay
    ensures ParseRendered(p, RenderDate(p, d)) == Some(d)
  {
    var dd := Pad2(d.day);
    var mm := Pad2(d.month + 1);
    match p
    case DayMonthYearDash => NumericRoundTrip('-', dd, mm, d, false);
    case DayMonthYearSlash => NumericRoundTrip('/', dd, mm, d, false);
    case MonthDayYearSlash => NumericRoundTrip('/', mm, dd, d, true);
    case MonthDayYearDash => NumericRoundTrip('-', mm, dd, d, true);
  }

  lemma {:induction false} NumericRoundTrip(sep: char, a: string, b: string, d: CalendarDate, monthFirst: bool)
    requires monthFirst ==> a == Pad2(d.month + 1) && b == Pad2(d.day)
    requires !monthFirst ==> a == Pad2(d.day) && b == Pad2(d.month + 1)
    ensures ParseNumeric(a + [sep] + b + [sep] + IntToString(d.year), sep, monthFirst) == Some(d)
  {
    ParseIntToString(d.year);
    ParsePad2(d.day);
    ParsePad2(d.month + 1);
    NumericParts(sep, a, b, IntToString(d.year), monthFirst);
  }

  /** How `ParseNumeric` takes two two-character fields and a year apart. */
  lemma {:induction false} NumericParts(sep: char, a: string, b: string, y: string, monthFirst: bool)
    requires |a| == 2 && |b| == 2 && |y| > 0
    ensures ParseNumeric(a + [sep] + b + [sep] + y, sep, monthFirst)
            == if monthFirst then MakeDate(ParseInt(y), ParseTwoDigits(a), ParseTwoDigits(b))
               else MakeDate(ParseInt(y), ParseTwoDigits(b), ParseTwoDigits(a))
  {
    var s := a + [sep] + b + [sep] + y;
    var tail := [sep] + y;
    assert s == a + ([sep] + (b + tail));
    CatSlices(a, [sep] + (b + tail));
    assert s[3..] == b + tail;
    CatSlices(b, tail);
    assert s[3..5] == (b + tail)[..2];
    assert s[6..] == (b + tail)[3..] == y;
  }

  lemma {:induction false} IsoRoundTrip(d: CalendarDate)
    ensures ParseIso(RenderDate(YearMonthDay, d)) == Some(d)
  {
    ParseIntToString(d.year);
    ParsePad2(d.day);
    ParsePad2(d.month + 1);
    IsoParts(IntToString(d.year), Pad2(d.month + 1), Pad2(d.day));
  }

  /** How `ParseIso` takes a year and two two-character fields apart. */
  lemma {:induction false} IsoParts(y: string, mm: string, dd: string)
    requires |mm| == 2 && |dd| == 2
    ensures ParseIso(y + "-" + mm + "-" + dd) == MakeDate(ParseInt(y), ParseTwoDigits(mm), ParseTwoDigits(dd))
  {
    var tail := ['-'] + mm + ['-'] + dd;
    var s := y + "-" + mm + "-" + dd;
    assert s == y + tail;
    CatSlices(y, tail);
    var n := |s|;
    assert n - 6 == |y|;
    assert s[n - 5..n - 3] == tail[1..3] == mm;
    assert s[n - 2..] == tail[4..] == dd;
  }

  lemma {:induction false} NamedRoundTrip(names: seq<string>, d: CalendarDate)
    requires names == Months || names == MonthsShort
    ensures ParseNamed(names[d.month] + " " + NatToString(d.day) + ", " + IntToString(d.year), names)
            == Some(d)
  {
    MonthTables(d.month);
    NamedParts(names, names[d.month], d.month, d.day, d.year);
  }

  lemma {:induction false} NamedParts(names: seq<string>, name: string, m: nat, day: nat, year: int)
    requires ' ' !in name && IndexIn(names, name) == Some(m)
    ensures ParseNamed(name + " " + NatToString(day) + ", " + IntToString(year), names)
            == MakeDate(Some(year), Some(m + 1), Some(day))
  {
    var dayText := NatToString(day);
    NoSpaceInNumber(day, year);
    NamedSplit(name, dayText, IntToString(year));
    assert (dayText + [','])[..|dayText|] == dayText;
    ParseIntToString(year);
    ParseCanonicalNatToString(day);
  }

  /** `month day, year` splits on spaces into the month, the day with its
      comma, and the year. */
  lemma {:induction false} NamedSplit(name: string, dayText: string, yearText: string)
    requires ' ' !in name && ' ' !in dayText && ' ' !in yearText
    ensures Split(name + " " + dayText + ", " + yearText, ' ') == [name, dayText + [','], yearText]
  {
    var dayPiece := dayText + [','];
    var parts := [name, dayPiece, yearText];
    assert Join(parts, " ") == name + " " + dayText + ", " + yearText by {
      assert Join(parts[2..], " ") == yearText;
      assert Join(parts[1..], " ") == dayPiece + " " + yearText;
    }
    SplitJoin(parts, ' ');
  }

  /** Numbers are written without spaces. */
  lemma {:induction false} NoSpaceInNumber(day: nat, year: int)
    ensures ' ' !in NatToString(day) && ' ' !in IntToString(year)
  {
  }

  lemma {:induction false} ParseCanonicalNatToString(n: nat)
    ensures ParseCanonicalNat(NatToString(n)) == Some(n)
  {
  }

  // ---------------------------------------------------------------------------
  // Word limit

  /** A word: a non-empty run of non-space characters. */
  predicate IsWord(w: string) {
    w != [] && forall i :: 0 <= i < |w| ==> !IsSpace(w[i])
  }

  /** The words `limitTextByWords` counts: `text.split(/\s+/).filter(w => w.length > 0)`. */
  function Words(text: string): (ws: seq<string>)
    ensures forall k :: 0 <= k < |ws| ==> IsWord(ws[k])
  {
    WordsOfPieces(SplitOnSpaces(text))
  }

  /** The non-empty pieces of a split whose pieces hold no whitespace. */
  function WordsOfPieces(parts: seq<string>): (ws: seq<string>)
    requires forall k :: 0 <= k < |parts| ==> forall i :: 0 <= i < |parts[k]| ==> !IsSpace(parts[k][i])
    ensures forall k :: 0 <= k < |ws| ==> IsWord(ws[k])
  {
    var ws := NonEmpty(parts);
    assert forall k :: 0 <= k < |ws| ==> ws[k] in parts;
    ws
  }

  /** The words are the pieces of the whitespace split, less the empty piece a
      leading or trailing run of whitespace leaves. */
  lemma {:induction false} WordsArePieces(text: string)
    ensures var parts := SplitOnSpaces(text);
            var a := if parts[0] == [] then 1 else 0;
            var b := if |parts| > a && parts[|parts| - 1] == [] then |parts| - 1 else |parts|;
            a <= b && Words(text) == parts[a..b]
  {
    MiddlePiecesNonEmpty(text);
    NonEmptyInner(SplitOnSpaces(text));
  }

  /** `limitTextByWords(text, limit)`: past the limit, the first `limit` words
      joined by single spaces; otherwise the text as it is with its word count. */
  function LimitTextByWords(text: string, limit: nat): (r: (string, nat))
    ensures r.1 <= limit && r.1 <= |Words(text)|
    ensures Words(r.0) == Words(text)[..r.1]
    ensures |Words(text)| <= limit ==> r == (text, |Words(text)|)
    ensures |Words(text)| > limit ==> r.1 == limit && r.0 == Join(Words(text)[..limit], " ")
  {
    var words := Words(text);
    if |words| > limit then
      WordsOfJoin(words[..limit]);
      (Join(words[..limit], " "), limit)
    else (text, |words|)
  }

  /** Applying the limit to limited text changes nothing: the value stored on one
      keystroke is stable under the next. */
  lemma {:induction false} LimitIdempotent(text: string, limit: nat)
    ensures LimitTextByWords(LimitTextByWords(text, limit).0, limit) == LimitTextByWords(text, limit)
  {
  }

  /** Reading the words of words joined by single spaces gives the words back. */
  lemma {:induction false} WordsOfJoin(ws: seq<string>)
    requires forall k :: 0 <= k < |ws| ==> IsWord(ws[k])
    ensures Words(Join(ws, " ")) == ws
  {
    if |ws| == 1 {
      SplitWord(ws[0]);
    } else if |ws| > 1 {
      var t := Join(ws[1..], " ");
      WordsOfJoin(ws[1..]);
      SplitJoined(ws);
      NonEmptyCons(ws[0], SplitOnSpaces(t));
      assert [ws[0]] + ws[1..] == ws;
    }
  }

  /** Split of words joined by spaces: the first word, then the split of the rest. */
  lemma {:induction false} SplitJoined(ws: seq<string>)
    requires |ws| > 1 && forall k :: 0 <= k < |ws| ==> IsWord(ws[k])
    ensures SplitOnSpaces(Join(ws, " ")) == [ws[0]] + SplitOnSpaces(Join(ws[1..], " "))
  {
    var t := Join(ws[1..], " ");
    assert IsWord(ws[0]) && IsWord(ws[1]);
    JoinStartsWith(ws[1..]);
    assert Join(ws, " ") == ws[0] + (" " + t);
    SplitWordSpace(ws[0], t);
  }

  /** A word, one space, then text that starts with a non-space. */
  lemma {:induction false} SplitWordSpace(w: string, t: string)
    requires forall i :: 0 <= i < |w| ==> !IsSpace(w[i])
    requires t != [] && !IsSpace(t[0])
    ensures SplitOnSpaces(w + (" " + t)) == [w] + SplitOnSpaces(t)
  {
    SplitAfterSpace(t);
    SplitWordThen(w, " " + t);
    assert w + SplitOnSpaces(" " + t)[0] == w;
    assert SplitOnSpaces(" " + t)[1..] == SplitOnSpaces(t);
  }

  lemma {:induction false} NonEmptyCons(w: string, rest: seq<string>)
    requires w != []
    ensures NonEmpty([w] + rest) == [w] + NonEmpty(rest)
  {
    assert ([w] + rest)[1..] == rest;
  }

  /** A single space before a word-initial text splits off one empty piece. */
  lemma {:induction false} SplitAfterSpace(t: string)
    requires t != [] && !IsSpace(t[0])
    ensures SplitOnSpaces(" " + t) == [""] + SplitOnSpaces(t)
  {
    assert (" " + t)[1..] == t;
    assert TrimStart(" " + t) == TrimStart(t) == t;
  }

  lemma {:induction false} JoinStartsWith(ws: seq<string>)
    requires |ws| > 0 && ws[0] != []
    ensures Join(ws, " ") != [] && Join(ws, " ")[0] == ws[0][0]
  {
  }

  lemma {:induction false} SplitWord(w: string)
    requires forall i :: 0 <= i < |w| ==> !IsSpace(w[i])
    ensures SplitOnSpaces(w) == [w]
  {
    if |w| > 0 {
      SplitWord(w[1..]);
      assert [w[0]] + w[1..] == w;
    }
  }

  /** Split of a word followed by text that starts with a space (or nothing). */
  lemma {:induction false} SplitWordThen(w: string, x: string)
    requires forall i :: 0 <= i < |w| ==> !IsSpace(w[i])
    ensures SplitOnSpaces(w + x) == [w + SplitOnSpaces(x)[0]] + SplitOnSpaces(x)[1..]
  {
    var xs := SplitOnSpaces(x);
    if |w| > 0 {
      var y := w[1..] + x;
      SplitWordThen(w[1..], x);
      assert w + x == [w[0]] + y;
      SplitOnSpacesCons(w[0], y);
      assert [w[0]] + (w[1..] + xs[0]) == w + xs[0];
    } else {
      assert w + x == x;
      assert w + xs[0] == xs[0];
      assert [xs[0]] + xs[1..] == xs;
    }
  }

}
