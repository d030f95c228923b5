# Placeholder templates for engagement reports, in Dafny

The report generator fills Word templates whose placeholders are written in
curly braces. The number of braces gives a field's kind:
`{x}` is text, `{{x}}` is a number and `{{{x}}}` is a date. A slash adds a
dropdown: `{x/'a','b'}` offers the options `a` and `b`. The React component
`src/components/TemplateUpload.tsx` does the following:
- reads the run texts of `word/document.xml`;
- extracts the tags with three regular-expression passes;
- keeps the form state (initial values, the 50-word limit on long text
  fields, a date format per date field);
- checks that every field is filled;
- formats the values by kind;
- rewrites every paragraph of the document with the six spellings of each
  tag replaced.

`src/utils/documentUtils.ts` holds an older, text-based copy of the same
helpers.

The model is organised as follows:

- `JsStrings`: the JavaScript string operations the code relies on. These
  are `trim`, `split`, `join`, `indexOf`, `includes`, the first-occurrence
  `replace`, `toLowerCase` on ASCII, `toString`, `padStart`, and the split
  on `/\s+/`.
- `FieldTypes`: the field kinds and the extracted tag record.
- `BracePatterns`: the brace regexes as deterministic matchers.
  - `MatchAt` decides a match at one index.
  - `NextMatch` is `exec` on a global regex.
  - `FoundFrom` is the sequence of matches an `exec` loop visits.
  - `ReplaceAllFrom` is a global `replace`. `ReplaceAllExpandingFrom` also
    expands `$` patterns in the replacement string, as ECMAScript does.
- `TagExtraction`: `extractTagsFromText`.
  - The method `ExtractTagsFromText` runs the three `exec` loops and the
    first-occurrence deletions of matched strings.
  - It is proved equal to the specification function `ExtractTags`, and the
    lemmas are stated about `ExtractTags`.
- `FieldFormat`:
  - option clean-up;
  - the date format table, date rendering, and a reader that parses a
    rendered date back;
  - the component's `limitTextByWords`.
- `FormLogic`: the form.
  - The class `FormState` holds the fields, values, word counts and date
    formats.
  - Its methods are template selection, `handleFormChange`,
    `handleDateFormatChange`, and the validation and formatting of
    `handleGenerateDocument`.
- `Replacement`: the six regexes of one tag, applied in the source's order,
  and the loop over the entries of the replacement record. There are two
  versions:
  - `Substitute` inserts each value verbatim;
  - `SubstituteExpanding` behaves as `String.prototype.replace` does (see
    Findings).
- `Filling`: a template cut into pieces, plain text without `{` and tags
  as written. It states what the six regexes and the loop over the entries
  do to a whole template: every tag is filled by the value of the first
  entry of its name, wherever it stands, and the rest of the text is kept.
- `DocxTemplate`: the document side of the component.
  - A paragraph is a blank `<w:p/>`, a list of run texts, or the single
    preserved run the rewrite produces.
  - The module covers `extractTextFromDocx` and `generateDocumentFromTemplate`.
- `DocumentUtils`: the helpers of `src/utils/documentUtils.ts`. These are
  `formatDate`, `limitTextByWords`, `extractTagsFromTemplate`,
  `replaceTagsInText`, and the line split of `generateDocumentFromTemplate`.

The regex `\{`×k `([^}]+)` `\}`×k is deterministic at a given index. The
capture runs to the first `}`, and k closing braces must follow it. The
matchers encode this directly, and `MatchAtSound` and `MatchAtComplete`
prove that a match is exactly a string the regex denotes.

Some inputs are parameters rather than computed:
- JavaScript `Date` parsing: a `parseDate` function. The renderers take the
  calendar fields of the parsed date.
- The number formatter: a `formatNumber` function.
- The zip package: the body of `word/document.xml`, or `None` when that
  entry is missing or empty. The component treats both alike: `!docXml`
  holds for a missing entry and for an empty one.

## Model

| member | source | states |
|---|---|---|
| JsStrings.Trim | src/components/TemplateUpload.tsx:95 | `trim` yields a string with no whitespace at either end, is the identity on such strings, and its result is a slice of the input |
| JsStrings.Split | src/components/TemplateUpload.tsx:101 | `split(c)` yields at least one piece, and no piece holds the separator |
| JsStrings.JoinSplit | src/utils/documentUtils.ts:129 | joining the pieces of `split(c)` with `c` gives back the string |
| JsStrings.SplitCount | src/utils/documentUtils.ts:129 | `split(c)` has one piece more than the string has separators |
| JsStrings.SplitHead | src/components/TemplateUpload.tsx:139 | the first piece of a split is the text before the first separator, or the whole text without one |
| JsStrings.IndexOf | src/components/TemplateUpload.tsx:98 | `indexOf(c)` is -1 exactly when `c` is absent; otherwise it is the index of the first `c` |
| JsStrings.IndexOfStringFrom | src/components/TemplateUpload.tsx:128 | the string `indexOf` returns an occurrence at or after `from`, with none earlier, or -1 when there is none |
| JsStrings.DeleteFirst | src/components/TemplateUpload.tsx:128 | `replace(str, '')` removes exactly the first occurrence: the text equals the result with the pattern put back at that index |
| JsStrings.ToLower | src/components/TemplateUpload.tsx:406 | lower-casing keeps the length, leaves no capital letter, turns each capital into its own small letter and keeps every other character |
| JsStrings.NatToString | src/components/TemplateUpload.tsx:372 | `toString` of a natural number is all digits, starts with `0` only for 0 itself, has one digit exactly below 10, and reads back as the number |
| JsStrings.Pad2 | src/components/TemplateUpload.tsx:372 | `padStart(2, '0')` gives at least two digits, exactly two below 100, reading back as the number |
| JsStrings.SplitOnSpaces | src/components/TemplateUpload.tsx:396 | `split(/\s+/)` gives at least one piece, no piece holds whitespace, and the first piece is empty exactly when the text is empty or starts with whitespace |
| JsStrings.SplitOnSpacesSpaced | src/components/TemplateUpload.tsx:396 | the text is its pieces with its maximal whitespace runs between them, so there is one piece more than there are runs |
| JsStrings.MiddlePiecesNonEmpty | src/utils/documentUtils.ts:64 | only the first and last pieces of `split(/\s+/)` can be empty |
| FieldTypes.BaseOfDepth | src/components/TemplateUpload.tsx:88-89 | one, two and three braces give text, number and date, each in both directions |
| BracePatterns.MatchAt | src/components/TemplateUpload.tsx:89 | a regex match at an index ends inside the text, after the prefix and suffix |
| BracePatterns.MatchAtSound | src/components/TemplateUpload.tsx:89 | what the matcher accepts is a string the regex denotes |
| BracePatterns.MatchAtComplete | src/components/TemplateUpload.tsx:89 | every string the regex denotes at an index is the match found there |
| BracePatterns.NextMatch | src/components/TemplateUpload.tsx:93 | `exec` from `lastIndex` returns a match at or after that index |
| BracePatterns.NextMatchFirst | src/components/TemplateUpload.tsx:93 | no match starts between `lastIndex` and the match `exec` returns |
| BracePatterns.FoundShape | src/components/TemplateUpload.tsx:93-95 | every match of an `exec` loop is k opening braces, a non-empty capture without `}` and k closing braces, found in the text where it is reported |
| BracePatterns.FoundOrdered | src/components/TemplateUpload.tsx:93 | the matches of an `exec` loop do not overlap and come in text order |
| BracePatterns.FoundComplete | src/components/TemplateUpload.tsx:93 | every index where the regex matches lies inside some match of the loop |
| BracePatterns.ReplaceAllNoPrefix | src/components/TemplateUpload.tsx:517-523 | a global `replace` whose regex prefix occurs nowhere leaves the text unchanged |
| BracePatterns.ReplaceAllSegments | src/components/TemplateUpload.tsx:517-523 | over a text cut into stretches where the regex matches each marked stretch at its start and nowhere inside the others, a global `replace` puts the value for every marked stretch and keeps every other stretch |
| BracePatterns.ExpandReplacement | src/components/TemplateUpload.tsx:517-523 | a replacement string without `$` expands to itself |
| BracePatterns.ExpandPattern | src/components/TemplateUpload.tsx:517-523 | `$$`, `$&`, `` $` `` and `$'` in a replacement string give a dollar sign, the match, the text before it and the text after it |
| BracePatterns.ExpandOther | src/components/TemplateUpload.tsx:517-523 | a `$` before any other character stays as it is |
| BracePatterns.ExpandLoneDollar | src/components/TemplateUpload.tsx:517-523 | a `$` at the end of the replacement string stays |
| BracePatterns.ExpandLiteral | src/components/TemplateUpload.tsx:517-523 | a character other than `$` is copied |
| BracePatterns.ExpandEscaped | src/components/TemplateUpload.tsx:517-523 | a value with every `$` doubled expands back to the value at any match, so escaping makes `replace` insert it verbatim |
| BracePatterns.ExpandingIsLiteralWithoutDollar | src/components/TemplateUpload.tsx:517-523 | without `$` in the value, JavaScript's `replace` equals the verbatim one |
| TagExtraction.Classify | src/components/TemplateUpload.tsx:95-120 | a capture yields a tag of its pass's kind; it is a dropdown exactly when the trimmed content holds `/`, and options are present exactly on dropdowns |
| TagExtraction.ClassifyName | src/components/TemplateUpload.tsx:139-143 | the key the double and single passes look up is the name they file |
| TagExtraction.DropdownName | src/components/TemplateUpload.tsx:98-99 | a dropdown is named by the trimmed text before the first `/`, and its name holds no `/` |
| TagExtraction.DropdownOptions | src/components/TemplateUpload.tsx:100-101 | a dropdown has one option per comma-separated piece after the slash, each cleaned |
| TagExtraction.ScanPass | src/components/TemplateUpload.tsx:93-121 | one `exec` loop files its matches' tags into the map and pushes the matched strings in order |
| TagExtraction.FileCapture | src/components/TemplateUpload.tsx:103-119 | the loop body adds the tag only when its name is not yet in the map |
| TagExtraction.DeleteMatches | src/components/TemplateUpload.tsx:126-129 | the deletion loop removes the first occurrence of each pushed string, in order |
| TagExtraction.ExtractTagsFromText | src/components/TemplateUpload.tsx:79-207 | the method computes the specified tag list, and the names in it are unique |
| TagExtraction.ExtractTagsUnique | src/components/TemplateUpload.tsx:206 | the returned tags have pairwise distinct names |
| TagExtraction.ExtractTagsOrder | src/components/TemplateUpload.tsx:93-206 | the triple pass's tags come first, then the double pass's, then the single pass's; each segment is exactly that pass's first discoveries: the tag of the first match of each name not filed before, in match order (`{x} {y} {x}` yields `x`, `y`) |
| TagExtraction.FileIsFirstDiscoveries | src/components/TemplateUpload.tsx:103-119 | filing candidates into the insertion-ordered map appends exactly the candidates whose name is neither known before nor carried by an earlier candidate, in candidate order, and nothing else |
| TagExtraction.RepeatedNameFiledOnce | src/components/TemplateUpload.tsx:103-119 | candidates `x`, `y`, `x` of two names file as `x`, `y`: a repeated name neither moves nor re-adds its tag |
| TagExtraction.ExtractTagsKinds | src/components/TemplateUpload.tsx:104-196 | those three segments hold dates, numbers and text, with options exactly on dropdowns |
| TagExtraction.ExtractTagsComplete | src/components/TemplateUpload.tsx:93-200 | every match of every pass is filed under its name |
| TagExtraction.ExtractTagsSound | src/components/TemplateUpload.tsx:93-206 | every returned tag is the tag of a match of the pass whose segment holds it |
| TagExtraction.TripleNamesStayDates | src/components/TemplateUpload.tsx:140 | a name found in triple braces is a date in the result, whatever the later passes see |
| TagExtraction.TripleFirstWins | src/components/TemplateUpload.tsx:103 | the first triple match of a name is in the result and is the only tag there of that name |
| TagExtraction.DoubleFirstWins | src/components/TemplateUpload.tsx:140 | the first double match of a name the triple pass did not file is in the result and is the only tag there of that name |
| TagExtraction.SingleFirstWins | src/components/TemplateUpload.tsx:179 | the first single match of a name neither earlier pass filed is in the result and is the only tag there of that name |
| TagExtraction.NoBraceNoTags | src/components/TemplateUpload.tsx:79-207 | text without `{` (the empty text included) has no tags |
| FieldFormat.StripQuotes | src/components/TemplateUpload.tsx:339 | the first character goes exactly when it is a quote, the last exactly when it is a quote (a lone quote goes once), and the rest is kept |
| FieldFormat.CleanOptionValue | src/components/TemplateUpload.tsx:338-340 | the trimmed value loses its first character exactly when it is a quote and its last exactly when it is a quote |
| FieldFormat.CleanOneSided | src/components/TemplateUpload.tsx:338-340 | a quote at one end only is dropped on its own: `'a` and `a"` clean to `a` |
| FieldFormat.CleanQuoted | src/utils/documentUtils.ts:23-25 | an option quoted with `'` or `"` at both ends cleans to its inner text |
| FieldFormat.CleanUnquoted | src/utils/documentUtils.ts:23-25 | a trimmed option without quotes at its ends is left as it is |
| FieldFormat.FormatDateValue | src/components/TemplateUpload.tsx:359-392 | an empty value renders empty; an unknown label returns the input; a known label renders a text that reads back as the same date |
| FieldFormat.RenderRoundTrip | src/components/TemplateUpload.tsx:374-388 | each of the seven renderings reads back as the date it came from |
| FieldFormat.WordsArePieces | src/components/TemplateUpload.tsx:396 | the filtered words are the pieces of the whitespace split, less the empty first and last pieces a leading or trailing run of whitespace leaves |
| FieldFormat.LimitTextByWords | src/components/TemplateUpload.tsx:395-401 | past the limit, the first `limit` words joined by single spaces, with count `limit`; otherwise the text as it is with its word count; either way the result's words are the first `count` words of the input |
| FieldFormat.LimitIdempotent | src/components/TemplateUpload.tsx:404-411 | limiting an already limited text changes nothing, so the value stored on one keystroke is stable under the next |
| FieldFormat.WordsOfJoin | src/components/TemplateUpload.tsx:398 | words joined by single spaces split back into the same words |
| FormLogic.InitialValuesKeys | src/components/TemplateUpload.tsx:310-318 | the initial values hold a key exactly for the name of each field |
| FormLogic.InitialValueOf | src/components/TemplateUpload.tsx:314-318 | with unique names, each field starts with its first option when it is a dropdown with options, and otherwise with the empty string |
| FormLogic.InitialDateFormatsOf | src/components/TemplateUpload.tsx:320-323 | exactly the date fields get a format, and it is the default label |
| FormLogic.SomeIncluded | src/components/TemplateUpload.tsx:406 | `some(key => name.includes(key))` holds exactly when some key occurs in the name |
| FormLogic.MissingFields | src/components/TemplateUpload.tsx:427 | a field is reported missing exactly when its value is absent or empty |
| FormLogic.MissingAfterSelect | src/components/TemplateUpload.tsx:314-318 | right after selection, a field is missing exactly when its initial value is empty |
| FormLogic.Replacements | src/components/TemplateUpload.tsx:439-456 | one entry per field, in field order, named after the field; a text field's entry is its value as typed |
| FormLogic.ReplacementsByKind | src/components/TemplateUpload.tsx:441-454 | a number field's entry is the formatted number; an empty date is empty; a filled date without a label of its own falls back to the full month name and reads back as the parsed date; a filled date whose label is outside the table is kept as typed |
| FormLogic.ReplacementsLabelled | src/components/TemplateUpload.tsx:441-450 | a filled date field whose label is in the table is rendered with that label's pattern and reads back as the parsed date |
| FormLogic.DefaultLabelRenders | src/components/TemplateUpload.tsx:443 | the fallback label is in the date-format table and selects the full month name |
| FormLogic.PrepareOkIffFilled | src/components/TemplateUpload.tsx:427-431 | generation proceeds exactly when every field has a non-empty value, and then yields one entry per field under its name |
| FormLogic.PrepareErrNamesEmpty | src/components/TemplateUpload.tsx:428-429 | the refusal names at least one field, and every name it lists is a field whose value is empty |
| FormLogic.FormState.SelectTemplate | src/components/TemplateUpload.tsx:310-328 | the selected template's fields become the form; its values and date formats are the initial ones, word counts are cleared, and the word-limit invariant holds |
| FormLogic.FormState.HandleFormChange | src/components/TemplateUpload.tsx:404-415 | a large text field (a plain text field whose lower-cased name contains address, description, scope or services) stores the limited text and its count; any other field stores the value; the word-limit invariant is kept |
| FormLogic.FormState.HandleDateFormatChange | src/components/TemplateUpload.tsx:418-420 | only the field's date format changes |
| FormLogic.FormState.GenerateReplacements | src/components/TemplateUpload.tsx:426-457 | the validation and formatting loop yields the list of missing names, or the formatted entries |
| Replacement.Spellings | src/components/TemplateUpload.tsx:517-523 | the six regexes of a tag, in the order applied, each well formed and opening with a brace |
| Replacement.WrittenMatches | src/components/TemplateUpload.tsx:517-523 | where a written tag stands in a text, the regex of its own depth and shape matches exactly that tag there |
| Replacement.SubstituteAbsent | src/components/TemplateUpload.tsx:513-524 | a text that mentions no entry's name after a brace is left unchanged |
| Replacement.SubstituteNoBrace | src/components/TemplateUpload.tsx:513-524 | a text without `{` is never changed |
| Replacement.ReplaceTagWritten | src/components/TemplateUpload.tsx:517-523 | every spelling of a tag is replaced by the value, at each depth, with or without options |
| Replacement.SubstituteWritten | src/components/TemplateUpload.tsx:513-524 | substituting an entry into its own written tag gives the value |
| Replacement.EmptyOptionsStay | src/components/TemplateUpload.tsx:518 | with `[^}]+`, `{name/}` matches no spelling and stays in the document |
| Replacement.DollarValueKeepsTags | src/components/TemplateUpload.tsx:517-523 | as the source performs it, a value `$&` leaves every spelling of its tag in place |
| Replacement.DollarValueDiffers | src/components/TemplateUpload.tsx:517-523 | for a written tag and the value `$&`, the source's replacement keeps the tag while the verbatim one writes `$&` |
| Replacement.SubstituteWithoutDollar | src/components/TemplateUpload.tsx:513-524 | values without `$` are inserted the same way by both versions |
| Filling.ReplaceAllPieces | src/components/TemplateUpload.tsx:517-523 | one regex of an entry, over a template of plain text and tags, turns exactly the tags of that name it spells into the value, wherever they stand, and keeps every other piece |
| Filling.ReplaceEachPieces | src/components/TemplateUpload.tsx:517-523 | the regexes of an entry from a given one on, run in order, fill every tag of its name still waiting and keep every other piece |
| Filling.ReplaceTagPieces | src/components/TemplateUpload.tsx:517-523 | one entry fills every tag of its name, in all six spellings and any number of occurrences, and keeps the rest of the text |
| Filling.ReplaceTagInContext | src/components/TemplateUpload.tsx:517-523 | a tag of the entry's name between texts without `{` becomes the value, and the texts around it stay |
| Filling.SubstitutePieces | src/components/TemplateUpload.tsx:513-524 | the loop over the entries gives the template with each tag filled by the value of the first entry of its name, and a tag without an entry left as written |
| Filling.SubstituteLeavesNoTag | src/components/TemplateUpload.tsx:513-524 | when every tag of the template has an entry, no `{`, and so no tag in any spelling, is left |
| DocxTemplate.ExtractTextFromDocx | src/components/TemplateUpload.tsx:210-253 | the loop that skips empty run texts yields all run texts joined without a separator and trimmed; a missing or empty `document.xml` gives "" |
| DocxTemplate.ConcatAppend | src/components/TemplateUpload.tsx:243 | joining with '' distributes over concatenation of the text lists |
| DocxTemplate.SplitRunsJoin | src/components/TemplateUpload.tsx:242-243 | a tag split over two runs is read whole |
| DocxTemplate.RewriteParagraphText | src/components/TemplateUpload.tsx:510-524 | a paragraph's runs are joined, then every entry is substituted in entry order |
| DocxTemplate.RewriteBody | src/components/TemplateUpload.tsx:507-534 | the body keeps its paragraph count; a paragraph is a literal `<w:p/>` after the rewrite exactly when it was before, and every other paragraph becomes one preserved run |
| DocxTemplate.GenerateDocumentFromTemplate | src/components/TemplateUpload.tsx:491-538 | a missing or empty `document.xml` is an error, and only then; otherwise every paragraph is rewritten |
| DocxTemplate.RewriteAbsentKeepsText | src/components/TemplateUpload.tsx:507-534 | a paragraph that mentions no entry keeps its text; only its runs are merged |
| DocxTemplate.RewriteFillsSplitTag | src/components/TemplateUpload.tsx:510-532 | a tag split over two runs, in any spelling, is replaced by the value |
| DocxTemplate.RewriteFillsParagraph | src/components/TemplateUpload.tsx:507-532 | a paragraph whose text is plain text and tags becomes one preserved run holding that text with every tag filled by the value of its entry, wherever it stands |
| DocxTemplate.RewriteLeavesNoTag | src/components/TemplateUpload.tsx:507-532 | when every tag of a paragraph has an entry, no tag in any spelling is left in it after the rewrite |
| DocumentUtils.PatternText | src/utils/documentUtils.ts:50-58 | each of the seven pattern strings selects its own pattern |
| DocumentUtils.FormatDate | src/utils/documentUtils.ts:43-61 | an unknown pattern comes back as it is; a known one renders a text that reads back as the date through the padded reader, and through the component's reader unless a month name meets a one-digit day |
| DocumentUtils.PaddedRoundTrip | src/utils/documentUtils.ts:44-58 | each of the seven padded renderings reads back as its date, for every day |
| DocumentUtils.PaddedAgrees | src/utils/documentUtils.ts:44-58 | this renderer agrees with the component's on every numeric pattern, and on a month-name pattern exactly when the day has two digits |
| DocumentUtils.FormatDateKnown | src/utils/documentUtils.ts:60 | a pattern of the table, given by its own text, renders the date, as the component does for the numeric patterns |
| DocumentUtils.LimitTextByWords | src/utils/documentUtils.ts:63-70 | counting the unfiltered pieces: within the limit, the text with its piece count; past it, the first `limit` pieces joined by single spaces with count `limit`, which splits back into those pieces when the limit is positive |
| DocumentUtils.EmptyTextOneWord | src/utils/documentUtils.ts:64-65 | the empty text counts as one word |
| DocumentUtils.LimitIdempotent | src/utils/documentUtils.ts:63-70 | limiting a limited text changes nothing |
| DocumentUtils.SplitOfJoin | src/utils/documentUtils.ts:67 | whitespace-free pieces, all after the first non-empty, joined by single spaces split back into themselves |
| DocumentUtils.MarkDatesShape | src/utils/documentUtils.ts:78-82 | the triple pass adds exactly the names it matches, as dates, overwriting |
| DocumentUtils.MarkAbsentShape | src/utils/documentUtils.ts:86-98 | the double and single passes add exactly the names they match, filing new names with their kind and never changing an entry already there |
| DocumentUtils.TemplateKindsShape | src/utils/documentUtils.ts:72-101 | the map holds the names matched at any depth: a triple name is a date; otherwise a double name is a number; otherwise a single name is text |
| DocumentUtils.ExtractTagsFromTemplate | src/utils/documentUtils.ts:72-101 | the three `exec` loops compute the specified map |
| DocumentUtils.DatePass | src/utils/documentUtils.ts:76-82 | the triple `exec` loop files every name as a date |
| DocumentUtils.AbsentPass | src/utils/documentUtils.ts:85-98 | a double or single `exec` loop files only absent names |
| DocumentUtils.AsWrittenAgrees | src/utils/documentUtils.ts:81-97 | when no name is a member of `Object.prototype`, the plain object behaves as the map |
| DocumentUtils.InheritedNameDropped | src/utils/documentUtils.ts:89-97 | an inherited name such as `toString`, written only in single or double braces, is missing from the source's object but present in the map |
| DocumentUtils.ProtoNeverFiled | src/utils/documentUtils.ts:81 | `__proto__` never becomes a key of the source's object |
| DocumentUtils.ReplaceTagsInText | src/utils/documentUtils.ts:103-121 | the loop substitutes every entry, in order, with the six spellings and an option run that may be empty; over a template of plain text and tags, every tag with an entry is filled by its value and the rest is kept |
| DocumentUtils.EmptyOptionsFilled | src/utils/documentUtils.ts:108 | unlike the component, `{name/}` is filled here |
| DocumentUtils.DocumentLines | src/utils/documentUtils.ts:128-138 | one paragraph per line (line breaks plus one); no paragraph is empty or holds a break; an empty line becomes one space |
| DocumentUtils.DocumentLinesRestore | src/utils/documentUtils.ts:129 | without empty lines, the paragraphs joined by line breaks are the replaced text |
| DocumentUtils.GenerateDocumentFromTemplate | src/utils/documentUtils.ts:124-138 | the new document's paragraphs are the lines of the substituted text |

## Left out

- File I/O, the zip container, `fetch`, the DOM download, `alert` and
  `console` output are left out. The document is given as the paragraph
  list of `word/document.xml`, or `None` when the entry is missing or
  empty; both give "" on extraction and an error on generation.
- Paragraphs and runs are recognised by regexes on the XML. The model
  starts from the parsed paragraphs: `<w:p/>`, or the texts of the
  `<w:t>` runs.
  - `SelfClosing` stands for the literal `<w:p/>` only. The paragraph
    regex `<w:p(?!\/>)[\s\S]*?<\/w:p>` (src/components/TemplateUpload.tsx:508)
    takes a self-closing paragraph with attributes, such as
    `<w:p w:rsidR="…"/>`, for an opening tag. Its match then runs on to the
    next `</w:p>`, so such a blank line merges into the next paragraph.
    This merge is not modelled.
  - The run regex `<w:t[^>]*>` (src/components/TemplateUpload.tsx:510) also
    matches the start of `<w:tab/>`, which can pull XML into a paragraph's
    text. The model takes the texts of real `<w:t>` runs only.
  - A `<w:p>` that holds an empty-element `<w:t/>`, or a nested structure,
    is not modelled.
  - XML escaping of the values written back is not modelled.
  - The run and paragraph properties that the rewrite drops are not
    modelled. A rewritten paragraph is one `PreservedRun`.
- `formatNumberValue` (in both files) uses floating point and
  `Intl.NumberFormat`. It is a function parameter.
- `new Date(dateStr)` is a function parameter that yields the calendar
  fields.
- Month names are the English ones. documentUtils' `toLocaleString('default', …)`
  depends on the runtime locale.
- `Object.entries` puts integer-like keys first. The model walks the
  entries in the order given, which is field order.
- FormLogic.Replacements: its own contract covers the names and the text
  entries. The date and number entries are stated per index by
  `ReplacementsByKind` and `ReplacementsLabelled`. `processedReplacements`
  (src/components/TemplateUpload.tsx:437) is a plain object, so a field
  named `__proto__` gets no entry there, `Object.entries` skips it and its
  tag is never filled. The model gives every field an entry.
- FormLogic.InitialValues: `initialValues`
  (src/components/TemplateUpload.tsx:310) is a plain object too, so a field
  named `__proto__` gets no initial value there. The model gives every field
  one.
- `FormLogic.MissingFields`: values are strings, so the `!== 0` exemption
  of the empty check never applies.
- `FormLogic.FormState.HandleFormChange`: requires that a field of the
  given name has the given kind. The UI always passes the field's own type.
- `DocumentUtils.ReplaceTagsInText`: names are matched literally. The
  source inserts a name into the regex unescaped, so a name that holds
  regex metacharacters matches differently there. The component escapes
  names.
- DocumentUtils.TemplateKindsAsWritten: the plain object that
  `extractTagsFromTemplate` builds is a specification function only, and
  no method computes it. `DocumentUtils.ExtractTagsFromTemplate` computes
  the map `TemplateKinds`; `AsWrittenAgrees` gives the inputs on which the
  two coincide, and Findings the ones on which they differ.
- `DocumentUtils.FormatDate`: a pattern named like a member of
  `Object.prototype` (such as `toString`) returns that inherited member in
  the source. The model returns the pattern itself.
- Filling.SubstitutePieces: a template is pieces of plain text without `{`
  and tags as written, so text holding a `{` that starts no tag is not
  covered. It is stated for entry names without a brace or a slash and for
  values without `{`; a value holding `{` could be matched by a later
  regex.
- BracePatterns.ExpandReplacement: the brace regexes have no capture
  groups, so `$1` and `$<name>` are ordinary text here, as ECMAScript
  leaves them.
- `TEMPLATE_MAPPING`, `DECIMAL_OPTIONS`, the template list, the decimal
  selector and the rendering of the form are UI data. They are not
  modelled.
- The `$` expansion of `String.prototype.replace` is modelled
  (`Replacement.SubstituteExpanding`). The rewrites in `DocxTemplate` and
  `DocumentUtils` use the verbatim `Replacement.Substitute`; see Findings.
  `replaceTagsInText` (src/utils/documentUtils.ts:108-117) passes its
  values to `replace` in the same way.

## Findings

| source | as written | input that shows it | evidently intended | confidence | as-written member | corrected member |
|---|---|---|---|---|---|---|
| src/components/TemplateUpload.tsx:517-523 | each form value is passed to `replace` as a replacement string, so `$&`, `$$`, `` $` `` and `$'` in a value are expanded | the tag `{name}` with the value `$&`: the tag stays in the document | the value is inserted verbatim | not executed | Replacement.DollarValueDiffers | Replacement.SubstituteWritten |
| src/utils/documentUtils.ts:89-97 | `!tags[tagName]` on a plain object is false for names inherited from `Object.prototype`, and `tags['__proto__'] = …` creates no key | the template text `{toString}` yields no tag | every matched name becomes a key | not executed | DocumentUtils.InheritedNameDropped | DocumentUtils.TemplateKindsShape |
