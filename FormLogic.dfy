/** The form behind a selected template: the values it starts with, how a
    keystroke is stored, the check that every field is filled, and how each
    value is formatted into the replacement for its tag. */
module FormLogic {
  import opened Wrappers
  import opened JsStrings
  import opened FieldTypes
  import opened FieldFormat

  /** `WORD_LIMIT`. */
  const WordLimit: nat := 50

  /** The name fragments that make a text field a large one. */
  const LargeTextKeys: seq<string> := ["address", "description", "scope", "services"]

  // ---------------------------------------------------------------------------
  // Initial values

  /** The value a field starts with: the first option of a dropdown that has
      options, otherwise the empty string. */
  function InitialValue(t: Tag): string {
    if t.kind.dropdown && t.options.Some? && |t.options.value| > 0 then t.options.value[0] else ""
  }

  /** `initialValues`, filled in field order; a later field of the same name
      overwrites an earlier one. */
  function InitialValues(tags: seq<Tag>): map<string, string>
    decreases |tags|
  {
    if tags == [] then map[]
    else
      var last := tags[|tags| - 1];
      InitialValues(tags[..|tags| - 1])[last.name := InitialValue(last)]
  }

  /** `initialDateFormats`: the default label for every date field. */
  function InitialDateFormats(tags: seq<Tag>): map<string, string>
    decreases |tags|
  {
    if tags == [] then map[]
    else
      var last := tags[|tags| - 1];
      var before := InitialDateFormats(tags[..|tags| - 1]);
      if last.kind.base == Date then before[last.name := DefaultDateLabel] else before
  }

  /** Every field gets a value, and nothing else does. */
  lemma {:induction false} InitialValuesKeys(tags: seq<Tag>, name: string)
    ensures name in InitialValues(tags) <==> HasName(tags, name)
    decreases |tags|
  {
    if tags != [] {
      var front := tags[..|tags| - 1];
      InitialValuesKeys(front, name);
      if HasName(front, name) {
        var i :| 0 <= i < |front| && front[i].name == name;
        assert tags[i].name == name;
      }
      if HasName(tags, name) && tags[|tags| - 1].name != name {
        var i :| 0 <= i < |tags| && tags[i].name == name;
        assert front[i].name == name;
      }
    }
  }

  /** With unique names, each field starts with its own initial value. */
  lemma {:induction false} InitialValueOf(tags: seq<Tag>, i: nat)
    requires UniqueNames(tags) && i < |tags|
    ensures tags[i].name in InitialValues(tags)
    ensures InitialValues(tags)[tags[i].name] == InitialValue(tags[i])
    decreases |tags|
  {
    if i < |tags| - 1 {
      var front := tags[..|tags| - 1];
      assert front[i] == tags[i];
      InitialValueOf(front, i);
    }
  }

  /** Exactly the date fields get a format, and it is the default label. */
  lemma {:induction false} InitialDateFormatsOf(tags: seq<Tag>, name: string)
    ensures name in InitialDateFormats(tags) <==>
              exists i :: 0 <= i < |tags| && tags[i].name == name && tags[i].kind.base == Date
    ensures name in InitialDateFormats(tags) ==> InitialDateFormats(tags)[name] == DefaultDateLabel
    decreases |tags|
  {
    if tags != [] {
      var front := tags[..|tags| - 1];
      InitialDateFormatsOf(front, name);
      if exists i :: 0 <= i < |front| && front[i].name == name && front[i].kind.base == Date {
        var i :| 0 <= i < |front| && front[i].name == name && front[i].kind.base == Date;
        assert tags[i] == front[i];
      }
      if exists i :: 0 <= i < |tags| && tags[i].name == name && tags[i].kind.base == Date {
        var i :| 0 <= i < |tags| && tags[i].name == name && tags[i].kind.base == Date;
        if i < |tags| - 1 {
          assert front[i] == tags[i];
        }
      }
    }
  }

  // ---------------------------------------------------------------------------
  // Keystrokes

  /** `keys.some(key => s.includes(key))`. */
  function SomeIncluded(s: string, keys: seq<string>): (r: bool)
    ensures r <==> exists i :: 0 <= i < |keys| && Includes(s, keys[i])
    decreases |keys|
  {
    if keys == [] then false
    else if Includes(s, keys[0]) then true
    else
      var r := SomeIncluded(s, keys[1..]);
      assert r <==> exists i :: 1 <= i < |keys| && Includes(s, keys[i]) by {
        if r {
          var i :| 0 <= i < |keys| - 1 && Includes(s, keys[1..][i]);
          assert keys[1..][i] == keys[i + 1];
        }
        if exists i :: 1 <= i < |keys| && Includes(s, keys[i]) {
          var i :| 1 <= i < |keys| && Includes(s, keys[i]);
          assert keys[1..][i - 1] == keys[i];
        }
      }
      r
  }

  /** A plain text field whose lower-cased name mentions an address, a
      description, a scope or services: its value is held to the word limit. */
  predicate IsLargeTextField(name: string, kind: FieldType) {
    kind == FieldType(Text, false) && SomeIncluded(ToLower(name), LargeTextKeys)
  }

  // ---------------------------------------------------------------------------
  // Validation and replacements

  /** `!formValues[name]`: missing or empty. */
  predicate IsEmptyValue(values: map<string, string>, name: string) {
    name !in values || values[name] == ""
  }

  /** The fields still to fill, in field order. */
  function MissingFields(fields: seq<Tag>, values: map<string, string>): (r: seq<Tag>)
    ensures forall t :: t in r <==> t in fields && IsEmptyValue(values, t.name)
    decreases |fields|
  {
    if fields == [] then []
    else
      var rest := MissingFields(fields[1..], values);
      assert forall t :: t in fields <==> t == fields[0] || t in fields[1..];
      if IsEmptyValue(values, fields[0].name) then [fields[0]] + rest else rest
  }

  /** Right after a template is selected, a field is reported missing exactly
      when its initial value is empty: every plain field, and a dropdown only
      when it has no options or its first option is empty. */
  lemma {:induction false} MissingAfterSelect(tags: seq<Tag>, i: nat)
    requires UniqueNames(tags) && i < |tags|
    ensures tags[i] in MissingFields(tags, InitialValues(tags)) <==> InitialValue(tags[i]) == ""
  {
    InitialValueOf(tags, i);
  }

  /** The label a date field is rendered with: its own, or the default. */
  function DateLabel(formats: map<string, string>, name: string): string {
    if name in formats && formats[name] != "" then formats[name] else DefaultDateLabel
  }

  /** The default label is in the table and renders the full month name. */
  lemma {:induction false} DefaultLabelRenders()
    ensures DefaultDateLabel in DateFormats
    ensures PatternOf(DateFormats[DefaultDateLabel]) == Some(FullMonthName)
  {
  }

  /** The replacement for one field, by kind: dates through the date renderer
      with the field's label, numbers through the number formatter, everything
      else as typed. `parseDate` stands for `new Date(value)`, `formatNumber`
      for `formatNumberValue` with the chosen decimal places. */
  function ProcessedValue(t: Tag, value: string, formats: map<string, string>,
                          parseDate: string -> CalendarDate, formatNumber: string -> string): string
  {
    match t.kind.base
    case Date => FormatDateValue(value, parseDate(value), DateLabel(formats, t.name))
    case Number => formatNumber(value)
    case Text => value
  }

  /** The value of a field, `undefined` read as empty. */
  function ValueOf(values: map<string, string>, name: string): string {
    if name in values then values[name] else ""
  }

  /** `processedReplacements` as the entries the document rewrite walks:
      one per field, in field order. */
  function Replacements(fields: seq<Tag>, values: map<string, string>, formats: map<string, string>,
                        parseDate: string -> CalendarDate, formatNumber: string -> string): (r: seq<(string, string)>)
    ensures |r| == |fields|
    ensures forall i :: 0 <= i < |fields| ==> r[i].0 == fields[i].name
    ensures forall i :: 0 <= i < |fields| && fields[i].kind.base == Text ==> r[i].1 == ValueOf(values, fields[i].name)
  {
    seq(|fields|, i requires 0 <= i < |fields| =>
      (fields[i].name, ProcessedValue(fields[i], ValueOf(values, fields[i].name), formats, parseDate, formatNumber)))
  }

  /** Each entry by the kind of its field: a number through the formatter, an
      empty date as empty, a filled date without a label of its own (or with an
      empty one) rendered with the full month name so that it reads back as the
      parsed date, and a filled date whose label is outside the table as typed. */
  lemma {:induction false} ReplacementsByKind(fields: seq<Tag>, values: map<string, string>, formats: map<string, string>,
                                              parseDate: string -> CalendarDate, formatNumber: string -> string, i: nat)
    requires i < |fields|
    ensures var name := fields[i].name;
            var v := ValueOf(values, name);
            var r := Replacements(fields, values, formats, parseDate, formatNumber)[i].1;
            && (fields[i].kind.base == Number ==> r == formatNumber(v))
            && (fields[i].kind.base == Date && v == "" ==> r == "")
            && (fields[i].kind.base == Date && v != "" && (name !in formats || formats[name] == "") ==>
                  ParseRendered(FullMonthName, r) == Some(parseDate(v)))
            && ((fields[i].kind.base == Date && v != "" && name in formats && formats[name] != ""
                 && formats[name] !in DateFormats) ==> r == v)
  {
    var t := fields[i];
    var v := ValueOf(values, t.name);
    assert Replacements(fields, values, formats, parseDate, formatNumber)[i].1
           == ProcessedValue(t, v, formats, parseDate, formatNumber);
    if t.kind.base == Date && (t.name !in formats || formats[t.name] == "") {
      assert DateLabel(formats, t.name) == DefaultDateLabel;
      DefaultLabelRenders();
    }
  }

  /** A filled date field with a label from the table is rendered with that
      label's pattern and reads back as the parsed date. */
  lemma {:induction false} ReplacementsLabelled(fields: seq<Tag>, values: map<string, string>, formats: map<string, string>,
                                                parseDate: string -> CalendarDate, formatNumber: string -> string,
                                                i: nat, p: DatePattern)
    requires i < |fields| && fields[i].kind.base == Date && ValueOf(values, fields[i].name) != ""
    requires fields[i].name in formats && formats[fields[i].name] in DateFormats
    requires PatternOf(DateFormats[formats[fields[i].name]]) == Some(p)
    ensures ParseRendered(p, Replacements(fields, values, formats, parseDate, formatNumber)[i].1)
            == Some(parseDate(ValueOf(values, fields[i].name)))
  {
    var t := fields[i];
    var v := ValueOf(values, t.name);
    assert Replacements(fields, values, formats, parseDate, formatNumber)[i].1
           == ProcessedValue(t, v, formats, parseDate, formatNumber);
    var chosen := formats[t.name];
    EveryLabelHasPattern(chosen);
    assert DateLabel(formats, t.name) == chosen;
    FormatDateValueWith(v, parseDate(v), chosen, p);
  }

  /** A filled date rendered with a label of the table reads back through the
      label's pattern. */
  lemma {:induction false} FormatDateValueWith(dateStr: string, date: CalendarDate, formatLabel: string, p: DatePattern)
    requires dateStr != "" && formatLabel in DateFormats && PatternOf(DateFormats[formatLabel]) == Some(p)
    ensures ParseRendered(p, FormatDateValue(dateStr, date, formatLabel)) == Some(date)
  {
  }

  /** `handleGenerateDocument` up to the call of the document rewrite: the
      names of the empty fields, or the replacements. */
  function PrepareReplacements(fields: seq<Tag>, values: map<string, string>, formats: map<string, string>,
                               parseDate: string -> CalendarDate, formatNumber: string -> string): (r: Result<seq<(string, string)>, seq<string>>)
  {
    var missing := MissingFields(fields, values);
    if missing != [] then Err(Names(missing))
    else Ok(Replacements(fields, values, formats, parseDate, formatNumber))
  }

  /** Generation goes ahead exactly when every field is filled, and then with
      one entry per field, named after it, in field order. */
  lemma {:induction false} PrepareOkIffFilled(fields: seq<Tag>, values: map<string, string>, formats: map<string, string>,
                                              parseDate: string -> CalendarDate, formatNumber: string -> string)
    ensures var r := PrepareReplacements(fields, values, formats, parseDate, formatNumber);
            && (r.Ok? <==> forall i :: 0 <= i < |fields| ==> !IsEmptyValue(values, fields[i].name))
            && (r.Ok? ==> |r.value| == |fields| && forall i :: 0 <= i < |fields| ==> r.value[i].0 == fields[i].name)
  {
    var missing := MissingFields(fields, values);
    if missing == [] {
      forall i | 0 <= i < |fields| ensures !IsEmptyValue(values, fields[i].name) {
        assert fields[i] in fields;
      }
    } else {
      assert missing[0] in missing;
    }
  }

  /** The error lists only fields that are empty, and at least one. */
  lemma {:induction false} PrepareErrNamesEmpty(fields: seq<Tag>, values: map<string, string>, formats: map<string, string>,
                                                parseDate: string -> CalendarDate, formatNumber: string -> string, k: nat)
    requires PrepareReplacements(fields, values, formats, parseDate, formatNumber).Err?
    ensures |PrepareReplacements(fields, values, formats, parseDate, formatNumber).error| > 0
    ensures k < |PrepareReplacements(fields, values, formats, parseDate, formatNumber).error| ==>
              exists i :: 0 <= i < |fields| && fields[i].name == PrepareReplacements(fields, values, formats, parseDate, formatNumber).error[k]
                          && IsEmptyValue(values, fields[i].name)
  {
    var missing := MissingFields(fields, values);
    if k < |missing| {
      assert missing[k] in missing;
      var i :| 0 <= i < |fields| && fields[i] == missing[k];
    }
  }

  // ---------------------------------------------------------------------------
  // The component's form state

  /** The form state of the component: the values typed so far, the word
      counts shown under large fields and the date label chosen per field. */
  class FormState {
    var fields: seq<Tag>
    var values: map<string, string>
    var wordCounts: map<string, nat>
    var dateFormats: map<string, string>

    /** Large text fields hold at most `WordLimit` words. */
    predicate Valid()
      reads this
    {
      forall i :: 0 <= i < |fields| && IsLargeTextField(fields[i].name, fields[i].kind) && fields[i].name in values ==>
        |Words(values[fields[i].name])| <= WordLimit
    }

    constructor()
      ensures fields == [] && values == map[] && wordCounts == map[] && dateFormats == map[]
      ensures Valid()
    {
      fields, values, wordCounts, dateFormats := [], map[], map[], map[];
    }

    /** The part of `handleTemplateSelect` after extraction: the `forEach` that
        fills the initial values and date formats. */
    method SelectTemplate(tags: seq<Tag>)
      requires UniqueNames(tags)
      modifies this
      ensures fields == tags && values == InitialValues(tags) && wordCounts == map[]
      ensures dateFormats == InitialDateFormats(tags)
      ensures Valid()
    {
      var initialValues: map<string, string> := map[];
      var initialDateFormats: map<string, string> := map[];
      for i := 0 to |tags|
        invariant initialValues == InitialValues(tags[..i])
        invariant initialDateFormats == InitialDateFormats(tags[..i])
      {
        var tag := tags[i];
        assert tags[..i + 1][..i] == tags[..i];
        if tag.kind.dropdown && tag.options.Some? && |tag.options.value| > 0 {
          initialValues := initialValues[tag.name := tag.options.value[0]];
        } else {
          initialValues := initialValues[tag.name := ""];
        }
        if tag.kind.base == Date {
          initialDateFormats := initialDateFormats[tag.name := DefaultDateLabel];
        }
      }
      assert tags[..|tags|] == tags;
      fields, values, wordCounts, dateFormats := tags, initialValues, map[], initialDateFormats;
      forall i | 0 <= i < |fields| && IsLargeTextField(fields[i].name, fields[i].kind) && fields[i].name in values
        ensures |Words(values[fields[i].name])| <= WordLimit
      {
        InitialValueOf(tags, i);
      }
    }

    /** `handleFormChange`: a large text field stores the value cut to the word
        limit and its word count; any other field stores the value as typed.
        `kind` is the type of the field the form reports the change for. */
    method HandleFormChange(name: string, value: string, kind: FieldType)
      requires Valid()
      requires forall i :: 0 <= i < |fields| && fields[i].name == name ==> fields[i].kind == kind
      modifies this
      ensures fields == old(fields) && dateFormats == old(dateFormats)
      ensures IsLargeTextField(name, kind) ==>
                && values == old(values)[name := LimitTextByWords(value, WordLimit).0]
                && wordCounts == old(wordCounts)[name := LimitTextByWords(value, WordLimit).1]
      ensures !IsLargeTextField(name, kind) ==> values == old(values)[name := value] && wordCounts == old(wordCounts)
      ensures Valid()
    {
      if IsLargeTextField(name, kind) {
        var limited := LimitTextByWords(value, WordLimit);
        values := values[name := limited.0];
        wordCounts := wordCounts[name := limited.1];
      } else {
        values := values[name := value];
      }
    }

    /** `handleDateFormatChange`. */
    method HandleDateFormatChange(name: string, format: string)
      modifies this
      ensures dateFormats == old(dateFormats)[name := format]
      ensures fields == old(fields) && values == old(values) && wordCounts == old(wordCounts)
    {
      dateFormats := dateFormats[name := format];
    }

    /** The validation and dispatch of `handleGenerateDocument`. */
    method GenerateReplacements(parseDate: string -> CalendarDate, formatNumber: string -> string)
      returns (r: Result<seq<(string, string)>, seq<string>>)
      ensures r == PrepareReplacements(fields, values, dateFormats, parseDate, formatNumber)
    {
      var missing := MissingFields(fields, values);
      if missing != [] {
        return Err(Names(missing));
      }
      ghost var all := Replacements(fields, values, dateFormats, parseDate, formatNumber);
      var processed: seq<(string, string)> := [];
      for i := 0 to |fields|
        invariant processed == all[..i]
      {
        var field := fields[i];
        var value := ValueOf(values, field.name);
        var v: string;
        if field.kind.base == Date {
          v := FormatDateValue(value, parseDate(value), DateLabel(dateFormats, field.name));
        } else if field.kind.base == Number {
          v := formatNumber(value);
        } else {
          v := value;
        }
        assert v == ProcessedValue(field, value, dateFormats, parseDate, formatNumber);
        assert all[i] == (field.name, v);
        assert all[..i + 1] == all[..i] + [(field.name, v)];
        processed := processed + [(field.name, v)];
      }
      assert all[..|fields|] == all;
      r := Ok(processed);
    }
  }
}
