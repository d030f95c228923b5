/** The .docx side of the component: the text tags are read from, and the
    rewrite of every paragraph when a document is generated. The package is
    reduced to the body of word/document.xml, a sequence of paragraphs, or
    `None` when that entry is missing or empty. */
module DocxTemplate {
  import opened Wrappers
  import opened JsStrings
  import opened BracePatterns
  import opened Replacement
  import Filling

  /** A `<w:p>` element as the engine sees it: a self-closing `<w:p/>` (a blank
      line), a paragraph with the texts of its `<w:t>` runs in order, or a
      paragraph the rewrite produced, holding one whitespace-preserving run. */
  datatype Paragraph = SelfClosing | Runs(texts: seq<string>) | PreservedRun(text: string)

  /** The `<w:t>` texts of a paragraph, in document order. */
  function RunTexts(p: Paragraph): seq<string> {
    match p
    case SelfClosing => []
    case Runs(ts) => ts
    case PreservedRun(t) => [t]
  }

  /** `join('')`. */
  function Concat(texts: seq<string>): string
    decreases |texts|
  {
    if texts == [] then "" else texts[0] + Concat(texts[1..])
  }

  /** Joining is compatible with appending lists of texts. */
  lemma {:induction false} ConcatAppend(a: seq<string>, b: seq<string>)
    ensures Concat(a + b) == Concat(a) + Concat(b)
    decreases |a|
  {
    if a == [] {
      assert a + b == b;
    } else {
      assert (a + b)[0] == a[0];
      assert (a + b)[1..] == a[1..] + b;
      ConcatAppend(a[1..], b);
    }
  }

  lemma {:induction false} ConcatOne(a: string)
    ensures Concat([a]) == a
  {
    assert [a][1..] == [];
  }

  lemma {:induction false} ConcatTwo(a: string, b: string)
    ensures Concat([a, b]) == a + b
  {
    assert [a, b][1..] == [b];
    ConcatOne(b);
  }

  /** Every `<w:t>` text of the body, paragraph after paragraph. */
  function AllTexts(body: seq<Paragraph>): seq<string>
    decreases |body|
  {
    if body == [] then [] else RunTexts(body[0]) + AllTexts(body[1..])
  }

  /** The text tags are extracted from: all run texts joined without a
      separator and trimmed; the empty string when word/document.xml is
      missing or empty (`None`). */
  function DocumentText(doc: Option<seq<Paragraph>>): string {
    match doc
    case None => ""
    case Some(body) => Trim(Concat(AllTexts(body)))
  }

  /** `extractTextFromDocx`: the `<w:t>` texts are collected in a loop that
      skips empty ones, then joined and trimmed. Skipping changes nothing. */
  method ExtractTextFromDocx(doc: Option<seq<Paragraph>>) returns (text: string)
    ensures text == DocumentText(doc)
  {
    if doc.None? {
      return "";
    }
    var texts := AllTexts(doc.value);
    var extracted: seq<string> := [];
    for i := 0 to |texts|
      invariant Concat(extracted) == Concat(texts[..i])
      invariant forall k :: 0 <= k < |extracted| ==> extracted[k] != []
    {
      ConcatAppend(texts[..i], [texts[i]]);
      assert texts[..i + 1] == texts[..i] + [texts[i]];
      if texts[i] != [] {
        ConcatAppend(extracted, [texts[i]]);
        extracted := extracted + [texts[i]];
      }
    }
    assert texts[..|texts|] == texts;
    text := Trim(Concat(extracted));
  }

  /** A tag split over runs is read whole: the runs of a paragraph are joined
      with nothing between them. */
  lemma {:induction false} SplitRunsJoin(a: string, b: string)
    ensures DocumentText(Some([Runs([a, b])])) == Trim(a + b)
  {
    assert [Runs([a, b])][1..] == [];
    assert AllTexts([Runs([a, b])]) == [a, b] + [];
    assert [a, b] + [] == [a, b];
    ConcatTwo(a, b);
  }

  /** The text a paragraph rewrite starts from: its runs joined. */
  function ParagraphText(p: Paragraph): string {
    Concat(RunTexts(p))
  }

  /** The loop over `Object.entries(replacements)` inside one paragraph. */
  method RewriteParagraphText(texts: seq<string>, entries: seq<(string, string)>) returns (text: string)
    ensures text == Substitute(Concat(texts), entries, SomeRun)
  {
    text := Concat(texts);
    for i := 0 to |entries|
      invariant Substitute(text, entries[i..], SomeRun) == Substitute(Concat(texts), entries, SomeRun)
    {
      assert entries[i..][1..] == entries[i + 1..];
      text := ReplaceTag(text, entries[i].0, entries[i].1, SomeRun);
    }
  }

  /** One paragraph after the rewrite: self-closing ones stay, every other one
      becomes a single preserved run holding its substituted text. */
  function RewriteParagraph(p: Paragraph, entries: seq<(string, string)>): Paragraph {
    if p.SelfClosing? then SelfClosing
    else PreservedRun(Substitute(ParagraphText(p), entries, SomeRun))
  }

  /** The body after the rewrite, paragraph by paragraph. A literal `<w:p/>`
      survives: a paragraph is self-closing afterwards exactly when it was
      before, and every other paragraph is one preserved run. */
  function RewriteBody(body: seq<Paragraph>, entries: seq<(string, string)>): (r: seq<Paragraph>)
    ensures |r| == |body|
    ensures forall i :: 0 <= i < |body| ==> (r[i].SelfClosing? <==> body[i].SelfClosing?)
    ensures forall i :: 0 <= i < |body| && !body[i].SelfClosing? ==> r[i].PreservedRun?
  {
    seq(|body|, i requires 0 <= i < |body| => RewriteParagraph(body[i], entries))
  }

  /** `generateDocumentFromTemplate` of the component: an error when
      word/document.xml is missing or empty (`None`), otherwise every
      paragraph rewritten. */
  method GenerateDocumentFromTemplate(doc: Option<seq<Paragraph>>, entries: seq<(string, string)>)
    returns (r: Result<seq<Paragraph>, string>)
    ensures doc.None? <==> r.Err?
    ensures doc.Some? ==> r == Ok(RewriteBody(doc.value, entries))
  {
    if doc.None? {
      return Err("Could not find document.xml");
    }
    var body := doc.value;
    var out: seq<Paragraph> := [];
    for i := 0 to |body|
      invariant out == RewriteBody(body[..i], entries)
    {
      var p := body[i];
      if p.SelfClosing? {
        out := out + [SelfClosing];
      } else {
        var text := RewriteParagraphText(RunTexts(p), entries);
        out := out + [PreservedRun(text)];
      }
    }
    assert body[..|body|] == body;
    r := Ok(out);
  }

  /** A paragraph none of whose entry names follows a brace keeps its text; only
      its runs are merged into one. */
  lemma {:induction false} RewriteAbsentKeepsText(body: seq<Paragraph>, entries: seq<(string, string)>, i: nat)
    requires i < |body|
    requires forall n :: 0 <= n < |entries| ==> !Includes(ParagraphText(body[i]), "{" + entries[n].0)
    ensures ParagraphText(RewriteBody(body, entries)[i]) == ParagraphText(body[i])
  {
    var t := ParagraphText(body[i]);
    SubstituteAbsent(t, entries, SomeRun);
    if !body[i].SelfClosing? {
      assert RewriteBody(body, entries)[i] == PreservedRun(t);
      ConcatOne(t);
    }
  }

  /** A paragraph that holds a tag split over two runs, in any of its six
      spellings, holds the value after the rewrite. */
  lemma {:induction false} RewriteFillsSplitTag(k: nat, name: string, slashed: bool, opts: string, v: string, a: string, b: string)
    requires 1 <= k <= 3 && '{' !in name && '{' !in v && Accepted(slashed, opts, SomeRun)
    requires a + b == Written(k, name, slashed, opts)
    ensures RewriteParagraph(Runs([a, b]), [(name, v)]) == PreservedRun(v)
  {
    ConcatTwo(a, b);
    SubstituteWritten(k, name, slashed, opts, v, SomeRun);
  }

  /** A paragraph whose text is a template of plain text and tags becomes one
      preserved run holding that template with each tag filled by the value
      of the first entry of its name, wherever in the paragraph it stands. */
  lemma {:induction false} RewriteFillsParagraph(body: seq<Paragraph>, entries: seq<(string, string)>, i: nat,
                                                 pcs: seq<Filling.Piece>)
    requires i < |body| && !body[i].SelfClosing? && ParagraphText(body[i]) == Filling.Assemble(pcs)
    requires Filling.PlainEntries(entries) && Filling.AllFit(pcs, SomeRun)
    ensures RewriteBody(body, entries)[i] == PreservedRun(Filling.Assemble(Filling.Filled(pcs, entries)))
  {
    Filling.SubstitutePieces(pcs, entries, SomeRun);
  }

  /** When every tag of such a paragraph has an entry, no tag in any spelling
      is left in it. */
  lemma {:induction false} RewriteLeavesNoTag(body: seq<Paragraph>, entries: seq<(string, string)>, i: nat,
                                              pcs: seq<Filling.Piece>)
    requires i < |body| && !body[i].SelfClosing? && ParagraphText(body[i]) == Filling.Assemble(pcs)
    requires Filling.PlainEntries(entries) && Filling.AllFit(pcs, SomeRun)
    requires forall j :: 0 <= j < |pcs| && pcs[j].Tag? ==> Filling.Lookup(entries, pcs[j].name).Some?
    ensures '{' !in RewriteBody(body, entries)[i].text
  {
    Filling.SubstituteLeavesNoTag(pcs, entries, SomeRun);
  }
}
