/** Field kinds and extracted tags (src/types/index.ts and the `ExtractedTag`
    record of src/components/TemplateUpload.tsx). */
module FieldTypes {
  import opened Wrappers
  import opened JsStrings

  /** The data kind a tag's brace depth gives it. */
  datatype BaseKind = Text | Number | Date

  /** `FieldType`: a base kind, optionally its dropdown variant. */
  datatype FieldType = FieldType(base: BaseKind, dropdown: bool) {

    /** The string the source uses for the kind, e.g. `'number_dropdown'`. */
    function Spelling(): string {
      var b := match base case Text => "text" case Number => "number" case Date => "date";
      if dropdown then b + "_dropdown" else b
    }
  }

  /** Brace depth 1, 2, 3 gives text, number, date. */
  function BaseOfDepth(depth: nat): (b: BaseKind)
    requires 1 <= depth <= 3
    ensures depth == 1 <==> b == Text
    ensures depth == 2 <==> b == Number
    ensures depth == 3 <==> b == Date
  {
    if depth == 3 then Date else if depth == 2 then Number else Text
  }

  /** A tag found in a template: its name, kind and, for dropdowns, its options. */
  datatype Tag = Tag(name: string, kind: FieldType, options: Option<seq<string>>)

  /** Options are present exactly on the dropdown kinds. */
  predicate WellKinded(t: Tag) {
    t.options.Some? <==> t.kind.dropdown
  }

  /** The tag names of a list of tags, in order. */
  function Names(tags: seq<Tag>): (ns: seq<string>)
    ensures |ns| == |tags|
    ensures forall i :: 0 <= i < |tags| ==> ns[i] == tags[i].name
  {
    seq(|tags|, i requires 0 <= i < |tags| => tags[i].name)
  }

  /** No two tags share a name. */
  predicate UniqueNames(tags: seq<Tag>) {
    forall i, j :: 0 <= i < j < |tags| ==> tags[i].name != tags[j].name
  }

  /** `Map.prototype.has` on the tags found so far. */
  predicate HasName(tags: seq<Tag>, name: string) {
    exists i :: 0 <= i < |tags| && tags[i].name == name
  }
}
