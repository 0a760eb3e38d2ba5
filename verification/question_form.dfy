/** The pure logic of the question form: validation, the comma-separated tag pipeline,
    the trimmed submission, and error clearing when a field is edited. */
module QuestionForm {
  import opened Wrappers
  import opened Seqs
  import opened Text
  import opened ForumTypes
  import opened FormRules

  datatype FormData = FormData(title: string, content: string, tags: string)

  /** The editable fields and their error keys. */
  datatype FormField = TitleField | ContentField | TagsField {
    function Name(): string {
      match this
      case TitleField => "title"
      case ContentField => "content"
      case TagsField => "tags"
    }
  }

  const TitleMin: nat := 10
  const TitleMax: nat := 300
  const ContentMin: nat := 20
  const ContentMax: nat := 5000
  const TagsMax: nat := 500
  const MaxTags: nat := 5

  function TitleError(title: string): Option<string> {
    LengthRule(title, TitleMin, TitleMax, "Title is required",
               "Title must be at least 10 characters long", "Title must be less than 300 characters")
  }

  function ContentError(content: string): Option<string> {
    LengthRule(content, ContentMin, ContentMax, "Question content is required",
               "Question content must be at least 20 characters long",
               "Question content must be less than 5000 characters")
  }

  function TagsError(tags: string): Option<string> {
    if |Utf16(tags)| > TagsMax then Some("Tags must be less than 500 characters") else None
  }

  /** `validateForm`: the error record it sets, and whether it was empty. Each field's
      entry is the message of the first check it fails, in the order `LengthRule` makes
      them; lengths are JavaScript's, in UTF-16 code units. */
  function ValidateForm(form: FormData): (r: (Errors, bool))
    ensures r.1 <==> r.0 == map[]
    ensures r.0.Keys <= {"title", "content", "tags"}
    ensures "title" in r.0 <==> IsBlank(form.title) || |Utf16(form.title)| < TitleMin || |Utf16(form.title)| > TitleMax
    ensures "content" in r.0 <==> IsBlank(form.content) || |Utf16(form.content)| < ContentMin || |Utf16(form.content)| > ContentMax
    ensures "tags" in r.0 <==> |Utf16(form.tags)| > TagsMax
    ensures "title" in r.0 ==> Some(r.0["title"]) == TitleError(form.title)
    ensures "content" in r.0 ==> Some(r.0["content"]) == ContentError(form.content)
    ensures "tags" in r.0 ==> r.0["tags"] == "Tags must be less than 500 characters"
    ensures r.1 <==> && !IsBlank(form.title) && TitleMin <= |Utf16(form.title)| <= TitleMax
                     && !IsBlank(form.content) && ContentMin <= |Utf16(form.content)| <= ContentMax
                     && |Utf16(form.tags)| <= TagsMax
  {
    var te, ce, ge := TitleError(form.title), ContentError(form.content), TagsError(form.tags);
    var e := Record(Record(Record(map[], "title", te), "content", ce), "tags", ge);
    assert "title" in e <==> te.Some?;
    assert "content" in e <==> ce.Some?;
    assert "tags" in e <==> ge.Some?;
    assert te.Some? ==> e["title"] == te.value;
    assert ce.Some? ==> e["content"] == ce.value;
    (e, e == map[])
  }

  predicate NonEmpty(s: string) {
    |s| > 0
  }

  /** `tags.split(',').map(trim).filter(non-empty).slice(0, 5)`. */
  function ParseTags(raw: string): (r: seq<string>)
    ensures |r| <= MaxTags
    ensures |Filter(Map(Split(raw, ','), Trim), NonEmpty)| >= MaxTags ==> |r| == MaxTags
    ensures r <= Filter(Map(Split(raw, ','), Trim), NonEmpty)
    ensures |Filter(Map(Split(raw, ','), Trim), NonEmpty)| <= MaxTags ==> r == Filter(Map(Split(raw, ','), Trim), NonEmpty)
  {
    Take(Filter(Map(Split(raw, ','), Trim), NonEmpty), MaxTags)
  }

  /** Every parsed tag is non-empty, has no surrounding whitespace and holds no comma. */
  lemma ParseTagsWellFormed(raw: string)
    ensures forall i :: 0 <= i < |ParseTags(raw)| ==>
      var t := ParseTags(raw)[i]; t != "" && !IsWhitespace(t[0]) && !IsWhitespace(t[|t| - 1]) && ',' !in t
  {
    var pieces := Split(raw, ',');
    var trimmed := Map(pieces, Trim);
    var kept := Filter(trimmed, NonEmpty);
    var r := ParseTags(raw);
    FilterMembers(trimmed, NonEmpty);
    forall i | 0 <= i < |r|
      ensures r[i] != "" && !IsWhitespace(r[i][0]) && !IsWhitespace(r[i][|r[i]| - 1]) && ',' !in r[i]
    {
      assert r[i] == kept[i];
      assert kept[i] in trimmed;
      KeptTagWellFormed(raw, kept[i]);
    }
  }

  /** A non-empty trimmed piece of the raw text is a well-formed tag. */
  lemma KeptTagWellFormed(raw: string, t: string)
    requires t in Map(Split(raw, ','), Trim) && NonEmpty(t)
    ensures t != "" && !IsWhitespace(t[0]) && !IsWhitespace(t[|t| - 1]) && ',' !in t
  {
    var pieces := Split(raw, ',');
    var trimmed := Map(pieces, Trim);
    var j :| 0 <= j < |trimmed| && trimmed[j] == t;
    TrimKeepsOut(pieces[j], ',');
  }

  /** Trimming never introduces a character. */
  lemma TrimKeepsOut(s: string, c: char)
    requires c !in s
    ensures c !in Trim(s)
  {
    var t := Trim(s);
    var a := LeadingSpace(s);
    forall i | 0 <= i < |t| ensures t[i] != c {
      assert t[i] == s[a + i];
    }
  }

  /** The tags come, in order, from the comma-separated pieces of the raw text: every tag is
      the trim of some piece, and the pieces put back together are the raw text. */
  lemma ParseTagsFromPieces(raw: string)
    ensures Join(Split(raw, ','), ',') == raw
    ensures forall i :: 0 <= i < |ParseTags(raw)| ==>
      exists j :: 0 <= j < |Split(raw, ',')| && ParseTags(raw)[i] == Trim(Split(raw, ',')[j])
  {
    SplitJoin(raw, ',');
    var pieces := Split(raw, ',');
    var trimmed := Map(pieces, Trim);
    FilterMembers(trimmed, NonEmpty);
    var r := ParseTags(raw);
    forall i | 0 <= i < |r| ensures exists j :: 0 <= j < |pieces| && r[i] == Trim(pieces[j]) {
      assert r[i] in Filter(trimmed, NonEmpty);
      assert r[i] in trimmed;
      var j :| 0 <= j < |trimmed| && trimmed[j] == r[i];
    }
  }

  /** A comma-free, non-blank tag text is a single tag: itself, trimmed. */
  lemma ParseTagsSingle(raw: string)
    requires ',' !in raw && !IsBlank(raw)
    ensures ParseTags(raw) == [Trim(raw)]
  {
    SplitNoSeparator(raw, ',');
    var trimmed := Map([raw], Trim);
    assert trimmed == [Trim(raw)];
    assert Filter(trimmed, NonEmpty) == [Trim(raw)] by {
      FilterSingleton(Trim(raw), NonEmpty);
    }
  }

  /** `handleSubmit`: nothing is submitted unless validation passes; then the trimmed
      title and content and the parsed tags are. */
  function Submit(form: FormData): (r: Option<CreateQuestionData>)
    ensures r.Some? <==> ValidateForm(form).1
    ensures r.Some? ==> r.value.title == Trim(form.title) && r.value.content == Trim(form.content)
    ensures r.Some? ==> r.value.tags == ParseTags(form.tags)
    ensures r.Some? ==> r.value.title != "" && |Utf16(r.value.title)| <= TitleMax
    ensures r.Some? ==> r.value.content != "" && |Utf16(r.value.content)| <= ContentMax
  {
    if ValidateForm(form).1 then
      PassedFieldTrims(form.title, TitleMin, TitleMax, "Title is required",
                       "Title must be at least 10 characters long", "Title must be less than 300 characters");
      PassedFieldTrims(form.content, ContentMin, ContentMax, "Question content is required",
                       "Question content must be at least 20 characters long",
                       "Question content must be less than 5000 characters");
      Some(CreateQuestionData(Trim(form.title), Trim(form.content), ParseTags(form.tags)))
    else None
  }

  /** The length checks look at the raw title, but the trimmed one is submitted: a title
      padded with spaces up to the minimum passes validation and is stored shorter. */
  lemma PaddedTitleSubmittedShort()
    ensures var form := FormData(Repeat(' ', 9) + "x", Repeat('c', 20), "");
      Submit(form).Some? && Submit(form).value.title == "x" && |Utf16(Submit(form).value.title)| < TitleMin
  {
    var form := FormData(Repeat(' ', 9) + "x", Repeat('c', 20), "");
    PaddedTitle();
    RepeatedContent();
    assert ValidateForm(form).1;
  }

  /** Nine spaces and "x": ten code units, not blank, one character once trimmed. */
  lemma PaddedTitle()
    ensures var t := Repeat(' ', 9) + "x"; TitleError(t) == None && Trim(t) == "x" && |Utf16(Trim(t))| <= 2
  {
    var t := Repeat(' ', 9) + "x";
    var trimmed := Trim(t);
    assert LeadingSpace(t) == 9 by {
      assert LeadingSpace(t) >= 9 && !IsWhitespace(t[9]);
    }
    assert trimmed == "x";
    assert |Utf16(trimmed)| <= 2 by {
      if trimmed != [] {
        assert trimmed == [trimmed[0]];
      }
    }
    Utf16Repeat(' ', 9);
    Utf16Concat(Repeat(' ', 9), "x");
    assert !IsWhitespace(t[9]);
  }

  /** Twenty copies of a letter pass the content rule. */
  lemma RepeatedContent()
    ensures ContentError(Repeat('c', 20)) == None
  {
    Utf16Repeat('c', 20);
    assert !IsWhitespace(Repeat('c', 20)[0]);
  }

  /** `length` counts UTF-16 code units, so a character beyond U+10000 counts twice: five
      emoji make a title long enough. */
  lemma WideTitleLongEnough()
    ensures TitleError(Repeat('\U{1F600}', 5)) == None
  {
    var title := Repeat('\U{1F600}', 5);
    Utf16Repeat('\U{1F600}', 5);
    assert !IsWhitespace(title[0]);
  }

  /** `handleInputChange(field, value)`: the field takes the value, and its error (only
      its own) is cleared when one is shown. */
  function HandleInputChange(form: FormData, errors: Errors, field: FormField, value: string): (r: (FormData, Errors))
    ensures field == TitleField ==> r.0 == form.(title := value)
    ensures field == ContentField ==> r.0 == form.(content := value)
    ensures field == TagsField ==> r.0 == form.(tags := value)
    ensures field.Name() in errors && errors[field.Name()] != "" ==> field.Name() !in r.1
    ensures !(field.Name() in errors && errors[field.Name()] != "") ==> r.1 == errors
    ensures forall k :: k != field.Name() ==> (k in r.1 <==> k in errors)
    ensures forall k :: k != field.Name() && k in errors ==> r.1[k] == errors[k]
  {
    var form' := match field
      case TitleField => form.(title := value)
      case ContentField => form.(content := value)
      case TagsField => form.(tags := value);
    (form', ClearError(errors, field.Name()))
  }
}
