/** The pure logic of the answer form: one content field, validated by the same length
    rule as a question's content, submitted trimmed. */
module AnswerForm {
  import opened Wrappers
  import opened Text
  import opened ForumTypes
  import opened FormRules
  import QuestionForm

  const ContentMin: nat := 20
  const ContentMax: nat := 5000

  function ContentError(content: string): Option<string> {
    LengthRule(content, ContentMin, ContentMax, "Answer content is required",
               "Answer must be at least 20 characters long", "Answer must be less than 5000 characters")
  }

  /** `validateForm`: the error record, holding at most a `content` entry, and whether it
      was empty. The length is JavaScript's, in UTF-16 code units. */
  function ValidateForm(content: string): (r: (Errors, bool))
    ensures r.1 <==> r.0 == map[]
    ensures r.0.Keys <= {"content"}
    ensures r.1 <==> !IsBlank(content) && ContentMin <= |Utf16(content)| <= ContentMax
    ensures IsBlank(content) ==> r.0 == map["content" := "Answer content is required"]
    ensures !IsBlank(content) && |Utf16(content)| < ContentMin ==> r.0 == map["content" := "Answer must be at least 20 characters long"]
    ensures !IsBlank(content) && |Utf16(content)| > ContentMax ==> r.0 == map["content" := "Answer must be less than 5000 characters"]
  {
    var e := Record(map[], "content", ContentError(content));
    assert ContentError(content).Some? ==> "content" in e;
    (e, e == map[])
  }

  /** An answer is accepted exactly when the same text would be accepted as a question's
      content: the two forms share their thresholds, only the messages differ. */
  lemma SameRuleAsQuestionContent(content: string, title: string, tags: string)
    ensures ValidateForm(content).1 <==> "content" !in QuestionForm.ValidateForm(QuestionForm.FormData(title, content, tags)).0
  {
  }

  /** `handleSubmit`: nothing is submitted unless validation passes; then the trimmed
      content, for the question the form belongs to. */
  function Submit(questionId: string, content: string): (r: Option<CreateAnswerData>)
    ensures r.Some? <==> ValidateForm(content).1
    ensures r.Some? ==> r.value.questionId == questionId && r.value.content == Trim(content)
    ensures r.Some? ==> r.value.content != "" && |Utf16(r.value.content)| <= ContentMax
  {
    if ValidateForm(content).1 then
      PassedFieldTrims(content, ContentMin, ContentMax, "Answer content is required",
                       "Answer must be at least 20 characters long", "Answer must be less than 5000 characters");
      Some(CreateAnswerData(questionId, Trim(content)))
    else None
  }

  /** `handleContentChange`: the new text, with the content error (only it) cleared when shown. */
  function HandleContentChange(errors: Errors, value: string): (r: (string, Errors))
    ensures r.0 == value
    ensures "content" in errors && errors["content"] != "" ==> "content" !in r.1
    ensures !("content" in errors && errors["content"] != "") ==> r.1 == errors
    ensures forall k :: k != "content" ==> (k in r.1 <==> k in errors)
    ensures forall k :: k != "content" && k in errors ==> r.1[k] == errors[k]
  {
    (value, ClearError(errors, "content"))
  }
}
