/** The display helpers of the question and answer cards: the relative timestamp, the
    content preview with its "Read more" link, and the answer-count label. */
module Cards {
  import opened Text

  const Minute: nat := 60000
  const Hour: nat := 3600000
  const Day: nat := 86400000

  /** A card's timestamp: a relative phrase, or the locale-formatted calendar date. */
  datatype TimeLabel = Relative(text: string) | CalendarDate

  /** `formatTimeAgo`, given `diffMs = now - createdAt` in milliseconds. `Math.floor` of a
      division by a positive constant is Dafny's `/`. The calendar date is locale-dependent
      text and is left abstract. */
  function FormatTimeAgo(diffMs: int): (r: TimeLabel)
    ensures r == Relative("just now") <==> diffMs < Minute
    ensures r.CalendarDate? <==> diffMs >= 30 * Day
  {
    var mins := diffMs / Minute;
    var hours := diffMs / Hour;
    var days := diffMs / Day;
    if mins < 1 then Relative("just now")
    else if mins < 60 then Relative(NatToString(mins) + "m ago")
    else if hours < 24 then Relative(NatToString(hours) + "h ago")
    else if days < 30 then Relative(NatToString(days) + "d ago")
    else CalendarDate
  }

  /** Whole `unit`s elapsed, read back from a label "<n><letter> ago". */
  predicate ReadsAs(shown: string, letter: char, unit: nat, limit: nat, diffMs: int)
    requires unit > 0
  {
    && |shown| > 5
    && shown[|shown| - 5..] == [letter] + " ago"
    && (forall i :: 0 <= i < |shown| - 5 ==> IsDigit(shown[i]))
    && var n := ParseDecimal(shown[..|shown| - 5]);
       1 <= n < limit && n * unit <= diffMs < (n + 1) * unit
  }

  /** The number a relative label shows is the elapsed time rounded down to the largest unit
      that gives at least one: minutes under an hour, hours under a day, days under thirty. */
  lemma FormatTimeAgoReadsBack(diffMs: int)
    requires Minute <= diffMs < 30 * Day
    ensures FormatTimeAgo(diffMs).Relative?
    ensures diffMs < Hour ==> ReadsAs(FormatTimeAgo(diffMs).text, 'm', Minute, 60, diffMs)
    ensures Hour <= diffMs < Day ==> ReadsAs(FormatTimeAgo(diffMs).text, 'h', Hour, 24, diffMs)
    ensures Day <= diffMs ==> ReadsAs(FormatTimeAgo(diffMs).text, 'd', Day, 30, diffMs)
  {
    if diffMs < Hour {
      MinutesAgo(diffMs);
    } else if diffMs < Day {
      HoursAgo(diffMs);
    } else {
      DaysAgo(diffMs);
    }
  }

  lemma MinutesAgo(diffMs: int)
    requires Minute <= diffMs < Hour
    ensures FormatTimeAgo(diffMs) == Relative(NatToString(diffMs / Minute) + "m ago")
    ensures ReadsAs(FormatTimeAgo(diffMs).text, 'm', Minute, 60, diffMs)
  {
    var mins := diffMs / Minute;
    assert diffMs == mins * Minute + diffMs % Minute;
    assert 1 <= mins < 60;
    assert "m ago" == ['m'] + " ago";
    Reads(diffMs, 'm', Minute, 60);
  }

  lemma HoursAgo(diffMs: int)
    requires Hour <= diffMs < Day
    ensures FormatTimeAgo(diffMs) == Relative(NatToString(diffMs / Hour) + "h ago")
    ensures ReadsAs(FormatTimeAgo(diffMs).text, 'h', Hour, 24, diffMs)
  {
    var mins, hours := diffMs / Minute, diffMs / Hour;
    assert diffMs == mins * Minute + diffMs % Minute;
    assert diffMs == hours * Hour + diffMs % Hour;
    assert mins >= 60 && 1 <= hours < 24;
    assert "h ago" == ['h'] + " ago";
    Reads(diffMs, 'h', Hour, 24);
  }

  lemma DaysAgo(diffMs: int)
    requires Day <= diffMs < 30 * Day
    ensures FormatTimeAgo(diffMs) == Relative(NatToString(diffMs / Day) + "d ago")
    ensures ReadsAs(FormatTimeAgo(diffMs).text, 'd', Day, 30, diffMs)
  {
    var mins, hours, days := diffMs / Minute, diffMs / Hour, diffMs / Day;
    assert diffMs == mins * Minute + diffMs % Minute;
    assert diffMs == hours * Hour + diffMs % Hour;
    assert diffMs == days * Day + diffMs % Day;
    assert mins >= 60 && hours >= 24 && 1 <= days < 30;
    assert "d ago" == ['d'] + " ago";
    Reads(diffMs, 'd', Day, 30);
  }

  /** "<diffMs / unit><letter> ago" reads back as the whole units elapsed. */
  lemma Reads(diffMs: int, letter: char, unit: nat, limit: nat)
    requires unit > 0 && unit <= diffMs < limit * unit
    ensures ReadsAs(NatToString(diffMs / unit) + ([letter] + " ago"), letter, unit, limit, diffMs)
  {
    var n := diffMs / unit;
    assert diffMs == n * unit + diffMs % unit;
    assert (n + 1) * unit == n * unit + unit;
    if n < 1 {
      MulLe(n, 0, unit);
    }
    if n >= limit {
      MulLe(limit, n, unit);
    }
    NatToStringParses(n);
    var shown := NatToString(n) + ([letter] + " ago");
    assert shown[..|shown| - 5] == NatToString(n);
  }

  lemma MulLe(a: int, b: int, c: nat)
    requires a <= b
    ensures a * c <= b * c
  {
    assert b * c - a * c == (b - a) * c;
  }

  const PreviewLength: nat := 200

  /** The code units of "...". */
  const Ellipsis: seq<CodeUnit> := [0x2E, 0x2E, 0x2E]

  /** `truncateContent(content, maxLength)`, on the code units JavaScript sees: `length` and
      `substring` count UTF-16 units, so the cut can fall between the two halves of a
      surrogate pair. */
  function TruncateContent(content: string, maxLength: nat): (r: seq<CodeUnit>)
    ensures |Utf16(content)| <= maxLength ==> r == Utf16(content)
    ensures |Utf16(content)| > maxLength ==>
      |r| == maxLength + 3 && r[..maxLength] == Utf16(content)[..maxLength] && r[maxLength..] == Ellipsis
  {
    var u := Utf16(content);
    if |u| <= maxLength then u else u[..maxLength] + Ellipsis
  }

  /** The preview equals the content exactly when nothing was cut, or when the cut-off tail
      happens to be the very "..." that replaces it. */
  lemma TruncateUnchanged(content: string, maxLength: nat)
    ensures var u := Utf16(content);
      (TruncateContent(content, maxLength) == u <==>
         |u| <= maxLength || (|u| == maxLength + 3 && u[maxLength..] == Ellipsis))
  {
    var u := Utf16(content);
    if |u| > maxLength {
      var r := TruncateContent(content, maxLength);
      if r == u {
        assert u[maxLength..] == r[maxLength..];
      }
      if |u| == maxLength + 3 && u[maxLength..] == Ellipsis {
        assert u == u[..maxLength] + u[maxLength..];
      }
    }
  }

  /** The code units the question card shows as the body. */
  function DisplayedContent(showFullContent: bool, content: string): seq<CodeUnit> {
    if showFullContent then Utf16(content) else TruncateContent(content, PreviewLength)
  }

  /** The "Read more..." link: only in the preview, and only for content over 200 code units. */
  predicate ShowsReadMore(showFullContent: bool, content: string) {
    !showFullContent && |Utf16(content)| > PreviewLength
  }

  /** The link appears exactly when the preview had to cut the content; otherwise the whole
      content is displayed. */
  lemma ReadMoreWhenCut(showFullContent: bool, content: string)
    ensures ShowsReadMore(showFullContent, content) ==>
      DisplayedContent(showFullContent, content) == Utf16(content)[..PreviewLength] + Ellipsis
    ensures !ShowsReadMore(showFullContent, content) ==> DisplayedContent(showFullContent, content) == Utf16(content)
  {
  }

  /** Content of 200 characters followed by "..." shows the link although the preview
      already displays all of it. */
  lemma ReadMoreOnFullyShown()
    ensures var content := Repeat('a', PreviewLength) + "...";
      ShowsReadMore(false, content) && DisplayedContent(false, content) == Utf16(content)
  {
    var content := Repeat('a', PreviewLength) + "...";
    Utf16Narrow(content);
    TruncateUnchanged(content, PreviewLength);
    assert Utf16(content)[PreviewLength..] == Ellipsis;
  }

  /** A character beyond U+10000 straddling the 200th code unit is cut in half: the preview
      keeps its high surrogate alone, then "...". */
  lemma PreviewSplitsSurrogatePair()
    ensures var content := Repeat('a', PreviewLength - 1) + "\U{1F600}";
      && ShowsReadMore(false, content)
      && DisplayedContent(false, content)[PreviewLength - 1] == 0xD83D
      && DisplayedContent(false, content)[PreviewLength..] == Ellipsis
  {
    var prefix := Repeat('a', PreviewLength - 1);
    var content := prefix + "\U{1F600}";
    Utf16Narrow(prefix);
    Utf16Concat(prefix, "\U{1F600}");
    assert "\U{1F600}"[1..] == [];
    assert Utf16("\U{1F600}") == CodeUnits('\U{1F600}');
    assert Utf16(content)[PreviewLength - 1] == 0xD83D;
  }

  /** The answer-count link of a question card. */
  function AnswerCountLabel(n: nat): (r: string)
    ensures n == 0 <==> r == "No answers"
    ensures n == 1 <==> r == "1 answer"
    ensures n >= 2 ==> r == NatToString(n) + " answers"
  {
    if n == 0 then "No answers"
    else if n == 1 then "1 answer"
    else
      var r := NatToString(n) + " answers";
      assert IsDigit(r[0]);
      r
  }

  /** Different counts get different labels, and a plural label reads back as its count. */
  lemma AnswerCountLabelInjective(m: nat, n: nat)
    ensures AnswerCountLabel(m) == AnswerCountLabel(n) ==> m == n
    ensures n >= 2 ==> var r := AnswerCountLabel(n);
      |r| > 8 && (forall i :: 0 <= i < |r| - 8 ==> IsDigit(r[i])) && ParseDecimal(r[..|r| - 8]) == n
  {
    var r := AnswerCountLabel(n);
    if n >= 2 {
      assert r[..|r| - 8] == NatToString(n);
      NatToStringParses(n);
    }
    if AnswerCountLabel(m) == r && m >= 2 && n >= 2 {
      var s := AnswerCountLabel(m);
      assert s[..|s| - 8] == NatToString(m);
      NatToStringInjective(m, n);
    }
  }
}
