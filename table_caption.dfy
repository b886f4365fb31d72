// Splitting a table caption into label, number and body for the HTML
// viewer (crates/hwp-core/src/viewer/html/ctrl_header/table/process.rs).
// An AUTO_NUMBER control splits the caption at its position: the label is
// the text before it ("표" when that is blank) and the body the text after
// it. Without one, a caption that starts with "표" has that label and a
// leading run of digits as its number; any other caption is all body.

module TableCaption {
  import opened Bytes
  import opened Errors
  import opened Text
  import ControlChar

  datatype CaptionText = CaptionText(labelText: string, number: string, body: string)

  // "표", the word for table.
  const Pyo: char := '\U{D45C}'

  // Control i is an AUTO_NUMBER at position p, and none comes before it.
  predicate FirstAutoNumberAt(controls: seq<ControlChar.ControlCharPosition>, i: nat, p: nat)
  {
    i < |controls| && controls[i].code == ControlChar.AutoNumber && controls[i].position == p &&
    forall j :: 0 <= j < i ==> controls[j].code != ControlChar.AutoNumber
  }

  // The first AUTO_NUMBER control, if any.
  function AutoNumberPosition(controls: seq<ControlChar.ControlCharPosition>): (r: Option<nat>)
    ensures r.None? <==> forall i :: 0 <= i < |controls| ==> controls[i].code != ControlChar.AutoNumber
    ensures r.Some? ==> exists i: nat :: FirstAutoNumberAt(controls, i, r.value)
  {
    if |controls| == 0 then None
    else if controls[0].code == ControlChar.AutoNumber then
      assert FirstAutoNumberAt(controls, 0, controls[0].position);
      Some(controls[0].position)
    else
      var r := AutoNumberPosition(controls[1..]);
      assert forall i :: 1 <= i < |controls| ==> controls[i] == controls[1..][i - 1];
      if r.Some? then
        var k: nat :| FirstAutoNumberAt(controls[1..], k, r.value);
        assert forall j :: 1 <= j < k + 1 ==> controls[j] == controls[1..][j - 1];
        assert FirstAutoNumberAt(controls, k + 1, r.value);
        r
      else r
  }

  // The display text of the AUTO_NUMBER, else the table's number, else "".
  function NumberText(autoNumberDisplayText: Option<string>, tableNumber: Option<u32>): string
  {
    if autoNumberDisplayText.Some? then autoNumberDisplayText.value
    else if tableNumber.Some? then Decimal(tableNumber.value)
    else ""
  }

  // `chars().take(n)` and `chars().skip(n)`.
  function Take(s: string, n: nat): string { if n <= |s| then s[..n] else s }
  function Skip(s: string, n: nat): string { if n <= |s| then s[n..] else "" }

  predicate StartsWithPyo(s: string) { |s| > 0 && s[0] == Pyo }

  // `strip_prefix("표 ")`, keeping the text when it is not there.
  function AfterLabel(s: string): string
  {
    if |s| >= 2 && s[0] == Pyo && s[1] == ' ' then s[2..] else s
  }

  predicate InNumber(c: char) { IsAsciiDigit(c) || IsWhiteSpace(c) }

  // The index of the first character that is neither an ASCII digit nor
  // whitespace, or the length.
  function NumberEnd(s: string): (k: nat)
    ensures k <= |s|
    ensures forall i :: 0 <= i < k ==> InNumber(s[i])
    ensures k < |s| ==> !InNumber(s[k])
  {
    if |s| == 0 || !InNumber(s[0]) then 0
    else
      var k := NumberEnd(s[1..]);
      assert forall i :: 1 <= i < k + 1 ==> s[i] == s[1..][i - 1];
      k + 1
  }

  function ParseCaptionText(text: string, controls: seq<ControlChar.ControlCharPosition>,
                            tableNumber: Option<u32>, autoNumberDisplayText: Option<string>): CaptionText
  {
    var autoPos := AutoNumberPosition(controls);
    if autoPos.Some? then
      var labelText := Trim(Take(text, autoPos.value));
      var body := Trim(Skip(text, autoPos.value + 1));
      CaptionText(if labelText == "" then [Pyo] else labelText, NumberText(autoNumberDisplayText, tableNumber), body)
    else
      var trimmed := Trim(text);
      if StartsWithPyo(trimmed) then
        var after := AfterLabel(trimmed);
        var end := NumberEnd(after);
        var number := if end > 0 then Trim(after[..end])
          else if tableNumber.Some? then Decimal(tableNumber.value) else "";
        var body := if end < |after| then Trim(after[end..]) else "";
        CaptionText([Pyo], number, body)
      else
        CaptionText("", NumberText(autoNumberDisplayText, tableNumber), trimmed)
  }

  // With an AUTO_NUMBER the label is never empty, the number comes from
  // the display text first, and the character at the control's position
  // belongs to neither label nor body.
  lemma AutoNumberSplit(text: string, controls: seq<ControlChar.ControlCharPosition>,
                        tableNumber: Option<u32>, autoNumberDisplayText: Option<string>, p: nat)
    requires AutoNumberPosition(controls) == Some(p)
    ensures var r := ParseCaptionText(text, controls, tableNumber, autoNumberDisplayText);
      r.labelText != "" &&
      (r.labelText == [Pyo] || r.labelText == Trim(Take(text, p))) &&
      r.body == Trim(Skip(text, p + 1)) &&
      (autoNumberDisplayText.Some? ==> r.number == autoNumberDisplayText.value) &&
      (autoNumberDisplayText.None? && tableNumber.Some? ==> r.number == Decimal(tableNumber.value)) &&
      (autoNumberDisplayText.None? && tableNumber.None? ==> r.number == "")
  {
  }

  // The partner of the split: a label and a body that are already trimmed,
  // around the AUTO_NUMBER's placeholder character, come back unchanged.
  lemma AutoNumberRoundTrip(labelText: string, x: char, body: string, tableNumber: Option<u32>, display: string)
    requires labelText != "" && Trim(labelText) == labelText && Trim(body) == body
    ensures ParseCaptionText(labelText + [x] + body, [ControlChar.ControlCharPosition(|labelText|, ControlChar.AutoNumber)],
      tableNumber, Some(display)) == CaptionText(labelText, display, body)
  {
    var text := labelText + [x] + body;
    assert Take(text, |labelText|) == labelText;
    assert Skip(text, |labelText| + 1) == body;
  }

  // Without an AUTO_NUMBER, a caption "표 <digits> <body>" gives back its
  // parts when the body starts with something other than a digit or a
  // space.
  lemma LabelledRoundTrip(digits: string, body: string, tableNumber: Option<u32>, display: Option<string>)
    requires 0 < |digits| && AllDigits(digits)
    requires 0 < |body| && Trim(body) == body && !InNumber(body[0])
    ensures ParseCaptionText([Pyo, ' '] + digits + " " + body, [], tableNumber, display) ==
      CaptionText([Pyo], digits, body)
  {
    var text := [Pyo, ' '] + digits + " " + body;
    assert Trim(text) == text by {
      TrimEmptyIffBlank(body);
      assert text[|text| - 1] == body[|body| - 1];
      TrimUntouched(text);
    }
    assert StartsWithPyo(text) && AfterLabel(text) == digits + " " + body;
    NumberThenBody(digits, body);
  }

  lemma NumberThenBody(digits: string, body: string)
    requires 0 < |digits| && AllDigits(digits)
    requires 0 < |body| && Trim(body) == body && !InNumber(body[0])
    ensures var after := digits + " " + body;
      NumberEnd(after) == |digits| + 1 && Trim(after[..|digits| + 1]) == digits && Trim(after[|digits| + 1..]) == body
  {
    var after := digits + " " + body;
    DigitRun(digits + " ", body);
    assert after[..|digits| + 1] == digits + " ";
    assert after[|digits| + 1..] == body;
    TrimUntouched(digits);
    assert TrimStart(digits + " ") == digits + " ";
    TrimEndSpace(digits);
  }

  lemma DigitRun(run: string, rest: string)
    requires forall i :: 0 <= i < |run| ==> InNumber(run[i])
    requires |rest| > 0 && !InNumber(rest[0])
    ensures NumberEnd(run + rest) == |run|
  {
    if |run| > 0 {
      assert (run + rest)[1..] == run[1..] + rest;
      DigitRun(run[1..], rest);
    } else {
      assert run + rest == rest;
    }
  }

  lemma TrimEndSpace(s: string)
    requires |s| > 0 && !IsWhiteSpace(s[|s| - 1])
    ensures TrimEnd(s + " ") == s
  {
    assert (s + " ")[..|s|] == s;
  }

  // Any other caption is all body, with no label.
  lemma PlainBody(text: string, tableNumber: Option<u32>, display: Option<string>)
    requires !StartsWithPyo(Trim(text))
    ensures ParseCaptionText(text, [], tableNumber, display) ==
      CaptionText("", NumberText(display, tableNumber), Trim(text))
  {
  }

  // "표" followed by anything but a space keeps the whole caption as the
  // body: only "표 " is stripped, so the scan stops at "표" itself.
  lemma UnspacedLabel(text: string, tableNumber: Option<u32>, display: Option<string>)
    requires StartsWithPyo(Trim(text)) && (|Trim(text)| < 2 || Trim(text)[1] != ' ')
    ensures ParseCaptionText(text, [], tableNumber, display) ==
      CaptionText([Pyo], NumberText(None, tableNumber), Trim(text))
  {
    var t := Trim(text);
    assert !InNumber(t[0]);
    assert t[0..] == t;
    TrimIdempotent(text);
  }

  lemma TrimIdempotent(s: string)
    ensures Trim(Trim(s)) == Trim(s)
  {
    TrimEmptyIffBlank(s);
    if Trim(s) != "" {
      TrimUntouched(Trim(s));
    }
  }
}
