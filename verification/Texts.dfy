/** The text tests the services share. */
module Texts {

  const WHITE_SPACE := [' ', '\t', '\n', '\r', 0x0B as char, 0x0C as char]

  /** `not text.strip()`, over ASCII white space. */
  predicate Blank(text: string) {
    forall i :: 0 <= i < |text| ==> text[i] in WHITE_SPACE
  }

  /** `text.strip()`: the text without the white space before and behind it. */
  function Stripped(text: string): (t: string)
    ensures t != "" ==> !IsSpace(t[0]) && !IsSpace(t[|t| - 1])
  {
    if text == "" then ""
    else if IsSpace(text[0]) then Stripped(text[1..])
    else if IsSpace(text[|text| - 1]) then Stripped(text[..|text| - 1])
    else text
  }

  predicate IsSpace(c: char) {
    c == ' ' || '\t' <= c <= '\r'
  }

  /** Some character of the text is not white space. */
  predicate HasText(text: string) {
    exists i :: 0 <= i < |text| && !IsSpace(text[i])
  }

  lemma BlankMeansNoText(text: string)
    ensures Blank(text) <==> !HasText(text)
  {
    forall i | 0 <= i < |text| ensures IsSpace(text[i]) <==> text[i] in WHITE_SPACE {
      SpaceIsWhite(text[i]);
    }
  }

  /** A text is blank exactly when nothing is left of it. */
  lemma {:induction false} BlankIsStrippedEmpty(text: string)
    ensures Blank(text) <==> Stripped(text) == ""
  {
    BlankMeansNoText(text);
    if text != "" {
      if IsSpace(text[0]) {
        BlankIsStrippedEmpty(text[1..]);
        BlankMeansNoText(text[1..]);
        assert forall i :: 0 < i < |text| ==> text[i] == text[1..][i - 1];
      } else if IsSpace(text[|text| - 1]) {
        BlankIsStrippedEmpty(text[..|text| - 1]);
        BlankMeansNoText(text[..|text| - 1]);
        assert text[..|text| - 1][0] == text[0];
      }
    }
  }

  lemma SpaceIsWhite(c: char)
    ensures IsSpace(c) <==> c in WHITE_SPACE
  {
    if IsSpace(c) {
      assert c == ' ' || c == '\t' || c == '\n' || c == 0x0B as char || c == 0x0C as char || c == '\r';
      assert c == WHITE_SPACE[0] || c == WHITE_SPACE[1] || c == WHITE_SPACE[2] || c == WHITE_SPACE[3]
             || c == WHITE_SPACE[4] || c == WHITE_SPACE[5];
    }
  }

  /** Appends a line to a text that only ever grows. */
  function WithLine(text: string, line: string): string {
    (if text != "" then text + "\n" else "") + line
  }

  /** `after` holds all of `before`, then `line` on a line of its own. */
  predicate Appended(before: string, line: string, after: string) {
    var gap := if before == "" then 0 else 1;
    && |after| == |before| + gap + |line|
    && before <= after && after[|after| - |line|..] == line
    && (before != "" ==> after[|before|] == '\n')
  }

  lemma WithLineAppends(text: string, line: string)
    ensures Appended(text, line, WithLine(text, line))
  {
  }

  /** Nothing else does. */
  lemma OnlyWithLineAppends(text: string, line: string, after: string)
    requires Appended(text, line, after)
    ensures after == WithLine(text, line)
  {
    assert after == after[..|after| - |line|] + line;
    assert text != "" ==> after[..|text| + 1] == text + "\n";
    assert text == "" ==> after[..0] == "";
  }
}
