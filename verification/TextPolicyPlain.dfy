/** What the fixer writes for a file whose lines have nothing to trim: the text with
    its dashes and arrows replaced. */
module TextPolicyPlain {
  import opened GoStrings
  import opened TextPolicy
  import opened TextPolicyCollapse
  import opened TextPolicyFix
  import opened TextPolicyLaws
  import opened TextPolicyKept

  // ---- The replacements ----

  lemma {:induction false} PlainAppend(a: string, b: string)
    ensures Plain(a + b) == Plain(a) + Plain(b)
  {
    if a == "" {
      assert a + b == b;
    } else {
      assert (a + b)[1..] == a[1..] + b;
      PlainAppend(a[1..], b);
    }
  }

  lemma PlainOfDash()
    ensures Plain("\U{2014}") == "-" && Plain("\U{2192}") == "->"
  {
    assert "\U{2014}"[1..] == "" && "\U{2192}"[1..] == "";
  }

  /** Each em dash becomes a hyphen and each right arrow a hyphen and an angle. */
  lemma PlainReplaces(a: string, b: string)
    ensures Plain(a + "\U{2014}" + b) == Plain(a) + "-" + Plain(b)
    ensures Plain(a + "\U{2192}" + b) == Plain(a) + "->" + Plain(b)
  {
    hide Plain;
    PlainOfDash();
    PlainAppend(a + "\U{2014}", b);
    PlainAppend(a, "\U{2014}");
    PlainAppend(a + "\U{2192}", b);
    PlainAppend(a, "\U{2192}");
  }

  /** And nothing else changes. */
  lemma {:induction false} PlainKeeps(s: string)
    requires '\U{2014}' !in s && '\U{2192}' !in s
    ensures Plain(s) == s
  {
    if s != "" { PlainKeeps(s[1..]); }
  }

  // ---- The trimming ----

  /** One carriage return at the end of a line goes, and then the blanks. */
  lemma LineIsTrimmed(body: string, blanks: string)
    requires body == "" || (body[|body| - 1] != ' ' && body[|body| - 1] != '\t')
    requires forall c | c in blanks :: c == ' ' || c == '\t'
    ensures NormLine(body + blanks + "\r") == body
    ensures blanks != "" || body == "" || body[|body| - 1] != '\r' ==> NormLine(body + blanks) == body
  {
    var whole := body + blanks;
    SuffixCR(whole + "\r");
    SuffixCR(whole);
    assert (whole + "\r")[..|whole|] == whole;
    BlanksGo(body, blanks);
    hide TrimSuffix, TrimTabs;
  }

  lemma BlanksGo(body: string, blanks: string)
    requires body == "" || (body[|body| - 1] != ' ' && body[|body| - 1] != '\t')
    requires forall c | c in blanks :: c == ' ' || c == '\t'
    ensures TrimTabs(body + blanks) == body
    ensures blanks != "" ==> (body + blanks)[|body + blanks| - 1] != '\r'
  {
    hide TrimTabs;
    var whole := body + blanks;
    assert forall i | |body| <= i < |whole| :: whole[i] in blanks;
    TrimTabsExactly(whole, |body|);
    assert whole[..|body|] == body;
  }

  /** A line with nothing to trim is left alone. */
  lemma NothingToTrim(line: string)
    requires line != "" ==> line[|line| - 1] !in {' ', '\t', '\r'}
    ensures NormLine(line) == line
  {
    LineIsTrimmed(line, "");
    assert line + "" == line;
  }

  // ---- The whole fixer ----

  /** A file without comments whose lines have no blank and no carriage return at
      the end: what is written is the text with its replacements, and a newline at
      its end if it has none. */
  lemma FixReplaces(path: string, text: string)
    requires !Untouched(path, Text(text)) && StyleFor(path) == NoComments
    requires forall l | l in Split(text, '\n') && l != "" :: l[|l| - 1] !in {' ', '\t', '\r'}
    ensures Finish(FixedLines(path, text))
         == if Plain(text) != "" && Plain(text)[|Plain(text)| - 1] == '\n' then Plain(text) else Plain(text) + "\n"
  {
    hide Plain, Split, StyleFor, FixedLines, NormLine, Untouched;
    FixedIs(path, text);
    NothingToTrimIn(text);
    var plain := Plain(text);
    JoinSplit(plain, '\n');
    if plain != "" { assert plain[|plain| - 1..] == [plain[|plain| - 1]]; }
  }

  lemma NothingToTrimIn(text: string)
    requires forall l | l in Split(text, '\n') && l != "" :: l[|l| - 1] !in {' ', '\t', '\r'}
    ensures Normalised(text) == Split(Plain(text), '\n')
  {
    hide Plain, Split, NormLine;
    var raw, lines := Split(text, '\n'), Split(Plain(text), '\n');
    LinesOfPlain(text);
    forall i | 0 <= i < |lines| ensures NormLine(lines[i]) == lines[i] {
      assert raw[i] in raw;
      NothingToTrim(raw[i]);
      PlainNormLine(raw[i]);
    }
  }
}
