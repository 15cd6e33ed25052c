/** The reports of the checker and the removals of the fixer, in literal characters. */
module TextPolicyReports {
  import opened GoStrings
  import opened TextPolicy
  import opened TextPolicyCollapse
  import opened TextPolicyFix
  import opened TextPolicyCheck
  import opened TextPolicyKept
  import opened TextPolicyAnswers

  function WithoutCR(line: string): string {
    if line != "" && line[|line| - 1] == '\r' then line[..|line| - 1] else line
  }

  lemma CRSuffix(line: string)
    ensures TrimSuffix(line, "\r") == WithoutCR(line)
  {
    if line != "" { assert line[|line| - 1..] == [line[|line| - 1]]; }
  }

  // ---- Reports on single lines ----

  /** The line has this character at this column, a carriage return at its end not
      counted. */
  predicate HasAt(lines: seq<string>, line: int, column: int, c: char) {
    1 <= line <= |lines| && 1 <= column <= |WithoutCR(lines[line - 1])| && lines[line - 1][column - 1] == c
  }

  /** What is left of a line of a conflict begins with seven equal signs of one kind,
      alone or with a space behind them. */
  predicate IsConflictLine(line: string) {
    var s := WithoutCR(WithoutCR(line));
    || (|s| >= 7 && s[..7] == "<<<<<<<" && (|s| == 7 || s[7] == ' '))
    || (|s| >= 7 && s[..7] == "=======" && (|s| == 7 || s[7] == ' '))
    || (|s| >= 7 && s[..7] == ">>>>>>>" && (|s| == 7 || s[7] == ' '))
  }

  /** From this column on there are only blanks, and no more before it. */
  predicate BlankFrom(line: string, column: int) {
    && 1 <= column <= |line| && (forall i | column - 1 <= i < |line| :: line[i] == ' ' || line[i] == '\t')
    && (column > 1 ==> line[column - 2] != ' ' && line[column - 2] != '\t')
  }

  lemma MarkerIs(s: string, marker: string)
    requires |marker| == 7
    ensures IsMarker(s, marker) <==> |s| >= 7 && s[..7] == marker && (|s| == 7 || s[7] == ' ')
  {
    if marker + " " <= s { assert s[..8] == marker + " " && s[..7] == s[..8][..7] && s[7] == s[..8][7]; }
    if |s| >= 8 && s[..7] == marker && s[7] == ' ' { assert s[..8] == s[..7] + [s[7]]; }
    if |s| == 7 { assert s[..7] == s; }
  }

  lemma ConflictIs(line: string)
    ensures IsConflictMarker(TrimSuffix(line, "\r")) <==> IsConflictLine(line)
  {
    CRSuffix(line);
    CRSuffix(WithoutCR(line));
    var s := WithoutCR(WithoutCR(line));
    MarkerIs(s, "<<<<<<<");
    MarkerIs(s, "=======");
    MarkerIs(s, ">>>>>>>");
    hide TrimSuffix, WithoutCR, IsMarker;
  }

  lemma TrailingIs(line: string, column: int)
    ensures var content := WithoutCR(line);
            (TrimTabs(content) != content && column == |TrimTabs(content)| + 1) <==> BlankFrom(content, column)
  {
    var content := WithoutCR(line);
    var r := TrimTabs(content);
    assert forall j | 0 <= j < |r| :: r[j] == content[j];
    if |r| == |content| { assert r == content; }
    hide WithoutCR, TrimTabs;
  }

  /** One line, rule by rule. */
  lemma LineReports(lines: seq<string>, layout: Layout, i: nat, v: Violation)
    requires i < |lines| == |layout.flags|
    ensures v.rule == EmDash ==>
            (OnLine(lines, layout, i, v) <==> v.line == i + 1 && HasAt(lines, i + 1, v.column, '\U{2014}'))
    ensures v.rule == RightArrow ==>
            (OnLine(lines, layout, i, v) <==> v.line == i + 1 && HasAt(lines, i + 1, v.column, '\U{2192}'))
    ensures v.rule == ConflictMarker ==>
            (OnLine(lines, layout, i, v) <==> v.line == i + 1 && v.column == 1 && IsConflictLine(lines[i]))
    ensures v.rule == TrailingSpace ==>
            (OnLine(lines, layout, i, v) <==> v.line == i + 1 && BlankFrom(WithoutCR(lines[i]), v.column))
    ensures v.rule in {FinalNewline, BlankAfterComment, Utf8} ==> !OnLine(lines, layout, i, v)
  {
    CRSuffix(lines[i]);
    ConflictIs(lines[i]);
    TrailingIs(lines[i], v.column);
    assert WithoutCR(lines[i]) <= lines[i];
    hide TrimSuffix, TrimTabs, IsConflictMarker, IsConflictLine, BlankFrom, WithoutCR, EmptyBanner;
  }

  function LayoutOf(path: string, text: string): Layout {
    Layout(LayoutStyle(path, text), IsVendored(path), Decorative(Split(text, '\n'), StyleFor(path)))
  }

  lemma ReportedOnLine(path: string, text: string, v: Violation)
    requires !IsBinary(path, Text(text)) && v.rule != FinalNewline && v.rule != BlankAfterComment
    ensures var lines := Split(text, '\n');
            Reported(path, Text(text), v)
            <==> 1 <= v.line <= |lines| && OnLine(lines, LayoutOf(path, text), v.line - 1, v)
  {
    hide Split, Decorative, StyleFor, IsVendored, LayoutStyle, IsBinary, OnLine, Comments, BlankAfter, HasSuffix;
  }

  /** What is reported of a file that is text, rule by rule: the two characters, */
  lemma CharactersReported(path: string, text: string, line: int, column: int)
    requires !IsBinary(path, Text(text))
    ensures var lines := Split(text, '\n');
            && (Reported(path, Text(text), Violation(line, column, EmDash)) <==> HasAt(lines, line, column, '\U{2014}'))
            && (Reported(path, Text(text), Violation(line, column, RightArrow))
                <==> HasAt(lines, line, column, '\U{2192}'))
  {
    hide *;
    CharacterReported(path, text, Violation(line, column, EmDash), '\U{2014}');
    CharacterReported(path, text, Violation(line, column, RightArrow), '\U{2192}');
  }

  lemma CharacterReported(path: string, text: string, v: Violation, c: char)
    requires !IsBinary(path, Text(text))
    requires (v.rule == EmDash && c == '\U{2014}') || (v.rule == RightArrow && c == '\U{2192}')
    ensures Reported(path, Text(text), v) <==> HasAt(Split(text, '\n'), v.line, v.column, c)
  {
    var lines := Split(text, '\n');
    assert HasAt(lines, v.line, v.column, c) ==> 1 <= v.line <= |lines|;
    hide Split, Reported, OnLine, HasAt, LayoutOf, IsBinary;
    ReportedOnLine(path, text, v);
    if 1 <= v.line <= |lines| {
      FlagsOfLayout(path, text);
      LineReports(lines, LayoutOf(path, text), v.line - 1, v);
    }
  }

  lemma FlagsOfLayout(path: string, text: string)
    ensures |LayoutOf(path, text).flags| == |Split(text, '\n')|
  {
    hide Split, Decorative, StyleFor, IsVendored, LayoutStyle;
  }

  /** conflict markers and blanks at the end of a line, */
  lemma LinesReported(path: string, text: string, line: int, column: int)
    requires !IsBinary(path, Text(text))
    ensures var lines := Split(text, '\n');
            && (Reported(path, Text(text), Violation(line, column, ConflictMarker))
                <==> 1 <= line <= |lines| && column == 1 && IsConflictLine(lines[line - 1]))
            && (Reported(path, Text(text), Violation(line, column, TrailingSpace))
                <==> 1 <= line <= |lines| && BlankFrom(WithoutCR(lines[line - 1]), column))
  {
    var lines := Split(text, '\n');
    var marker, space := Violation(line, column, ConflictMarker), Violation(line, column, TrailingSpace);
    hide Split, Reported, OnLine, IsConflictLine, BlankFrom, WithoutCR, LayoutOf, IsBinary;
    ReportedOnLine(path, text, marker);
    ReportedOnLine(path, text, space);
    if 1 <= line <= |lines| {
      FlagsOfLayout(path, text);
      LineReports(lines, LayoutOf(path, text), line - 1, marker);
      LineReports(lines, LayoutOf(path, text), line - 1, space);
    }
  }

  /** and a missing newline at the end, on the last line. */
  lemma EndReported(path: string, text: string, line: int, column: int)
    requires !IsBinary(path, Text(text))
    ensures Reported(path, Text(text), Violation(line, column, FinalNewline))
            <==> line == |Split(text, '\n')| && column == 1 && (text == "" || text[|text| - 1] != '\n')
  {
    if text != "" { assert text[|text| - 1..] == [text[|text| - 1]]; }
    var lines := Split(text, '\n');
    var v := Violation(line, column, FinalNewline);
    hide Split, Decorative, StyleFor, IsVendored, LayoutStyle, IsBinary, OnLine, Comments, BlankAfter;
    if 1 <= line <= |lines| {
      FlagsOfLayout(path, text);
      LineReports(lines, LayoutOf(path, text), line - 1, v);
    }
  }

  /** A file that is no text is reported as such, once, unless it is binary; and a
      binary one not at all. */
  lemma OtherFiles(path: string, nul: bool, text: string, v: Violation)
    ensures Reported(path, NotUtf8(nul), v) <==> !IsBinary(path, NotUtf8(nul)) && v == Violation(1, 1, Utf8)
    ensures nul ==> IsBinary(path, NotUtf8(nul))
    ensures '\0' in text ==> !Reported(path, Text(text), v)
  {
    hide ToLower, Ext, BINARY_EXTENSIONS, ReportedInText;
  }

  /** A blank line is reported exactly if the line before it is a comment and some line
      after it is not blank. */
  lemma BlanksReported(path: string, text: string, line: int)
    requires !IsBinary(path, Text(text))
    ensures var lines := Split(text, '\n');
            var comments := Comments(lines, LayoutStyle(path, text), false);
            Reported(path, Text(text), Violation(line, 1, BlankAfterComment))
            <==> 2 <= line <= |lines| && Blank(lines[line - 1]) && comments[line - 2]
                 && exists i | line <= i < |lines| :: !Blank(lines[i])
  {
    var lines := Split(text, '\n');
    var layout := Layout(LayoutStyle(path, text), IsVendored(path), Decorative(lines, StyleFor(path)));
    var v := Violation(line, 1, BlankAfterComment);
    hide Split, Decorative, StyleFor, IsVendored, IsGenerated, LayoutStyle, IsBinary, OnLine, Comments, Blank;
    if 1 <= line <= |lines| { LineReports(lines, layout, line - 1, v); }
  }

  // ---- Decorative comments ----

  /** Code without quotes and slashes. */
  predicate IsQuiet(line: string) {
    forall i | 0 <= i < |line| :: !IsQuote(line[i]) && line[i] != '/'
  }

  lemma QuietLine(line: string)
    requires IsQuiet(line)
    ensures ScanLine(line, 0, Outside, false) == Scanned(false, Outside)
  {
    ScanPlain(line, 0, |line|, false);
  }

  /** After such lines a line comment is flagged exactly if it has a run. */
  lemma {:induction false} CommentIsFlagged(before: seq<string>, code: string, comment: string, after: seq<string>)
    requires (forall l | l in before :: IsQuiet(l)) && IsQuiet(code)
    ensures var flags := ScanLines(before + [code + "//" + comment] + after, Outside);
            && flags[|before|] == HasRun(comment)
            && forall i | 0 <= i < |before| :: !flags[i]
  {
    hide ScanLine, HasRun, IsQuiet;
    var line := code + "//" + comment;
    var lines := before + [line] + after;
    if before == [] {
      assert lines[0] == line;
      LineCommentIsJudged(code, comment) by { QuietCode(code); }
    } else {
      QuietLine(before[0]);
      assert lines[0] == before[0] && lines[1..] == before[1..] + [line] + after;
      CommentIsFlagged(before[1..], code, comment, after);
    }
  }

  lemma QuietCode(code: string)
    requires IsQuiet(code)
    ensures forall i | 0 <= i < |code| :: !IsQuote(code[i]) && code[i] != '/'
  {
  }

  /** The checker reports a line that is only such a comment, unless the file is
      vendored, */
  lemma DecorativeIsReported(path: string, text: string, before: seq<string>, indent: string, comment: string,
                             after: seq<string>)
    requires StyleFor(path) == Slash && !IsBinary(path, Text(text)) && HasRun(comment) && IsQuiet(indent)
    requires (forall l | l in before :: IsQuiet(l)) && !IsVendored(path)
    requires Split(text, '\n') == before + [indent + "//" + comment] + after
    ensures Reported(path, Text(text), Violation(|before| + 1, 1, DecorativeComment))
  {
    var lines := before + [indent + "//" + comment] + after;
    var v := Violation(|before| + 1, 1, DecorativeComment);
    hide ScanLines, Split, LayoutOf, IsVendored, IsBinary, HasRun, IsQuiet, OnLine, Reported, StyleFor;
    CommentIsFlagged(before, indent, comment, after);
    LayoutOfSlash(path, text);
    FlagIsReported(lines, LayoutOf(path, text), |before|);
    ReportedOnLine(path, text, v);
  }

  lemma LayoutOfSlash(path: string, text: string)
    requires StyleFor(path) == Slash && !IsVendored(path)
    ensures LayoutOf(path, text).flags == ScanLines(Split(text, '\n'), Outside) && !LayoutOf(path, text).vendored
  {
    hide ScanLines, Split, IsVendored, StyleFor, LayoutStyle;
  }

  lemma FlagIsReported(lines: seq<string>, layout: Layout, i: nat)
    requires i < |lines| == |layout.flags| && layout.flags[i] && !layout.vendored
    ensures OnLine(lines, layout, i, Violation(i + 1, 1, DecorativeComment))
  {
    hide EmptyBanner, IsConflictMarker, TrimTabs, TrimSuffix;
  }

  /** and the fixer drops it. */
  lemma DecorativeIsDropped(path: string, text: string, before: seq<string>, indent: string, comment: string,
                            after: seq<string>)
    requires StyleFor(path) == Slash && HasRun(comment) && IsQuiet(indent) && Blank(indent)
    requires forall l | l in before :: IsQuiet(l)
    requires Normalised(text) == before + [indent + "//" + comment] + after
    ensures !Stays(path, text, |before|)
  {
    var lines := before + [indent + "//" + comment] + after;
    CommentIsFlagged(before, indent, comment, after);
    SlashLineIsSingle(indent, comment);
    assert Decorative(lines, Slash) == ScanLines(lines, Outside);
    assert lines[|before|] == indent + "//" + comment;
    hide ScanLines, Normalised, HasRun, IsQuiet, Blank, Decorative, StyleFor, Kept, EmptyBanner, IsSingleLineComment,
      NeededAt;
    assert Skipped(lines, Decorative(lines, Slash), Slash, |before|,
                   Kept(lines, Decorative(lines, Slash), Slash, |before|));
  }

  lemma SlashLineIsSingle(indent: string, comment: string)
    requires Blank(indent)
    ensures IsSingleLineComment(indent + "//" + comment, Slash)
  {
    assert !IsSpace('/');
    hide IsSpace, Blank, TrimSpace;
    StartOf(indent, "//", comment);
  }

  /** A line that is neither blank nor a comment stays where it is. */
  lemma CodeStays(path: string, text: string, i: nat)
    requires i < |Normalised(text)|
    requires var line := Normalised(text)[i]; StyleFor(path) == NoComments || !Droppable(line, StyleFor(path))
    ensures Stays(path, text, i)
  {
    var lines, style := Normalised(text), StyleFor(path);
    var flags := Decorative(lines, style);
    hide Normalised, StyleFor, Decorative, Kept, IsGenerated, Mark, CommentPayload, IsSingleLineComment, EmptyBanner,
      Superfluous;
    if style != NoComments {
      if !Passes(lines, flags, style, i) { SkippedIsDroppable(lines, flags, style, i, Kept(lines, flags, style, i)); }
      PassesTo(lines, flags, style, |lines|, i);
      var layout := if IsGenerated(text) then NoComments else style;
      NotSuperfluous(Filtered(lines, style), layout, |Kept(lines, flags, style, i)|);
    }
  }

  /** Neither blank nor a comment, or blank: nothing the fixer looks at. */
  predicate IsOrdinary(line: string) {
    Blank(line) || TrimSpace(line)[0] !in {'/', '#', '*'}
  }

  lemma OrdinarySaysNothing(line: string, style: Style)
    requires IsOrdinary(line)
    ensures CommentPayload(line, style) == None && !Classify(style, false, line).0
    ensures Classify(style, false, line) == (false, false)
  {
    hide TrimSpace;
    var t := TrimSpace(line);
    if t != "" { StartsOther(t); }
  }

  lemma StartsOther(t: string)
    requires t != "" && t[0] !in {'/', '#', '*'}
    ensures !HasPrefix(t, "//") && !HasPrefix(t, "/*") && !HasPrefix(t, "#") && !HasPrefix(t, "*")
  {
    assert "//"[0] == '/' && "/*"[0] == '/' && "#"[0] == '#' && "*"[0] == '*';
  }

  lemma {:induction false} NothingFlagged(lines: seq<string>)
    requires forall l | l in lines :: IsQuiet(l)
    ensures forall i | 0 <= i < |lines| :: !ScanLines(lines, Outside)[i]
  {
    hide ScanLine, IsQuiet;
    if lines != [] {
      QuietLine(lines[0]);
      NothingFlagged(lines[1..]);
    }
  }

  lemma {:induction false} AllAreKept(lines: seq<string>, flags: seq<bool>, style: Style, n: nat)
    requires |flags| == |lines| && n <= |lines| && (forall i | 0 <= i < |lines| :: !flags[i])
    requires forall i | 0 <= i < |lines| :: CommentPayload(lines[i], style) != Some("")
    ensures Kept(lines, flags, style, n) == lines[..n]
  {
    hide CommentPayload, IsSingleLineComment;
    if n > 0 {
      AllAreKept(lines, flags, style, n - 1);
      assert Cells(lines, lines[..n - 1]) == lines;
      assert lines[..n] == lines[..n - 1] + [lines[n - 1]];
    }
  }

  lemma {:induction false} NothingCollapses(lines: seq<string>, style: Style)
    requires forall l | l in lines :: IsOrdinary(l)
    ensures Collapse(Mark(lines, style, false), false) == Mark(lines, style, false)
  {
    hide Classify, IsOrdinary, Blank, HasContent;
    if lines != [] {
      OrdinarySaysNothing(lines[0], style);
      NothingCollapses(lines[1..], style);
      var ms := Mark(lines, style, false);
      assert ms[1..] == Mark(lines[1..], style, false);
      assert ms == [ms[0]] + ms[1..];
    }
  }

  /** A file of code without comments keeps all its lines, the blank ones too. */
  lemma CodeIsKept(path: string, text: string)
    requires forall l | l in Normalised(text) :: IsOrdinary(l) && IsQuiet(l)
    ensures FixedLines(path, text) == Normalised(text)
  {
    var lines, style := Normalised(text), StyleFor(path);
    FixedIs(path, text);
    hide FixedLines, Normalised, StyleFor, IsOrdinary, IsQuiet, IsGenerated, CommentPayload, Mark, Collapse, Texts;
    if style != NoComments {
      forall i | 0 <= i < |lines| ensures CommentPayload(lines[i], style) == None {
        assert lines[i] in lines;
        OrdinarySaysNothing(lines[i], style);
      }
      NothingFlagged(lines);
      var layout := if IsGenerated(text) then NoComments else style;
      AllAreKept(lines, Decorative(lines, style), style, |lines|);
      assert lines[..|lines|] == lines;
      NothingCollapses(lines, layout);
      MarkIsZip(lines, layout, false);
    }
  }

  lemma NotSuperfluous(lines: seq<string>, style: Style, p: nat)
    requires p < |lines| && !Blank(lines[p])
    ensures !Superfluous(Mark(lines, style, false), p)
  {
    hide Mark, UnderComment, HasContent, Blank;
    MarkIsZip(lines, style, false);
    TextsAt(Mark(lines, style, false));
  }
}
