/** Checking what the fixer wrote. */
module TextPolicyLaws {
  import opened GoStrings
  import opened TextPolicy
  import opened TextPolicyCollapse
  import opened TextPolicyFix
  import opened TextPolicyCheck
  import opened TextPolicyKept

  // ---- The characters of the fixed text ----

  predicate Clean(s: string) {
    EM_DASH !in s && RIGHT_ARROW !in s
  }

  lemma {:induction false} PlainIsClean(s: string)
    ensures Clean(Plain(s))
  {
    if s != "" {
      PlainIsClean(s[1..]);
      assert Clean(PlainChar(s[0]));
    }
  }

  lemma {:induction false} SplitKeepsChars(s: string, sep: char)
    ensures forall i, c | 0 <= i < |Split(s, sep)| && c in Split(s, sep)[i] :: c in s
  {
    if s != "" {
      SplitKeepsChars(s[1..], sep);
      var rest := Split(s[1..], sep);
      assert forall c | c in s[1..] :: c in s;
      forall i, c | 0 <= i < |Split(s, sep)| && c in Split(s, sep)[i] ensures c in s {
        if s[0] == sep {
          assert i > 0 && c in rest[i - 1];
        } else if i > 0 {
          assert c in rest[i];
        } else {
          assert c == s[0] || c in rest[0];
        }
      }
    }
  }

  lemma {:induction false} JoinKeepsChars(parts: seq<string>, sep: char)
    ensures forall c | c in Join(parts, sep) :: c == sep || exists i :: 0 <= i < |parts| && c in parts[i]
  {
    if |parts| > 1 {
      JoinKeepsChars(parts[1..], sep);
      forall c | c in Join(parts, sep) ensures c == sep || exists i :: 0 <= i < |parts| && c in parts[i] {
        if c != sep && c !in parts[0] {
          var i :| 0 <= i < |parts[1..]| && c in parts[1..][i];
          assert c in parts[i + 1];
        }
      }
    }
  }

  lemma {:induction false} ThinnedMembers(kept: seq<string>, all: seq<string>, style: Style)
    requires Thinned(kept, all, style)
    ensures forall l | l in kept :: l in all
  {
    hide Droppable;
    if all != [] {
      if kept != [] && kept[0] == all[0] && Thinned(kept[1..], all[1..], style) {
        ThinnedMembers(kept[1..], all[1..], style);
        assert forall l | l in kept :: l == all[0] || l in kept[1..];
      } else {
        ThinnedMembers(kept, all[1..], style);
      }
    }
  }

  /** A normalised line: no newline, no blank at its end, nothing to replace. */
  predicate Normal(line: string) {
    '\n' !in line && Clean(line) && (line != "" ==> !IsTab(line[|line| - 1]))
  }

  lemma FixedLinesAreNormal(path: string, text: string)
    ensures forall l | l in FixedLines(path, text) :: Normal(l)
  {
    hide FixedLines, StyleFor, Thinned, Plain, Split;
    var lines := Split(Plain(text), '\n');
    FixOnlyDrops(path, text);
    ThinnedMembers(FixedLines(path, text), NormLines(lines), StyleFor(path));
    PlainIsClean(text);
    SplitKeepsChars(Plain(text), '\n');
    forall i | 0 <= i < |lines| ensures Normal(NormLine(lines[i])) {
      assert forall c | c in lines[i] :: c in Plain(text);
      assert NormLine(lines[i]) <= lines[i];
      assert forall c | c in NormLine(lines[i]) :: c in lines[i];
    }
    hide NormLine, Normal;
    forall l | l in FixedLines(path, text) ensures Normal(l) {
      var i :| 0 <= i < |lines| && NormLines(lines)[i] == l;
    }
  }

  /** The lines the checker sees. */
  lemma LinesOfFinish(lines: seq<string>)
    requires forall l | l in lines :: Normal(l)
    ensures Split(Finish(lines), '\n') in {lines, lines + [""], ["", ""]} && HasSuffix(Finish(lines), "\n")
  {
    hide Split;
    assert forall i | 0 <= i < |lines| :: Normal(lines[i]);
    var value := Join(lines, '\n');
    if value == "" {
      SplitWordThenMore("", "", '\n');
      SplitWord("", '\n');
      assert "" + ['\n'] + "" == "\n";
      assert [""] + [""] == ["", ""];
    } else {
      assert lines != [];
      SplitJoin(lines, '\n');
      if !HasSuffix(value, "\n") {
        SplitNewline(value);
        assert (value + "\n")[|value|..] == "\n";
      }
    }
  }

  // ---- Trailing white space ----

  /** A line ending in a blank and a carriage return. */
  predicate EndsBlankCR(line: string) {
    |line| >= 2 && line[|line| - 1] == '\r' && IsTab(line[|line| - 2])
  }

  lemma NormalTrailing(line: string)
    requires Normal(line)
    ensures TrimTabs(TrimSuffix(line, "\r")) != TrimSuffix(line, "\r") <==> EndsBlankCR(line)
  {
    if HasSuffix(line, "\r") {
      assert line[|line| - 1..][0] == '\r';
    } else if line != "" {
      assert line[|line| - 1..] == [line[|line| - 1]];
    }
  }

  lemma FixedLinesSeen(path: string, text: string)
    ensures var out := Finish(FixedLines(path, text));
            && (forall l | l in Split(out, '\n') :: Normal(l))
            && HasSuffix(out, "\n")
            && (forall l | l in Split(out, '\n') && l != "" :: l in FixedLines(path, text))
            && (forall l | l in FixedLines(path, text) :: l in Split(out, '\n') || l == "")
  {
    hide FixedLines, Finish, Split;
    var lines := FixedLines(path, text);
    FixedLinesAreNormal(path, text);
    LinesOfFinish(lines);
    EmptyIsNormal();
    if Split(Finish(lines), '\n') == ["", ""] {
      FinishBlank(lines);
    }
  }

  lemma EmptyIsNormal()
    ensures Normal("")
  {
  }

  /** Only empty lines are finished as a single newline. */
  lemma FinishBlank(lines: seq<string>)
    requires (forall l | l in lines :: Normal(l)) && Split(Finish(lines), '\n') == ["", ""]
    ensures forall l | l in lines :: l == ""
  {
    hide Split, Clean, IsTab;
    assert forall i | 0 <= i < |lines| :: Normal(lines[i]);
    if lines != [] {
      var value, parts := Join(lines, '\n'), Split(Finish(lines), '\n');
      SplitJoin(lines, '\n');
      FinishKeepsLines(value);
      assert lines <= parts;
      forall l | l in lines ensures l == "" {
        var i :| 0 <= i < |lines| && lines[i] == l;
        assert parts[i] == l;
      }
    }
  }

  lemma FinishKeepsLines(value: string)
    ensures Split(value, '\n') <= Split(if HasSuffix(value, "\n") then value else value + "\n", '\n')
  {
    hide Split;
    SplitNewline(value);
  }

  /** The fixed text breaks the trailing-white-space rule exactly when one of its
      lines ends in a blank and a carriage return. */
  lemma TrailingSpaceAfterFix(path: string, text: string)
    requires !IsBinary(path, Text(Finish(FixedLines(path, text))))
    ensures (exists v :: Reported(path, Text(Finish(FixedLines(path, text))), v) && v.rule == TrailingSpace)
            <==> exists l :: l in FixedLines(path, text) && EndsBlankCR(l)
  {
    hide FixedLines, Finish, Split, IsBinary, IsConflictMarker, Decorative, EmptyBanner,
      StyleFor, IsVendored, IsGenerated, Comments, TrimTabs, TrimSuffix, Normal;
    var out := Finish(FixedLines(path, text));
    var lines := Split(out, '\n');
    FixedLinesSeen(path, text);
    if v :| Reported(path, Text(out), v) && v.rule == TrailingSpace {
      var l := lines[v.line - 1];
      assert l in lines;
      NormalTrailing(l);
      assert l in FixedLines(path, text) && EndsBlankCR(l);
    }
    if l :| l in FixedLines(path, text) && EndsBlankCR(l) {
      var i :| 0 <= i < |lines| && lines[i] == l;
      NormalTrailing(l);
      assert Reported(path, Text(out), Violation(i + 1, |TrimTabs(TrimSuffix(l, "\r"))| + 1, TrailingSpace));
    }
  }

  // ---- The same, read off the input ----

  /** What a line may have behind a carriage return for the fixer to take all of it
      off: blanks, and then at most one more carriage return. */
  predicate TakenOff(s: string) {
    s != "" && (forall i | 0 <= i < |s| - 1 :: IsTab(s[i])) && (IsTab(s[|s| - 1]) || s[|s| - 1] == '\r')
  }

  /** A blank, a carriage return, and something behind it that the fixer takes off. */
  predicate BlankBeforeCR(line: string) {
    exists k | 0 <= k < |line| - 2 :: IsTab(line[k]) && line[k + 1] == '\r' && TakenOff(line[k + 2..])
  }

  lemma TrimTabsExactly(s: string, n: nat)
    requires n <= |s| && (n > 0 ==> !IsTab(s[n - 1])) && forall i | n <= i < |s| :: IsTab(s[i])
    ensures TrimTabs(s) == s[..n]
  {
    var r := TrimTabs(s);
    assert forall j | 0 <= j < |r| :: r[j] == s[j];
  }

  lemma SuffixCR(line: string)
    ensures TrimSuffix(line, "\r") == if line != "" && line[|line| - 1] == '\r' then line[..|line| - 1] else line
  {
    if line != "" { assert line[|line| - 1..] == [line[|line| - 1]]; }
  }

  /** Exactly those lines end in a blank and a carriage return when normalised. */
  lemma NormalisedEnds(line: string)
    ensures EndsBlankCR(NormLine(line)) <==> BlankBeforeCR(line)
  {
    hide NormLine, BlankBeforeCR, EndsBlankCR;
    if EndsBlankCR(NormLine(line)) { UncoveredCR(line); }
    if BlankBeforeCR(line) { CoveredCR(line); }
  }

  lemma UncoveredCR(line: string)
    requires EndsBlankCR(NormLine(line))
    ensures BlankBeforeCR(line)
  {
    SuffixCR(line);
    hide TrimSuffix, TrimTabs;
    var m := TrimSuffix(line, "\r");
    var n := |NormLine(line)|;
    assert NormLine(line) == line[..n];
    var rest := line[n..];
    forall i | 0 <= i < |rest| - 1 ensures IsTab(rest[i]) { assert rest[i] == m[n + i]; }
    assert IsTab(line[n - 2]) && line[n - 2 + 1] == '\r' && TakenOff(line[n - 2 + 2..]);
  }

  lemma CoveredCR(line: string)
    requires BlankBeforeCR(line)
    ensures EndsBlankCR(NormLine(line))
  {
    hide TakenOff, NormLine, EndsBlankCR;
    var k :| 0 <= k < |line| - 2 && IsTab(line[k]) && line[k + 1] == '\r' && TakenOff(line[k + 2..]);
    TakenOffFrom(line, k + 2);
    CoveredAt(line, k);
  }

  lemma TakenOffFrom(line: string, n: nat)
    requires n <= |line| && TakenOff(line[n..])
    ensures n < |line| && (forall i | n <= i < |line| - 1 :: IsTab(line[i]))
    ensures IsTab(line[|line| - 1]) || line[|line| - 1] == '\r'
  {
    var rest := line[n..];
    assert forall i | n <= i < |line| :: line[i] == rest[i - n];
  }

  lemma CoveredAt(line: string, k: nat)
    requires k + 2 < |line| && IsTab(line[k]) && line[k + 1] == '\r'
    requires forall i | k + 2 <= i < |line| - 1 :: IsTab(line[i])
    requires IsTab(line[|line| - 1]) || line[|line| - 1] == '\r'
    ensures EndsBlankCR(NormLine(line))
  {
    SuffixCR(line);
    assert !IsTab('\r');
    hide TrimSuffix, TrimTabs, IsTab;
    TrimTabsExactly(TrimSuffix(line, "\r"), k + 2);
    assert NormLine(line) == line[..k + 2];
  }

  lemma {:induction false} PlainSnoc(s: string, c: char)
    ensures Plain(s + [c]) == Plain(s) + PlainChar(c)
  {
    if s == "" {
      assert s + [c] == [c];
    } else {
      assert (s + [c])[1..] == s[1..] + [c];
      PlainSnoc(s[1..], c);
    }
  }

  predicate IsTabOrCR(c: char) {
    IsTab(c) || c == '\r'
  }

  lemma PlainCharEnd(c: char)
    ensures var r := PlainChar(c); r != "" && (IsTabOrCR(c) ==> r == [c])
    ensures var last := PlainChar(c)[|PlainChar(c)| - 1]; last == c || (!IsTabOrCR(c) && !IsTabOrCR(last))
  {
  }

  /** Replacing dashes and arrows leaves blanks and carriage returns alone. */
  lemma PlainEnd(s: string)
    requires s != ""
    ensures var c, plain := s[|s| - 1], Plain(s);
            && plain != ""
            && (plain[|plain| - 1] == c || (!IsTabOrCR(c) && !IsTabOrCR(plain[|plain| - 1])))
            && (IsTabOrCR(c) ==> plain[..|plain| - 1] == Plain(s[..|s| - 1]))
  {
    hide Plain, PlainChar, IsTabOrCR;
    var init, c := s[..|s| - 1], s[|s| - 1];
    assert s == init + [c];
    PlainSnoc(init, c);
    PlainCharEnd(c);
  }

  lemma {:induction false} PlainTrimTabs(s: string)
    ensures TrimTabs(Plain(s)) == Plain(TrimTabs(s))
    decreases |s|
  {
    hide Plain, TrimTabs;
    if s == "" {
      PlainEmpty();
      TrimTabsExactly("", 0);
    } else {
      PlainEnd(s);
      TrimTabsStep(s);
      TrimTabsStep(Plain(s));
      if IsTab(s[|s| - 1]) { PlainTrimTabs(s[..|s| - 1]); }
    }
  }

  lemma TrimTabsStep(s: string)
    requires s != ""
    ensures TrimTabs(s) == if IsTab(s[|s| - 1]) then TrimTabs(s[..|s| - 1]) else s
  {
  }

  lemma PlainNormLine(line: string)
    ensures NormLine(Plain(line)) == Plain(NormLine(line)) && (EndsBlankCR(Plain(line)) <==> EndsBlankCR(line))
  {
    hide Plain, PlainChar;
    SuffixCR(line);
    SuffixCR(Plain(line));
    assert Plain("") == "" by { PlainEmpty(); }
    if line != "" {
      PlainEnd(line);
      if |line| > 1 { PlainEnd(line[..|line| - 1]); }
    }
    PlainTrimTabs(TrimSuffix(line, "\r"));
  }

  lemma PlainEmpty()
    ensures Plain("") == ""
  {
  }

  lemma {:induction false} LinesOfPlain(text: string)
    ensures var raw, plain := Split(text, '\n'), Split(Plain(text), '\n');
            |plain| == |raw| && forall i | 0 <= i < |raw| :: plain[i] == Plain(raw[i])
  {
    if text != "" {
      LinesOfPlain(text[1..]);
      PrefixedLine(PlainChar(text[0]), Plain(text[1..]));
      var raw := Split(text[1..], '\n');
      assert Plain("") == "";
      if text[0] != '\n' { assert ([text[0]] + raw[0])[1..] == raw[0]; }
    }
  }

  lemma {:induction false} ThinnedKeepsOthers(kept: seq<string>, all: seq<string>, style: Style, line: string)
    requires Thinned(kept, all, style) && line in all && !Droppable(line, style)
    ensures line in kept
  {
    hide Droppable;
    if kept != [] && kept[0] == all[0] && Thinned(kept[1..], all[1..], style) {
      if line != all[0] { ThinnedKeepsOthers(kept[1..], all[1..], style, line); }
    } else {
      ThinnedKeepsOthers(kept, all[1..], style, line);
    }
  }

  /** The fixed text has no NUL that the text had not. */
  lemma FixKeepsNoNul(path: string, text: string)
    requires '\0' !in text
    ensures '\0' !in Finish(FixedLines(path, text))
  {
    hide FixedLines, StyleFor, Thinned, Plain, Split, Join, HasSuffix;
    var lines, fixed := Split(Plain(text), '\n'), FixedLines(path, text);
    FixOnlyDrops(path, text);
    ThinnedMembers(fixed, NormLines(lines), StyleFor(path));
    assert '\0' !in Plain(text) by { PlainHasNoNul(text); }
    SplitKeepsChars(Plain(text), '\n');
    JoinKeepsChars(fixed, '\n');
    forall l | l in fixed ensures '\0' !in l {
      var i :| 0 <= i < |lines| && NormLines(lines)[i] == l;
      assert NormLine(lines[i]) <= lines[i];
      assert forall c | c in l :: c in lines[i];
    }
    assert forall i | 0 <= i < |fixed| :: fixed[i] in fixed;
  }

  lemma {:induction false} PlainHasNoNul(s: string)
    requires '\0' !in s
    ensures '\0' !in Plain(s)
  {
    if s != "" {
      PlainHasNoNul(s[1..]);
      assert s[0] in s && forall c | c in s[1..] :: c in s;
    }
  }

  ghost predicate ReportsTrailingSpace(path: string, text: string) {
    exists v :: Reported(path, Text(text), v) && v.rule == TrailingSpace
  }

  /** Line by line, the normalised text against the text. */
  lemma NormalisedLinesEnd(text: string, i: nat)
    requires i < |Split(text, '\n')|
    ensures |Split(Plain(text), '\n')| == |Split(text, '\n')|
    ensures var l := NormLines(Split(Plain(text), '\n'))[i];
            l == NormLine(Plain(Split(text, '\n')[i])) && (EndsBlankCR(l) <==> BlankBeforeCR(Split(text, '\n')[i]))
  {
    hide Plain, Split, EndsBlankCR, BlankBeforeCR, NormLine;
    LinesOfPlain(text);
    var raw := Split(text, '\n')[i];
    PlainNormLine(raw);
    PlainNormLine(NormLine(raw));
    NormalisedEnds(raw);
  }

  predicate HasBlankBeforeCR(raw: seq<string>) {
    exists i | 0 <= i < |raw| :: BlankBeforeCR(raw[i])
  }

  /** Some such line is one the fixer may not drop. */
  predicate KeepsBlankBeforeCR(raw: seq<string>, style: Style) {
    exists i | 0 <= i < |raw| ::
      BlankBeforeCR(raw[i]) && (style == NoComments || !Droppable(NormLine(Plain(raw[i])), style))
  }

  lemma ReportNeedsLine(path: string, text: string)
    requires exists l :: l in FixedLines(path, text) && EndsBlankCR(l)
    ensures HasBlankBeforeCR(Split(text, '\n'))
  {
    hide FixedLines, StyleFor, Split, Plain, Thinned, EndsBlankCR, BlankBeforeCR, NormLine;
    var l :| l in FixedLines(path, text) && EndsBlankCR(l);
    var lines := NormLines(Split(Plain(text), '\n'));
    FixOnlyDrops(path, text);
    ThinnedMembers(FixedLines(path, text), lines, StyleFor(path));
    LinesOfPlain(text);
    var i :| 0 <= i < |lines| && lines[i] == l;
    NormalisedLinesEnd(text, i);
  }

  lemma LineIsReported(path: string, text: string)
    requires KeepsBlankBeforeCR(Split(text, '\n'), StyleFor(path))
    ensures exists l :: l in FixedLines(path, text) && EndsBlankCR(l)
  {
    hide StyleFor, Split, Plain, Thinned, EndsBlankCR, BlankBeforeCR, NormLine, Droppable, Collapsed, Filtered,
      IsGenerated;
    var raw, style := Split(text, '\n'), StyleFor(path);
    var lines := NormLines(Split(Plain(text), '\n'));
    var i :| 0 <= i < |raw| && BlankBeforeCR(raw[i])
      && (style == NoComments || !Droppable(NormLine(Plain(raw[i])), style));
    NormalisedLinesEnd(text, i);
    assert lines[i] in lines;
    FixOnlyDrops(path, text);
    if style != NoComments { ThinnedKeepsOthers(FixedLines(path, text), lines, style, lines[i]); }
  }

  /** What the fixer leaves of the trailing-white-space rule, told from the lines of
      the text: nothing is reported if no line has a blank before a carriage return
      that the fixer uncovers, and something is if such a line is not one the fixer
      may drop. In files without comments that is an equivalence. */
  lemma TrailingSpaceFromInput(path: string, text: string)
    requires !Untouched(path, Text(text))
    ensures var out, raw := Finish(FixedLines(path, text)), Split(text, '\n');
            && (ReportsTrailingSpace(path, out) ==> HasBlankBeforeCR(raw))
            && (KeepsBlankBeforeCR(raw, StyleFor(path)) ==> ReportsTrailingSpace(path, out))
            && (StyleFor(path) == NoComments ==> (ReportsTrailingSpace(path, out) <==> HasBlankBeforeCR(raw)))
  {
    hide FixedLines, Finish, StyleFor, Split, IsBinary, Untouched, Reported, EndsBlankCR, BlankBeforeCR, Droppable,
      NormLine, Plain;
    NotBinaryAfterFix(path, text);
    TrailingSpaceAfterFix(path, text);
    if ReportsTrailingSpace(path, Finish(FixedLines(path, text))) { ReportNeedsLine(path, text); }
    if KeepsBlankBeforeCR(Split(text, '\n'), StyleFor(path)) { LineIsReported(path, text); }
  }

  /** Some such line stays: no guard of the fixer drops it. */
  predicate StaysBlankBeforeCR(path: string, text: string) {
    var raw := Split(text, '\n');
    exists i | 0 <= i < |raw| && i < |Normalised(text)| :: BlankBeforeCR(raw[i]) && Stays(path, text, i)
  }

  /** Exactly then, for every file: trailing white space is reported of the fixed
      text if and only if a line of the text has a blank before a carriage return
      that the fixer uncovers, and neither the filter nor the blank-line removal
      drops that line. */
  lemma TrailingSpaceExactly(path: string, text: string)
    requires !Untouched(path, Text(text))
    ensures ReportsTrailingSpace(path, Finish(FixedLines(path, text))) <==> StaysBlankBeforeCR(path, text)
  {
    assert Normalised(text) == NormLines(Split(Plain(text), '\n'));
    hide FixedLines, Finish, StyleFor, Split, IsBinary, Untouched, Reported, EndsBlankCR, BlankBeforeCR, Stays,
      NormLine, Plain, Normalised;
    NotBinaryAfterFix(path, text);
    TrailingSpaceAfterFix(path, text);
    LinesOfPlain(text);
    var raw := Split(text, '\n');
    if l :| l in FixedLines(path, text) && EndsBlankCR(l) {
      StaysExactly(path, text, l);
      var i :| 0 <= i < |Normalised(text)| && Stays(path, text, i) && Normalised(text)[i] == l;
      NormalisedLinesEnd(text, i);
    }
    if i: int :| 0 <= i < |raw| && i < |Normalised(text)| && BlankBeforeCR(raw[i]) && Stays(path, text, i) {
      NormalisedLinesEnd(text, i);
      StaysExactly(path, text, Normalised(text)[i]);
    }
  }

  lemma NotBinaryAfterFix(path: string, text: string)
    requires !Untouched(path, Text(text))
    ensures !IsBinary(path, Text(Finish(FixedLines(path, text))))
  {
    assert '\0' !in text && ToLower(Ext(path)) !in BINARY_EXTENSIONS;
    hide FixedLines, Finish, Ext, ToLower, BINARY_EXTENSIONS;
    FixKeepsNoNul(path, text);
  }

  lemma LetterHasNoExtension()
    ensures Ext("a") == "" && ToLower(Base("a")) == "a" && ToLower("") == ""
  {
    assert "a"[..0] == "";
    assert Ext("") == "";
    assert StripSlashes("a") == "a" && AfterSlash("a") == "a";
  }

  lemma LetterIsNotVendored()
    ensures !IsVendored("a")
  {
    assert "/" + "a" + "/" == "/a/";
    hide Index;
    assert forall i | OccursAt("/a/", "/vendor/", i) :: false;
  }

  lemma PlainFile()
    ensures !Untouched("a", Text("x \r\r")) && StyleFor("a") == NoComments
  {
    LetterHasNoExtension();
    LetterIsNotVendored();
    NoExtension();
    hide IsVendored, Ext, Base, ToLower, SLASH_EXTENSIONS, HASH_EXTENSIONS, BINARY_EXTENSIONS;
    assert '\0' !in "x \r\r";
    assert |"a"| < |"dockerfile."|;
  }

  lemma NoExtension()
    ensures "" !in SLASH_EXTENSIONS && "" !in HASH_EXTENSIONS && "" !in BINARY_EXTENSIONS
  {
  }

  /** There are such texts: one carriage return too many. */
  lemma TrailingSpaceRemains()
    ensures ReportsTrailingSpace("a", Finish(FixedLines("a", "x \r\r")))
  {
    var text := "x \r\r";
    PlainFile();
    hide FixedLines, Finish, StyleFor, Untouched, ReportsTrailingSpace;
    assert '\n' !in text;
    SplitWord(text, '\n');
    assert text[3..] == "\r" && TakenOff("\r");
    assert IsTab(text[1]) && text[1 + 1] == '\r' && TakenOff(text[1 + 2..]);
    assert BlankBeforeCR(text);
    TrailingSpaceFromInput("a", text);
    assert Split(text, '\n')[0] == text;
  }

  /** Carriage returns only at the ends of lines. */
  predicate CRsEndLines(s: string) {
    forall i | 0 <= i < |s| - 1 && s[i] == '\r' :: s[i + 1] == '\n'
  }

  lemma {:induction false} PlainKeepsCRs(s: string)
    requires CRsEndLines(s)
    ensures CRsEndLines(Plain(s)) && (s != "" ==> Plain(s) != "" && (s[0] == '\n' ==> Plain(s)[0] == '\n'))
  {
    if s != "" {
      assert CRsEndLines(s[1..]);
      PlainKeepsCRs(s[1..]);
      var head, rest := PlainChar(s[0]), Plain(s[1..]);
      forall i | 0 <= i < |head + rest| - 1 && (head + rest)[i] == '\r' ensures (head + rest)[i + 1] == '\n' {
        if i >= |head| {
          assert rest[i - |head|] == '\r';
        } else {
          assert s[0] == '\r' && |head| == 1;
          assert s[1] == '\n' && rest[0] == '\n';
        }
      }
    }
  }

  lemma {:induction false} SplitCRs(s: string)
    requires CRsEndLines(s)
    ensures forall i, j | 0 <= i < |Split(s, '\n')| && 0 <= j < |Split(s, '\n')[i]| - 1 :: Split(s, '\n')[i][j] != '\r'
    ensures s != "" && s[0] == '\n' ==> Split(s, '\n')[0] == ""
  {
    if s != "" {
      assert CRsEndLines(s[1..]);
      SplitCRs(s[1..]);
      var parts, rest := Split(s, '\n'), Split(s[1..], '\n');
      assert s[0] == '\r' ==> rest[0] == "";
      forall i, j | 0 <= i < |parts| && 0 <= j < |parts[i]| - 1 ensures parts[i][j] != '\r' {
        if s[0] == '\n' {
          assert i > 0 ==> parts[i] == rest[i - 1];
        } else if i > 0 {
          assert parts[i] == rest[i];
        } else if j > 0 {
          assert parts[0][j] == rest[0][j - 1];
        }
      }
    }
  }

  lemma NormLineDropsCR(line: string)
    requires forall j | 0 <= j < |line| - 1 :: line[j] != '\r'
    ensures '\r' !in NormLine(line)
  {
    var t := TrimSuffix(line, "\r");
    if line != "" && line[|line| - 1] == '\r' {
      assert line[|line| - 1..] == "\r";
    }
    assert '\r' !in t;
  }

  /** So carriage returns at line ends never leave one. */
  lemma NoTrailingSpaceAfterFix(path: string, text: string)
    requires CRsEndLines(text)
    ensures forall l | l in FixedLines(path, text) :: !EndsBlankCR(l)
  {
    hide FixedLines, StyleFor, Thinned, Plain, Split, NormLine;
    var lines := Split(Plain(text), '\n');
    FixOnlyDrops(path, text);
    ThinnedMembers(FixedLines(path, text), NormLines(lines), StyleFor(path));
    PlainKeepsCRs(text);
    SplitCRs(Plain(text));
    forall l | l in FixedLines(path, text) ensures !EndsBlankCR(l) {
      var i :| 0 <= i < |lines| && NormLines(lines)[i] == l;
      NormLineDropsCR(lines[i]);
    }
  }

  // ---- Blank lines after comments ----

  lemma {:induction false} IdlePassByIndex(ms: seq<Marked>, afterComment: bool, i: nat)
    requires Pass(ms, afterComment) == ms && i < |ms|
    requires Blank(ms[i].text) && if i == 0 then afterComment else ms[i - 1].comment
    ensures !HasContent(ms[i + 1..])
  {
    hide HasContent, Blank;
    if i > 0 {
      assert ms[1..][i - 1 + 1..] == ms[i + 1..];
      IdlePassByIndex(ms[1..], ms[0].comment, i - 1);
    }
  }

  /** In the lines the fixer keeps no blank line follows a comment with content
      after it. */
  lemma CollapsedHasNoBlankAfter(before: seq<string>, style: Style, index: int)
    ensures var lines := Collapsed(before, style); !BlankAfter(lines, Comments(lines, style, false), index)
  {
    hide Mark, Collapse, Pass, Texts, Comments, HasContentAfter, HasContent, Blank;
    var ms := Mark(before, style, false);
    var kept := Collapse(ms, false);
    var lines := Collapsed(before, style);
    MarkOfCollapse(before, style, false, false);
    MarkIsSettled(before, style, false, false);
    CollapseIsFinal(ms, false, false);
    if 0 < index < |lines| {
      MarkedLine(lines, style, index);
      MarkedLine(lines, style, index - 1);
      if Blank(lines[index]) && Comments(lines, style, false)[index - 1] { IdlePassByIndex(kept, false, index); }
    }
  }

  lemma {:induction false} CommentsAppend(lines: seq<string>, line: string, style: Style, inBlock: bool)
    ensures Comments(lines + [line], style, inBlock)[..|lines|] == Comments(lines, style, inBlock)
  {
    hide Classify;
    if lines != [] {
      var (comment, open) := Classify(style, inBlock, lines[0]);
      assert (lines + [line])[1..] == lines[1..] + [line];
      CommentsAppend(lines[1..], line, style, open);
    }
  }

  /** A final empty line is no content and follows no content. */
  lemma BlankAfterAppend(lines: seq<string>, style: Style, index: int)
    ensures BlankAfter(lines + [""], Comments(lines + [""], style, false), index) ==>
            BlankAfter(lines, Comments(lines, style, false), index)
  {
    hide Comments;
    CommentsAppend(lines, "", style, false);
    var all := lines + [""];
    if BlankAfter(all, Comments(all, style, false), index) {
      var i :| index < i < |all| && !Blank(all[i]);
      assert !Blank(lines[i]);
      assert Comments(lines, style, false)[index - 1] == Comments(all, style, false)[..|lines|][index - 1];
    }
  }

  lemma {:induction false} NoStyleNoComments(lines: seq<string>, inBlock: bool)
    ensures forall i | 0 <= i < |lines| :: !Comments(lines, NoComments, inBlock)[i]
  {
    hide TrimSpace;
    if lines != [] { NoStyleNoComments(lines[1..], inBlock); }
  }

  lemma TwoEmptyLines(comments: seq<bool>, index: int)
    requires |comments| == 2
    ensures !BlankAfter(["", ""], comments, index)
  {
    var lines := ["", ""];
    assert Blank("");
    assert forall i | 0 <= i < 2 :: lines[i] == "";
  }

  /** Unless generated text stops looking generated when it is fixed, no blank
      line after a comment is left. */
  lemma NoBlankAfterCommentAfterFix(path: string, text: string, index: int)
    requires !IsGenerated(text) || IsGenerated(Finish(FixedLines(path, text)))
    ensures var out := Finish(FixedLines(path, text)); var lines := Split(out, '\n');
            !BlankAfter(lines, Comments(lines, LayoutStyle(path, out), false), index)
  {
    hide Finish, Split, Comments, Collapsed, Filtered, IsGenerated, IsVendored, StyleFor, BlankAfter, NormLine;
    var fixed := FixedLines(path, text);
    var out := Finish(fixed);
    var lines := Split(out, '\n');
    var style := LayoutStyle(path, out);
    if style == NoComments {
      NoStyleNoComments(lines, false);
      NotAfterComment(lines, Comments(lines, style, false), index);
    } else {
      assert fixed == Collapsed(Filtered(NormLines(Split(Plain(text), '\n')), style), style);
      CollapsedHasNoBlankAfter(Filtered(NormLines(Split(Plain(text), '\n')), style), style, index);
      FixedLinesAreNormal(path, text);
      LinesOfFinish(fixed);
      BlankAfterAppend(fixed, style, index);
      TwoEmptyLines(Comments(["", ""], style, false), index);
    }
  }

  lemma NotAfterComment(lines: seq<string>, comments: seq<bool>, index: int)
    requires |comments| == |lines| && forall i | 0 <= i < |lines| :: !comments[i]
    ensures !BlankAfter(lines, comments, index)
  {
  }

  // ---- Check after Fix ----

  /** What a check of the fixed text can never report, for every text that the
      fixer works on; and the blank lines and trailing white space. */
  lemma CheckAfterFix(path: string, text: string, v: Violation)
    requires !Untouched(path, Text(text))
    requires Reported(path, Text(Finish(FixedLines(path, text))), v)
    ensures v.rule !in {EmDash, RightArrow, FinalNewline, Utf8}
    ensures CRsEndLines(text) ==> v.rule != TrailingSpace
    ensures !IsGenerated(text) ==> v.rule != BlankAfterComment
  {
    hide FixedLines, Finish, Split, IsBinary, IsVendored, IsGenerated, StyleFor, Comments,
      Decorative, EmptyBanner, IsConflictMarker, TrimTabs, LayoutStyle, BlankAfter, CRsEndLines, HasSuffix;
    var out := Finish(FixedLines(path, text));
    var lines := Split(out, '\n');
    FixedLinesSeen(path, text);
    if v.rule == BlankAfterComment {
      if !IsGenerated(text) { NoBlankAfterCommentAfterFix(path, text, v.line - 1); }
    } else if v.rule != FinalNewline {
      assert lines[v.line - 1] in lines;
      assert TrimSuffix(lines[v.line - 1], "\r") <= lines[v.line - 1];
      if v.rule == TrailingSpace && CRsEndLines(text) {
        TrailingSpaceAfterFix(path, text);
        NoTrailingSpaceAfterFix(path, text);
      }
    }
  }
}
