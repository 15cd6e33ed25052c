/** What counts as a comment, a separator and a violation, in literal characters, and
    what the fixer makes of it. */
module TextPolicyAnswers {
  import opened GoStrings
  import opened TextPolicy
  import opened TextPolicyCollapse
  import opened TextPolicyFix
  import opened TextPolicyCheck
  import opened TextPolicyKept

  // ---- Comment lines ----

  /** Text with no white space at its ends. */
  predicate Solid(s: string) {
    s != "" && !IsSpace(s[0]) && !IsSpace(s[|s| - 1])
  }

  lemma TrimmedAround(before: string, body: string, after: string)
    requires Blank(before) && Solid(body) && Blank(after)
    ensures TrimSpace(before + body + after) == body
  {
    hide IsSpace, Blank, TrimLeft, TrimRight;
    var rest := body + after;
    assert rest[0] == body[0] && before + body + after == before + rest;
    TrimLeftOf(before, rest);
    TrimRightOf(body, after);
  }

  lemma {:induction false} TrimLeftOf(before: string, rest: string)
    requires Blank(before) && rest != "" && !IsSpace(rest[0])
    ensures TrimLeft(before + rest) == rest
  {
    if before == "" {
      assert before + rest == rest;
    } else {
      assert Blank(before[1..]) by { assert forall i | 0 <= i < |before[1..]| :: before[1..][i] == before[i + 1]; }
      assert (before + rest)[1..] == before[1..] + rest;
      TrimLeftOf(before[1..], rest);
    }
  }

  lemma {:induction false} TrimRightOf(body: string, after: string)
    requires Solid(body) && Blank(after)
    ensures TrimRight(body + after) == body
  {
    if after == "" {
      assert body + after == body;
    } else {
      var init := after[..|after| - 1];
      assert Blank(init) by { assert forall i | 0 <= i < |init| :: init[i] == after[i]; }
      assert (body + after)[..|body + after| - 1] == body + init;
      TrimRightOf(body, init);
    }
  }

  /** A line of code: not blank, and starting with neither a slash nor '#'. */
  predicate IsCode(line: string) {
    var t := TrimSpace(line);
    t != "" && t[0] != '/' && t[0] != '#'
  }

  /** Lines that start with two slashes are comments by themselves; code is none. */
  lemma OwnComments(indent: string, text: string)
    requires Blank(indent)
    ensures Classify(Slash, false, indent + "//" + text) == (true, false)
    ensures Classify(Hash, false, indent + "#" + text) == (true, false)
    ensures IsCode(text) ==> Classify(Slash, false, text) == Classify(Hash, false, text) == (false, false)
  {
    hide Classify, IsCode, Blank, IsSpace;
    SlashIsComment(indent, text);
    HashIsComment(indent, text);
    if IsCode(text) { CodeIsNone(text); }
  }

  lemma SlashIsComment(indent: string, text: string)
    requires Blank(indent)
    ensures Classify(Slash, false, indent + "//" + text) == (true, false)
  {
    assert !IsSpace('/');
    hide TrimSpace, IsSpace, Blank;
    StartOf(indent, "//", text);
  }

  lemma HashIsComment(indent: string, text: string)
    requires Blank(indent)
    ensures Classify(Hash, false, indent + "#" + text) == (true, false)
  {
    assert !IsSpace('#');
    hide TrimSpace, IsSpace, Blank;
    StartOf(indent, "#", text);
  }

  lemma CodeIsNone(text: string)
    requires IsCode(text)
    ensures Classify(Slash, false, text) == Classify(Hash, false, text) == (false, false)
  {
    hide TrimSpace;
    StartsElsewhere(TrimSpace(text));
  }

  lemma StartsElsewhere(t: string)
    requires t != "" && t[0] != '/' && t[0] != '#'
    ensures !HasPrefix(t, "//") && !HasPrefix(t, "/*") && !HasPrefix(t, "#")
  {
    assert "//"[0] == '/' && "/*"[0] == '/' && "#"[0] == '#';
  }

  lemma StartOf(indent: string, mark: string, text: string)
    requires Blank(indent) && mark != "" && forall i | 0 <= i < |mark| :: !IsSpace(mark[i])
    ensures mark <= TrimSpace(indent + mark + text)
  {
    hide IsSpace, Blank, TrimLeft, TrimRight;
    var line, l := indent + mark + text, mark + text;
    assert line == indent + l && l[0] == mark[0] && l[|mark| - 1] == mark[|mark| - 1];
    TrimLeftOf(indent, l);
    TrimRightKeeps(l, |mark| - 1);
  }

  /** The lines of a block: what opens it, what is in it, and what closes it. */
  predicate IsBlock(open: string, body: seq<string>, close: string) {
    && "/*" <= TrimSpace(open) && !Contains(TrimSpace(open)[2..], "*/")
    && (forall l | l in body :: !Contains(TrimSpace(l), "*/")) && Contains(TrimSpace(close), "*/")
  }

  lemma {:induction false} InBlock(body: seq<string>, close: string, rest: seq<string>)
    requires (forall l | l in body :: !Contains(TrimSpace(l), "*/")) && Contains(TrimSpace(close), "*/")
    ensures Comments(body + [close] + rest, Slash, true)
         == seq(|body| + 1, i => true) + Comments(rest, Slash, false)
  {
    hide TrimSpace, Contains;
    if body == [] {
      assert body + [close] + rest == [close] + rest && ([close] + rest)[1..] == rest;
      assert seq(1, i => true) == [true];
    } else {
      assert (body + [close] + rest)[1..] == body[1..] + [close] + rest && (body + [close] + rest)[0] == body[0];
      InBlock(body[1..], close, rest);
      assert [true] + seq(|body|, i => true) == seq(|body| + 1, i => true);
    }
  }

  /** All lines of a block are comments, and after it the file goes on as before. */
  lemma BlockIsComment(open: string, body: seq<string>, close: string, rest: seq<string>)
    requires IsBlock(open, body, close)
    ensures Comments([open] + body + [close] + rest, Slash, false)
         == seq(|body| + 2, i => true) + Comments(rest, Slash, false)
  {
    hide TrimSpace, Contains, Comments;
    var lines := [open] + body + [close] + rest;
    assert lines == [open] + (body + [close] + rest) && lines[1..] == body + [close] + rest;
    InBlock(body, close, rest);
    assert Classify(Slash, false, open) == (true, true) by { SlashesDiffer(TrimSpace(open)); }
    CommentsCons(lines, Slash, false);
    assert [true] + seq(|body| + 1, i => true) == seq(|body| + 2, i => true);
  }

  lemma SlashesDiffer(t: string)
    requires "/*" <= t
    ensures !("//" <= t)
  {
    assert t[1] == "/*"[1] && "//"[1] != "/*"[1];
  }

  lemma CommentsCons(lines: seq<string>, style: Style, inBlock: bool)
    requires lines != []
    ensures var (comment, open) := Classify(style, inBlock, lines[0]);
            Comments(lines, style, inBlock) == [comment] + Comments(lines[1..], style, open)
  {
    hide Classify;
  }

  // ---- What a comment says ----

  /** The payload of a comment is its text, without the markers and the white space
      around it. */
  lemma PayloadIs(indent: string, text: string, after: string)
    requires Blank(indent) && Blank(after) && Solid(text) && !HasSuffix(text, "*/")
    ensures CommentPayload(indent + ("//" + (" " + text)) + after, Slash) == Some(text)
    ensures CommentPayload(indent + ("/*" + (" " + text + " ") + "*/") + after, Slash) == Some(text)
    ensures CommentPayload(indent + ("#" + (" " + text)) + after, Hash) == Some(text)
    ensures CommentPayload(indent + "//" + after, Slash) == Some("")
    ensures CommentPayload(indent + "#" + after, Hash) == Some("")
  {
    SlashPayload(indent, text, after);
    BlockPayload(indent, text, after);
    HashPayload(indent, text, after);
    EmptyPayload(indent, after);
  }

  lemma SpaceBefore(text: string)
    requires Solid(text)
    ensures TrimSpace(" " + text) == text && TrimSpace(" " + text + " ") == text
  {
    TrimmedAround(" ", text, "");
    assert " " + text + "" == " " + text;
    TrimmedAround(" ", text, " ");
  }

  lemma SlashPayload(indent: string, text: string, after: string)
    requires Blank(indent) && Blank(after) && Solid(text) && !HasSuffix(text, "*/")
    ensures CommentPayload(indent + ("//" + (" " + text)) + after, Slash) == Some(text)
  {
    assert text != "";
    hide IsSpace, Blank, TrimSpace, CommentPayload, TrimSuffix, Solid, HasSuffix;
    var body := "//" + (" " + text);
    MarkedIsSolid("//", text);
    TrimmedAround(indent, body, after);
    SlashPayloadOf(indent + body + after, body);
    NoSuffixBehind(text);
    SpaceBefore(text);
  }

  lemma SlashPayloadOf(line: string, t: string)
    requires TrimSpace(line) == t && "//" <= t
    ensures CommentPayload(line, Slash) == Some(TrimSpace(TrimSuffix(t[2..], "*/")))
  {
    hide TrimSpace, TrimSuffix;
  }

  lemma MarkedIsSolid(mark: string, text: string)
    requires mark == "//" || mark == "#"
    requires Solid(text)
    ensures var body := mark + (" " + text); Solid(body) && mark <= body && body[|mark|..] == " " + text
  {
    assert !IsSpace('/') && !IsSpace('#');
    hide IsSpace;
    var body := mark + (" " + text);
    assert body[0] == mark[0] && body[|body| - 1] == text[|text| - 1];
  }

  lemma NoSuffixBehind(text: string)
    requires text != "" && !HasSuffix(text, "*/")
    ensures TrimSuffix(" " + text, "*/") == " " + text
  {
    var s := " " + text;
    if |text| >= 2 {
      assert s[|s| - 2..] == text[|text| - 2..];
    } else {
      assert s[|s| - 2] == ' ' && "*/"[0] == '*';
      assert s[|s| - 2..][0] == s[|s| - 2];
    }
  }

  lemma PayloadOf(line: string, t: string)
    requires TrimSpace(line) == t && "/*" <= t
    ensures CommentPayload(line, Slash) == Some(TrimSpace(TrimSuffix(t[2..], "*/")))
  {
    hide TrimSpace, TrimSuffix;
  }

  lemma BlockPayload(indent: string, text: string, after: string)
    requires Blank(indent) && Blank(after) && Solid(text)
    ensures CommentPayload(indent + ("/*" + (" " + text + " ") + "*/") + after, Slash) == Some(text)
  {
    hide IsSpace, Blank, TrimSpace, CommentPayload, TrimSuffix, Solid;
    var inner := " " + text + " ";
    var body := "/*" + inner + "*/";
    BlockIsSolid(inner);
    TrimmedAround(indent, body, after);
    PayloadOf(indent + body + after, body);
    SuffixGoes(inner);
    SpaceBefore(text);
  }

  lemma BlockIsSolid(inner: string)
    ensures var body := "/*" + inner + "*/"; Solid(body) && "/*" <= body && body[2..] == inner + "*/"
  {
    assert !IsSpace('/');
    hide IsSpace;
    var body := "/*" + inner + "*/";
    assert body[0] == '/' && body[|body| - 1] == '/';
  }

  lemma SuffixGoes(s: string)
    ensures TrimSuffix(s + "*/", "*/") == s
  {
    assert (s + "*/")[|s|..] == "*/" && (s + "*/")[..|s|] == s;
  }

  lemma HashPayload(indent: string, text: string, after: string)
    requires Blank(indent) && Blank(after) && Solid(text)
    ensures CommentPayload(indent + ("#" + (" " + text)) + after, Hash) == Some(text)
  {
    hide IsSpace, Blank, TrimSpace, CommentPayload, Solid;
    var body := "#" + (" " + text);
    MarkedIsSolid("#", text);
    TrimmedAround(indent, body, after);
    HashPayloadOf(indent + body + after, body);
    SpaceBefore(text);
  }

  lemma HashPayloadOf(line: string, t: string)
    requires TrimSpace(line) == t && "#" <= t
    ensures CommentPayload(line, Hash) == Some(TrimSpace(t[1..]))
  {
    hide TrimSpace;
  }

  lemma EmptyPayload(indent: string, after: string)
    requires Blank(indent) && Blank(after)
    ensures CommentPayload(indent + "//" + after, Slash) == Some("")
    ensures CommentPayload(indent + "#" + after, Hash) == Some("")
  {
    hide IsSpace, Blank, TrimSpace, TrimSuffix, CommentPayload, Solid;
    NothingTrimmed();
    MarksAreSolid();
    TrimmedAround(indent, "//", after);
    SlashPayloadOf(indent + "//" + after, "//");
    TrimmedAround(indent, "#", after);
    HashPayloadOf(indent + "#" + after, "#");
  }

  lemma MarksAreSolid()
    ensures Solid("//") && Solid("#") && "//"[2..] == "" && "#"[1..] == "" && "//" <= "//" && "#" <= "#"
  {
  }

  lemma NothingTrimmed()
    ensures TrimSuffix("", "*/") == "" && TrimSpace("") == ""
  {
  }

  // ---- Separators ----

  predicate IsBox(c: char) {
    c == '\U{2500}' || c == '\U{2501}' || c == '\U{2550}'
  }

  predicate IsRule(c: char) {
    c == '=' || c == '-' || c == '_' || c == '*'
  }

  /** Two equal box lines. */
  predicate TwoAt(s: string, i: nat) {
    i + 1 < |s| && IsBox(s[i]) && s[i + 1] == s[i]
  }

  /** Five equal separators. */
  predicate FiveAt(s: string, i: nat) {
    i + 4 < |s| && IsRule(s[i]) && s[i + 1] == s[i] && s[i + 2] == s[i] && s[i + 3] == s[i] && s[i + 4] == s[i]
  }

  /** A text is decorative exactly if it has two equal box lines or five equal
      separators in a row. */
  lemma RunsAre(s: string)
    ensures HasRun(s) <==> exists i: nat :: i < |s| && (TwoAt(s, i) || FiveAt(s, i))
  {
    hide TwoAt, FiveAt, RunEndsAt;
    if HasRun(s) {
      var n :| 0 < n <= |s| && RunEndsAt(s, n);
      var i := RunBegins(s, n);
    }
    if i: nat :| i < |s| && (TwoAt(s, i) || FiveAt(s, i)) {
      RunEnds(s, i);
      if TwoAt(s, i) { assert HasRun(s); } else { assert HasRun(s); }
    }
  }

  lemma RunBegins(s: string, n: nat) returns (i: nat)
    requires 0 < n <= |s| && RunEndsAt(s, n)
    ensures i < |s| && (TwoAt(s, i) || FiveAt(s, i))
  {
    i := n - Threshold(s[n - 1]);
    assert s[i] == s[n - 1];
  }

  lemma RunEnds(s: string, i: nat)
    ensures TwoAt(s, i) ==> i + 2 <= |s| && RunEndsAt(s, i + 2)
    ensures FiveAt(s, i) ==> i + 5 <= |s| && RunEndsAt(s, i + 5)
  {
  }

  // ---- Banners ----

  /** A comment between two empty ones is a banner: both empty lines are flagged, the
      one between them only if it is empty itself and near others. */
  lemma BannerIs(before: seq<string>, top: string, title: string, bottom: string, after: seq<string>, style: Style)
    requires CommentPayload(top, style) == Some("") && CommentPayload(bottom, style) == Some("")
    requires CommentPayload(title, style).Some?
    ensures var lines, i := before + [top, title, bottom] + after, |before|;
            && EmptyBanner(lines, i, style) && EmptyBanner(lines, i + 2, style)
            && (CommentPayload(title, style) != Some("") ==> !EmptyBanner(lines, i + 1, style))
  {
    hide CommentPayload;
    var lines, i := before + [top, title, bottom] + after, |before|;
    assert lines[i] == top && lines[i + 1] == title && lines[i + 2] == bottom;
  }
}
