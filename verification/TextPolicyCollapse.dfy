/** The repeated removal of blank lines after comments, and its closed form. */
module TextPolicyCollapse {
  import opened GoStrings
  import opened TextPolicy

  /** A line with its comment flag. */
  datatype Marked = Marked(text: string, comment: bool)

  function Mark(lines: seq<string>, style: Style, inBlock: bool): (ms: seq<Marked>)
    ensures |ms| == |lines|
  {
    if lines == [] then []
    else
      var (comment, open) := Classify(style, inBlock, lines[0]);
      [Marked(lines[0], comment)] + Mark(lines[1..], style, open)
  }

  function Texts(ms: seq<Marked>): (lines: seq<string>)
    ensures |lines| == |ms|
  {
    seq(|ms|, i requires 0 <= i < |ms| => ms[i].text)
  }

  predicate HasContent(ms: seq<Marked>) {
    exists i | 0 <= i < |ms| :: !Blank(ms[i].text)
  }

  /** One pass: a blank line right after a comment line goes, if content follows. */
  function Pass(ms: seq<Marked>, afterComment: bool): (r: seq<Marked>)
    ensures |r| <= |ms| && (|r| == |ms| ==> r == ms)
  {
    if ms == [] then []
    else
      var rest := Pass(ms[1..], ms[0].comment);
      if afterComment && Blank(ms[0].text) && HasContent(ms[1..]) then rest else [ms[0]] + rest
  }

  /** The closed form: every blank line goes whose nearest earlier line that is
      not blank is a comment, if content follows. */
  function Collapse(ms: seq<Marked>, underComment: bool): (r: seq<Marked>)
    ensures |r| <= |ms|
  {
    if ms == [] then []
    else
      var rest := Collapse(ms[1..], if Blank(ms[0].text) then underComment else ms[0].comment);
      if underComment && Blank(ms[0].text) && HasContent(ms[1..]) then rest else [ms[0]] + rest
  }

  /** Blank lines are comments only below a comment: what block comments give. */
  predicate Settled(ms: seq<Marked>, underComment: bool) {
    ms != [] ==>
      && (Blank(ms[0].text) && ms[0].comment ==> underComment)
      && Settled(ms[1..], if Blank(ms[0].text) then underComment else ms[0].comment)
  }

  lemma {:induction false} MarkIsSettled(lines: seq<string>, style: Style, inBlock: bool, underComment: bool)
    requires inBlock ==> underComment && style == Slash
    ensures Settled(Mark(lines, style, inBlock), underComment)
  {
    if lines != [] {
      if Blank(lines[0]) { BlankKeepsState(style, inBlock, lines[0]); }
      OpenBlockIsComment(style, inBlock, lines[0]);
      hide Classify;
      var (comment, open) := Classify(style, inBlock, lines[0]);
      MarkIsSettled(lines[1..], style, open, if Blank(lines[0]) then underComment else comment);
    }
  }

  lemma OpenBlockIsComment(style: Style, inBlock: bool, line: string)
    requires inBlock ==> style == Slash
    ensures var (comment, open) := Classify(style, inBlock, line); open ==> comment && style == Slash
  {
    hide TrimSpace, Contains, HasPrefix;
  }

  lemma ContentCons(m: Marked, ms: seq<Marked>)
    ensures HasContent([m] + ms) == (!Blank(m.text) || HasContent(ms))
  {
    var all := [m] + ms;
    if HasContent(ms) {
      var i :| 0 <= i < |ms| && !Blank(ms[i].text);
      assert all[i + 1] == ms[i];
    }
    if !Blank(m.text) { assert all[0] == m; }
    if HasContent(all) && Blank(m.text) {
      var i :| 0 <= i < |all| && !Blank(all[i].text);
      assert ms[i - 1] == all[i];
    }
  }

  /** Only blank lines go, so content stays. */
  lemma {:induction false} PassKeepsContent(ms: seq<Marked>, afterComment: bool)
    ensures HasContent(Pass(ms, afterComment)) == HasContent(ms)
  {
    hide HasContent;
    if ms != [] {
      PassKeepsContent(ms[1..], ms[0].comment);
      assert ms == [ms[0]] + ms[1..];
      ContentCons(ms[0], ms[1..]);
      ContentCons(ms[0], Pass(ms[1..], ms[0].comment));
    }
  }

  lemma {:induction false} CollapseKeepsContent(ms: seq<Marked>, underComment: bool)
    ensures HasContent(Collapse(ms, underComment)) == HasContent(ms)
  {
    hide HasContent;
    if ms != [] {
      var under := if Blank(ms[0].text) then underComment else ms[0].comment;
      CollapseKeepsContent(ms[1..], under);
      assert ms == [ms[0]] + ms[1..];
      ContentCons(ms[0], ms[1..]);
      ContentCons(ms[0], Collapse(ms[1..], under));
    }
  }

  /** A pass does not change what the closed form gives. */
  lemma {:induction false} PassThenCollapse(ms: seq<Marked>, afterComment: bool, underComment: bool)
    requires Settled(ms, underComment) && (afterComment ==> underComment)
    ensures Collapse(Pass(ms, afterComment), underComment) == Collapse(ms, underComment)
  {
    hide HasContent, Blank;
    if ms != [] {
      var under := if Blank(ms[0].text) then underComment else ms[0].comment;
      var rest := Pass(ms[1..], ms[0].comment);
      PassThenCollapse(ms[1..], ms[0].comment, under);
      PassKeepsContent(ms[1..], ms[0].comment);
      assert ([ms[0]] + rest)[1..] == rest;
    }
  }

  /** The closed form has nothing left for a pass to remove. */
  lemma {:induction false} CollapseIsFinal(ms: seq<Marked>, afterComment: bool, underComment: bool)
    requires Settled(ms, underComment) && (afterComment ==> underComment)
    ensures Pass(Collapse(ms, underComment), afterComment) == Collapse(ms, underComment)
  {
    hide HasContent, Blank;
    if ms != [] {
      var under := if Blank(ms[0].text) then underComment else ms[0].comment;
      var rest := Collapse(ms[1..], under);
      CollapseKeepsContent(ms[1..], under);
      assert ([ms[0]] + rest)[1..] == rest;
      if underComment && Blank(ms[0].text) && HasContent(ms[1..]) {
        CollapseIsFinal(ms[1..], afterComment, under);
      } else {
        CollapseIsFinal(ms[1..], ms[0].comment, under);
      }
    }
  }

  /** And once a pass removes nothing, the closed form is reached. */
  lemma {:induction false} IdlePassIsCollapsed(ms: seq<Marked>, afterComment: bool, underComment: bool)
    requires Pass(ms, afterComment) == ms
    requires Settled(ms, underComment) && (afterComment ==> underComment)
    requires underComment && !afterComment ==> !HasContent(ms)
    ensures Collapse(ms, underComment) == ms
  {
    hide HasContent, Blank;
    if ms != [] {
      var under := if Blank(ms[0].text) then underComment else ms[0].comment;
      assert ms == [ms[0]] + ms[1..];
      ContentCons(ms[0], ms[1..]);
      IdlePassIsCollapsed(ms[1..], ms[0].comment, under);
    }
  }

  lemma TextsCons(m: Marked, ms: seq<Marked>)
    ensures Texts([m] + ms) == [m.text] + Texts(ms)
  {
  }

  lemma MarkCons(line: string, lines: seq<string>, style: Style, inBlock: bool)
    ensures var (comment, open) := Classify(style, inBlock, line);
            Mark([line] + lines, style, inBlock) == [Marked(line, comment)] + Mark(lines, style, open)
  {
    hide Classify;
    assert ([line] + lines)[1..] == lines;
  }

  /** What dropping a line does to the classification of the rest: nothing, when
      it is blank. */
  lemma MarkDropping(line: string, kept: seq<Marked>, style: Style, inBlock: bool, drop: bool)
    requires inBlock ==> style == Slash
    requires drop ==> Blank(line)
    requires var (comment, open) := Classify(style, inBlock, line); Mark(Texts(kept), style, open) == kept
    ensures var (comment, open) := Classify(style, inBlock, line);
            var after := if drop then kept else [Marked(line, comment)] + kept;
            Mark(Texts(after), style, inBlock) == after
  {
    if drop { BlankKeepsState(style, inBlock, line); }
    hide Classify, Mark, Texts;
    var (comment, open) := Classify(style, inBlock, line);
    TextsCons(Marked(line, comment), kept);
    MarkCons(line, Texts(kept), style, inBlock);
  }

  /** Removing blank lines leaves the classification of all others alone, so
      block comments are undisturbed. */
  lemma {:induction false} MarkOfPass(lines: seq<string>, style: Style, inBlock: bool, afterComment: bool)
    requires inBlock ==> style == Slash
    ensures var ms := Mark(lines, style, inBlock);
            Mark(Texts(Pass(ms, afterComment)), style, inBlock) == Pass(ms, afterComment)
  {
    hide Classify, HasContent, Blank, Texts;
    if lines == [] {
      NoLines();
    } else {
      var ms := Mark(lines, style, inBlock);
      var (comment, open) := Classify(style, inBlock, lines[0]);
      OpenBlockIsComment(style, inBlock, lines[0]);
      assert ms[1..] == Mark(lines[1..], style, open) && ms[0] == Marked(lines[0], comment);
      MarkOfPass(lines[1..], style, open, comment);
      MarkDropping(lines[0], Pass(ms[1..], comment), style, inBlock,
                   afterComment && Blank(lines[0]) && HasContent(ms[1..]));
    }
  }

  lemma {:induction false} MarkOfCollapse(lines: seq<string>, style: Style, inBlock: bool, underComment: bool)
    requires inBlock ==> style == Slash
    ensures var ms := Mark(lines, style, inBlock);
            Mark(Texts(Collapse(ms, underComment)), style, inBlock) == Collapse(ms, underComment)
  {
    hide Classify, HasContent, Blank, Texts;
    if lines == [] {
      NoLines();
    } else {
      var ms := Mark(lines, style, inBlock);
      var (comment, open) := Classify(style, inBlock, lines[0]);
      OpenBlockIsComment(style, inBlock, lines[0]);
      var under := if Blank(lines[0]) then underComment else comment;
      assert ms[1..] == Mark(lines[1..], style, open) && ms[0] == Marked(lines[0], comment);
      MarkOfCollapse(lines[1..], style, open, under);
      MarkDropping(lines[0], Collapse(ms[1..], under), style, inBlock,
                   underComment && Blank(lines[0]) && HasContent(ms[1..]));
    }
  }

  lemma NoLines()
    ensures Texts([]) == [] && Pass([], false) == [] == Pass([], true)
            && Collapse([], false) == [] == Collapse([], true)
  {
  }

  lemma {:induction false} MarkAt(lines: seq<string>, style: Style, inBlock: bool, i: nat)
    requires i < |lines|
    ensures Mark(lines, style, inBlock)[i] == Marked(lines[i], Comments(lines, style, inBlock)[i])
  {
    hide Classify;
    if i > 0 {
      var (comment, open) := Classify(style, inBlock, lines[0]);
      MarkAt(lines[1..], style, open, i - 1);
    }
  }

  lemma MarkIsZip(lines: seq<string>, style: Style, inBlock: bool)
    ensures var ms := Mark(lines, style, inBlock);
            Texts(ms) == lines && forall i | 0 <= i < |lines| :: ms[i].comment == Comments(lines, style, inBlock)[i]
  {
    hide Mark, Comments;
    forall i | 0 <= i < |lines|
      ensures Mark(lines, style, inBlock)[i] == Marked(lines[i], Comments(lines, style, inBlock)[i])
    {
      MarkAt(lines, style, inBlock, i);
    }
  }

  // ---- The closed form, line by line ----

  /** Whether the nearest line before i that is not blank is a comment. */
  predicate UnderComment(ms: seq<Marked>, i: nat)
    requires i <= |ms|
  {
    i > 0 && if Blank(ms[i - 1].text) then UnderComment(ms, i - 1) else ms[i - 1].comment
  }

  predicate Superfluous(ms: seq<Marked>, i: nat)
    requires i < |ms|
  {
    Blank(ms[i].text) && UnderComment(ms, i) && HasContent(ms[i + 1..])
  }

  /** The lines from i on that are not superfluous. */
  function NeededFrom(ms: seq<Marked>, i: nat): seq<Marked>
    requires i <= |ms|
    decreases |ms| - i
  {
    if i == |ms| then [] else (if Superfluous(ms, i) then [] else [ms[i]]) + NeededFrom(ms, i + 1)
  }

  lemma {:induction false} CollapseLineByLine(ms: seq<Marked>, i: nat)
    requires i <= |ms|
    ensures Collapse(ms[i..], UnderComment(ms, i)) == NeededFrom(ms, i)
    decreases |ms| - i
  {
    hide HasContent, Blank;
    if i < |ms| {
      CollapseLineByLine(ms, i + 1);
      assert ms[i..][1..] == ms[i + 1..] && ms[i..][0] == ms[i];
      assert [] + NeededFrom(ms, i + 1) == NeededFrom(ms, i + 1);
    }
  }

  // ---- The loop ----

  /** The lines the fixer keeps of a whole file. */
  function Collapsed(lines: seq<string>, style: Style): seq<string> {
    Texts(Collapse(Mark(lines, style, false), false))
  }

  /** The blank-removal loop reaches the closed form. */
  method RemoveBlanks(before: seq<string>, style: Style) returns (lines: seq<string>)
    ensures lines == Collapsed(before, style)
  {
    hide Mark, Pass, Collapse, Texts;
    lines := before;
    var removed := true;
    while removed
      invariant Collapsed(lines, style) == Collapsed(before, style)
      invariant !removed ==> Pass(Mark(lines, style, false), false) == Mark(lines, style, false)
      decreases |lines|, removed
    {
      ghost var ms := Mark(lines, style, false);
      MarkIsSettled(lines, style, false, false);
      PassThenCollapse(ms, false, false);
      MarkOfPass(lines, style, false, false);
      lines, removed := OnePass(lines, style);
    }
    MarkIsSettled(lines, style, false, false);
    MarkIsZip(lines, style, false);
    IdlePassIsCollapsed(Mark(lines, style, false), false, false);
  }

  method OnePass(lines: seq<string>, style: Style) returns (filtered: seq<string>, removed: bool)
    ensures var ms := Mark(lines, style, false);
            filtered == Texts(Pass(ms, false)) && (removed ==> |filtered| < |lines|)
              && (!removed ==> Pass(ms, false) == ms && filtered == lines)
  {
    hide *;
    var comments := CommentLines(lines, style);
    ghost var ms := Mark(lines, style, false);
    filtered, removed := [], false;
    var index := 0;
    assert ms[0..] == ms;
    while index < |lines|
      invariant 0 <= index <= |lines| && |filtered| <= index
      invariant filtered + Texts(Pass(ms[index..], index > 0 && comments[index - 1])) == Texts(Pass(ms, false))
      invariant removed <==> |filtered| < index
    {
      PassStep(ms, index, index > 0 && comments[index - 1]);
      MarkedLine(lines, style, index);
      var drop := false;
      if index > 0 && index < |lines| - 1 && TrimSpace(lines[index]) == "" && comments[index - 1] {
        drop := ContentAfter(lines, index);
      }
      ghost var rest := Texts(Pass(ms[index + 1..], ms[index].comment));
      if drop {
        removed := true;
      } else {
        assert filtered + ([lines[index]] + rest) == filtered + [lines[index]] + rest;
        filtered := filtered + [lines[index]];
      }
      index := index + 1;
    }
    assert ms[index..] == [];
    NoLines();
    assert filtered + [] == filtered;
    MarkIsZip(lines, style, false);
  }

  lemma MarkedLine(lines: seq<string>, style: Style, index: nat)
    requires index < |lines|
    ensures var m := Mark(lines, style, false);
            m[index].text == lines[index] && m[index].comment == Comments(lines, style, false)[index]
            && HasContent(m[index + 1..]) == HasContentAfter(lines, index)
            && (index == |lines| - 1 ==> !HasContentAfter(lines, index))
  {
    MarkIsZip(lines, style, false);
    hide Mark, Comments, Blank;
    var m := Mark(lines, style, false);
    assert forall i | 0 <= i < |lines| :: m[i].text == Texts(m)[i];
    if HasContent(m[index + 1..]) {
      var i :| 0 <= i < |m[index + 1..]| && !Blank(m[index + 1..][i].text);
      assert !Blank(lines[index + 1 + i]);
    }
    if HasContentAfter(lines, index) {
      var i :| index < i < |lines| && !Blank(lines[i]);
      assert m[index + 1..][i - index - 1].text == lines[i];
    }
  }

  lemma PassStep(ms: seq<Marked>, i: nat, afterComment: bool)
    requires i < |ms|
    ensures var rest := Texts(Pass(ms[i + 1..], ms[i].comment));
            Texts(Pass(ms[i..], afterComment)) ==
            if afterComment && Blank(ms[i].text) && HasContent(ms[i + 1..]) then rest else [ms[i].text] + rest
  {
    hide HasContent, Blank;
    assert ms[i..][1..] == ms[i + 1..] && ms[i..][0] == ms[i];
    var rest := Pass(ms[i + 1..], ms[i].comment);
    assert Texts([ms[i]] + rest) == [ms[i].text] + Texts(rest);
  }
}
