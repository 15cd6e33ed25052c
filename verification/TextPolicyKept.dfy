/** Which of the lines the fixer keeps, by the guards of the two branches that drop
    one. */
module TextPolicyKept {
  import opened GoStrings
  import opened TextPolicy
  import opened TextPolicyCollapse
  import opened TextPolicyFix

  // ---- The filter ----

  /** The filter keeps line i. */
  predicate Passes(lines: seq<string>, flags: seq<bool>, style: Style, i: nat)
    requires |flags| == |lines| && i < |lines|
  {
    !Skipped(lines, flags, style, i, Kept(lines, flags, style, i))
  }

  /** And this is where it puts it. */
  lemma {:induction false} PassesTo(lines: seq<string>, flags: seq<bool>, style: Style, n: nat, i: nat)
    requires |flags| == |lines| && i < n <= |lines| && Passes(lines, flags, style, i)
    ensures var p, kept := |Kept(lines, flags, style, i)|, Kept(lines, flags, style, n);
            p < |kept| && kept[p] == lines[i]
  {
    hide Skipped;
    if i < n - 1 { PassesTo(lines, flags, style, n - 1, i); }
  }

  lemma {:induction false} PassesFrom(lines: seq<string>, flags: seq<bool>, style: Style, n: nat, p: nat)
    returns (i: nat)
    requires |flags| == |lines| && n <= |lines| && p < |Kept(lines, flags, style, n)|
    ensures i < n && Passes(lines, flags, style, i) && |Kept(lines, flags, style, i)| == p
  {
    hide Skipped;
    if p < |Kept(lines, flags, style, n - 1)| {
      i := PassesFrom(lines, flags, style, n - 1, p);
    } else {
      i := n - 1;
    }
  }

  // ---- The removal of blank lines ----

  lemma {:induction false} NeededMembers(ms: seq<Marked>, i: nat, m: Marked)
    requires i <= |ms|
    ensures m in NeededFrom(ms, i) <==> exists j | i <= j < |ms| :: !Superfluous(ms, j) && ms[j] == m
    decreases |ms| - i
  {
    hide Superfluous;
    if i < |ms| { NeededMembers(ms, i + 1, m); }
  }

  lemma TextsMembers(ms: seq<Marked>, line: string)
    ensures line in Texts(ms) <==> exists m :: m in ms && m.text == line
  {
    if line in Texts(ms) {
      var i :| 0 <= i < |ms| && Texts(ms)[i] == line;
      assert ms[i] in ms;
    }
    if m :| m in ms && m.text == line {
      var i :| 0 <= i < |ms| && ms[i] == m;
      assert Texts(ms)[i] == line;
    }
  }

  lemma CollapsedMembers(lines: seq<string>, style: Style, line: string)
    ensures line in Collapsed(lines, style)
            <==> exists p | 0 <= p < |lines| :: !Superfluous(Mark(lines, style, false), p) && lines[p] == line
  {
    hide Superfluous, Mark, Collapse, Texts;
    var ms := Mark(lines, style, false);
    MarkIsZip(lines, style, false);
    CollapseLineByLine(ms, 0);
    assert ms[0..] == ms;
    TextsMembers(NeededFrom(ms, 0), line);
    assert forall p | 0 <= p < |lines| :: ms[p].text == lines[p] by { TextsAt(ms); }
    if line in Collapsed(lines, style) {
      var m :| m in NeededFrom(ms, 0) && m.text == line;
      NeededMembers(ms, 0, m);
    }
    if p :| 0 <= p < |lines| && !Superfluous(ms, p) && lines[p] == line { NeededMembers(ms, 0, ms[p]); }
  }

  lemma TextsAt(ms: seq<Marked>)
    ensures forall p | 0 <= p < |ms| :: Texts(ms)[p] == ms[p].text
  {
  }

  // ---- The whole fixer ----

  /** The lines of a text after the replacements and the trimming. */
  function Normalised(text: string): seq<string> {
    NormLines(Split(Plain(text), '\n'))
  }

  /** Line i of a text passes the filter, and is not superfluous where that puts it. */
  predicate Stays(path: string, text: string, i: nat)
    requires i < |Normalised(text)|
  {
    var lines, style := Normalised(text), StyleFor(path);
    var flags := Decorative(lines, style);
    style == NoComments
      || (Passes(lines, flags, style, i) && NeededAt(lines, text, style, |Kept(lines, flags, style, i)|))
  }

  /** Line p of the filtered ones is not superfluous. */
  predicate NeededAt(lines: seq<string>, text: string, style: Style, p: nat) {
    var ms := Mark(Filtered(lines, style), if IsGenerated(text) then NoComments else style, false);
    p < |ms| && !Superfluous(ms, p)
  }

  /** The output consists of exactly those lines. */
  lemma StaysExactly(path: string, text: string, line: string)
    ensures line in FixedLines(path, text)
            <==> exists i | 0 <= i < |Normalised(text)| :: Stays(path, text, i) && Normalised(text)[i] == line
  {
    hide StyleFor, Normalised, Passes, Kept, Superfluous, Mark, IsGenerated, Decorative, Collapsed;
    var lines, style := Normalised(text), StyleFor(path);
    assert FixedLines(path, text) == if style == NoComments then lines
      else Collapsed(Filtered(lines, style), if IsGenerated(text) then NoComments else style) by {
      FixedIs(path, text);
    }
    hide FixedLines;
    if style != NoComments {
      var filtered, flags := Filtered(lines, style), Decorative(lines, style);
      CollapsedMembers(filtered, if IsGenerated(text) then NoComments else style, line);
      if line in FixedLines(path, text) {
        var p: int :| 0 <= p < |filtered| && NeededAt(lines, text, style, p) && filtered[p] == line;
        var i := PassesFrom(lines, flags, style, |lines|, p);
        PassesTo(lines, flags, style, |lines|, i);
        assert Stays(path, text, i);
      }
      if i: int :| 0 <= i < |lines| && Stays(path, text, i) && lines[i] == line {
        PassesTo(lines, flags, style, |lines|, i);
      }
    }
  }

  lemma FixedIs(path: string, text: string)
    ensures FixedLines(path, text) == if StyleFor(path) == NoComments then Normalised(text)
      else Collapsed(Filtered(Normalised(text), StyleFor(path)),
                     if IsGenerated(text) then NoComments else StyleFor(path))
  {
  }
}
