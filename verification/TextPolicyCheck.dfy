/** The checker of the text policy. */
module TextPolicyCheck {
  import opened GoStrings
  import opened TextPolicy
  import opened TextPolicyFix

  datatype Rule =
    | BlankAfterComment | ConflictMarker | DecorativeComment | EmDash
    | FinalNewline | RightArrow | TrailingSpace | Utf8

  datatype Violation = Violation(line: int, column: int, rule: Rule)

  predicate IsMarker(line: string, marker: string) {
    line == marker || HasPrefix(line, marker + " ")
  }

  predicate IsConflictMarker(line: string) {
    var trimmed := TrimSuffix(line, "\r");
    IsMarker(trimmed, "<<<<<<<") || IsMarker(trimmed, "=======") || IsMarker(trimmed, ">>>>>>>")
  }

  /** What is known of a file before its lines are gone through. */
  datatype Layout = Layout(style: Style, vendored: bool, flags: seq<bool>)

  /** The violations on one line. */
  predicate OnLine(lines: seq<string>, layout: Layout, index: nat, v: Violation)
    requires index < |lines| == |layout.flags|
  {
    var content := TrimSuffix(lines[index], "\r");
    v.line == index + 1 && match v.rule
      case TrailingSpace => TrimTabs(content) != content && v.column == |TrimTabs(content)| + 1
      case ConflictMarker => IsConflictMarker(content) && v.column == 1
      case DecorativeComment =>
        ((layout.flags[index] && !layout.vendored) || EmptyBanner(lines, index, layout.style)) && v.column == 1
      case EmDash => 1 <= v.column <= |content| && content[v.column - 1] == EM_DASH
      case RightArrow => 1 <= v.column <= |content| && content[v.column - 1] == RIGHT_ARROW
      case _ => false
  }

  /** A blank line right after a comment line, with content following. */
  predicate BlankAfter(lines: seq<string>, comments: seq<bool>, index: int)
    requires |comments| == |lines|
  {
    0 < index < |lines| && Blank(lines[index]) && comments[index - 1] && HasContentAfter(lines, index)
  }

  function LineCount(text: string): int {
    |Split(text, '\n')|
  }

  function LayoutStyle(path: string, text: string): Style {
    if IsVendored(path) || IsGenerated(text) then NoComments else StyleFor(path)
  }

  predicate ReportedInText(path: string, text: string, v: Violation) {
    var lines := Split(text, '\n');
    || (v == Violation(LineCount(text), 1, FinalNewline) && !HasSuffix(text, "\n"))
    || (1 <= v.line <= |lines|
        && OnLine(lines, Layout(LayoutStyle(path, text), IsVendored(path), Decorative(lines, StyleFor(path))),
                  v.line - 1, v))
    || (v.rule == BlankAfterComment && v.column == 1
        && BlankAfter(lines, Comments(lines, LayoutStyle(path, text), false), v.line - 1))
  }

  /** Everything the checker reports about a file. */
  predicate Reported(path: string, data: Data, v: Violation) {
    !IsBinary(path, data) && match data
      case NotUtf8(_) => v == Violation(1, 1, Utf8)
      case Text(text) => ReportedInText(path, text, v)
  }

  method CheckLine(lines: seq<string>, layout: Layout, index: nat) returns (found: seq<Violation>)
    requires index < |lines| == |layout.flags|
    ensures forall v :: v in found <==> OnLine(lines, layout, index, v)
  {
    hide TrimTabs, IsConflictMarker, EmptyBanner, HasSuffix;
    found := [];
    var n := index + 1;
    var content := TrimSuffix(lines[index], "\r");
    if TrimTabs(content) != content {
      found := found + [Violation(n, |TrimTabs(content)| + 1, TrailingSpace)];
    }
    if IsConflictMarker(content) {
      found := found + [Violation(n, 1, ConflictMarker)];
    }
    if (layout.flags[index] && !layout.vendored) || EmptyBanner(lines, index, layout.style) {
      found := found + [Violation(n, 1, DecorativeComment)];
    }
    var runes := CheckRunes(content, n);
    found := found + runes;
  }

  method CheckRunes(content: string, line: int) returns (found: seq<Violation>)
    ensures forall v :: v in found <==>
              v.line == line && 1 <= v.column <= |content|
              && ((v.rule == EmDash && content[v.column - 1] == EM_DASH)
                  || (v.rule == RightArrow && content[v.column - 1] == RIGHT_ARROW))
  {
    found := [];
    var i := 0;
    while i < |content|
      invariant 0 <= i <= |content|
      invariant forall v :: v in found <==>
                  v.line == line && 1 <= v.column <= i
                  && ((v.rule == EmDash && content[v.column - 1] == EM_DASH)
                      || (v.rule == RightArrow && content[v.column - 1] == RIGHT_ARROW))
    {
      if content[i] == EM_DASH {
        found := found + [Violation(line, i + 1, EmDash)];
      } else if content[i] == RIGHT_ARROW {
        found := found + [Violation(line, i + 1, RightArrow)];
      }
      i := i + 1;
    }
  }

  method CheckLines(lines: seq<string>, layout: Layout) returns (found: seq<Violation>)
    requires |lines| == |layout.flags|
    ensures forall v :: v in found <==> 1 <= v.line <= |lines| && OnLine(lines, layout, v.line - 1, v)
  {
    hide TrimTabs, TrimSuffix, IsConflictMarker, EmptyBanner;
    found := [];
    var index := 0;
    while index < |lines|
      invariant 0 <= index <= |lines|
      invariant forall v :: v in found <==> 1 <= v.line <= index && OnLine(lines, layout, v.line - 1, v)
    {
      var more := CheckLine(lines, layout, index);
      assert forall v | v in more :: v.line == index + 1;
      hide OnLine;
      found := found + more;
      index := index + 1;
    }
  }

  method CheckBlanks(lines: seq<string>, comments: seq<bool>) returns (found: seq<Violation>)
    requires |comments| == |lines|
    ensures forall v ::
              v in found
              <==> v.rule == BlankAfterComment && v.column == 1 && BlankAfter(lines, comments, v.line - 1)
  {
    hide TrimSpace, Blank, HasContentAfter;
    found := [];
    var index := 1;
    while index < |lines| - 1
      invariant 1 <= index
      invariant forall v :: v in found <==>
                  v.rule == BlankAfterComment && v.column == 1 && v.line - 1 < index
                    && BlankAfter(lines, comments, v.line - 1)
    {
      if TrimSpace(lines[index]) == "" && comments[index - 1] {
        var content := ContentAfter(lines, index);
        if content {
          found := found + [Violation(index + 1, 1, BlankAfterComment)];
        }
      }
      index := index + 1;
    }
    NoContentAtEnd(lines);
  }

  lemma NoContentAtEnd(lines: seq<string>)
    ensures forall i | i >= |lines| - 1 :: !HasContentAfter(lines, i)
  {
  }

  method Check(path: string, data: Data) returns (violations: seq<Violation>)
    ensures forall v :: v in violations <==> Reported(path, data, v)
  {
    hide IsBinary, IsVendored, IsGenerated, StyleFor, Split, Decorative, Comments, HasSuffix, OnLine, BlankAfter;
    if IsBinary(path, data) {
      return [];
    }
    if data.NotUtf8? {
      return [Violation(1, 1, Utf8)];
    }
    var text := data.text;
    violations := [];
    if !HasSuffix(text, "\n") {
      violations := violations + [Violation(LineCount(text), 1, FinalNewline)];
    }
    var lines := Split(text, '\n');
    var style := StyleFor(path);
    var layoutStyle := if IsVendored(path) || IsGenerated(text) then NoComments else style;
    var comments := CommentLines(lines, layoutStyle);
    var flags := DecorativeCommentLines(lines, style);
    var onLines := CheckLines(lines, Layout(layoutStyle, IsVendored(path), flags));
    var blanks := CheckBlanks(lines, comments);
    violations := violations + onLines + blanks;
  }
}
