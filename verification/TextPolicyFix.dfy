/** The fixer: normalised lines, a filter that writes into the array it reads, and
    the blank-line removal. */
module TextPolicyFix {
  import opened GoStrings
  import opened TextPolicy
  import opened TextPolicyCollapse

  const EM_DASH := '\U{2014}'
  const RIGHT_ARROW := '\U{2192}'

  function PlainChar(c: char): string {
    if c == EM_DASH then "-" else if c == RIGHT_ARROW then "->" else [c]
  }

  /** The text with em dashes and right arrows replaced. */
  function Plain(s: string): string {
    if s == "" then "" else PlainChar(s[0]) + Plain(s[1..])
  }

  predicate IsTab(c: char) {
    c == ' ' || c == '\t'
  }

  function TrimTabs(s: string): (r: string)
    ensures r <= s && (r != "" ==> !IsTab(r[|r| - 1]))
    ensures forall i | |r| <= i < |s| :: IsTab(s[i])
  {
    if s != "" && IsTab(s[|s| - 1]) then TrimTabs(s[..|s| - 1]) else s
  }

  function NormLine(line: string): string {
    TrimTabs(TrimSuffix(line, "\r"))
  }

  function NormLines(lines: seq<string>): (r: seq<string>)
    ensures |r| == |lines|
  {
    seq(|lines|, i requires 0 <= i < |lines| => NormLine(lines[i]))
  }

  method NormaliseInPlace(lines: array<string>)
    modifies lines
    ensures lines[..] == NormLines(old(lines[..]))
  {
    hide NormLine;
    var index := 0;
    while index < lines.Length
      invariant 0 <= index <= lines.Length
      invariant forall j | 0 <= j < index :: lines[j] == NormLine(old(lines[j]))
      invariant forall j | index <= j < lines.Length :: lines[j] == old(lines[j])
    {
      lines[index] := NormLine(lines[index]);
      index := index + 1;
    }
  }

  // ---- The filter ----

  /** The array after some kept lines have been written over its start. */
  function Cells(lines: seq<string>, kept: seq<string>): (cells: seq<string>)
    requires |kept| <= |lines|
    ensures |cells| == |lines|
  {
    kept + lines[|kept|..]
  }

  predicate Skipped(lines: seq<string>, flags: seq<bool>, style: Style, index: nat, kept: seq<string>)
    requires |flags| == |lines| && |kept| <= index < |lines|
  {
    (flags[index] && IsSingleLineComment(lines[index], style)) || EmptyBanner(Cells(lines, kept), index, style)
  }

  /** The lines kept of the first n. */
  function Kept(lines: seq<string>, flags: seq<bool>, style: Style, n: nat): (kept: seq<string>)
    requires |flags| == |lines| && n <= |lines|
    ensures |kept| <= n
  {
    if n == 0 then []
    else
      var kept := Kept(lines, flags, style, n - 1);
      if Skipped(lines, flags, style, n - 1, kept) then kept else kept + [lines[n - 1]]
  }

  function Filtered(lines: seq<string>, style: Style): seq<string> {
    Kept(lines, Decorative(lines, style), style, |lines|)
  }

  lemma KeptStep(lines: seq<string>, flags: seq<bool>, style: Style, n: nat)
    requires |flags| == |lines| && n < |lines|
    ensures var kept := Kept(lines, flags, style, n);
            Kept(lines, flags, style, n + 1) ==
              if Skipped(lines, flags, style, n, kept) then kept else kept + [lines[n]]
  {
  }

  /** Writing the next kept line over the array. */
  lemma WriteKept(lines: seq<string>, kept: seq<string>, line: string)
    requires |kept| < |lines|
    ensures Cells(lines, kept)[|kept| := line] == Cells(lines, kept + [line])
  {
  }

  /** The kept lines are appended to the array's own start while the loop reads
      on; the write index never passes the read index. */
  method FilterInPlace(lines: array<string>, style: Style) returns (n: nat)
    modifies lines
    ensures n <= lines.Length && lines[..] == Cells(old(lines[..]), lines[..n])
            && lines[..n] == Filtered(old(lines[..]), style)
  {
    hide Decorative, IsSingleLineComment, EmptyBanner, Kept, Cells;
    var flags := DecorativeCommentLines(lines[..], style);
    ghost var before := lines[..];
    ghost var kept: seq<string> := [];
    assert Cells(before, []) == before && Kept(before, flags, style, 0) == [] by { NothingYet(before, flags, style); }
    n := 0;
    var index := 0;
    while index < lines.Length
      invariant 0 <= n <= index <= lines.Length && |kept| == n
      invariant kept == Kept(before, flags, style, index)
      invariant lines[..] == Cells(before, kept)
    {
      CellAt(before, kept, index);
      var line := lines[..][index];
      KeptStep(before, flags, style, index);
      if (flags[index] && IsSingleLineComment(line, style)) || EmptyBanner(lines[..], index, style) {
      } else {
        WriteKept(before, kept, line);
        lines[n] := line;
        kept := kept + [line];
        n := n + 1;
      }
      index := index + 1;
    }
    CellsStart(before, kept);
    assert lines[..n] == lines[..][..n];
  }

  lemma NothingYet(lines: seq<string>, flags: seq<bool>, style: Style)
    requires |flags| == |lines|
    ensures Cells(lines, []) == lines && Kept(lines, flags, style, 0) == []
  {
  }

  lemma CellAt(lines: seq<string>, kept: seq<string>, j: nat)
    requires |kept| <= |lines| && j < |lines|
    ensures Cells(lines, kept)[j] == if j < |kept| then kept[j] else lines[j]
  {
  }

  lemma CellsStart(lines: seq<string>, kept: seq<string>)
    requires |kept| <= |lines|
    ensures Cells(lines, kept)[..|kept|] == kept
  {
  }

  // ---- The whole fixer ----

  function FixedLines(path: string, text: string): seq<string> {
    var lines := NormLines(Split(Plain(text), '\n'));
    var style := StyleFor(path);
    if style == NoComments then lines
    else Collapsed(Filtered(lines, style), if IsGenerated(text) then NoComments else style)
  }

  function Finish(lines: seq<string>): string {
    var value := Join(lines, '\n');
    if value == "" then "\n" else if HasSuffix(value, "\n") then value else value + "\n"
  }

  predicate Untouched(path: string, data: Data) {
    IsBinary(path, data) || IsVendored(path) || data.NotUtf8?
  }

  method Fix(path: string, data: Data) returns (fixed: Data)
    ensures fixed == if Untouched(path, data) then data else Text(Finish(FixedLines(path, data.text)))
  {
    hide Plain, IsBinary, IsVendored, StyleFor, Split, Join, Filtered, Collapsed, IsGenerated, HasSuffix;
    if IsBinary(path, data) || IsVendored(path) || data.NotUtf8? {
      return data;
    }
    var value := Plain(data.text);
    var lines := Split(value, '\n');
    var cells := new string[|lines|](i requires 0 <= i < |lines| => lines[i]);
    assert cells[..] == lines;
    NormaliseInPlace(cells);
    lines := cells[..];
    var style := StyleFor(path);
    var layoutStyle := if IsGenerated(data.text) then NoComments else style;
    if style != NoComments {
      var n := FilterInPlace(cells, style);
      lines := RemoveBlanks(cells[..n], layoutStyle);
    }
    value := Join(lines, '\n');
    if value == "" {
      return Text("\n");
    }
    if !HasSuffix(value, "\n") {
      value := value + "\n";
    }
    return Text(value);
  }

  // ---- What the filter reads ----

  function Removals(lines: seq<string>, flags: seq<bool>, style: Style, n: nat): nat
    requires |flags| == |lines| && n <= |lines|
  {
    n - |Kept(lines, flags, style, n)|
  }

  lemma {:induction false} NothingRemoved(lines: seq<string>, flags: seq<bool>, style: Style, n: nat)
    requires |flags| == |lines| && n <= |lines| && Removals(lines, flags, style, n) == 0
    ensures Kept(lines, flags, style, n) == lines[..n]
  {
    hide Skipped;
    if n > 0 {
      NothingRemoved(lines, flags, style, n - 1);
      assert lines[..n] == lines[..n - 1] + [lines[n - 1]];
    }
  }

  /** Whether the cell two back has been overwritten with the line before: one
      line is gone, and it is not the line just before. */
  predicate LookBehindIsShifted(lines: seq<string>, flags: seq<bool>, style: Style, index: nat)
    requires |flags| == |lines| && index < |lines|
  {
    index >= 2 && Removals(lines, flags, style, index) == 1
    && !Skipped(lines, flags, style, index - 1, Kept(lines, flags, style, index - 1))
  }

  /** What every cell the banner test reads holds. */
  lemma CellsRead(lines: seq<string>, flags: seq<bool>, style: Style, index: nat)
    requires |flags| == |lines| && index < |lines|
    ensures var cells := Cells(lines, Kept(lines, flags, style, index));
            && (forall j | index <= j < |lines| :: cells[j] == lines[j])
            && (index >= 1 ==> cells[index - 1] == lines[index - 1])
            && (index >= 2 ==>
                cells[index - 2] ==
                  if LookBehindIsShifted(lines, flags, style, index) then lines[index - 1] else lines[index - 2])
  {
    hide Skipped, Cells, Kept;
    var kept := Kept(lines, flags, style, index);
    forall j | index <= j < |lines| ensures Cells(lines, kept)[j] == lines[j] { CellAt(lines, kept, j); }
    if index >= 1 {
      CellAt(lines, kept, index - 1);
      KeptStep(lines, flags, style, index - 1);
      if |kept| == index { NothingRemoved(lines, flags, style, index); }
    }
    if index >= 2 {
      CellAt(lines, kept, index - 2);
      if Removals(lines, flags, style, index - 1) == 0 { NothingRemoved(lines, flags, style, index - 1); }
    }
  }

  predicate BannerAhead(lines: seq<string>, index: nat, style: Style)
    requires index < |lines|
  {
    index + 2 < |lines| && CommentPayload(lines[index + 1], style).Some?
      && CommentPayload(lines[index + 2], style) == Some("")
  }

  /** So the filter finds the banners of the original lines, except right after a
      shift, when an empty comment line before is enough. */
  lemma BannerFound(lines: seq<string>, flags: seq<bool>, style: Style, index: nat)
    requires |flags| == |lines| && index < |lines|
    ensures var found := EmptyBanner(Cells(lines, Kept(lines, flags, style, index)), index, style);
            if LookBehindIsShifted(lines, flags, style, index) then
              found <==> CommentPayload(lines[index], style) == Some("")
                         && (BannerAhead(lines, index, style) || CommentPayload(lines[index - 1], style) == Some(""))
            else found <==> EmptyBanner(lines, index, style)
  {
    hide CommentPayload, Skipped, Removals, Kept, Cells;
    CellsRead(lines, flags, style, index);
  }

  // ---- What is dropped ----

  predicate Droppable(line: string, style: Style) {
    Blank(line) || CommentPayload(line, style).Some? || IsSingleLineComment(line, style)
  }

  /** In files with '#' comments that is blank lines and lines starting with '#'. */
  lemma DroppableInHash(line: string)
    ensures Droppable(line, Hash) <==> TrimSpace(line) == "" || TrimSpace(line)[0] == '#'
  {
    hide TrimSpace;
  }

  /** A sequence of lines with some droppable ones left out. */
  ghost predicate Thinned(kept: seq<string>, all: seq<string>, style: Style) {
    if all == [] then kept == []
    else || (kept != [] && kept[0] == all[0] && Thinned(kept[1..], all[1..], style))
         || (Droppable(all[0], style) && Thinned(kept, all[1..], style))
  }

  lemma {:induction false} ThinnedSnoc(kept: seq<string>, all: seq<string>, line: string, style: Style)
    requires Thinned(kept, all, style)
    ensures Thinned(kept + [line], all + [line], style)
    ensures Droppable(line, style) ==> Thinned(kept, all + [line], style)
  {
    hide Droppable;
    if all == [] {
      assert kept + [line] == [line] && all + [line] == [line] && [line][1..] == [];
      assert Thinned([], [], style);
    } else {
      assert (all + [line])[1..] == all[1..] + [line] && (all + [line])[0] == all[0];
      if kept != [] && kept[0] == all[0] && Thinned(kept[1..], all[1..], style) {
        ThinnedSnoc(kept[1..], all[1..], line, style);
        assert (kept + [line])[1..] == kept[1..] + [line];
      } else {
        ThinnedSnoc(kept, all[1..], line, style);
      }
    }
  }

  lemma {:induction false} ThinnedTwice(a: seq<string>, b: seq<string>, c: seq<string>, style: Style)
    requires Thinned(a, b, style) && Thinned(b, c, style)
    ensures Thinned(a, c, style)
    decreases |c|
  {
    hide Droppable;
    if c != [] {
      if b != [] && b[0] == c[0] && Thinned(b[1..], c[1..], style) {
        if a != [] && a[0] == b[0] && Thinned(a[1..], b[1..], style) {
          ThinnedTwice(a[1..], b[1..], c[1..], style);
        } else {
          ThinnedTwice(a, b[1..], c[1..], style);
        }
      } else {
        ThinnedTwice(a, b, c[1..], style);
      }
    }
  }

  lemma SkippedIsDroppable(lines: seq<string>, flags: seq<bool>, style: Style, index: nat, kept: seq<string>)
    requires |flags| == |lines| && |kept| <= index < |lines| && Skipped(lines, flags, style, index, kept)
    ensures Droppable(lines[index], style)
  {
    hide CommentPayload, IsSingleLineComment, Cells, Blank;
    CellAt(lines, kept, index);
  }

  lemma {:induction false} KeptIsThinned(lines: seq<string>, flags: seq<bool>, style: Style, n: nat)
    requires |flags| == |lines| && n <= |lines|
    ensures Thinned(Kept(lines, flags, style, n), lines[..n], style)
  {
    hide Droppable, Skipped;
    if n > 0 {
      KeptIsThinned(lines, flags, style, n - 1);
      var kept := Kept(lines, flags, style, n - 1);
      if Skipped(lines, flags, style, n - 1, kept) { SkippedIsDroppable(lines, flags, style, n - 1, kept); }
      assert lines[..n] == lines[..n - 1] + [lines[n - 1]];
      ThinnedSnoc(kept, lines[..n - 1], lines[n - 1], style);
    }
  }

  lemma {:induction false} CollapseIsThinned(ms: seq<Marked>, underComment: bool, style: Style)
    ensures Thinned(Texts(Collapse(ms, underComment)), Texts(ms), style)
  {
    hide HasContent, Blank, Texts;
    if ms == [] {
      NoLines();
    } else {
      var under := if Blank(ms[0].text) then underComment else ms[0].comment;
      var rest := Collapse(ms[1..], under);
      CollapseIsThinned(ms[1..], under, style);
      TextsCons(ms[0], rest);
      TextsCons(ms[0], ms[1..]);
      assert ms == [ms[0]] + ms[1..];
      ThinnedCons(ms[0].text, Texts(rest), Texts(ms[1..]), style);
    }
  }

  lemma ThinnedCons(line: string, kept: seq<string>, all: seq<string>, style: Style)
    requires Thinned(kept, all, style)
    ensures Thinned([line] + kept, [line] + all, style)
    ensures Blank(line) ==> Thinned(kept, [line] + all, style)
  {
    assert ([line] + kept)[1..] == kept && ([line] + all)[1..] == all;
    assert Blank(line) ==> Droppable(line, style);
    hide Droppable;
  }

  /** The fixer only drops lines, and only droppable ones. */
  lemma FixOnlyDrops(path: string, text: string)
    ensures Thinned(FixedLines(path, text), NormLines(Split(Plain(text), '\n')), StyleFor(path))
  {
    hide StyleFor, Split, Plain, NormLine, Thinned, Kept, Mark, Collapse, Texts, IsGenerated, Decorative;
    var lines, style := NormLines(Split(Plain(text), '\n')), StyleFor(path);
    if style == NoComments {
      ThinnedRefl(lines, style);
    } else {
      var layout := if IsGenerated(text) then NoComments else style;
      var filtered := Filtered(lines, style);
      KeptIsThinned(lines, Decorative(lines, style), style, |lines|);
      assert lines[..|lines|] == lines;
      CollapseIsThinned(Mark(filtered, layout, false), false, style);
      MarkIsZip(filtered, layout, false);
      ThinnedTwice(Collapsed(filtered, layout), filtered, lines, style);
    }
  }

  lemma {:induction false} ThinnedRefl(lines: seq<string>, style: Style)
    ensures Thinned(lines, lines, style)
  {
    if lines != [] { ThinnedRefl(lines[1..], style); }
  }
}
