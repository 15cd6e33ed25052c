/** What the text policy looks at: file kinds, comment lines, decorative
    separators and empty banners. */
module TextPolicy {
  import opened GoStrings

  datatype Style = NoComments | Slash | Hash

  /** A file's bytes: valid UTF-8 read as characters, or something else. */
  datatype Data = Text(text: string) | NotUtf8(hasNul: bool)

  // ---- File kinds ----

  /** filepath.Ext: from the last dot of the last path element. */
  function Ext(path: string): string {
    if path == "" || path[|path| - 1] == '/' then ""
    else if path[|path| - 1] == '.' then "."
    else
      var before := Ext(path[..|path| - 1]);
      if before == "" then "" else before + [path[|path| - 1]]
  }

  function StripSlashes(path: string): string {
    if path != "" && path[|path| - 1] == '/' then StripSlashes(path[..|path| - 1]) else path
  }

  function AfterSlash(path: string): string {
    if path == "" || path[|path| - 1] == '/' then "" else AfterSlash(path[..|path| - 1]) + [path[|path| - 1]]
  }

  function Base(path: string): string {
    if path == "" then "."
    else if StripSlashes(path) == "" then "/"
    else AfterSlash(StripSlashes(path))
  }

  const SLASH_EXTENSIONS := {".go", ".js", ".jsx", ".ts", ".tsx", ".css", ".scss", ".proto"}
  const HASH_EXTENSIONS := {".sh", ".bash", ".zsh", ".yaml", ".yml"}
  const BINARY_EXTENSIONS :=
    {".7z", ".a", ".avi", ".bin", ".bmp", ".class", ".db", ".dll", ".eot", ".exe", ".gif", ".gz", ".ico", ".jar",
     ".jpeg", ".jpg", ".mov", ".mp3", ".mp4", ".o", ".pdf", ".png", ".so", ".tar", ".tgz", ".ttf", ".wav",
     ".webm", ".webp", ".woff", ".woff2", ".xz", ".zip"}

  function StyleFor(path: string): Style {
    var base, ext := ToLower(Base(path)), ToLower(Ext(path));
    if base == "dockerfile" || "dockerfile." <= base then Hash
    else if ext in SLASH_EXTENSIONS then Slash
    else if ext in HASH_EXTENSIONS then Hash
    else NoComments
  }

  predicate IsBinary(path: string, data: Data) {
    ToLower(Ext(path)) in BINARY_EXTENSIONS || match data case Text(s) => '\0' in s case NotUtf8(nul) => nul
  }

  predicate IsVendored(path: string) {
    Contains("/" + path + "/", "/vendor/")
  }

  function Utf8Length(c: char): nat {
    if c as int < 0x80 then 1 else if c as int < 0x800 then 2 else if c as int < 0x10000 then 3 else 4
  }

  /** The characters that lie wholly within the first n bytes. */
  function BytePrefix(s: string, n: nat): string {
    if s == "" || n < Utf8Length(s[0]) then "" else [s[0]] + BytePrefix(s[1..], n - Utf8Length(s[0]))
  }

  predicate IsGenerated(text: string) {
    var prefix := BytePrefix(text, 2048);
    Contains(prefix, "Code generated") && Contains(prefix, "DO NOT EDIT")
  }

  // ---- Comment lines ----

  /** Whether a line belongs to a comment, and whether a block comment is open
      after it. */
  function Classify(style: Style, inBlock: bool, line: string): (bool, bool) {
    var t := TrimSpace(line);
    match style
    case Slash =>
      if inBlock then (true, !Contains(t, "*/"))
      else if HasPrefix(t, "//") then (true, false)
      else if HasPrefix(t, "/*") then (true, !Contains(t[2..], "*/"))
      else (false, false)
    case Hash => (HasPrefix(t, "#"), inBlock)
    case NoComments => (false, inBlock)
  }

  function Comments(lines: seq<string>, style: Style, inBlock: bool): (flags: seq<bool>)
    ensures |flags| == |lines|
  {
    if lines == [] then []
    else
      var (comment, open) := Classify(style, inBlock, lines[0]);
      [comment] + Comments(lines[1..], style, open)
  }

  method ClassifyLine(style: Style, inBlock: bool, line: string) returns (comment: bool, open: bool)
    ensures (comment, open) == Classify(style, inBlock, line)
  {
    hide TrimSpace, Contains, HasPrefix;
    var trimmed := TrimSpace(line);
    comment, open := false, inBlock;
    if style == Slash {
      if inBlock {
        comment := true;
        if Contains(trimmed, "*/") {
          open := false;
        }
      } else if HasPrefix(trimmed, "//") {
        comment := true;
      } else if HasPrefix(trimmed, "/*") {
        comment := true;
        open := !Contains(trimmed[2..], "*/");
      }
    } else if style == Hash {
      comment := HasPrefix(trimmed, "#");
    }
  }

  method CommentLines(lines: seq<string>, style: Style) returns (result: seq<bool>)
    ensures result == Comments(lines, style, false)
  {
    hide Classify;
    result := [];
    var inBlock := false;
    var i := 0;
    assert lines[0..] == lines;
    while i < |lines|
      invariant 0 <= i <= |lines|
      invariant result + Comments(lines[i..], style, inBlock) == Comments(lines, style, false)
    {
      assert lines[i..][0] == lines[i] && lines[i..][1..] == lines[i + 1..];
      var comment, open := ClassifyLine(style, inBlock, lines[i]);
      assert result + ([comment] + Comments(lines[i + 1..], style, open))
        == result + [comment] + Comments(lines[i + 1..], style, open);
      result, inBlock := result + [comment], open;
      i := i + 1;
    }
  }

  /** A blank line leaves the block state alone and is a comment only inside a
      block. */
  lemma BlankKeepsState(style: Style, inBlock: bool, line: string)
    requires Blank(line) && (inBlock ==> style == Slash)
    ensures Classify(style, inBlock, line) == (inBlock, inBlock)
  {
    assert TrimSpace(line) == "";
    assert forall i :: !OccursAt("", "*/", i);
  }

  // ---- Payloads, separators and banners ----

  function TrimSuffix(s: string, suffix: string): (r: string)
    ensures r <= s
  {
    if HasSuffix(s, suffix) then s[..|s| - |suffix|] else s
  }

  /** What a comment line says, without its markers. */
  function CommentPayload(line: string, style: Style): Option<string> {
    var t := TrimSpace(line);
    match style
    case Slash =>
      if HasPrefix(t, "//") || HasPrefix(t, "/*") then Some(TrimSpace(TrimSuffix(t[2..], "*/")))
      else if HasPrefix(t, "*") then Some(TrimSpace(TrimSuffix(t[1..], "*/")))
      else None
    case Hash => if HasPrefix(t, "#") then Some(TrimSpace(t[1..])) else None
    case NoComments => None
  }

  function Threshold(c: char): nat {
    if c in {'\U{2500}', '\U{2501}', '\U{2550}'} then 2 else if c in {'=', '-', '_', '*'} then 5 else 0
  }

  /** A run of one separator character, long enough for its kind, ends at n. */
  predicate RunEndsAt(s: string, n: nat)
    requires 0 < n <= |s|
  {
    var c := s[n - 1];
    0 < Threshold(c) <= n && forall i | n - Threshold(c) <= i < n :: s[i] == c
  }

  predicate HasRun(s: string) {
    exists n | 0 < n <= |s| :: RunEndsAt(s, n)
  }

  method IsDecorativeSeparator(payload: string) returns (decorative: bool)
    ensures decorative == HasRun(payload)
  {
    var previous := '\0';
    var runLength := 0;
    var i := 0;
    while i < |payload|
      invariant 0 <= i <= |payload| && 0 <= runLength <= i
      invariant i > 0 ==> previous == payload[i - 1] && runLength > 0
      invariant forall j | i - runLength <= j < i :: payload[j] == previous
      invariant i - runLength > 0 ==> payload[i - runLength - 1] != previous
      invariant forall n | 0 < n <= i :: !RunEndsAt(payload, n)
    {
      var r := payload[i];
      if i > 0 && r == previous {
        runLength := runLength + 1;
      } else {
        previous := r;
        runLength := 1;
      }
      i := i + 1;
      assert 0 < Threshold(r) <= runLength ==> RunEndsAt(payload, i);
      assert Threshold(r) > runLength && i - runLength > 0 ==> payload[i - runLength - 1] != r;
      if r in {'\U{2500}', '\U{2501}', '\U{2550}'} && runLength >= 2 {
        return true;
      }
      if r in {'=', '-', '_', '*'} && runLength >= 5 {
        return true;
      }
    }
    return false;
  }

  /** The scanner of decorative comments: outside, in a block comment, or in a
      string opened by a quote. */
  datatype Scan = Outside | InBlock | Quoted(quote: char)

  predicate IsQuote(c: char) {
    c == '\'' || c == '"' || c == '`'
  }

  datatype Scanned = Scanned(decorative: bool, state: Scan)

  /** The rest of a line from an offset on. */
  function ScanLine(line: string, offset: nat, state: Scan, flag: bool): Scanned
    decreases |line| - offset
  {
    if offset >= |line| then Scanned(flag, state)
    else match state
      case InBlock =>
        var end := Index(line[offset..], "*/");
        if end < 0 then Scanned(flag || HasRun(line[offset..]), InBlock)
        else ScanLine(line, offset + end + 2, Outside, flag || HasRun(line[offset..offset + end]))
      case Quoted(quote) =>
        var next := flag || (quote == '`' && line[offset] == '#' && HasRun(line[offset + 1..]));
        if line[offset] == '\\' && quote != '`' then ScanLine(line, offset + 2, state, next)
        else ScanLine(line, offset + 1, if line[offset] == quote then Outside else state, next)
      case Outside =>
        if IsQuote(line[offset]) then ScanLine(line, offset + 1, Quoted(line[offset]), flag)
        else if OccursAt(line, "//", offset) then Scanned(HasRun(line[offset + 2..]), Outside)
        else if OccursAt(line, "/*", offset) then ScanLine(line, offset + 2, InBlock, flag)
        else ScanLine(line, offset + 1, Outside, flag)
  }

  function ScanLines(lines: seq<string>, state: Scan): (flags: seq<bool>)
    ensures |flags| == |lines|
  {
    if lines == [] then []
    else
      var first := ScanLine(lines[0], 0, state, false);
      [first.decorative] + ScanLines(lines[1..], first.state)
  }

  /** Code without quotes and slashes is passed over. */
  lemma {:induction false} ScanPlain(line: string, offset: nat, end: nat, flag: bool)
    requires offset <= end <= |line| && forall i | offset <= i < end :: !IsQuote(line[i]) && line[i] != '/'
    ensures ScanLine(line, offset, Outside, flag) == ScanLine(line, end, Outside, flag)
    decreases end - offset
  {
    if offset < end {
      Openers(line, offset);
      ScanPlain(line, offset + 1, end, flag);
    }
  }

  /** A line comment after such code is judged by its text alone. */
  lemma LineCommentIsJudged(code: string, comment: string)
    requires forall i | 0 <= i < |code| :: !IsQuote(code[i]) && code[i] != '/'
    ensures ScanLine(code + "//" + comment, 0, Outside, false) == Scanned(HasRun(comment), Outside)
  {
    hide HasRun;
    var line := code + "//" + comment;
    ScanPlain(line, 0, |code|, false);
    Openers(line, |code|);
    assert line[|code| + 2..] == comment;
  }

  /** The scanner looks ahead only. */
  lemma {:induction false} ScanSuffix(before: string, s: string, offset: nat, state: Scan, flag: bool)
    ensures ScanLine(before + s, |before| + offset, state, flag) == ScanLine(s, offset, state, flag)
    decreases |s| - offset
  {
    hide HasRun, Index, OccursAt;
    var line, at := before + s, |before| + offset;
    if offset < |s| {
      assert line[at..] == s[offset..] && line[at] == s[offset] && line[at + 1..] == s[offset + 1..];
      match state
      case InBlock =>
        var end := Index(s[offset..], "*/");
        if end >= 0 {
          assert line[at..at + end] == s[offset..offset + end];
          ScanSuffix(before, s, offset + end + 2, Outside, flag || HasRun(s[offset..offset + end]));
        }
      case Quoted(quote) =>
        var next := flag || (quote == '`' && s[offset] == '#' && HasRun(s[offset + 1..]));
        if s[offset] == '\\' && quote != '`' {
          ScanSuffix(before, s, offset + 2, state, next);
        } else {
          ScanSuffix(before, s, offset + 1, if s[offset] == quote then Outside else state, next);
        }
      case Outside =>
        SameOpeners(before, s, offset);
        assert offset + 2 <= |s| ==> line[at + 2..] == s[offset + 2..];
        if IsQuote(s[offset]) {
          ScanSuffix(before, s, offset + 1, Quoted(s[offset]), flag);
        } else if OccursAt(s, "/*", offset) {
          ScanSuffix(before, s, offset + 2, InBlock, flag);
        } else if !OccursAt(s, "//", offset) {
          ScanSuffix(before, s, offset + 1, Outside, flag);
        }
    }
  }

  lemma SameOpeners(before: string, s: string, offset: nat)
    requires offset < |s|
    ensures OccursAt(before + s, "//", |before| + offset) <==> OccursAt(s, "//", offset)
    ensures OccursAt(before + s, "/*", |before| + offset) <==> OccursAt(s, "/*", offset)
    ensures OccursAt(s, "//", offset) || OccursAt(s, "/*", offset) ==> offset + 2 <= |s|
    ensures !(OccursAt(s, "//", offset) && OccursAt(s, "/*", offset))
  {
    Openers(before + s, |before| + offset);
    Openers(s, offset);
  }

  /** A line inside a block comment is judged as a whole. */
  lemma BlockLineIsJudged(line: string)
    requires !Contains(line, "*/")
    ensures ScanLine(line, 0, InBlock, false) == Scanned(HasRun(line), InBlock)
  {
    assert line[0..] == line;
  }

  /** The last line of a block comment is judged up to its end, and then read on as
      code. */
  lemma BlockEndIsJudged(body: string, rest: string)
    requires Index(body + "*/" + rest, "*/") == |body|
    ensures ScanLine(body + "*/" + rest, 0, InBlock, false) == ScanLine(rest, 0, Outside, HasRun(body))
  {
    hide HasRun, Index;
    var line := body + "*/" + rest;
    assert line[0..] == line && line[0..0 + |body|] == body;
    ScanSuffix(body + "*/", rest, 0, Outside, HasRun(body));
  }

  /** Text that does not end the string it is in: no closing quote, and no escape
      or, in a raw string, no '#'. */
  predicate StringText(s: string, quote: char) {
    forall i | 0 <= i < |s| :: s[i] != quote && s[i] != (if quote == '`' then '#' else '\\')
  }

  lemma {:induction false} ScanString(s: string, offset: nat, end: nat, quote: char, flag: bool)
    requires offset <= end <= |s| && StringText(s[offset..end], quote)
    ensures ScanLine(s, offset, Quoted(quote), flag) == ScanLine(s, end, Quoted(quote), flag)
    decreases end - offset
  {
    hide HasRun;
    if offset < end {
      assert s[offset] == s[offset..end][0] && s[offset + 1..end] == s[offset..end][1..];
      ScanString(s, offset + 1, end, quote, flag);
    }
  }

  /** A string on one line is passed over with everything in it. */
  lemma StringIsSkipped(code: string, quote: char, text: string, rest: string)
    requires (forall i | 0 <= i < |code| :: !IsQuote(code[i]) && code[i] != '/') && IsQuote(quote)
             && StringText(text, quote)
    ensures ScanLine(code + [quote] + text + [quote] + rest, 0, Outside, false) == ScanLine(rest, 0, Outside, false)
  {
    hide HasRun;
    var line := code + [quote] + text + [quote] + rest;
    var open := |code| + 1;
    var close := open + |text|;
    ScanPlain(line, 0, |code|, false);
    assert line[|code|] == quote && line[close] == quote && line[open..close] == text;
    ScanString(line, open, close, quote, false);
    assert quote != '#' && quote != '\\';
    assert line == (code + [quote] + text + [quote]) + rest;
    ScanSuffix(code + [quote] + text + [quote], rest, 0, Outside, false);
  }

  /** In a raw string a '#' is taken for a comment: what follows is judged. */
  lemma RawStringCommentIsJudged(text: string, rest: string)
    requires StringText(text, '`')
    ensures ScanLine(text + "#" + rest, 0, Quoted('`'), false) == ScanLine(rest, 0, Quoted('`'), HasRun(rest))
  {
    hide HasRun;
    var line := text + "#" + rest;
    assert line[0..|text|] == text && line[|text| + 1..] == rest;
    ScanString(line, 0, |text|, '`', false);
    ScanSuffix(text + "#", rest, 0, Quoted('`'), HasRun(rest));
  }

  function HashDecorative(line: string): bool {
    var payload := CommentPayload(line, Hash);
    payload.Some? && HasRun(payload.value)
  }

  function Decorative(lines: seq<string>, style: Style): (flags: seq<bool>)
    ensures |flags| == |lines|
  {
    match style
    case Hash => seq(|lines|, i requires 0 <= i < |lines| => HashDecorative(lines[i]))
    case Slash => ScanLines(lines, Outside)
    case NoComments => seq(|lines|, i => false)
  }

  method DecorativeCommentLines(lines: seq<string>, style: Style) returns (result: seq<bool>)
    ensures result == Decorative(lines, style)
  {
    hide ScanLine, CommentPayload, HasRun;
    result := seq(|lines|, i => false);
    if style == Hash {
      var i := 0;
      while i < |lines|
        invariant 0 <= i <= |lines| == |result|
        invariant forall j | 0 <= j < i :: result[j] == HashDecorative(lines[j])
        invariant forall j | i <= j < |lines| :: result[j] == false
      {
        var payload := CommentPayload(lines[i], style);
        if payload.Some? {
          var decorative := IsDecorativeSeparator(payload.value);
          result := result[i := decorative];
        }
        i := i + 1;
      }
      return;
    }
    if style != Slash {
      return;
    }
    var state := Outside;
    var i := 0;
    var flags: seq<bool> := [];
    assert lines[0..] == lines;
    while i < |lines|
      invariant 0 <= i <= |lines|
      invariant flags + ScanLines(lines[i..], state) == ScanLines(lines, Outside)
    {
      assert lines[i..][0] == lines[i] && lines[i..][1..] == lines[i + 1..];
      var scanned := DecorativeLine(lines[i], state);
      assert flags + ([scanned.decorative] + ScanLines(lines[i + 1..], scanned.state))
          == flags + [scanned.decorative] + ScanLines(lines[i + 1..], scanned.state);
      flags, state := flags + [scanned.decorative], scanned.state;
      i := i + 1;
    }
    result := flags;
  }

  method DecorativeLine(line: string, before: Scan) returns (scanned: Scanned)
    ensures scanned == ScanLine(line, 0, before, false)
  {
    hide HasRun, Index, OccursAt;
    var state, flag, offset := before, false, 0;
    while offset < |line|
      invariant 0 <= offset
      invariant ScanLine(line, offset, state, flag) == ScanLine(line, 0, before, false)
      decreases |line| - offset
    {
      if state.InBlock? {
        var end := Index(line[offset..], "*/");
        if end < 0 {
          var run := IsDecorativeSeparator(line[offset..]);
          return Scanned(flag || run, InBlock);
        }
        var run := IsDecorativeSeparator(line[offset..offset + end]);
        flag := flag || run;
        offset := offset + end + 2;
        state := Outside;
      } else if state.Quoted? {
        if state.quote == '`' && line[offset] == '#' {
          var run := IsDecorativeSeparator(line[offset + 1..]);
          flag := flag || run;
        }
        if line[offset] == '\\' && state.quote != '`' {
          offset := offset + 2;
        } else {
          if line[offset] == state.quote {
            state := Outside;
          }
          offset := offset + 1;
        }
      } else if IsQuote(line[offset]) {
        state := Quoted(line[offset]);
        offset := offset + 1;
      } else if line[offset] == '/' && offset + 1 < |line| && line[offset + 1] == '/' {
        Openers(line, offset);
        var run := IsDecorativeSeparator(line[offset + 2..]);
        return Scanned(run, Outside);
      } else if line[offset] == '/' && offset + 1 < |line| && line[offset + 1] == '*' {
        Openers(line, offset);
        offset := offset + 2;
        state := InBlock;
      } else {
        Openers(line, offset);
        offset := offset + 1;
      }
    }
    return Scanned(flag, state);
  }

  lemma Openers(line: string, offset: nat)
    requires offset < |line|
    ensures OccursAt(line, "//", offset) <==> line[offset] == '/' && offset + 1 < |line| && line[offset + 1] == '/'
    ensures OccursAt(line, "/*", offset) <==> line[offset] == '/' && offset + 1 < |line| && line[offset + 1] == '*'
  {
    if offset + 2 <= |line| {
      var w := line[offset..offset + 2];
      assert w == [line[offset], line[offset + 1]];
    }
  }

  /** One of a pair of empty comment lines with a comment line between them. The
      cells are the lines around the one at the index, as they are when read. */
  predicate EmptyBanner(cells: seq<string>, index: nat, style: Style)
    requires index < |cells|
  {
    && CommentPayload(cells[index], style) == Some("")
    && (|| (index + 2 < |cells| && CommentPayload(cells[index + 1], style).Some?
            && CommentPayload(cells[index + 2], style) == Some(""))
        || (index >= 2 && CommentPayload(cells[index - 1], style).Some?
            && CommentPayload(cells[index - 2], style) == Some("")))
  }

  predicate IsSingleLineComment(line: string, style: Style) {
    var t := TrimSpace(line);
    if style == Hash then HasPrefix(t, "#")
    else HasPrefix(t, "//") || (Index(t, "/*") >= 0 && Contains(t[Index(t, "/*") + 2..], "*/"))
  }

  /** Some line after the index is not blank. */
  predicate HasContentAfter(lines: seq<string>, index: int) {
    exists i | index < i < |lines| && 0 <= i :: !Blank(lines[i])
  }

  method ContentAfter(lines: seq<string>, blankIndex: nat) returns (found: bool)
    ensures found == HasContentAfter(lines, blankIndex)
  {
    hide TrimSpace;
    var index := blankIndex + 1;
    while index < |lines|
      invariant blankIndex < index
      invariant forall i | blankIndex < i < index && i < |lines| :: Blank(lines[i])
    {
      if TrimSpace(lines[index]) != "" {
        return true;
      }
      index := index + 1;
    }
    return false;
  }
}
