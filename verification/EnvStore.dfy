/** The .env files: several readers and writers of one line-based format. */
module EnvStore {
  import opened GoStrings

  // ---- One line ----

  /** bufio.ScanLines drops one carriage return at the end of a line. */
  function DropCR(line: string): string {
    if line != "" && line[|line| - 1] == '\r' then line[..|line| - 1] else line
  }

  datatype Entry = Entry(key: string, value: string)

  /** The assignment an active line makes: not a comment, and a key before the
      first equals sign. */
  function ActiveEntry(line: string): Option<Entry> {
    var t := TrimSpace(line);
    if t == "" || t[0] == '#' then None
    else
      var i := Index(t, "=");
      if i > 0 then Some(Entry(t[..i], t[i + 1..])) else None
  }

  predicate IsEnvChar(c: char) {
    'A' <= c <= 'Z' || '0' <= c <= '9' || c == '_'
  }

  predicate IsEnvKey(s: string) {
    s != "" && forall i | 0 <= i < |s| :: IsEnvChar(s[i])
  }

  function TrimLeftSpaces(s: string): string {
    if s != "" && s[0] == ' ' then TrimLeftSpaces(s[1..]) else s
  }

  /** The variable a line mentions, commented out or not. */
  function KnownKey(line: string): Option<string> {
    var t := TrimSpace(line);
    var bare := if t != "" && t[0] == '#' then TrimLeftSpaces(t[1..]) else t;
    var i := Index(bare, "=");
    if i > 0 && IsEnvKey(bare[..i]) then Some(bare[..i]) else None
  }

  // ---- Readers, as functions of the lines ----

  function Lines(content: string): seq<string> {
    Split(content, '\n')
  }

  /** The tokens of a line scanner: no carriage returns, and no empty token
      after the last newline. */
  function Scan(content: string): seq<string> {
    var lines := Lines(content);
    var kept := if lines[|lines| - 1] == "" then lines[..|lines| - 1] else lines;
    seq(|kept|, i requires 0 <= i < |kept| => DropCR(kept[i]))
  }

  /** What the first line starting with the prefix has after it. */
  function FirstValue(lines: seq<string>, prefix: string): string {
    if lines == [] then ""
    else if prefix <= DropCR(lines[0]) then DropCR(lines[0])[|prefix|..]
    else FirstValue(lines[1..], prefix)
  }

  /** What the last active line for the key assigns. */
  function Lookup(lines: seq<string>, key: string): Option<string> {
    if lines == [] then None
    else
      var later := Lookup(lines[1..], key);
      if later.Some? then later
      else match ActiveEntry(lines[0])
        case Some(e) => if e.key == key then Some(e.value) else None
        case None => None
  }

  /** The whole map, last assignment winning. */
  function MapOf(lines: seq<string>): map<string, string> {
    if lines == [] then map[]
    else
      var before := MapOf(lines[..|lines| - 1]);
      match ActiveEntry(lines[|lines| - 1])
      case Some(e) => before[e.key := e.value]
      case None => before
  }

  function Known(lines: seq<string>): set<string> {
    set i | 0 <= i < |lines| && KnownKey(lines[i]).Some? :: KnownKey(lines[i]).value
  }

  lemma {:induction false} LookupAppend(a: seq<string>, b: seq<string>, key: string)
    ensures Lookup(a + b, key) == if Lookup(b, key).Some? then Lookup(b, key) else Lookup(a, key)
  {
    hide ActiveEntry;
    if a == [] {
      assert a + b == b;
    } else {
      assert (a + b)[1..] == a[1..] + b;
      LookupAppend(a[1..], b, key);
    }
  }

  /** The two ways of reading a map agree. */
  lemma {:induction false} MapIsLookup(lines: seq<string>, key: string)
    ensures key in MapOf(lines) <==> Lookup(lines, key).Some?
    ensures key in MapOf(lines) ==> MapOf(lines)[key] == Lookup(lines, key).value
  {
    hide ActiveEntry;
    if lines != [] {
      var init, last := lines[..|lines| - 1], lines[|lines| - 1];
      MapIsLookup(init, key);
      LookupAppend(init, [last], key);
      assert lines == init + [last];
      assert [last][1..] == [];
      assert Lookup([last], key) == match ActiveEntry(last) case Some(e) => if e.key == key then Some(e.value) else None
        case None => None;
    }
  }

  lemma DropCRIsTrimmed(line: string)
    ensures TrimSpace(DropCR(line)) == TrimSpace(line)
  {
    hide TrimSpace;
    if line != "" && line[|line| - 1] == '\r' {
      TrimRightCR(line[..|line| - 1]);
      assert line == line[..|line| - 1] + ['\r'];
    }
  }

  lemma TrimLeftAppend(s: string, c: char)
    requires IsSpace(c)
    ensures TrimLeft(s + [c]) == if Blank(s) then "" else TrimLeft(s) + [c]
  {
    if s == "" {
      assert s + [c] == [c];
    } else {
      assert (s + [c])[1..] == s[1..] + [c];
      assert IsSpace(s[0]) && Blank(s[1..]) ==> Blank(s) by {
        if IsSpace(s[0]) && Blank(s[1..]) { assert s == [s[0]] + s[1..]; }
      }
      TrimLeftAppend(s[1..], c);
    }
  }

  lemma TrimRightCR(s: string)
    ensures TrimSpace(s + ['\r']) == TrimSpace(s)
  {
    assert IsSpace('\r');
    hide IsSpace, Blank, TrimLeft, TrimRight;
    TrimLeftAppend(s, '\r');
    var l := TrimLeft(s);
    if Blank(s) { TrimLeftOfBlank(s); }
    TrimRightSnoc(l, '\r');
    TrimRightOfNothing();
  }

  lemma {:induction false} TrimLeftOfBlank(s: string)
    requires Blank(s)
    ensures TrimLeft(s) == ""
  {
    if s != "" {
      assert forall i | 0 <= i < |s[1..]| :: s[1..][i] == s[i + 1];
      TrimLeftOfBlank(s[1..]);
    }
  }

  lemma TrimRightSnoc(l: string, c: char)
    requires IsSpace(c)
    ensures TrimRight(l + [c]) == TrimRight(l)
  {
    hide IsSpace;
    assert (l + [c])[..|l|] == l;
  }

  lemma TrimRightOfNothing()
    ensures TrimRight("") == ""
  {
  }

  lemma EmptyLine()
    ensures ActiveEntry("").None? && KnownKey("").None?
  {
  }

  lemma {:induction false} LookupDropCR(lines: seq<string>, scanned: seq<string>, key: string)
    requires |scanned| == |lines| && forall i | 0 <= i < |lines| :: scanned[i] == DropCR(lines[i])
    ensures Lookup(scanned, key) == Lookup(lines, key)
  {
    hide TrimSpace, DropCR;
    if lines != [] {
      DropCRIsTrimmed(lines[0]);
      LookupDropCR(lines[1..], scanned[1..], key);
    }
  }

  /** A scanner and a split at newlines see the same assignments. */
  lemma ScanIsSplit(content: string, key: string)
    ensures Lookup(Scan(content), key) == Lookup(Lines(content), key)
  {
    hide ActiveEntry, DropCR;
    var lines := Lines(content);
    var init, last := lines[..|lines| - 1], lines[|lines| - 1];
    assert lines == init + [last];
    if last == "" {
      LookupDropCR(init, Scan(content), key);
      LookupAppend(init, [""], key);
      EmptyLine();
      assert [""][1..] == [];
    } else {
      LookupDropCR(lines, Scan(content), key);
    }
  }

  // ---- The readers ----

  /** EnvValue: the first line that starts with KEY= gives the value. */
  method EnvValue(content: string, key: string) returns (value: string)
    ensures value == FirstValue(Lines(content), key + "=")
  {
    var prefix := key + "=";
    var lines := Scan(content);
    FirstValueOfScan(content, prefix);
    var i := 0;
    assert lines[0..] == lines;
    while i < |lines|
      invariant 0 <= i <= |lines|
      invariant FirstPrefixed(lines, prefix) == FirstPrefixed(lines[i..], prefix)
    {
      assert lines[i..][1..] == lines[i + 1..];
      if HasPrefix(lines[i], prefix) {
        return lines[i][|prefix|..];
      }
      i := i + 1;
    }
    return "";
  }

  function FirstPrefixed(lines: seq<string>, prefix: string): string {
    if lines == [] then ""
    else if prefix <= lines[0] then lines[0][|prefix|..]
    else FirstPrefixed(lines[1..], prefix)
  }

  lemma {:induction false} FirstPrefixedDropCR(lines: seq<string>, scanned: seq<string>, prefix: string)
    requires |scanned| == |lines| && forall i | 0 <= i < |lines| :: scanned[i] == DropCR(lines[i])
    ensures FirstPrefixed(scanned, prefix) == FirstValue(lines, prefix)
  {
    hide DropCR;
    if lines != [] { FirstPrefixedDropCR(lines[1..], scanned[1..], prefix); }
  }

  lemma {:induction false} FirstValueOfInit(init: seq<string>, prefix: string)
    requires prefix != ""
    ensures FirstValue(init + [""], prefix) == FirstValue(init, prefix)
  {
    if init == [] {
      assert [] + [""] == [""] && [""][1..] == [];
    } else {
      assert (init + [""])[1..] == init[1..] + [""];
      FirstValueOfInit(init[1..], prefix);
    }
  }

  lemma FirstValueOfScan(content: string, prefix: string)
    requires prefix != ""
    ensures FirstPrefixed(Scan(content), prefix) == FirstValue(Lines(content), prefix)
  {
    hide DropCR;
    var lines := Lines(content);
    var init, last := lines[..|lines| - 1], lines[|lines| - 1];
    assert lines == init + [last];
    if last == "" {
      FirstPrefixedDropCR(init, Scan(content), prefix);
      FirstValueOfInit(init, prefix);
    } else {
      FirstPrefixedDropCR(lines, Scan(content), prefix);
    }
  }

  /** loadEnvMap and parseEnvBytes: the same loop over scanned and over split
      lines, and the same map. */
  method LoadEnvMap(content: string) returns (m: map<string, string>)
    ensures m == MapOf(Scan(content))
    ensures forall k ::
            (k in m <==> Lookup(Lines(content), k).Some?) && (k in m ==> m[k] == Lookup(Lines(content), k).value)
  {
    m := ReadMap(Scan(content));
    forall k ensures (k in m <==> Lookup(Lines(content), k).Some?)
      && (k in m ==> m[k] == Lookup(Lines(content), k).value) {
      MapIsLookup(Scan(content), k);
      ScanIsSplit(content, k);
    }
  }

  method ParseEnvBytes(content: string) returns (m: map<string, string>)
    ensures m == MapOf(Lines(content))
    ensures forall k ::
            (k in m <==> Lookup(Lines(content), k).Some?) && (k in m ==> m[k] == Lookup(Lines(content), k).value)
  {
    m := ReadMap(Lines(content));
    forall k ensures (k in m <==> Lookup(Lines(content), k).Some?)
      && (k in m ==> m[k] == Lookup(Lines(content), k).value) {
      MapIsLookup(Lines(content), k);
    }
  }

  method ReadMap(lines: seq<string>) returns (m: map<string, string>)
    ensures m == MapOf(lines)
  {
    hide TrimSpace, Index;
    m := map[];
    var i := 0;
    while i < |lines|
      invariant 0 <= i <= |lines|
      invariant m == MapOf(lines[..i])
    {
      assert lines[..i + 1][..i] == lines[..i] && lines[..i + 1][i] == lines[i];
      var line := TrimSpace(lines[i]);
      if line != "" && line[0] != '#' {
        var idx := Index(line, "=");
        if idx > 0 {
          m := m[line[..idx] := line[idx + 1..]];
        }
      }
      i := i + 1;
    }
    assert lines[..i] == lines;
  }

  /** loadEnvKeys */
  method LoadEnvKeys(content: string) returns (keys: set<string>)
    ensures keys == Known(Scan(content))
  {
    hide KnownKey, Scan;
    var lines := Scan(content);
    keys := {};
    var i := 0;
    while i < |lines|
      invariant 0 <= i <= |lines|
      invariant keys == Known(lines[..i])
    {
      var key := KnownKey(lines[i]);
      KnownSnoc(lines[..i], lines[i]);
      assert lines[..i + 1] == lines[..i] + [lines[i]];
      if key.Some? {
        keys := keys + {key.value};
      }
      i := i + 1;
    }
    assert lines[..i] == lines;
  }

  lemma KnownAppend(a: seq<string>, b: seq<string>)
    ensures Known(a + b) == Known(a) + Known(b)
  {
    hide KnownKey;
    forall k | k in Known(a) + Known(b) ensures k in Known(a + b) {
      if k in Known(a) {
        var i :| 0 <= i < |a| && KnownKey(a[i]) == Some(k);
        assert (a + b)[i] == a[i];
      } else {
        var i :| 0 <= i < |b| && KnownKey(b[i]) == Some(k);
        assert (a + b)[|a| + i] == b[i];
      }
    }
  }

  lemma KnownSnoc(lines: seq<string>, line: string)
    ensures Known(lines + [line]) == Known(lines) + if KnownKey(line).Some? then {KnownKey(line).value} else {}
  {
    hide KnownKey;
    KnownAppend(lines, [line]);
    assert [line][0] == line;
  }

  lemma KnownDropCR(lines: seq<string>, scanned: seq<string>)
    requires |scanned| == |lines| && forall i | 0 <= i < |lines| :: scanned[i] == DropCR(lines[i])
    ensures Known(scanned) == Known(lines)
  {
    forall i | 0 <= i < |lines| ensures KnownKey(scanned[i]) == KnownKey(lines[i]) {
      hide TrimSpace, DropCR;
      DropCRIsTrimmed(lines[i]);
    }
    hide KnownKey, DropCR;
  }

  /** The same for the keys a file mentions. */
  lemma KnownInScan(content: string)
    ensures Known(Scan(content)) == Known(Lines(content))
  {
    hide KnownKey, DropCR;
    var lines := Lines(content);
    var init, last := lines[..|lines| - 1], lines[|lines| - 1];
    assert lines == init + [last];
    if last == "" {
      KnownDropCR(init, Scan(content));
      KnownSnoc(init, "");
      EmptyLine();
    } else {
      KnownDropCR(lines, Scan(content));
    }
  }

  // ---- Writers ----

  /** The lines after setEnvVal: the first line starting with the prefix is
      replaced, or a new last line is added. */
  function SetLine(lines: seq<string>, prefix: string, value: string): seq<string> {
    if lines == [] then [prefix + value]
    else if prefix <= lines[0] then [prefix + value] + lines[1..]
    else [lines[0]] + SetLine(lines[1..], prefix, value)
  }

  function SetContent(content: string, key: string, value: string): string {
    Join(SetLine(Lines(content), key + "=", value), '\n')
  }

  method SetEnvVal(content: string, key: string, value: string) returns (out: string)
    ensures out == SetContent(content, key, value)
  {
    hide Split, Join;
    var lines := Lines(content);
    var prefix := key + "=";
    var updated := false;
    var i := 0;
    ghost var original := lines;
    assert lines[..0] + SetLine(lines[0..], prefix, value) == SetLine(lines, prefix, value) by {
      assert lines[0..] == lines;
    }
    while i < |lines| && !updated
      invariant 0 <= i <= |lines| == |original|
      invariant !updated ==>
                lines == original
                  && original[..i] + SetLine(original[i..], prefix, value) == SetLine(original, prefix, value)
      invariant updated ==> lines == SetLine(original, prefix, value)
      decreases |lines| - i, !updated
    {
      assert original[i..][1..] == original[i + 1..];
      if HasPrefix(lines[i], prefix) {
        assert original[..i] + ([prefix + value] + original[i + 1..]) == original[i := prefix + value];
        lines := lines[i := prefix + value];
        updated := true;
      } else {
        assert original[..i] + ([original[i]] + SetLine(original[i + 1..], prefix, value))
            == original[..i + 1] + SetLine(original[i + 1..], prefix, value);
        i := i + 1;
      }
    }
    if !updated {
      assert original[..i] == original && original[i..] == [];
      lines := lines + [prefix + value];
    }
    out := Join(lines, '\n');
  }

  lemma {:induction false} SetLinesArePlain(lines: seq<string>, prefix: string, value: string)
    requires forall i | 0 <= i < |lines| :: '\n' !in lines[i]
    requires '\n' !in prefix && '\n' !in value
    ensures var r := SetLine(lines, prefix, value); r != [] && forall i | 0 <= i < |r| :: '\n' !in r[i]
  {
    if lines != [] { SetLinesArePlain(lines[1..], prefix, value); }
  }

  lemma LinesOfSet(content: string, key: string, value: string)
    requires '\n' !in key && '\n' !in value
    ensures Lines(SetContent(content, key, value)) == SetLine(Lines(content), key + "=", value)
  {
    SetLinesArePlain(Lines(content), key + "=", value);
    SplitJoin(SetLine(Lines(content), key + "=", value), '\n');
  }

  lemma {:induction false} SetThenFirst(lines: seq<string>, key: string, value: string)
    requires value == "" || value[|value| - 1] != '\r'
    ensures FirstValue(SetLine(lines, key + "=", value), key + "=") == value
  {
    var prefix := key + "=";
    assert DropCR(prefix + value) == prefix + value;
    if lines == [] {
    } else if prefix <= lines[0] {
    } else {
      SetThenFirst(lines[1..], key, value);
      assert !(prefix <= DropCR(lines[0]));
      assert SetLine(lines, prefix, value)[1..] == SetLine(lines[1..], prefix, value);
    }
  }

  /** Reading a key just written gives the value. */
  lemma GetAfterSet(content: string, key: string, value: string)
    requires '\n' !in key && '\n' !in value && (value == "" || value[|value| - 1] != '\r')
    ensures FirstValue(Lines(SetContent(content, key, value)), key + "=") == value
  {
    LinesOfSet(content, key, value);
    SetThenFirst(Lines(content), key, value);
  }
}
