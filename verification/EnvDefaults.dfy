/** syncEnvFileDefaults: missing defaults are appended to an .env file and empty
    required ones are filled in. */
module EnvDefaults {
  import opened GoStrings
  import opened EnvStore
  import opened EnvWrites

  /** A registry entry, with the value it yields in this run: the value of an
      entry with a generator differs from run to run. */
  datatype Default = Default(key: string, value: string, section: string, active: bool)

  ghost predicate WellFormed(defs: seq<Default>) {
    forall d | d in defs :: IsEnvKey(d.key) && PlainValue(d.value) && '\n' !in d.section
  }

  /** One registry has one entry per key, and its required entries have a value. */
  ghost predicate Consistent(defs: seq<Default>) {
    && (forall d, e | d in defs && e in defs && d.key == e.key :: d == e)
    && (forall d | d in defs && d.active :: !Blank(d.value))
  }

  function ActiveValue(lines: seq<string>, key: string): string {
    var v := Lookup(lines, key);
    if v.Some? then v.value else ""
  }

  predicate NeedsSet(lines: seq<string>, d: Default) {
    d.active && Blank(ActiveValue(lines, d.key)) && IsEnvKey(d.key) && Lookup(lines, d.key).Some?
  }

  predicate NeedsAdd(lines: seq<string>, d: Default) {
    if d.active then Blank(ActiveValue(lines, d.key)) && !(IsEnvKey(d.key) && Lookup(lines, d.key).Some?)
    else d.key !in Known(lines)
  }

  function ToAdd(lines: seq<string>, defs: seq<Default>): seq<Default> {
    if defs == [] then []
    else
      var last := defs[|defs| - 1];
      ToAdd(lines, defs[..|defs| - 1]) + if NeedsAdd(lines, last) then [last] else []
  }

  function ToSet(lines: seq<string>, defs: seq<Default>): seq<Default> {
    if defs == [] then []
    else
      var last := defs[|defs| - 1];
      ToSet(lines, defs[..|defs| - 1]) + if NeedsSet(lines, last) then [last] else []
  }

  /** Written as an assignment rather than as a commented example. */
  predicate Assigned(d: Default, optional: bool) {
    d.active || !optional
  }

  function AddedLine(d: Default, optional: bool): string {
    (if Assigned(d, optional) then "" else "# ") + (d.key + "=" + d.value)
  }

  function AddedLines(add: seq<Default>, optional: bool, lastSection: string): seq<string> {
    if add == [] then []
    else
      var d := add[0];
      if d.section != "" && d.section != lastSection then
        ["", "# " + d.section, AddedLine(d, optional)] + AddedLines(add[1..], optional, d.section)
      else [AddedLine(d, optional)] + AddedLines(add[1..], optional, lastSection)
  }

  function Unlines(lines: seq<string>): string {
    if lines == [] then "" else lines[0] + "\n" + Unlines(lines[1..])
  }

  const BANNER := "# New defaults added by grengo migrate: "

  function Terminated(content: string): string {
    if content != "" && !HasSuffix(content, "\n") then content + "\n" else content
  }

  function AddContent(content: string, add: seq<Default>, optional: bool, stamp: string): string {
    if add == [] then content
    else Terminated(content) + Unlines(["", BANNER + stamp] + AddedLines(add, optional, ""))
  }

  function SetAll(content: string, sets: seq<Default>): string
    decreases |sets|
  {
    if sets == [] then content else SetAll(SetContent(content, sets[0].key, sets[0].value), sets[1..])
  }

  function Synced(content: string, defs: seq<Default>, optional: bool, stamp: string): string {
    SetAll(AddContent(content, ToAdd(Lines(content), defs), optional, stamp), ToSet(Lines(content), defs))
  }

  function SyncCount(content: string, defs: seq<Default>): nat {
    |ToAdd(Lines(content), defs)| + |ToSet(Lines(content), defs)|
  }

  // ---- The method ----

  /** loadActiveEnvKeys */
  method LoadActiveEnvKeys(content: string) returns (keys: set<string>)
    ensures forall k :: k in keys <==> IsEnvKey(k) && Lookup(Lines(content), k).Some?
  {
    hide TrimSpace, Index, Scan, IsEnvKey, Lookup;
    var lines := Scan(content);
    keys := {};
    var i := 0;
    while i < |lines|
      invariant 0 <= i <= |lines|
      invariant forall k :: k in keys <==> IsEnvKey(k) && k in MapOf(lines[..i])
    {
      assert lines[..i + 1][..i] == lines[..i] && lines[..i + 1][i] == lines[i];
      var line := TrimSpace(lines[i]);
      if line != "" && line[0] != '#' {
        var idx := Index(line, "=");
        if idx > 0 && IsEnvKey(line[..idx]) {
          keys := keys + {line[..idx]};
        }
      }
      i := i + 1;
    }
    assert lines[..i] == lines;
    forall k: string ensures k in MapOf(lines) <==> Lookup(Lines(content), k).Some? {
      MapIsLookup(lines, k);
      ScanIsSplit(content, k);
    }
  }

  /** A missing file is left missing, as reading it back fails. */
  method SyncEnvFileDefaults(file: Option<string>, defs: seq<Default>, optional: bool, stamp: string)
    returns (synced: Option<string>, count: nat)
    ensures file.None? ==> synced == None && count == 0
    ensures file.Some? ==>
            synced == Some(Synced(file.value, defs, optional, stamp)) && count == SyncCount(file.value, defs)
  {
    if file.None? {
      return None, 0;
    }
    var content := file.value;
    var toAdd, toSet := Plan(content, defs);
    hide ToAdd, ToSet, AddContent, SetAll;
    if toAdd != [] {
      content := AddDefaults(content, toAdd, optional, stamp);
    }
    assert toAdd == [] ==> content == AddContent(content, toAdd, optional, stamp) by {
      AddNothing(content, optional, stamp);
    }
    content := SetDefaults(content, toSet);
    return Some(content), |toAdd| + |toSet|;
  }

  lemma AddNothing(content: string, optional: bool, stamp: string)
    ensures AddContent(content, [], optional, stamp) == content
  {
  }

  method AddDefaults(before: string, toAdd: seq<Default>, optional: bool, stamp: string) returns (content: string)
    requires toAdd != []
    ensures content == AddContent(before, toAdd, optional, stamp)
  {
    hide AddedLines, Unlines, HasSuffix;
    content := before;
    if content != "" && !HasSuffix(content, "\n") {
      content := content + "\n";
    }
    content := AppendDefaults(content, toAdd, optional, stamp);
  }

  method SetDefaults(before: string, toSet: seq<Default>) returns (content: string)
    ensures content == SetAll(before, toSet)
  {
    hide SetContent;
    content := before;
    var i := 0;
    assert toSet[0..] == toSet;
    while i < |toSet|
      invariant 0 <= i <= |toSet|
      invariant SetAll(content, toSet[i..]) == SetAll(before, toSet)
    {
      assert toSet[i..][1..] == toSet[i + 1..];
      content := SetEnvVal(content, toSet[i].key, toSet[i].value);
      i := i + 1;
    }
  }

  method Plan(content: string, defs: seq<Default>) returns (toAdd: seq<Default>, toSet: seq<Default>)
    ensures toAdd == ToAdd(Lines(content), defs) && toSet == ToSet(Lines(content), defs)
  {
    hide Lookup, Known, TrimSpace, Lines, Scan, IsEnvKey;
    ghost var lines := Lines(content);
    var existing := LoadEnvKeys(content);
    KnownInScan(content);
    var active := LoadEnvMap(content);
    var activeKeys := LoadActiveEnvKeys(content);
    toAdd, toSet := [], [];
    var i := 0;
    while i < |defs|
      invariant 0 <= i <= |defs|
      invariant toAdd == ToAdd(lines, defs[..i]) && toSet == ToSet(lines, defs[..i])
    {
      assert defs[..i + 1][..i] == defs[..i] && defs[..i + 1][i] == defs[i];
      var d := defs[i];
      if d.active {
        if TrimSpace(if d.key in active then active[d.key] else "") == "" {
          if d.key in activeKeys {
            toSet := toSet + [d];
          } else {
            toAdd := toAdd + [d];
          }
        }
      } else if d.key !in existing {
        toAdd := toAdd + [d];
      }
      i := i + 1;
    }
    assert defs[..i] == defs;
  }

  method AppendDefaults(before: string, toAdd: seq<Default>, optional: bool, stamp: string) returns (content: string)
    ensures content == before + Unlines(["", BANNER + stamp] + AddedLines(toAdd, optional, ""))
  {
    hide AddedLine;
    content := before + "\n" + (BANNER + stamp) + "\n";
    ghost var lines := AddedLines(toAdd, optional, "");
    UnlinesHead("", BANNER + stamp, lines);
    ghost var target := before + ("\n" + (BANNER + stamp) + "\n" + Unlines(lines));
    assert toAdd[0..] == toAdd;
    assert "" + "\n" + (BANNER + stamp) == "\n" + (BANNER + stamp);
    assert target == before + Unlines(["", BANNER + stamp] + lines);
    assert content + Unlines(lines) == target;
    var lastSection := "";
    var i := 0;
    while i < |toAdd|
      invariant 0 <= i <= |toAdd|
      invariant content + Unlines(AddedLines(toAdd[i..], optional, lastSection)) == target
    {
      var d := toAdd[i];
      assert toAdd[i..][0] == d && toAdd[i..][1..] == toAdd[i + 1..];
      ghost var c, s := content, lastSection;
      if d.section != "" && d.section != lastSection {
        content := content + "\n# " + d.section + "\n";
        lastSection := d.section;
      }
      content := content + AddedLine(d, optional) + "\n";
      UnlinesStep(c, d, optional, s, AddedLines(toAdd[i + 1..], optional, lastSection));
      i := i + 1;
    }
    assert toAdd[i..] == [];
    assert content == content + "";
  }

  lemma UnlinesHead(a: string, b: string, rest: seq<string>)
    ensures Unlines([a, b] + rest) == a + "\n" + b + "\n" + Unlines(rest)
  {
    assert ([a, b] + rest)[1..] == [b] + rest;
    assert ([b] + rest)[1..] == rest;
    assert a + "\n" + (b + "\n" + Unlines(rest)) == a + "\n" + b + "\n" + Unlines(rest);
  }

  lemma UnlinesStep(content: string, d: Default, optional: bool, lastSection: string, rest: seq<string>)
    ensures var line := AddedLine(d, optional);
            content + Unlines((if d.section != "" && d.section != lastSection then ["", "# " + d.section, line]
                               else [line]) + rest)
            == (if d.section != "" && d.section != lastSection then content + "\n# " + d.section + "\n" else content)
              + line + "\n" + Unlines(rest)
  {
    hide AddedLine;
    var line := AddedLine(d, optional);
    assert ([line] + rest)[1..] == rest;
    UnlinesHead("", "# " + d.section, [line] + rest);
    assert ["", "# " + d.section] + ([line] + rest) == ["", "# " + d.section, line] + rest;
  }
}
