/** What the writers of .env files leave readable: set, remove and patch. */
module EnvWrites {
  import opened GoStrings
  import opened EnvStore

  // ---- Lines that assign a key ----

  lemma OneKeyPerLine(line: string, a: string, b: string)
    requires '=' !in a && '=' !in b && a + "=" <= line && b + "=" <= line
    ensures a == b
  {
    hide Index;
    FirstEquals(line, a);
    FirstEquals(line, b);
    assert a == line[..|a|] && b == line[..|b|];
  }

  /** A key as a line can carry it: no equals sign, no white space at its start,
      not a comment. */
  predicate PlainKey(key: string) {
    key != "" && '=' !in key && !IsSpace(key[0]) && key[0] != '#'
  }

  lemma PlainKeyHasNoEquals(key: string)
    requires PlainKey(key)
    ensures '=' !in key
  {
  }

  /** A value that survives being written and read back. */
  predicate PlainValue(value: string) {
    '\n' !in value && (value == "" || !IsSpace(value[|value| - 1]))
  }

  lemma EnvKeyIsPlain(key: string)
    requires IsEnvKey(key)
    ensures PlainKey(key) && '\n' !in key
  {
    assert IsEnvChar(key[0]);
  }

  /** A line starting with KEY= is an active line for that key. */
  lemma PrefixedIsActive(line: string, key: string)
    requires PlainKey(key) && key + "=" <= line
    ensures ActiveEntry(line).Some? && ActiveEntry(line).value.key == key
  {
    hide Index;
    assert line[0] == key[0];
    TrimRightKeeps(line, |key|);
    var t := TrimRight(line);
    assert TrimSpace(line) == t;
    assert key + "=" <= t;
    FirstEquals(t, key);
    assert t[..|key|] == key;
  }

  lemma EntryOfAssignment(key: string, value: string)
    requires PlainKey(key) && PlainValue(value)
    ensures ActiveEntry(key + "=" + value) == Some(Entry(key, value))
  {
    hide Index, TrimSpace, IsSpace;
    CutAssignment(key, value);
    assert (key + "=" + value)[0] == key[0];
  }

  /** What trimming leaves is part of the line, and trimmed. */
  lemma TrimSpaceFacts(line: string)
    ensures var t := TrimSpace(line);
            && (forall c | c in t :: c in line)
            && (t != "" ==> !IsSpace(t[0]) && !IsSpace(t[|t| - 1]))
  {
    hide TrimLeft, TrimRight, IsSpace;
    var l := TrimLeft(line);
    assert forall c | c in l :: c in line;
    assert TrimSpace(line) <= l;
  }

  /** What a reader gets can be written back: keys and values of active lines
      are plain. */
  lemma ActiveEntryIsPlain(line: string)
    requires '\n' !in line && ActiveEntry(line).Some?
    ensures var e := ActiveEntry(line).value; PlainKey(e.key) && PlainValue(e.value) && '\n' !in e.key
  {
    hide Index, TrimSpace, IsSpace;
    TrimSpaceFacts(line);
    var t := TrimSpace(line);
    var i := Index(t, "=");
    assert forall c | c in t[..i] || c in t[i + 1..] :: c in t;
    forall j | 0 <= j < i ensures t[j] != '=' {
      assert !OccursAt(t, "=", j);
      assert t[j..j + 1] == [t[j]];
    }
  }

  // ---- setEnvVal ----

  /** Every other key reads as before, by the first-match reader. */
  lemma {:induction false} SetKeepsFirstValues(lines: seq<string>, key: string, value: string, other: string)
    requires '=' !in key && '=' !in other && key != other
    ensures FirstValue(SetLine(lines, key + "=", value), other + "=") == FirstValue(lines, other + "=")
  {
    var written := key + "=" + value;
    if other + "=" <= DropCR(written) { OneKeyPerLine(written, key, other); }
    if lines == [] {
      assert [written][1..] == [];
    } else if key + "=" <= lines[0] {
      if other + "=" <= DropCR(lines[0]) { OneKeyPerLine(lines[0], key, other); }
      assert ([written] + lines[1..])[1..] == lines[1..];
    } else {
      SetKeepsFirstValues(lines[1..], key, value, other);
      assert SetLine(lines, key + "=", value)[1..] == SetLine(lines[1..], key + "=", value);
    }
  }

  /** And by the map readers. */
  lemma {:induction false} SetKeepsLookups(lines: seq<string>, key: string, value: string, other: string)
    requires PlainKey(key) && other != key
    ensures Lookup(SetLine(lines, key + "=", value), other) == Lookup(lines, other)
  {
    hide ActiveEntry;
    var written := key + "=" + value;
    PrefixedIsActive(written, key);
    if lines == [] {
      assert [written][1..] == [];
    } else if key + "=" <= lines[0] {
      PrefixedIsActive(lines[0], key);
      assert ([written] + lines[1..])[1..] == lines[1..];
    } else {
      SetKeepsLookups(lines[1..], key, value, other);
      assert SetLine(lines, key + "=", value)[1..] == SetLine(lines[1..], key + "=", value);
    }
  }

  /** The number of active lines for a key. */
  function CountKey(lines: seq<string>, key: string): nat {
    if lines == [] then 0
    else
      var first := ActiveEntry(lines[0]);
      (if first.Some? && first.value.key == key then 1 else 0) + CountKey(lines[1..], key)
  }

  lemma {:induction false} CountAndLookup(lines: seq<string>, key: string)
    ensures Lookup(lines, key).None? <==> CountKey(lines, key) == 0
  {
    hide ActiveEntry;
    if lines != [] { CountAndLookup(lines[1..], key); }
  }

  /** The lines after the first one that starts with the prefix. */
  function AfterFirst(lines: seq<string>, prefix: string): seq<string> {
    if lines == [] then []
    else if prefix <= lines[0] then lines[1..]
    else AfterFirst(lines[1..], prefix)
  }

  /** The last assignment wins for the map readers, so a value just written is
      read back exactly when no later line for the key overrides it. */
  lemma {:induction false} SetThenLookup(lines: seq<string>, key: string, value: string)
    requires PlainKey(key) && PlainValue(value)
    ensures var later := Lookup(AfterFirst(lines, key + "="), key);
            Lookup(SetLine(lines, key + "=", value), key) == if later.Some? then later else Some(value)
  {
    hide ActiveEntry;
    var written := key + "=" + value;
    EntryOfAssignment(key, value);
    if lines == [] {
      assert [written][1..] == [];
    } else if key + "=" <= lines[0] {
      assert ([written] + lines[1..])[1..] == lines[1..];
    } else {
      SetThenLookup(lines[1..], key, value);
      assert SetLine(lines, key + "=", value)[1..] == SetLine(lines[1..], key + "=", value);
    }
  }

  /** With at most one active line nothing overrides it. */
  lemma {:induction false} NothingLater(lines: seq<string>, key: string)
    requires PlainKey(key) && CountKey(lines, key) <= 1
    ensures Lookup(AfterFirst(lines, key + "="), key).None?
  {
    hide ActiveEntry;
    if lines == [] {
    } else if key + "=" <= lines[0] {
      PrefixedIsActive(lines[0], key);
      CountAndLookup(lines[1..], key);
    } else {
      NothingLater(lines[1..], key);
    }
  }

  /** The put/get law of setEnvVal on a whole file. */
  lemma SetEnvValLaw(content: string, key: string, value: string, other: string)
    requires '=' !in key && '\n' !in key && PlainValue(value)
    ensures FirstValue(Lines(SetContent(content, key, value)), key + "=") == value
    ensures '=' !in other && other != key ==>
            FirstValue(Lines(SetContent(content, key, value)), other + "=") == FirstValue(Lines(content), other + "=")
    ensures PlainKey(key) && other != key ==>
            Lookup(Lines(SetContent(content, key, value)), other) == Lookup(Lines(content), other)
    ensures PlainKey(key) && CountKey(Lines(content), key) <= 1 ==>
            Lookup(Lines(SetContent(content, key, value)), key) == Some(value)
  {
    hide SetContent, FirstValue, Lookup, CountKey, SetLine, AfterFirst;
    GetAfterSet(content, key, value);
    LinesOfSet(content, key, value);
    var lines := Lines(content);
    if '=' !in other && other != key { SetKeepsFirstValues(lines, key, value, other); }
    if PlainKey(key) && other != key { SetKeepsLookups(lines, key, value, other); }
    if PlainKey(key) && CountKey(lines, key) <= 1 { SetThenLookup(lines, key, value); NothingLater(lines, key); }
  }

  /** The text of setEnvVal: the first line of the key is replaced where it stands, or
      one line is added at the end, and every other line stays as it is. */
  lemma {:induction false} SetLineAt(lines: seq<string>, key: string, value: string) returns (k: nat)
    ensures k <= |lines| && (forall i | 0 <= i < k :: !(key + "=" <= lines[i]))
    ensures k < |lines| ==>
              key + "=" <= lines[k] && SetLine(lines, key + "=", value) == lines[k := key + "=" + value]
    ensures k == |lines| ==> SetLine(lines, key + "=", value) == lines + [key + "=" + value]
  {
    var written := key + "=" + value;
    if lines == [] || key + "=" <= lines[0] {
      k := 0;
      assert lines != [] ==> [written] + lines[1..] == lines[0 := written];
    } else {
      k := SetLineAt(lines[1..], key, value);
      var rest := SetLine(lines[1..], key + "=", value);
      assert lines == [lines[0]] + lines[1..];
      if k < |lines[1..]| {
        assert [lines[0]] + lines[1..][k := written] == lines[k + 1 := written];
      } else {
        assert [lines[0]] + (lines[1..] + [written]) == lines + [written];
      }
      k := k + 1;
    }
  }

  // ---- removeEnvVals ----

  /** The key a line mentions, active or commented out. */
  function Mentioned(line: string): Option<string> {
    var t := TrimSpace(line);
    var part := if t != "" && t[0] == '#' then TrimSpace(t[1..]) else t;
    var i := Index(part, "=");
    if i > 0 then Some(part[..i]) else None
  }

  predicate Removed(line: string, keys: set<string>) {
    Mentioned(line).Some? && Mentioned(line).value in keys
  }

  function Kept(lines: seq<string>, keys: set<string>): (kept: seq<string>)
    ensures |kept| <= |lines|
  {
    if lines == [] then []
    else if Removed(lines[0], keys) then Kept(lines[1..], keys)
    else [lines[0]] + Kept(lines[1..], keys)
  }

  lemma {:induction false} KeptAreLines(lines: seq<string>, keys: set<string>)
    ensures forall l | l in Kept(lines, keys) :: l in lines && !Removed(l, keys)
  {
    hide Removed;
    if lines != [] { KeptAreLines(lines[1..], keys); }
  }

  lemma {:induction false} KeptSnoc(lines: seq<string>, line: string, keys: set<string>)
    ensures Kept(lines + [line], keys) == Kept(lines, keys) + if Removed(line, keys) then [] else [line]
  {
    hide Removed;
    if lines == [] {
      assert lines + [line] == [line] && [line][1..] == [];
    } else {
      assert (lines + [line])[1..] == lines[1..] + [line];
      KeptSnoc(lines[1..], line, keys);
    }
  }

  method RemoveEnvVals(content: string, keys: set<string>) returns (out: string, removed: nat)
    ensures out == Join(Kept(Lines(content), keys), '\n')
    ensures removed == |Lines(content)| - |Kept(Lines(content), keys)|
  {
    hide TrimSpace, Index, Kept, Join;
    var lines := Lines(content);
    var kept: seq<string> := [];
    removed := 0;
    var i := 0;
    assert Kept([], keys) == [];
    while i < |lines|
      invariant 0 <= i <= |lines|
      invariant kept == Kept(lines[..i], keys) && removed == i - |kept|
    {
      var part := TrimSpace(lines[i]);
      if part != "" && part[0] == '#' {
        part := TrimSpace(part[1..]);
      }
      var idx := Index(part, "=");
      KeptSnoc(lines[..i], lines[i], keys);
      assert lines[..i + 1] == lines[..i] + [lines[i]];
      if idx > 0 && part[..idx] in keys {
        removed := removed + 1;
      } else {
        kept := kept + [lines[i]];
      }
      i := i + 1;
    }
    assert lines[..i] == lines;
    out := Join(kept, '\n');
  }

  lemma ActiveIsMentioned(line: string)
    requires ActiveEntry(line).Some?
    ensures Mentioned(line) == Some(ActiveEntry(line).value.key)
  {
    hide TrimSpace, Index;
  }

  lemma {:induction false} KeptLookups(lines: seq<string>, keys: set<string>, key: string)
    ensures Lookup(Kept(lines, keys), key) == if key in keys then None else Lookup(lines, key)
  {
    hide ActiveEntry, Mentioned;
    if lines != [] {
      KeptLookups(lines[1..], keys, key);
      if ActiveEntry(lines[0]).Some? { ActiveIsMentioned(lines[0]); }
      var rest := Kept(lines[1..], keys);
      assert ([lines[0]] + rest)[1..] == rest;
    }
  }

  lemma {:induction false} KeptFirstValues(lines: seq<string>, keys: set<string>, key: string)
    requires PlainKey(key)
    ensures FirstValue(Kept(lines, keys), key + "=") == if key in keys then "" else FirstValue(lines, key + "=")
  {
    hide ActiveEntry, Mentioned;
    if lines != [] {
      KeptFirstValues(lines[1..], keys, key);
      if key + "=" <= DropCR(lines[0]) {
        PrefixedIsActive(lines[0], key);
        ActiveIsMentioned(lines[0]);
      }
      var rest := Kept(lines[1..], keys);
      assert ([lines[0]] + rest)[1..] == rest;
    }
  }

  lemma LinesOfJoin(parts: seq<string>)
    requires forall i | 0 <= i < |parts| :: '\n' !in parts[i]
    ensures Lines(Join(parts, '\n')) == if parts == [] then [""] else parts
  {
    if parts != [] { SplitJoin(parts, '\n'); }
  }

  /** Removed keys are gone for every reader and all other keys read as before. */
  lemma RemoveEnvValsLaw(content: string, keys: set<string>, key: string)
    ensures var out := Join(Kept(Lines(content), keys), '\n');
            && Lookup(Lines(out), key) == (if key in keys then None else Lookup(Lines(content), key))
            && (PlainKey(key) ==>
                FirstValue(Lines(out), key + "=") == if key in keys then "" else FirstValue(Lines(content), key + "="))
  {
    hide Removed, Kept, Lookup, FirstValue, PlainKey, Join;
    var lines := Lines(content);
    var kept := Kept(lines, keys);
    KeptAreLines(lines, keys);
    forall i | 0 <= i < |kept| ensures '\n' !in kept[i] { assert kept[i] in lines; }
    LinesOfJoin(kept);
    KeptLookups(lines, keys, key);
    if PlainKey(key) { KeptFirstValues(lines, keys, key); }
    OneEmptyLine(key);
  }

  lemma OneEmptyLine(key: string)
    ensures Lookup([""], key) == Lookup([], key) && FirstValue([""], key + "=") == FirstValue([], key + "=")
  {
    hide ActiveEntry, DropCR;
    EmptyLine();
    assert [""][1..] == [];
    assert DropCR("") == "" by { NoCR(); }
    assert FirstValue([], key + "=") == "";
    assert FirstValue([""], key + "=") == "";
  }

  lemma NoCR()
    ensures DropCR("") == ""
  {
  }
}
