/** writeEnvPatched: an .env file rewritten with some of its values replaced. */
module EnvPatch {
  import opened GoStrings
  import opened EnvStore
  import opened EnvWrites

  type Overrides = map<string, string>

  ghost predicate PlainValues(overrides: Overrides) {
    forall k | k in overrides :: PlainValue(overrides[k])
  }

  function PatchLine(line: string, overrides: Overrides): string {
    match ActiveEntry(line)
    case Some(e) => if e.key in overrides then e.key + "=" + overrides[e.key] else line
    case None => line
  }

  function Patched(lines: seq<string>, overrides: Overrides): seq<string> {
    seq(|lines|, i requires 0 <= i < |lines| => PatchLine(lines[i], overrides))
  }

  function PatchContent(original: string, overrides: Overrides): string {
    var content := Join(Patched(Lines(original), overrides), '\n');
    if HasSuffix(content, "\n") then content else content + "\n"
  }

  method WriteEnvPatched(original: string, overrides: Overrides) returns (out: string)
    ensures out == PatchContent(original, overrides)
  {
    hide TrimSpace, Index, Join, HasSuffix;
    var lines := Lines(original);
    ghost var before := lines;
    var i := 0;
    while i < |lines|
      invariant 0 <= i <= |lines| == |before|
      invariant forall j | 0 <= j < i :: lines[j] == PatchLine(before[j], overrides)
      invariant forall j | i <= j < |lines| :: lines[j] == before[j]
    {
      var trimmed := TrimSpace(lines[i]);
      if trimmed != "" && trimmed[0] != '#' {
        var idx := Index(trimmed, "=");
        if idx > 0 && trimmed[..idx] in overrides {
          lines := lines[i := trimmed[..idx] + "=" + overrides[trimmed[..idx]]];
        }
      }
      i := i + 1;
    }
    assert lines == Patched(before, overrides);
    out := Join(lines, '\n');
    if !HasSuffix(out, "\n") {
      out := out + "\n";
    }
  }

  // ---- The lines of the patched file ----

  lemma PatchLineIsPlain(line: string, overrides: Overrides)
    requires '\n' !in line && PlainValues(overrides)
    ensures '\n' !in PatchLine(line, overrides)
  {
    hide ActiveEntry;
    if ActiveEntry(line).Some? { ActiveEntryIsPlain(line); }
  }

  lemma LinesOfPatch(original: string, overrides: Overrides)
    requires PlainValues(overrides)
    ensures var lines := Patched(Lines(original), overrides);
            Lines(PatchContent(original, overrides)) in {lines, lines + [""]}
  {
    hide PatchLine, Join, Split;
    var lines := Patched(Lines(original), overrides);
    forall i | 0 <= i < |lines| ensures '\n' !in lines[i] { PatchLineIsPlain(Lines(original)[i], overrides); }
    SplitJoin(lines, '\n');
    SplitNewline(Join(lines, '\n'));
  }

  /** What a patched line assigns. */
  lemma EntryOfPatched(line: string, overrides: Overrides)
    requires '\n' !in line && PlainValues(overrides)
    ensures var patched := PatchLine(line, overrides);
            match ActiveEntry(line)
            case None => ActiveEntry(patched).None?
            case Some(e) =>
              ActiveEntry(patched) == Some(Entry(e.key, if e.key in overrides then overrides[e.key] else e.value))
  {
    hide ActiveEntry;
    if ActiveEntry(line).Some? {
      var e := ActiveEntry(line).value;
      ActiveEntryIsPlain(line);
      if e.key in overrides { EntryOfAssignment(e.key, overrides[e.key]); }
    }
  }

  lemma {:induction false} PatchedLookup(lines: seq<string>, overrides: Overrides, key: string)
    requires (forall i | 0 <= i < |lines| :: '\n' !in lines[i]) && PlainValues(overrides)
    ensures var before := Lookup(lines, key);
            Lookup(Patched(lines, overrides), key) ==
              if before.Some? && key in overrides then Some(overrides[key]) else before
  {
    hide ActiveEntry, PatchLine, PlainValues;
    if lines != [] {
      EntryOfPatched(lines[0], overrides);
      PatchedLookup(lines[1..], overrides, key);
      assert Patched(lines, overrides)[1..] == Patched(lines[1..], overrides);
    }
  }

  /** A first match in a patched line. */
  lemma PrefixOfPatched(line: string, overrides: Overrides, key: string)
    requires '\n' !in line && PlainValues(overrides) && PlainKey(key)
    ensures var patched := PatchLine(line, overrides);
            if key in overrides then
              if ActiveEntry(line).Some? && ActiveEntry(line).value.key == key then
                patched == DropCR(patched) == key + "=" + overrides[key]
              else !(key + "=" <= DropCR(patched))
            else (key + "=" <= DropCR(patched) || key + "=" <= DropCR(line) ==> patched == line)
  {
    hide ActiveEntry;
    var patched := PatchLine(line, overrides);
    EntryOfPatched(line, overrides);
    if key + "=" <= DropCR(patched) { PrefixedIsActive(patched, key); }
    if key + "=" <= DropCR(line) { PrefixedIsActive(line, key); }
  }

  lemma {:induction false} PatchedFirstValue(lines: seq<string>, overrides: Overrides, key: string)
    requires (forall i | 0 <= i < |lines| :: '\n' !in lines[i]) && PlainValues(overrides) && PlainKey(key)
    ensures FirstValue(Patched(lines, overrides), key + "=") ==
            if key !in overrides then FirstValue(lines, key + "=")
            else if Lookup(lines, key).Some? then overrides[key] else ""
  {
    hide ActiveEntry, PatchLine, PlainValues, DropCR, PlainKey;
    if lines == [] {
    } else {
      PrefixOfPatched(lines[0], overrides, key);
      PatchedFirstValue(lines[1..], overrides, key);
      CountAndLookup(lines[1..], key);
      assert Patched(lines, overrides)[1..] == Patched(lines[1..], overrides);
      assert (key + "=" + (if key in overrides then overrides[key] else ""))[|key + "="|..] ==
        if key in overrides then overrides[key] else "";
    }
  }

  /** Reading the patched file gives the original keys, each with its override
      where there is one, by both readers. */
  lemma WriteEnvPatchedLaw(original: string, overrides: Overrides, key: string)
    requires PlainValues(overrides)
    ensures var out := PatchContent(original, overrides);
            var before := Lookup(Lines(original), key);
            Lookup(Lines(out), key) == if before.Some? && key in overrides then Some(overrides[key]) else before
    ensures var first := FirstValue(Lines(PatchContent(original, overrides)), key + "=");
            PlainKey(key) ==> first == if key !in overrides then FirstValue(Lines(original), key + "=")
                                       else if Lookup(Lines(original), key).Some? then overrides[key] else ""
  {
    hide ActiveEntry, PatchLine, PlainValues, PatchContent, DropCR, PlainKey;
    var lines := Lines(original);
    var patched := Patched(lines, overrides);
    LinesOfPatch(original, overrides);
    PatchedLookup(lines, overrides, key);
    EmptyLine();
    LookupAppend(patched, [""], key);
    assert [""][1..] == [];
    if PlainKey(key) {
      PatchedFirstValue(lines, overrides, key);
      FirstValueOfInit(patched, key + "=");
    }
  }

  /** The text of the patched file: the active lines of overridden keys are rewritten
      where they stand, every other line is as it was, and the file ends in a newline. */
  lemma PatchedText(original: string, overrides: Overrides, i: nat)
    requires PlainValues(overrides) && i < |Lines(original)|
    ensures var before, after := Lines(original), Lines(PatchContent(original, overrides));
            var e := ActiveEntry(before[i]);
            && |before| <= |after| <= |before| + 1
            && after[i] == (if e.Some? && e.value.key in overrides then e.value.key + "=" + overrides[e.value.key]
                            else before[i])
            && (|after| > |before| ==> after[|before|] == "")
            && PatchContent(original, overrides) != ""
            && PatchContent(original, overrides)[|PatchContent(original, overrides)| - 1] == '\n'
  {
    hide ActiveEntry, PlainValues, Split, Join;
    LinesOfPatch(original, overrides);
    var content := Join(Patched(Lines(original), overrides), '\n');
    if HasSuffix(content, "\n") { assert content[|content| - 1..][0] == '\n'; }
    assert PatchLine(Lines(original)[i], overrides) == Patched(Lines(original), overrides)[i];
  }

  // ---- Patching with what was read ----

  lemma {:induction false} MapIsPlain(lines: seq<string>)
    requires forall i | 0 <= i < |lines| :: '\n' !in lines[i]
    ensures PlainValues(MapOf(lines)) && forall k | k in MapOf(lines) :: PlainKey(k) && '\n' !in k
  {
    hide ActiveEntry, PlainKey, PlainValue;
    if lines != [] {
      MapIsPlain(lines[..|lines| - 1]);
      var last := lines[|lines| - 1];
      if ActiveEntry(last).Some? { ActiveEntryIsPlain(last); }
    }
  }

  /** parseEnvBytes of writeEnvPatched's output is the map that was written:
      the original keys, every one with its override. */
  lemma ParseOfPatched(original: string, overrides: Overrides)
    requires PlainValues(overrides) && MapOf(Lines(original)).Keys <= overrides.Keys
    ensures var m := MapOf(Lines(PatchContent(original, overrides)));
            m.Keys == MapOf(Lines(original)).Keys && forall k | k in m :: m[k] == overrides[k]
  {
    hide MapOf, Lookup, PatchContent, FirstValue;
    forall k: string
      ensures var m := MapOf(Lines(PatchContent(original, overrides)));
              (k in m <==> k in MapOf(Lines(original))) && (k in m ==> m[k] == overrides[k])
    {
      WriteEnvPatchedLaw(original, overrides, k);
      MapIsLookup(Lines(original), k);
      MapIsLookup(Lines(PatchContent(original, overrides)), k);
    }
  }
}
