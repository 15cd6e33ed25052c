/** Filling in defaults twice, and what it leaves alone. */
module EnvDefaultsLaws {
  import opened GoStrings
  import opened EnvStore
  import opened EnvWrites
  import opened EnvDefaults

  /** What overrides a value written by setEnvVal: the last active line for the
      key after its first plain one. */
  function Later(lines: seq<string>, key: string): Option<string> {
    Lookup(AfterFirst(lines, key + "="), key)
  }

  // ---- Appending lines ----

  lemma {:induction false} LaterIsLast(lines: seq<string>, key: string)
    ensures Later(lines, key).Some? ==> Lookup(lines, key) == Later(lines, key)
  {
    hide ActiveEntry;
    if lines != [] && !(key + "=" <= lines[0]) { LaterIsLast(lines[1..], key); }
  }

  /** Lines that do not assign the key change nothing for it. */
  lemma {:induction false} LaterAppend(a: seq<string>, b: seq<string>, key: string)
    requires PlainKey(key) && Lookup(b, key).None?
    ensures Later(a + b, key) == Later(a, key)
  {
    hide ActiveEntry;
    if a == [] {
      assert a + b == b;
      LaterIsLast(b, key);
    } else {
      assert (a + b)[1..] == a[1..] + b;
      if key + "=" <= a[0] { LookupAppend(a[1..], b, key); } else { LaterAppend(a[1..], b, key); }
    }
  }

  lemma BlankLine(lines: seq<string>, key: string)
    ensures Lookup(lines + [""], key) == Lookup(lines, key) && Known(lines + [""]) == Known(lines)
    ensures PlainKey(key) ==> Later(lines + [""], key) == Later(lines, key)
  {
    hide ActiveEntry, KnownKey, Known, PlainKey, Later;
    EmptyLine();
    assert [""][1..] == [];
    assert Lookup([""], key).None?;
    LookupAppend(lines, [""], key);
    KnownSnoc(lines, "");
    if PlainKey(key) { LaterAppend(lines, [""], key); }
  }

  lemma {:induction false} LinesOfUnlines(lines: seq<string>)
    requires forall i | 0 <= i < |lines| :: '\n' !in lines[i]
    ensures Lines(Unlines(lines)) == lines + [""]
  {
    if lines != [] {
      LinesOfUnlines(lines[1..]);
      SplitWordThenMore(lines[0], Unlines(lines[1..]), '\n');
      assert lines[0] + ['\n'] + Unlines(lines[1..]) == Unlines(lines);
      assert lines + [""] == [lines[0]] + (lines[1..] + [""]);
    }
  }

  /** The lines after appending, up to a blank line. */
  lemma LinesOfAppend(content: string, block: seq<string>) returns (base: seq<string>)
    requires forall i | 0 <= i < |block| :: '\n' !in block[i]
    ensures Lines(Terminated(content) + Unlines(block)) == base + block + [""]
    ensures Lines(content) == base || Lines(content) == base + [""]
  {
    hide Split, Unlines;
    LinesOfUnlines(block);
    var t := Terminated(content);
    TerminatedEnds(content);
    SplitAfterTerminated(t, Unlines(block));
    SplitTerminated(t);
    var parts := Split(t, '\n');
    base := parts[..|parts| - 1];
    assert parts == base + [""];
    assert base + (block + [""]) == base + block + [""];
    if t != content {
      SplitNewline(content);
    }
  }

  lemma TerminatedEnds(content: string)
    ensures var t := Terminated(content); t == "" || t[|t| - 1] == '\n'
    ensures Terminated(content) == content || Terminated(content) == content + "\n"
  {
    if content != "" && HasSuffix(content, "\n") { assert content[|content| - 1..][0] == '\n'; }
  }

  // ---- The appended block ----

  function Block(add: seq<Default>, optional: bool, stamp: string): seq<string> {
    ["", BANNER + stamp] + AddedLines(add, optional, "")
  }

  lemma CommentIsInactive(line: string)
    requires line != "" && line[0] == '#'
    ensures ActiveEntry(line).None?
  {
    TrimRightKeeps(line, 0);
  }

  lemma EntryOfAdded(d: Default, optional: bool)
    requires IsEnvKey(d.key) && PlainValue(d.value)
    ensures ActiveEntry(AddedLine(d, optional)) == if Assigned(d, optional) then Some(Entry(d.key, d.value)) else None
  {
    EnvKeyIsPlain(d.key);
    hide ActiveEntry;
    var text := d.key + "=" + d.value;
    assert "" + text == text;
    EntryOfAssignment(d.key, d.value);
    if !Assigned(d, optional) { CommentIsInactive("# " + text); }
  }

  lemma LookupCons(line: string, rest: seq<string>, key: string)
    ensures Lookup([line] + rest, key) ==
            if Lookup(rest, key).Some? then Lookup(rest, key)
            else match ActiveEntry(line) case Some(e) => (if e.key == key then Some(e.value) else None)
              case None => None
  {
    hide ActiveEntry;
    assert ([line] + rest)[1..] == rest;
  }

  lemma LookupTitled(section: string, line: string, rest: seq<string>, key: string)
    ensures Lookup(["", "# " + section, line] + rest, key) == Lookup([line] + rest, key)
  {
    hide ActiveEntry, Lookup;
    var title := "# " + section;
    assert title[0] == '#';
    CommentIsInactive(title);
    EmptyLine();
    LookupCons(title, [line] + rest, key);
    LookupCons("", [title] + ([line] + rest), key);
    assert ["", title, line] + rest == [""] + ([title] + ([line] + rest));
  }

  /** The block assigns exactly the assigned defaults. */
  lemma {:induction false} AddedLookup(add: seq<Default>, optional: bool, lastSection: string, key: string)
    requires WellFormed(add)
    ensures var v := Lookup(AddedLines(add, optional, lastSection), key);
            && (v.Some? ==> exists d :: d in add && d.key == key && Assigned(d, optional) && v == Some(d.value))
            && (v.None? ==> forall d | d in add && d.key == key :: !Assigned(d, optional))
  {
    hide ActiveEntry, Assigned, Lookup, AddedLine, IsEnvKey, PlainValue;
    if add == [] {
      EmptyViews(optional, key);
    } else {
      var d := add[0];
      var titled := d.section != "" && d.section != lastSection;
      var rest := AddedLines(add[1..], optional, if titled then d.section else lastSection);
      AddedLookup(add[1..], optional, if titled then d.section else lastSection, key);
      var line := AddedLine(d, optional);
      assert d in add;
      EntryOfAdded(d, optional);
      LookupCons(line, rest, key);
      if titled {
        LookupTitled(d.section, line, rest, key);
      }
      assert forall e | e in add :: e == d || e in add[1..];
    }
  }

  lemma BlockLookup(add: seq<Default>, optional: bool, stamp: string, key: string)
    ensures Lookup(Block(add, optional, stamp), key) == Lookup(AddedLines(add, optional, ""), key)
  {
    hide ActiveEntry, Lookup, AddedLines;
    var banner := BANNER + stamp;
    assert banner[0] == '#';
    CommentIsInactive(banner);
    EmptyLine();
    LookupCons(banner, AddedLines(add, optional, ""), key);
    LookupCons("", [banner] + AddedLines(add, optional, ""), key);
    assert Block(add, optional, stamp) == [""] + ([banner] + AddedLines(add, optional, ""));
  }

  lemma ActiveIsKnown(line: string)
    requires ActiveEntry(line).Some? && IsEnvKey(ActiveEntry(line).value.key)
    ensures KnownKey(line) == Some(ActiveEntry(line).value.key)
  {
    hide TrimSpace, Index;
  }

  lemma KnownOfAdded(d: Default, optional: bool)
    requires IsEnvKey(d.key) && PlainValue(d.value)
    ensures KnownKey(AddedLine(d, optional)) == Some(d.key)
  {
    hide Index;
    EntryOfAdded(d, optional);
    var text := d.key + "=" + d.value;
    assert "" + text == text;
    if Assigned(d, optional) {
      hide ActiveEntry;
      ActiveIsKnown(text);
    } else {
      CommentedIsKnown(d.key, d.value);
    }
  }

  lemma CommentedIsKnown(key: string, value: string)
    requires IsEnvKey(key) && PlainValue(value)
    ensures KnownKey("# " + (key + "=" + value)) == Some(key)
  {
    hide Index, TrimSpace, TrimLeft, TrimRight;
    var text := key + "=" + value;
    var line := "# " + text;
    EnvKeyIsPlain(key);
    assert line[0] == '#' && line[1] == ' ' && line[2..] == text && text[0] == key[0];
    assert TrimSpace(line) == line by {
      assert !IsSpace('=') && !IsSpace('#');
      assert line[|line| - 1] == if value == "" then '=' else value[|value| - 1];
      hide IsSpace;
      TrimSpaceOfTrimmed(line);
    }
    assert TrimLeftSpaces(line[1..]) == text by { assert line[1..][1..] == text; assert text[0] != ' '; }
    FirstEquals(text, key);
    assert text[..|key|] == key;
  }

  lemma {:induction false} AddedKnown(add: seq<Default>, optional: bool, lastSection: string, d: Default)
    requires WellFormed(add) && d in add
    ensures d.key in Known(AddedLines(add, optional, lastSection))
  {
    hide KnownKey, AddedLine, Known;
    var first := add[0];
    var titled := first.section != "" && first.section != lastSection;
    var rest := AddedLines(add[1..], optional, if titled then first.section else lastSection);
    var line := AddedLine(first, optional);
    var header := if titled then ["", "# " + first.section] else [];
    assert AddedLines(add, optional, lastSection) == (header + [line]) + rest;
    KnownAppend(header + [line], rest);
    KnownSnoc(header, line);
    if d == first {
      KnownOfAdded(d, optional);
    } else {
      AddedKnown(add[1..], optional, if titled then first.section else lastSection, d);
    }
  }

  lemma {:induction false} AddedArePlain(add: seq<Default>, optional: bool, lastSection: string)
    requires WellFormed(add)
    ensures forall l | l in AddedLines(add, optional, lastSection) :: '\n' !in l
  {
    hide IsEnvKey, PlainValue;
    if add != [] {
      var d := add[0];
      EnvKeyIsPlain(d.key);
      assert '\n' !in d.value by { assert PlainValue(d.value); PlainValueIsOneLine(d.value); }
      assert '\n' !in AddedLine(d, optional);
      AddedArePlain(add[1..], optional, if d.section != "" && d.section != lastSection then d.section else lastSection);
    }
  }

  lemma PlainValueIsOneLine(value: string)
    requires PlainValue(value)
    ensures '\n' !in value
  {
  }

  /** What appending the defaults does to a reader of one key. */
  lemma AfterAdding(content: string, add: seq<Default>, optional: bool, stamp: string, key: string)
    requires WellFormed(add) && '\n' !in stamp
    ensures var before, after := Lines(content), Lines(AddContent(content, add, optional, stamp));
            var added := Lookup(AddedLines(add, optional, ""), key);
            && Lookup(after, key) == (if added.Some? then added else Lookup(before, key))
            && Known(after) >= Known(before) + Known(AddedLines(add, optional, ""))
            && (PlainKey(key) && added.None? ==> Later(after, key) == Later(before, key))
  {
    hide Lookup, Known, Later, AddedLines, Unlines, Terminated, PlainKey, Lines;
    var added := AddedLines(add, optional, "");
    assert add == [] ==> added == [] && Lookup([], key).None? && Known([]) == {} by {
      if add == [] { EmptyViews(optional, key); }
    }
    if add != [] {
      var block := Block(add, optional, stamp);
      AddedArePlain(add, optional, "");
      BannerIsPlain(stamp);
      var base := LinesOfAppend(content, block);
      BlankLine(base, key);
      BlankLine(base + block, key);
      BlockLookup(add, optional, stamp, key);
      LookupAppend(base, block, key);
      KnownAppend(base, block);
      KnownAppend(["", BANNER + stamp], added);
      if PlainKey(key) && Lookup(added, key).None? { LaterAppend(base, block, key); }
    }
  }

  lemma EmptyViews(optional: bool, key: string)
    ensures AddedLines([], optional, "") == [] && Lookup([], key).None? && Known([]) == {}
  {
  }

  lemma BannerIsPlain(stamp: string)
    requires '\n' !in stamp
    ensures '\n' !in "" && '\n' !in BANNER + stamp
  {
  }

  // ---- Setting the empty ones ----

  lemma {:induction false} SetKeepsLater(lines: seq<string>, setKey: string, value: string, key: string)
    requires PlainKey(setKey) && PlainKey(key)
    ensures Later(SetLine(lines, setKey + "=", value), key) == Later(lines, key)
  {
    hide ActiveEntry;
    var written := setKey + "=" + value;
    if lines == [] {
      assert [written][1..] == [];
    } else {
      if setKey != key {
        if key + "=" <= written { OneKeyPerLine(written, setKey, key); }
        if key + "=" <= lines[0] && setKey + "=" <= lines[0] { OneKeyPerLine(lines[0], setKey, key); }
      }
      var after := SetLine(lines, setKey + "=", value);
      if setKey + "=" <= lines[0] {
        assert after[1..] == lines[1..];
      } else {
        assert after[1..] == SetLine(lines[1..], setKey + "=", value);
        if key + "=" <= lines[0] {
          SetKeepsLookups(lines[1..], setKey, value, key);
        } else {
          SetKeepsLater(lines[1..], setKey, value, key);
        }
      }
    }
  }

  lemma {:induction false} SetKeepsKnown(lines: seq<string>, key: string, value: string)
    requires IsEnvKey(key) && PlainValue(value)
    ensures Known(lines) <= Known(SetLine(lines, key + "=", value))
  {
    hide KnownKey, ActiveEntry, Known;
    EnvKeyIsPlain(key);
    var written := key + "=" + value;
    if lines == [] {
      assert Known(lines) == {} by { EmptyViews(false, key); }
    } else {
      assert lines == [lines[0]] + lines[1..];
      KnownAppend([lines[0]], lines[1..]);
      if key + "=" <= lines[0] {
        PrefixedIsActive(lines[0], key);
        ActiveIsKnown(lines[0]);
        PrefixedIsActive(written, key);
        ActiveIsKnown(written);
        KnownAppend([written], lines[1..]);
        KnownSnoc([], written);
        KnownSnoc([], lines[0]);
        assert [] + [written] == [written] && [] + [lines[0]] == [lines[0]];
      } else {
        SetKeepsKnown(lines[1..], key, value);
        KnownAppend([lines[0]], SetLine(lines[1..], key + "=", value));
      }
    }
  }

  /** After all of them, a key that was set has its value unless a later line
      overrides it, and every other key is as it was. */
  lemma {:induction false} AfterSetting(content: string, sets: seq<Default>, key: string)
    requires WellFormed(sets)
    requires forall d, e | d in sets && e in sets && d.key == e.key :: d == e
    requires IsEnvKey(key) || forall d | d in sets :: d.key != key
    ensures var before, after := Lines(content), Lines(SetAll(content, sets));
            && (forall d | d in sets && d.key == key ::
                Lookup(after, key) == if Later(before, key).Some? then Later(before, key) else Some(d.value))
            && ((forall d | d in sets :: d.key != key) ==> Lookup(after, key) == Lookup(before, key))
            && Known(after) >= Known(before)
    decreases |sets|
  {
    hide Lookup, Known, Later, IsEnvKey, PlainValue, SetContent, Lines, SetLine, AfterFirst;
    if sets != [] {
      var d := sets[0];
      var lines := Lines(content);
      assert d in sets;
      EnvKeyIsPlain(d.key);
      PlainValueIsOneLine(d.value);
      LinesOfSet(content, d.key, d.value);
      var next := SetContent(content, d.key, d.value);
      SetKeepsKnown(lines, d.key, d.value);
      AfterSetting(next, sets[1..], key);
      assert forall e | e in sets :: e == d || e in sets[1..];
      if key == d.key {
        AfterOneSet(lines, d, key);
      } else {
        SetKeepsLookups(lines, d.key, d.value, key);
        if IsEnvKey(key) {
          EnvKeyIsPlain(key);
          SetKeepsLater(lines, d.key, d.value, key);
        }
      }
    }
  }

  lemma AfterOneSet(lines: seq<string>, d: Default, key: string)
    requires IsEnvKey(key) && d.key == key && PlainValue(d.value)
    ensures var after := SetLine(lines, key + "=", d.value);
            Later(after, key) == Later(lines, key) && Lookup(after, key) ==
              if Later(lines, key).Some? then Later(lines, key) else Some(d.value)
  {
    hide SetLine, Lookup;
    EnvKeyIsPlain(key);
    SetKeepsLater(lines, key, d.value, key);
    SetThenLookup(lines, key, d.value);
  }

  // ---- The whole synchronisation ----

  lemma {:induction false} PlanMembers(lines: seq<string>, defs: seq<Default>)
    ensures forall d :: d in ToAdd(lines, defs) <==> d in defs && NeedsAdd(lines, d)
    ensures forall d :: d in ToSet(lines, defs) <==> d in defs && NeedsSet(lines, d)
  {
    hide NeedsAdd, NeedsSet;
    if defs != [] {
      var init, last := defs[..|defs| - 1], defs[|defs| - 1];
      PlanMembers(lines, init);
      assert forall d :: d in defs <==> d in init || d == last;
    }
  }

  /** Every reader of the synchronised file, key by key. */
  lemma AfterSync(content: string, defs: seq<Default>, optional: bool, stamp: string, key: string)
    requires WellFormed(defs) && '\n' !in stamp
    requires var sets := ToSet(Lines(content), defs); forall d, e | d in sets && e in sets && d.key == e.key :: d == e
    ensures var before, after := Lines(content), Lines(Synced(content, defs, optional, stamp));
            var add, sets := ToAdd(before, defs), ToSet(before, defs);
            var added := Lookup(AddedLines(add, optional, ""), key);
            && (added.None? && (forall d | d in sets :: d.key != key) ==> Lookup(after, key) == Lookup(before, key))
            && (added.Some? && (forall d | d in sets :: d.key != key) ==> Lookup(after, key) == added)
            && (added.None? ==> forall d | d in sets && d.key == key ::
                  Lookup(after, key) == if Later(before, key).Some? then Later(before, key) else Some(d.value))
            && Known(after) >= Known(before) + Known(AddedLines(add, optional, ""))
  {
    var before := Lines(content);
    var add, sets := ToAdd(before, defs), ToSet(before, defs);
    PlanMembers(before, defs);
    assert WellFormed(add) && WellFormed(sets);
    hide Lookup, Known, Later, AddedLines, AddContent, Lines, SetAll, NeedsAdd, NeedsSet, ToAdd, ToSet, PlainKey,
      PlainValue, IsEnvKey;
    AfterAdding(content, add, optional, stamp, key);
    if IsEnvKey(key) { EnvKeyIsPlain(key); }
    AfterSetting(AddContent(content, add, optional, stamp), sets, key);
  }

  /** No value that is not blank to the map readers ever changes for them, for any
      key at all. */
  lemma ValuesAreKept(content: string, defs: seq<Default>, optional: bool, stamp: string, key: string)
    requires WellFormed(defs) && '\n' !in stamp
    requires forall d, e | d in defs && e in defs && d.key == e.key :: d == e
    requires !Blank(ActiveValue(Lines(content), key))
    ensures Lookup(Lines(Synced(content, defs, optional, stamp)), key) == Lookup(Lines(content), key)
  {
    var before := Lines(content);
    var add := ToAdd(before, defs);
    PlanMembers(before, defs);
    hide Lookup, Known, Later, AddedLines, Lines, Synced, ToAdd, ToSet, PlainValue, Blank, IsEnvKey;
    AfterSync(content, defs, optional, stamp, key);
    assert WellFormed(add);
    AddedLookup(add, optional, "", key);
    BlankEmpty();
    LookupIsKnown(before, key);
  }

  lemma BlankEmpty()
    ensures Blank("")
  {
  }

  /** An active key that looks like a variable is among the mentioned keys. */
  lemma {:induction false} LookupIsKnown(lines: seq<string>, key: string)
    ensures IsEnvKey(key) && Lookup(lines, key).Some? ==> key in Known(lines)
  {
    hide ActiveEntry, KnownKey, IsEnvKey, Known;
    if lines != [] {
      LookupIsKnown(lines[1..], key);
      assert lines == [lines[0]] + lines[1..];
      KnownAppend([lines[0]], lines[1..]);
      KnownSnoc([], lines[0]);
      assert [] + [lines[0]] == [lines[0]];
      if ActiveEntry(lines[0]).Some? && ActiveEntry(lines[0]).value.key == key && IsEnvKey(key) {
        ActiveIsKnown(lines[0]);
      }
    }
  }

  /** What one default still needs after a synchronisation: nothing, unless it was
      an empty required one that a later line keeps empty. */
  lemma NeedsAfterSync(content: string, defs: seq<Default>, optional: bool, stamp: string, d: Default)
    requires WellFormed(defs) && Consistent(defs) && '\n' !in stamp && d in defs
    ensures var before, after := Lines(content), Lines(Synced(content, defs, optional, stamp));
            !NeedsAdd(after, d) && (NeedsSet(after, d) <==> NeedsSet(before, d) && Later(before, d.key).Some?)
  {
    var before := Lines(content);
    var add, sets := ToAdd(before, defs), ToSet(before, defs);
    PlanMembers(before, defs);
    assert WellFormed(add) && IsEnvKey(d.key);
    hide Lookup, Known, Later, AddedLines, Lines, Synced, ToAdd, ToSet, PlainValue, Blank, IsEnvKey;
    AfterSync(content, defs, optional, stamp, d.key);
    AddedLookup(add, optional, "", d.key);
    LaterIsLast(before, d.key);
    if d in add { AddedKnown(add, optional, "", d); }
    BlankEmpty();
  }

  lemma EmptyOrInhabited(s: seq<Default>)
    ensures s == [] || exists d :: d in s
  {
    if s != [] { assert s[0] in s; }
  }

  /** A second synchronisation has nothing to do exactly when no empty required
      key is overridden by a later line of its own. */
  lemma SecondSyncIsIdle(content: string, defs: seq<Default>, optional: bool, stamp: string, again: seq<Default>)
    requires WellFormed(defs) && Consistent(defs) && '\n' !in stamp
    requires |again| == |defs| && forall i | 0 <= i < |defs| ::
             again[i].key == defs[i].key && again[i].active == defs[i].active
    ensures SyncCount(Synced(content, defs, optional, stamp), again) == 0
            <==> forall d | d in defs && NeedsSet(Lines(content), d) :: Later(Lines(content), d.key).None?
  {
    var before, after := Lines(content), Lines(Synced(content, defs, optional, stamp));
    PlanMembers(after, again);
    forall i | 0 <= i < |defs|
      ensures !NeedsAdd(after, again[i])
              && (NeedsSet(after, again[i]) <==> NeedsSet(before, defs[i]) && Later(before, defs[i].key).Some?)
    {
      NeedsAfterSync(content, defs, optional, stamp, defs[i]);
    }
    hide NeedsAdd, NeedsSet, Later, ToAdd, ToSet, Synced, Lines;
    EmptyOrInhabited(ToAdd(after, again));
    EmptyOrInhabited(ToSet(after, again));
    forall d | d in defs && NeedsSet(before, d) && Later(before, d.key).Some? ensures ToSet(after, again) != [] {
      var i :| 0 <= i < |defs| && defs[i] == d;
      assert again[i] in again;
      assert again[i] in ToSet(after, again);
    }
  }

  /** In particular when every required key has at most one active line. */
  lemma SecondSyncReturnsZero(content: string, defs: seq<Default>, optional: bool, stamp: string, again: seq<Default>)
    requires WellFormed(defs) && Consistent(defs) && '\n' !in stamp
    requires |again| == |defs| && forall i | 0 <= i < |defs| ::
             again[i].key == defs[i].key && again[i].active == defs[i].active
    requires forall d | d in defs && d.active :: CountKey(Lines(content), d.key) <= 1
    ensures SyncCount(Synced(content, defs, optional, stamp), again) == 0
  {
    hide IsEnvKey, CountKey, Lookup, AfterFirst, PlainValue, Lines, Synced, SyncCount;
    SecondSyncIsIdle(content, defs, optional, stamp, again);
    forall d | d in defs && NeedsSet(Lines(content), d) ensures Later(Lines(content), d.key).None? {
      EnvKeyIsPlain(d.key);
      NothingLater(Lines(content), d.key);
    }
  }
}
