/** Filling in defaults as the first-match reader sees it: a value that it reads
    can be lost, unlike one that the map readers read. */
module EnvDefaultsReaders {
  import opened GoStrings
  import opened EnvStore
  import opened EnvWrites
  import opened EnvDefaults
  import opened EnvDefaultsLaws

  // ---- Appending lines ----

  /** A value that is read stays the first, whatever comes behind it. */
  lemma {:induction false} FirstValueStays(a: seq<string>, b: seq<string>, prefix: string)
    requires FirstValue(a, prefix) != ""
    ensures FirstValue(a + b, prefix) == FirstValue(a, prefix)
  {
    hide DropCR;
    assert (a + b)[0] == a[0] && (a + b)[1..] == a[1..] + b;
    if !(prefix <= DropCR(a[0])) { FirstValueStays(a[1..], b, prefix); }
  }

  lemma FirstValueAfterAdding(content: string, add: seq<Default>, optional: bool, stamp: string, key: string)
    requires WellFormed(add) && '\n' !in stamp && FirstValue(Lines(content), key + "=") != ""
    ensures FirstValue(Lines(AddContent(content, add, optional, stamp)), key + "=")
         == FirstValue(Lines(content), key + "=")
  {
    hide FirstValue, AddedLines, Unlines, Terminated, Lines;
    if add != [] {
      var prefix := key + "=";
      var block := Block(add, optional, stamp);
      AddedArePlain(add, optional, "");
      BannerIsPlain(stamp);
      var base := LinesOfAppend(content, block);
      if Lines(content) != base { FirstValueOfInit(base, prefix); }
      FirstValueStays(base, block + [""], prefix);
      assert base + (block + [""]) == base + block + [""];
    }
  }

  // ---- Setting the empty ones ----

  lemma {:induction false} FirstValueAfterSetting(content: string, sets: seq<Default>, key: string)
    requires WellFormed(sets) && '=' !in key
    requires forall d, e | d in sets && e in sets && d.key == e.key :: d == e
    ensures var before, after := Lines(content), Lines(SetAll(content, sets));
            && (forall d | d in sets && d.key == key :: FirstValue(after, key + "=") == d.value)
            && ((forall d | d in sets :: d.key != key) ==>
                  FirstValue(after, key + "=") == FirstValue(before, key + "="))
    decreases |sets|
  {
    hide FirstValue, IsEnvKey, PlainValue, SetContent, Lines, SetLine;
    if sets != [] {
      var d := sets[0];
      assert d in sets;
      EnvKeyIsPlain(d.key);
      PlainValueIsOneLine(d.value);
      LinesOfSet(content, d.key, d.value);
      FirstValueAfterSetting(SetContent(content, d.key, d.value), sets[1..], key);
      assert forall e | e in sets :: e == d || e in sets[1..];
      if d.key == key {
        assert d.value == "" || d.value[|d.value| - 1] != '\r' by { PlainValueHasNoCR(d.value); }
        GetAfterSet(content, key, d.value);
      } else {
        assert '=' !in d.key by { PlainKeyHasNoEquals(d.key); }
        SetKeepsFirstValues(Lines(content), d.key, d.value, key);
      }
    }
  }

  lemma PlainValueHasNoCR(value: string)
    requires PlainValue(value)
    ensures value == "" || value[|value| - 1] != '\r'
  {
  }

  // ---- The whole synchronisation ----

  /** What the first-match reader gets for a key it read before: the default of a
      required entry that the map readers found empty, else what it read. */
  lemma FirstValueAfterSync(content: string, defs: seq<Default>, optional: bool, stamp: string, key: string)
    requires WellFormed(defs) && '\n' !in stamp && '=' !in key
    requires forall d, e | d in defs && e in defs && d.key == e.key :: d == e
    requires FirstValue(Lines(content), key + "=") != ""
    ensures var before, after := Lines(content), Lines(Synced(content, defs, optional, stamp));
            && (forall d | d in defs && d.key == key && NeedsSet(before, d) :: FirstValue(after, key + "=") == d.value)
            && ((forall d | d in defs && d.key == key :: !NeedsSet(before, d)) ==>
                  FirstValue(after, key + "=") == FirstValue(before, key + "="))
  {
    var before := Lines(content);
    var add, sets := ToAdd(before, defs), ToSet(before, defs);
    PlanMembers(before, defs);
    assert WellFormed(add) && WellFormed(sets);
    hide Lines, SetAll, AddContent, NeedsAdd, NeedsSet, ToAdd, ToSet, FirstValue, WellFormed;
    FirstValueAfterAdding(content, add, optional, stamp, key);
    FirstValueAfterSetting(AddContent(content, add, optional, stamp), sets, key);
  }

  /** Over every file and registry, a value that the first-match reader gets is
      kept exactly when no required default is written over it, or only itself. */
  lemma FirstValuesAreKept(content: string, defs: seq<Default>, optional: bool, stamp: string, key: string)
    requires WellFormed(defs) && '\n' !in stamp && '=' !in key
    requires forall d, e | d in defs && e in defs && d.key == e.key :: d == e
    requires !Blank(FirstValue(Lines(content), key + "="))
    ensures var value := FirstValue(Lines(content), key + "=");
            FirstValue(Lines(Synced(content, defs, optional, stamp)), key + "=") == value
            <==> forall d | d in defs && d.key == key && NeedsSet(Lines(content), d) :: d.value == value
  {
    hide Lines, Synced, NeedsSet, FirstValue, WellFormed;
    FirstValueAfterSync(content, defs, optional, stamp, key);
  }

  /** The value of a line that starts with KEY= is not blank to the map readers
      either. */
  lemma PrefixedEntry(line: string, key: string)
    requires PlainKey(key) && key + "=" <= DropCR(line) && !Blank(DropCR(line)[|key| + 1..])
    ensures var e := ActiveEntry(line); e.Some? && e.value.key == key && !Blank(e.value.value)
  {
    hide Index;
    PrefixedIsActive(line, key);
    var n :| |key| + 1 <= n < |DropCR(line)| && !IsSpace(DropCR(line)[n]);
    assert line[0] == key[0];
    TrimRightKeeps(line, n);
    var t := TrimRight(line);
    assert TrimSpace(line) == t && key + "=" <= t;
    FirstEquals(t, key);
    assert t[|key| + 1..][n - |key| - 1] == line[n];
  }

  /** With one active line for the key both kinds of readers see the same value as
      far as being blank goes. */
  lemma {:induction false} OneLineIsRead(lines: seq<string>, key: string)
    requires PlainKey(key) && CountKey(lines, key) <= 1 && !Blank(FirstValue(lines, key + "="))
    ensures !Blank(ActiveValue(lines, key))
  {
    hide ActiveEntry, DropCR, PlainKey, IsSpace;
    if key + "=" <= DropCR(lines[0]) {
      assert DropCR(lines[0])[|key + "="|..] == DropCR(lines[0])[|key| + 1..];
      PrefixedEntry(lines[0], key);
      CountAndLookup(lines[1..], key);
    } else {
      OneLineIsRead(lines[1..], key);
      CountAndLookup(lines[1..], key);
    }
  }

  /** So with at most one active line for its key, a value that is not blank is
      kept for both. */
  lemma OneLineIsKept(content: string, defs: seq<Default>, optional: bool, stamp: string, key: string)
    requires WellFormed(defs) && '\n' !in stamp && PlainKey(key) && CountKey(Lines(content), key) <= 1
    requires forall d, e | d in defs && e in defs && d.key == e.key :: d == e
    ensures var before, after := Lines(content), Lines(Synced(content, defs, optional, stamp));
            && (!Blank(ActiveValue(before, key)) ==> Lookup(after, key) == Lookup(before, key))
            && (!Blank(FirstValue(before, key + "=")) ==>
                  FirstValue(after, key + "=") == FirstValue(before, key + "=")
                  && Lookup(after, key) == Lookup(before, key))
  {
    PlainKeyHasNoEquals(key);
    var before := Lines(content);
    assert forall d | NeedsSet(before, d) :: Blank(ActiveValue(before, d.key));
    hide Lines, Synced, NeedsSet, FirstValue, WellFormed, PlainKey, CountKey, Blank, ActiveValue, Lookup;
    if !Blank(FirstValue(before, key + "=")) {
      OneLineIsRead(before, key);
      FirstValuesAreKept(content, defs, optional, stamp, key);
    }
    if !Blank(ActiveValue(before, key)) { ValuesAreKept(content, defs, optional, stamp, key); }
  }

  // ---- A value that is lost ----

  lemma TwoLines(key: string, given: string)
    requires PlainKey(key) && '\n' !in key && PlainValue(given)
    ensures var lines := Lines(key + "=" + given + "\n" + key + "=");
            FirstValue(lines, key + "=") == given && Lookup(lines, key) == Some("")
  {
    hide ActiveEntry, PlainKey;
    var a, b := key + "=" + given, key + "=";
    assert '\n' !in a && '\n' !in b;
    SplitWordThenMore(a, b, '\n');
    SplitWord(b, '\n');
    assert a + ['\n'] + b == a + "\n" + key + "=";
    assert Lines(key + "=" + given + "\n" + key + "=") == [a] + [b];
    assert [a] + [b] == [a, b] && [a, b][1..] == [b] && [b][1..] == [];
    assert key + "=" + "" == b;
    EntryOfAssignment(key, "");
    assert Lookup([b], key) == Some("");
    assert DropCR(a) == a by { assert a[|a| - 1] == if given == "" then '=' else given[|given| - 1]; }
    assert a[|b|..] == given;
  }

  /** For every required key: a first line with a value and a later one without,
      and the value is replaced by the default. */
  lemma FirstValueIsLost(d: Default, given: string, optional: bool, stamp: string)
    requires d.active && WellFormed([d]) && Consistent([d]) && '\n' !in stamp
    requires PlainValue(given) && !Blank(given)
    ensures var content := d.key + "=" + given + "\n" + d.key + "=";
            && FirstValue(Lines(content), d.key + "=") == given
            && FirstValue(Lines(Synced(content, [d], optional, stamp)), d.key + "=") == d.value
  {
    assert d in [d];
    EnvKeyIsPlain(d.key);
    PlainKeyHasNoEquals(d.key);
    TwoLines(d.key, given);
    BlankEmpty();
    hide Lines, Synced, Lookup, FirstValue, PlainKey, PlainValue, IsEnvKey, Blank;
    var content := d.key + "=" + given + "\n" + d.key + "=";
    assert NeedsSet(Lines(content), d);
    assert given != "";
    FirstValueAfterSync(content, [d], optional, stamp, d.key);
  }
}
