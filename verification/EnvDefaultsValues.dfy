/** What filling in defaults writes: the values, the text and the count. */
module EnvDefaultsValues {
  import opened GoStrings
  import opened EnvStore
  import opened EnvWrites
  import opened EnvDefaults
  import opened EnvDefaultsLaws

  /** A required default is wanted when its key reads blank, an optional one when its
      key is not mentioned. */
  predicate Wanted(lines: seq<string>, d: Default) {
    if d.active then Blank(ActiveValue(lines, d.key)) else d.key !in Known(lines)
  }

  /** One entry per key. */
  ghost predicate OneEach(defs: seq<Default>) {
    forall d, e | d in defs && e in defs && d.key == e.key :: d == e
  }

  /** Every required default that is wanted reads as its value afterwards, unless a
      later line of its own stays in the way; an optional one reads as its value, or as
      a comment if that is how optional ones are written; and every other key reads as
      before. */
  lemma WantedAreFilled(content: string, defs: seq<Default>, optional: bool, stamp: string, d: Default)
    requires WellFormed(defs) && OneEach(defs) && '\n' !in stamp && d in defs
    ensures var before, after := Lines(content), Lines(Synced(content, defs, optional, stamp));
            && (Wanted(before, d) && d.active && Later(before, d.key).None? ==> Lookup(after, d.key) == Some(d.value))
            && (Wanted(before, d) && !d.active && !optional ==> Lookup(after, d.key) == Some(d.value))
            && (Wanted(before, d) && !d.active && optional ==>
                  Lookup(after, d.key) == Lookup(before, d.key) && d.key in Known(after))
            && (!Wanted(before, d) ==> Lookup(after, d.key) == Lookup(before, d.key))
  {
    var before := Lines(content);
    var add, sets := ToAdd(before, defs), ToSet(before, defs);
    PlanMembers(before, defs);
    assert WellFormed(add) && IsEnvKey(d.key);
    hide Lookup, Known, Later, AddedLines, Lines, Synced, ToAdd, ToSet, PlainValue, Blank, IsEnvKey, WellFormed;
    AfterSync(content, defs, optional, stamp, d.key);
    AddedLookup(add, optional, "", d.key);
    if d in add { AddedKnown(add, optional, "", d); }
    LookupIsKnown(before, d.key);
  }

  lemma OthersAreKept(content: string, defs: seq<Default>, optional: bool, stamp: string, key: string)
    requires WellFormed(defs) && OneEach(defs) && '\n' !in stamp && forall d | d in defs :: d.key != key
    ensures Lookup(Lines(Synced(content, defs, optional, stamp)), key) == Lookup(Lines(content), key)
  {
    var before := Lines(content);
    var add, sets := ToAdd(before, defs), ToSet(before, defs);
    PlanMembers(before, defs);
    assert WellFormed(add);
    hide Lookup, Known, Later, AddedLines, Lines, Synced, ToAdd, ToSet, PlainValue, NeedsAdd, NeedsSet, IsEnvKey,
      WellFormed;
    AfterSync(content, defs, optional, stamp, key);
    AddedLookup(add, optional, "", key);
  }

  // ---- The count ----

  /** How many are wanted. */
  function CountWanted(lines: seq<string>, defs: seq<Default>): nat {
    if defs == [] then 0
    else CountWanted(lines, defs[..|defs| - 1]) + if Wanted(lines, defs[|defs| - 1]) then 1 else 0
  }

  /** The count that is returned is the number of defaults that were wanted. */
  lemma {:induction false} CountIsWanted(content: string, defs: seq<Default>)
    ensures SyncCount(content, defs) == CountWanted(Lines(content), defs)
  {
    hide Lookup, Known, Blank, Lines, IsEnvKey;
    if defs != [] { CountIsWanted(content, defs[..|defs| - 1]); }
  }

  // ---- The text ----

  /** The block for one default, as it is written. */
  lemma OneBlock(d: Default, optional: bool, stamp: string)
    ensures Unlines(["", BANNER + stamp] + AddedLines([d], optional, ""))
         == "\n" + ("# New defaults added by grengo migrate: " + stamp) + "\n"
            + (if d.section != "" then "\n" + ("# " + d.section) + "\n" else "")
            + ((if d.active || !optional then "" else "# ") + (d.key + "=" + d.value)) + "\n"
  {
    var line := AddedLine(d, optional);
    var banner := "# New defaults added by grengo migrate: " + stamp;
    assert banner == BANNER + stamp;
    assert [d][1..] == [];
    UnlinesHead("", banner, AddedLines([d], optional, ""));
    hide AddedLine, Unlines;
    assert "" + "\n" + banner + "\n" == "\n" + banner + "\n";
    if d.section != "" {
      assert AddedLines([d], optional, "") == ["", "# " + d.section] + [line] by {
        assert AddedLines([], optional, d.section) == [];
        assert ["", "# " + d.section, line] == ["", "# " + d.section] + [line];
      }
      UnlinesHead("", "# " + d.section, [line]);
      assert "" + "\n" + ("# " + d.section) + "\n" == "\n" + ("# " + d.section) + "\n";
    } else {
      assert AddedLines([d], optional, "") == [line] by { assert AddedLines([], optional, "") == []; }
    }
    OneLine(line);
    var front := "\n" + banner + "\n";
    if d.section != "" {
      assert front + ("\n" + ("# " + d.section) + "\n" + (line + "\n"))
        == front + ("\n" + ("# " + d.section) + "\n") + line + "\n";
    } else {
      assert front + (line + "\n") == front + "" + line + "\n";
    }
  }

  lemma OneLine(line: string)
    ensures Unlines([line]) == line + "\n"
  {
    assert [line][1..] == [];
    assert line + "\n" + "" == line + "\n";
  }

  /** What is in the file stays in front, and nothing wanted leaves it untouched. */
  lemma TextIsKept(content: string, defs: seq<Default>, optional: bool, stamp: string)
    ensures ToSet(Lines(content), defs) == [] ==> content <= Synced(content, defs, optional, stamp)
    ensures CountWanted(Lines(content), defs) == 0 ==> Synced(content, defs, optional, stamp) == content
  {
    CountIsWanted(content, defs);
    hide ToAdd, ToSet, Unlines, AddedLines, Lines;
  }
}
