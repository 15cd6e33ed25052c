/** Which lines the removal of variables takes out of an .env file. */
module EnvRemovals {
  import opened GoStrings
  import opened EnvStore
  import opened EnvWrites

  lemma MentionOf(text: string, key: string, value: string)
    requires PlainKey(key) && text == key + "=" + value
    ensures Mentioned(text) == Some(key)
  {
    hide Index;
    PrefixedIsActive(text, key);
    ActiveIsMentioned(text);
  }

  /** An assignment to a removed key goes, be it active or commented out; one to another
      key stays. */
  lemma AssignmentsGo(key: string, value: string, space: string, keys: set<string>)
    requires PlainKey(key) && PlainValue(value) && value != "" && Blank(space)
    ensures Removed(key + "=" + value, keys) <==> key in keys
    ensures Removed("#" + space + (key + "=" + value), keys) <==> key in keys
  {
    hide Index, IsSpace, Blank;
    var text := key + "=" + value;
    MentionOf(text, key, value);
    CommentedMention(text, key, value, space);
  }

  predicate TrimsTo(s: string, t: string) {
    TrimSpace(s) == t
  }

  lemma CommentedMention(text: string, key: string, value: string, space: string)
    requires PlainKey(key) && PlainValue(value) && value != "" && Blank(space) && text == key + "=" + value
    ensures Mentioned("#" + space + text) == Some(key)
  {
    hide *;
    SolidFacts(text, key, value);
    SolidComment(text, space);
    CommentEnds(text, space);
    SolidRest(text, space);
    FirstEquals(text, key);
    CommentMentions("#" + space + text, space + text, text, key);
  }

  lemma SolidFacts(text: string, key: string, value: string)
    requires PlainKey(key) && PlainValue(value) && value != "" && text == key + "=" + value
    ensures text != "" && !IsSpace(text[0]) && !IsSpace(text[|text| - 1])
    ensures key != "" && '=' !in key && key + "=" <= text && text[..|key|] == key
  {
    hide IsSpace;
    assert text[0] == key[0] && text[|text| - 1] == value[|value| - 1];
  }

  lemma CommentMentions(line: string, rest: string, text: string, key: string)
    requires line == "#" + rest && TrimsTo(line, line) && TrimsTo(rest, text)
    requires 0 < |key| <= |text| && text[..|key|] == key && Index(text, "=") == |key|
    ensures Mentioned(line) == Some(key)
  {
    hide TrimSpace, Index;
    assert line[1..] == rest;
  }

  lemma SolidComment(text: string, space: string)
    requires text != "" && !IsSpace(text[|text| - 1])
    ensures TrimsTo("#" + space + text, "#" + space + text)
  {
    hide *;
    CommentEnds(text, space);
    SolidLine("#" + space + text);
  }

  lemma CommentEnds(text: string, space: string)
    requires text != ""
    ensures var line := "#" + space + text;
            line == "#" + (space + text) && !IsSpace(line[0]) && line[|line| - 1] == text[|text| - 1]
  {
    assert !IsSpace('#');
    hide IsSpace;
  }

  lemma SolidLine(line: string)
    requires line != "" && !IsSpace(line[0]) && !IsSpace(line[|line| - 1])
    ensures TrimsTo(line, line)
  {
    hide IsSpace, TrimSpace, TrimLeft, TrimRight;
    TrimSpaceOfTrimmed(line);
  }

  lemma SolidRest(text: string, space: string)
    requires text != "" && !IsSpace(text[0]) && !IsSpace(text[|text| - 1]) && Blank(space)
    ensures TrimsTo(space + text, text)
  {
    hide IsSpace, Blank, TrimLeft, TrimRight;
    TrimLeftBlank(space, text);
    TrimSpaceOfTrimmed(text);
  }

  lemma {:induction false} TrimLeftBlank(space: string, text: string)
    requires Blank(space) && text != "" && !IsSpace(text[0])
    ensures TrimLeft(space + text) == text
  {
    if space == "" {
      assert space + text == text;
    } else {
      assert Blank(space[1..]) by { assert forall i | 0 <= i < |space[1..]| :: space[1..][i] == space[i + 1]; }
      assert (space + text)[1..] == space[1..] + text;
      TrimLeftBlank(space[1..], text);
    }
  }

  /** A line without an equals sign stays. */
  lemma OtherLinesStay(line: string, keys: set<string>)
    requires '=' !in line
    ensures !Removed(line, keys)
  {
    hide *;
    var t := TrimSpace(line);
    TrimSpaceFacts(line);
    if t != "" { RestHasNoEquals(t); }
    NothingMentioned(line, t);
  }

  lemma NothingMentioned(line: string, t: string)
    requires TrimSpace(line) == t && '=' !in t && (t != "" ==> '=' !in TrimSpace(t[1..]))
    ensures forall keys :: !Removed(line, keys)
  {
    hide TrimSpace, Index;
    NoEquals(t);
    if t != "" { NoEquals(TrimSpace(t[1..])); }
  }

  lemma RestHasNoEquals(t: string)
    requires t != "" && '=' !in t
    ensures '=' !in TrimSpace(t[1..])
  {
    assert forall c | c in t[1..] :: c in t;
    TrimSpaceFacts(t[1..]);
  }

  lemma NoEquals(s: string)
    requires '=' !in s
    ensures Index(s, "=") == -1
  {
    if Index(s, "=") >= 0 {
      assert s[Index(s, "=")..Index(s, "=") + 1][0] in s;
    }
  }
}
