/** What the .env of a restored client reads, key by key and for both kinds of
    readers. */
module NodeImportEnv {
  import opened GoStrings
  import opened EnvStore
  import opened EnvWrites
  import opened EnvPatch
  import opened NodeImport
  import opened NodeImportLaws

  /** No further line of a name assigns the key: so for every name of one line. */
  predicate LeavesKey(name: string, key: string) {
    Lookup(Lines(name)[1..], key).None?
  }

  lemma OneLineLeavesKeys(name: string, key: string)
    requires '\n' !in name
    ensures LeavesKey(name, key) && Lines(name)[0] == name
  {
    SplitWord(name, '\n');
    assert [name][1..] == [];
  }

  // ---- The patched file ----

  /** What the map readers find for a key that has a line. */
  function MapText(name: string, port: string, env: string, key: string): string {
    if key == PORT then port
    else if key == CLIENT_NAME then TextOf(CLIENT_NAME + "=" + Lines(name)[0])
    else Value(MapOf(Lines(env)), key)
  }

  function TextOf(line: string): string {
    match ActiveEntry(line) case Some(e) => e.value case None => ""
  }

  /** And what the first-match reader finds. */
  function FirstText(name: string, port: string, env: string, key: string): string {
    if key == CLIENT_NAME then DropCR(Lines(name)[0]) else MapText(name, port, env, key)
  }

  predicate Assigns(line: string, key: string) {
    ActiveEntry(line).Some? && ActiveEntry(line).value.key == key
  }

  /** These lines read as one line that assigns this text to the key, or as none. */
  ghost predicate ReadAs(lines: seq<string>, key: string, found: bool, text: string, first: string) {
    && Lookup(lines, key) == (if found then Some(text) else None)
    && CountKey(lines, key) == (if found then 1 else 0)
    && (PlainKey(key) ==> FirstMatch(lines, key + "=") == if found then Some(first) else None)
  }

  lemma NothingRead(lines: seq<string>, key: string)
    requires Lookup(lines, key).None?
    ensures ReadAs(lines, key, false, "", "")
  {
    hide ActiveEntry, PlainKey, DropCR;
    CountAndLookup(lines, key);
    if PlainKey(key) { NoMatchWithoutEntry(lines, key); }
  }

  lemma {:induction false} NoMatchWithoutEntry(lines: seq<string>, key: string)
    requires PlainKey(key) && Lookup(lines, key).None?
    ensures FirstMatch(lines, key + "=") == None
  {
    hide ActiveEntry, PlainKey, DropCR;
    if lines != [] {
      CountAndLookup(lines, key);
      CountAndLookup(lines[1..], key);
      NoMatchWithoutEntry(lines[1..], key);
      OtherKeyIsNoMatch(lines[0], key);
      assert FirstMatch([lines[0]], key + "=") == None;
      OneLineMatch(lines[0], key);
    }
  }

  lemma OneLineMatch(line: string, key: string)
    ensures FirstMatch([line], key + "=")
         == if key + "=" <= DropCR(line) then Some(DropCR(line)[|key + "="|..]) else None
  {
    hide DropCR;
    assert [line][1..] == [];
  }

  lemma OneLineReads(line: string, key: string)
    requires !Assigns(line, key)
    ensures ReadAs([line], key, false, "", "")
  {
    hide ActiveEntry;
    assert [line][1..] == [];
    NothingRead([line], key);
  }

  lemma OneEntry(line: string, key: string)
    requires Assigns(line, key)
    ensures Lookup([line], key) == Some(ActiveEntry(line).value.value) && CountKey([line], key) == 1
  {
    hide ActiveEntry;
    assert [line][1..] == [];
    assert Lookup([], key) == None && CountKey([], key) == 0;
  }

  lemma AssignmentReads(key: string, value: string)
    requires PlainKey(key) && PlainValue(value)
    ensures ReadAs([key + "=" + value], key, true, value, value)
  {
    hide ActiveEntry;
    EntryOfAssignment(key, value);
    AssignmentMatches(key, value);
    OneEntry(key + "=" + value, key);
  }

  lemma {:induction false} CountAppend(a: seq<string>, b: seq<string>, key: string)
    ensures CountKey(a + b, key) == CountKey(a, key) + CountKey(b, key)
  {
    hide ActiveEntry;
    if a == [] {
      assert a + b == b;
    } else {
      assert (a + b)[1..] == a[1..] + b;
      CountAppend(a[1..], b, key);
    }
  }

  /** Lines that do not assign the key may come before or behind. */
  lemma ReadAround(a: seq<string>, b: seq<string>, key: string, found: bool, text: string, first: string)
    requires || (ReadAs(a, key, found, text, first) && ReadAs(b, key, false, "", ""))
             || (ReadAs(a, key, false, "", "") && ReadAs(b, key, found, text, first))
    ensures ReadAs(a + b, key, found, text, first)
  {
    hide Lookup, CountKey, FirstMatch, PlainKey;
    LookupAppend(a, b, key);
    CountAppend(a, b, key);
    FirstMatchAppend(a, b, key + "=");
  }

  /** The lines CLIENT_NAME=name becomes. */
  lemma NameReads(name: string, key: string)
    requires LeavesKey(name, key)
    ensures ReadAs(Split(CLIENT_NAME + "=" + name, '\n'), key, key == CLIENT_NAME,
                   if key == CLIENT_NAME then TextOf(CLIENT_NAME + "=" + Lines(name)[0]) else "",
                   if key == CLIENT_NAME then DropCR(Lines(name)[0]) else "")
  {
    var names := Split(name, '\n');
    PortKeys();
    hide ActiveEntry, PlainKey, CLIENT_NAME, Split, Lookup, FirstMatch, CountKey, DropCR, TextOf, ReadAs;
    PrefixedLine(CLIENT_NAME + "=", name);
    NothingRead(names[1..], key);
    var line := CLIENT_NAME + "=" + names[0];
    if key == CLIENT_NAME {
      FirstNameReads(names[0]);
      ReadAround([line], names[1..], key, true, TextOf(line), DropCR(names[0]));
    } else {
      NameIsActive(names[0]);
      OneLineReads(line, key) by { assert !Assigns(line, key); }
      ReadAround([line], names[1..], key, false, "", "");
    }
  }

  lemma FirstNameReads(first: string)
    ensures var line := CLIENT_NAME + "=" + first; ReadAs([line], CLIENT_NAME, true, TextOf(line), DropCR(first))
  {
    var prefix := CLIENT_NAME + "=";
    var line: string := prefix + first;
    hide ActiveEntry, PlainKey, CLIENT_NAME, DropCR;
    NameIsActive(first);
    OneEntry(line, CLIENT_NAME);
    OneLineMatch(line, CLIENT_NAME);
    DropCRBehind(prefix, first);
    assert (prefix + DropCR(first))[|prefix|..] == DropCR(first);
  }

  lemma DropCRBehind(prefix: string, s: string)
    requires prefix != "" && prefix[|prefix| - 1] == '='
    ensures DropCR(prefix + s) == prefix + DropCR(s)
  {
    var line := prefix + s;
    assert line[|line| - 1] == if s != "" then s[|s| - 1] else '=';
  }

  lemma WrittenReads(written: string, value: string, key: string)
    requires PlainKey(written) && '\n' !in written && PlainValue(value)
    ensures ReadAs(Split(written + "=" + value, '\n'), key, written == key,
                   if written == key then value else "", if written == key then value else "")
  {
    hide ActiveEntry, PlainKey, PlainValue, Split, ReadAs;
    AssignmentIsOneLine(written, value);
    SplitWord(written + "=" + value, '\n');
    EntryOfAssignment(written, value);
    if written == key { AssignmentReads(key, value); } else { OneLineReads(written + "=" + value, key); }
  }

  /** What one patched line, which may have become several, reads as. */
  lemma PatchedLineReads(line: string, name: string, port: string, env: string, key: string)
    requires '\n' !in line && PlainValue(port) && LeavesKey(name, key)
    requires ActiveEntry(line).Some? ==> ActiveEntry(line).value.key in NameAndPort(name, port, env)
    ensures ReadAs(Split(PatchLine(line, NameAndPort(name, port, env)), '\n'), key, Assigns(line, key),
                   if Assigns(line, key) then MapText(name, port, env, key) else "",
                   if Assigns(line, key) then FirstText(name, port, env, key) else "")
  {
    hide ActiveEntry, PlainKey, PlainValue, PORT, CLIENT_NAME, Split, ReadAs, LeavesKey, MapText, FirstText,
      NameAndPort;
    match ActiveEntry(line)
    case None =>
      SplitWord(line, '\n');
      OneLineReads(line, key);
    case Some(e) =>
      ActiveEntryIsPlain(line);
      OverrideIs(name, port, env, e.key);
      if e.key == CLIENT_NAME {
        NameReads(name, key);
      } else {
        WrittenReads(e.key, MapText(name, port, env, e.key), key);
      }
      TextsOfName(name, port, env, key);
  }

  lemma OverrideIs(name: string, port: string, env: string, key: string)
    requires PlainValue(port) && key in NameAndPort(name, port, env)
    ensures NameAndPort(name, port, env)[key] == if key == CLIENT_NAME then name else MapText(name, port, env, key)
    ensures key != CLIENT_NAME ==> PlainValue(MapText(name, port, env, key))
  {
    assert PORT != CLIENT_NAME by { PortKeys(); }
    hide PlainValue, PORT, CLIENT_NAME, MapOf, PlainKey;
    MapIsPlain(Lines(env));
  }

  lemma TextsOfName(name: string, port: string, env: string, key: string)
    ensures key == CLIENT_NAME ==> MapText(name, port, env, key) == TextOf(CLIENT_NAME + "=" + Lines(name)[0])
                                   && FirstText(name, port, env, key) == DropCR(Lines(name)[0])
    ensures key != CLIENT_NAME ==> FirstText(name, port, env, key) == MapText(name, port, env, key)
  {
    assert PORT != CLIENT_NAME by { PortKeys(); }
  }

  /** The lines of the patched file read key by key as those of the archived one,
      with the texts above. */
  ghost predicate ReadsAs(patched: seq<string>, lines: seq<string>, key: string, text: string, first: string) {
    && Lookup(patched, key) == (if Lookup(lines, key).Some? then Some(text) else None)
    && CountKey(patched, key) == CountKey(lines, key)
    && (PlainKey(key) ==> FirstMatch(patched, key + "=") == if Lookup(lines, key).Some? then Some(first) else None)
  }

  lemma ReadsMore(a: seq<string>, line: string, patched: seq<string>, lines: seq<string>, key: string, text: string,
                  first: string)
    requires ReadAs(a, key, Assigns(line, key), if Assigns(line, key) then text else "",
                    if Assigns(line, key) then first else "")
    requires lines != [] && lines[0] == line && ReadsAs(patched, lines[1..], key, text, first)
    ensures ReadsAs(a + patched, lines, key, text, first)
  {
    hide ActiveEntry, FirstMatch, PlainKey;
    LookupAppend(a, patched, key);
    CountAppend(a, patched, key);
    FirstMatchAppend(a, patched, key + "=");
    CountAndLookup(lines, key);
    CountAndLookup(lines[1..], key);
  }

  lemma {:induction false} PatchedReads(lines: seq<string>, name: string, port: string, env: string, key: string)
    requires PlainValue(port) && LeavesKey(name, key)
    requires forall i | 0 <= i < |lines| ::
               '\n' !in lines[i]
               && (ActiveEntry(lines[i]).Some? ==> ActiveEntry(lines[i]).value.key in NameAndPort(name, port, env))
    ensures ReadsAs(Resplit(Patched(lines, NameAndPort(name, port, env)), '\n'), lines, key,
                    MapText(name, port, env, key), FirstText(name, port, env, key))
  {
    hide ActiveEntry, NameAndPort, PatchLine, PlainValue, Split, LeavesKey, MapText, FirstText, PlainKey, ReadAs;
    var overrides := NameAndPort(name, port, env);
    var patched := Patched(lines, overrides);
    if lines == [] {
      NothingLeft(key);
    } else {
      assert patched[1..] == Patched(lines[1..], overrides);
      PatchedReads(lines[1..], name, port, env, key);
      PatchedLineReads(lines[0], name, port, env, key);
      hide ReadsAs;
      ReadsMore(Split(patched[0], '\n'), lines[0], Resplit(patched[1..], '\n'), lines, key,
                MapText(name, port, env, key), FirstText(name, port, env, key));
    }
  }

  lemma NothingLeft(key: string)
    ensures Lookup([], key) == None && CountKey([], key) == 0 && FirstMatch([], key + "=") == None
  {
  }

  lemma PatchedContentReads(name: string, port: string, env: string, key: string)
    requires PlainValue(port) && LeavesKey(name, key)
    ensures ReadsAs(Lines(PatchContent(env, NameAndPort(name, port, env))), Lines(env), key,
                    MapText(name, port, env, key), FirstText(name, port, env, key))
  {
    var lines, overrides := Lines(env), NameAndPort(name, port, env);
    var patched := Patched(lines, overrides);
    var content := PatchContent(env, overrides);
    hide ActiveEntry, PatchLine, Lookup, Split, Join, Resplit, PlainValue, HasSuffix, MapOf, LeavesKey, MapText,
      FirstText, ReadsAs, PORT, CLIENT_NAME;
    forall i | 0 <= i < |lines|
      ensures '\n' !in lines[i] && (ActiveEntry(lines[i]).Some? ==> ActiveEntry(lines[i]).value.key in overrides)
    {
      if ActiveEntry(lines[i]).Some? { KeysAreRead(lines, i); }
    }
    PatchedReads(lines, name, port, env, key);
    SplitJoined(patched, '\n');
    SplitNewline(Join(patched, '\n'));
    BlankReads(Resplit(patched, '\n'), lines, key, MapText(name, port, env, key), FirstText(name, port, env, key));
  }

  /** A blank line at the end changes nothing. */
  lemma BlankReads(patched: seq<string>, lines: seq<string>, key: string, text: string, first: string)
    requires ReadsAs(patched, lines, key, text, first)
    ensures ReadsAs(patched + [""], lines, key, text, first)
  {
    EmptyLine();
    hide ActiveEntry, PlainKey, FirstMatch, CountKey, Lookup;
    assert !Assigns("", key);
    OneLineReads("", key);
    LookupAppend(patched, [""], key);
    CountAppend(patched, [""], key);
    FirstMatchAppend(patched, [""], key + "=");
  }

  // ---- The canonical URLs ----

  /** The value a map reader gets, or nothing. */
  lemma ScannedValue(content: string, key: string)
    ensures Value(MapOf(Scan(content)), key) == match Lookup(Lines(content), key) case Some(v) => v case None => ""
  {
    hide MapOf, Lookup, Scan, Lines;
    MapIsLookup(Scan(content), key);
    ScanIsSplit(content, key);
  }

  predicate IsUrlKey(key: string) {
    key == "PUBLIC_BASE_URL" || key == "SITEMAP_BASE_URL"
  }

  lemma UrlKeys(key: string)
    requires IsUrlKey(key)
    ensures PlainKey(key) && '=' !in key && '\n' !in key && key != PORT && key != CLIENT_NAME && key != "DOMAINS"
    ensures "PUBLIC_BASE_URL" != "SITEMAP_BASE_URL"
  {
    assert "PUBLIC_BASE_URL"[1] == 'U' && "SITEMAP_BASE_URL"[1] == 'I' && PORT[1] == 'O' && CLIENT_NAME[1] == 'L'
        && "DOMAINS"[1] == 'O';
  }

  /** Filling in one key leaves every other as it reads. */
  lemma FillsOne(content: string, values: map<string, string>, key: string, base: string, other: string)
    requires IsUrlKey(key) && PlainValue(base) && other != key
    ensures var filled := FillIn(content, values, key, base);
            && Lookup(Lines(filled), other) == Lookup(Lines(content), other)
            && ('=' !in other ==> FirstValue(Lines(filled), other + "=") == FirstValue(Lines(content), other + "="))
  {
    hide FirstValue, Lines, SetContent, PlainValue, PlainKey, Blank, Lookup, IsUrlKey;
    UrlKeys(key);
    SetEnvValLaw(content, key, base, other);
  }

  lemma FillsIn(content: string, values: map<string, string>, key: string, base: string)
    requires IsUrlKey(key) && PlainValue(base)
    ensures var filled := FillIn(content, values, key, base);
            && (!Blank(Value(values, key)) ==> filled == content)
            && (Blank(Value(values, key)) ==>
                  && FirstValue(Lines(filled), key + "=") == base
                  && (CountKey(Lines(content), key) <= 1 ==> Lookup(Lines(filled), key) == Some(base)))
  {
    hide FirstValue, Lines, SetContent, PlainValue, PlainKey, Blank, Lookup, IsUrlKey, CountKey;
    UrlKeys(key);
    SetEnvValLaw(content, key, base, "");
  }

  /** The file after both keys have been filled in. */
  lemma CanonicalReads(content: string, canonical: Canonical, key: string)
    requires PlainUrls(canonical)
    ensures var after := WithCanonicalUrls(content, canonical);
            var base := canonical(Value(MapOf(Scan(content)), "DOMAINS"));
            var blank := Blank(Value(MapOf(Scan(content)), key));
            && (!IsUrlKey(key) || base.None? || !blank ==>
                  && Lookup(Lines(after), key) == Lookup(Lines(content), key)
                  && ('=' !in key ==> FirstValue(Lines(after), key + "=") == FirstValue(Lines(content), key + "=")))
            && (IsUrlKey(key) && base.Some? && blank ==>
                  && FirstValue(Lines(after), key + "=") == base.value
                  && (CountKey(Lines(content), key) <= 1 ==> Lookup(Lines(after), key) == Some(base.value)))
  {
    var values := MapOf(Scan(content));
    var base := canonical(Value(values, "DOMAINS"));
    if base.Some? {
      var filled := FillIn(content, values, "PUBLIC_BASE_URL", base.value);
      assert WithCanonicalUrls(content, canonical) == FillIn(filled, values, "SITEMAP_BASE_URL", base.value);
      assert PlainValue(base.value);
      UrlKeys("PUBLIC_BASE_URL");
      UrlKeys("SITEMAP_BASE_URL");
      hide FillIn, FirstValue, Lines, PlainValue, PlainKey, Blank, Lookup, CountKey, WithCanonicalUrls, MapOf, Scan,
        PlainUrls;
      if key == "PUBLIC_BASE_URL" {
        FillsIn(content, values, key, base.value);
        FillsOne(filled, values, "SITEMAP_BASE_URL", base.value, key);
      } else if key == "SITEMAP_BASE_URL" {
        FilledCount(content, values, base.value);
        FillsOne(content, values, "PUBLIC_BASE_URL", base.value, key);
        FillsIn(filled, values, key, base.value);
      } else {
        FillsOne(content, values, "PUBLIC_BASE_URL", base.value, key);
        FillsOne(filled, values, "SITEMAP_BASE_URL", base.value, key);
      }
    }
  }

  lemma {:induction false} SetKeepsCount(lines: seq<string>, key: string, value: string, other: string)
    requires PlainKey(key) && other != key
    ensures CountKey(SetLine(lines, key + "=", value), other) == CountKey(lines, other)
  {
    hide ActiveEntry;
    var written := key + "=" + value;
    PrefixedIsActive(written, key);
    if lines == [] {
      assert [written][1..] == [];
    } else if key + "=" <= lines[0] {
      PrefixedIsActive(lines[0], key);
      assert ([written] + lines[1..])[1..] == lines[1..];
    } else {
      SetKeepsCount(lines[1..], key, value, other);
      assert SetLine(lines, key + "=", value)[1..] == SetLine(lines[1..], key + "=", value);
    }
  }

  lemma FilledCount(content: string, values: map<string, string>, base: string)
    requires PlainValue(base)
    ensures CountKey(Lines(FillIn(content, values, "PUBLIC_BASE_URL", base)), "SITEMAP_BASE_URL")
         == CountKey(Lines(content), "SITEMAP_BASE_URL")
  {
    hide SetContent, Lines, PlainKey, Blank, CountKey, SetLine;
    UrlKeys("PUBLIC_BASE_URL");
    LinesOfSet(content, "PUBLIC_BASE_URL", base);
    SetKeepsCount(Lines(content), "PUBLIC_BASE_URL", base, "SITEMAP_BASE_URL");
  }

  // ---- The restored file ----

  /** What a map reader gets, with a missing key read as "". */
  function TextFor(env: string, key: string): string {
    match Lookup(Lines(env), key) case Some(v) => v case None => ""
  }

  lemma TextIsValue(env: string, key: string)
    ensures TextFor(env, key) == Value(MapOf(Lines(env)), key)
  {
    hide MapOf, Lookup;
    MapIsLookup(Lines(env), key);
  }

  /** The restored file against the patched one, and the patched against the
      archived. */
  lemma RestoredReads(name: string, port: string, env: string, canonical: Canonical, key: string)
    requires PlainValue(port) && PlainUrls(canonical) && LeavesKey(name, key) && PlainKey(key) && !IsUrlKey(key)
    ensures var restored := Lines(Restored(name, port, env, canonical));
            var has := Lookup(Lines(env), key).Some?;
            && Lookup(restored, key) == (if has then Some(MapText(name, port, env, key)) else None)
            && FirstValue(restored, key + "=") == if has then FirstText(name, port, env, key) else ""
  {
    PlainKeyHasNoEquals(key);
    var content := PatchContent(env, NameAndPort(name, port, env));
    assert Restored(name, port, env, canonical) == WithCanonicalUrls(content, canonical);
    hide WithCanonicalUrls, FirstValue, Lines, PlainValue, Lookup, CountKey, MapOf, Scan, PlainUrls, LeavesKey, MapText,
      FirstText, FirstMatch, Blank, PatchContent, PlainKey;
    PatchedContentReads(name, port, env, key);
    CanonicalReads(content, canonical, key);
    FirstValueIsMatch(Lines(content), key + "=");
  }

  /** Every other key reads for both kinds of readers as the map reader read it from
      the archived file, unless a further line of the name assigns it. */
  lemma RestoredKeepsOthers(name: string, port: string, env: string, canonical: Canonical, key: string)
    requires PlainValue(port) && PlainUrls(canonical) && LeavesKey(name, key) && PlainKey(key)
    requires key !in {"CLIENT_NAME", "PORT", "PUBLIC_BASE_URL", "SITEMAP_BASE_URL"}
    ensures var restored := Lines(Restored(name, port, env, canonical));
            && Lookup(restored, key) == Lookup(Lines(env), key)
            && FirstValue(restored, key + "=") == TextFor(env, key)
  {
    TextIsValue(env, key);
    hide Restored, FirstValue, Lines, PlainValue, Lookup, MapOf, PlainUrls, LeavesKey, PlainKey;
    RestoredReads(name, port, env, canonical, key);
  }

  /** CLIENT_NAME reads the name, or its first line if it has several, when it has a
      line in the archived file; and PORT the port. */
  lemma RestoredName(name: string, port: string, env: string, canonical: Canonical)
    requires PlainValue(port) && PlainUrls(canonical) && PlainValue(Lines(name)[0])
    ensures var restored := Lines(Restored(name, port, env, canonical));
            && (LeavesKey(name, "CLIENT_NAME") && Lookup(Lines(env), "CLIENT_NAME").Some? ==>
                  && Lookup(restored, "CLIENT_NAME") == Some(Lines(name)[0])
                  && FirstValue(restored, "CLIENT_NAME" + "=") == Lines(name)[0])
            && (LeavesKey(name, "PORT") && Lookup(Lines(env), "PORT").Some? ==>
                  Lookup(restored, "PORT") == Some(port) && FirstValue(restored, "PORT" + "=") == port)
  {
    PortKeys();
    EntryOfAssignment(CLIENT_NAME, Lines(name)[0]);
    assert DropCR(Lines(name)[0]) == Lines(name)[0];
    assert CLIENT_NAME == "CLIENT_NAME" && PORT == "PORT" && !IsUrlKey("CLIENT_NAME") && !IsUrlKey("PORT") by {
      NamesAreNoUrls();
    }
    hide Restored, FirstValue, Lines, PlainValue, Lookup, MapOf, PlainUrls, LeavesKey, PlainKey, IsUrlKey, ActiveEntry;
    if LeavesKey(name, "CLIENT_NAME") { RestoredReads(name, port, env, canonical, "CLIENT_NAME"); }
    if LeavesKey(name, "PORT") { RestoredReads(name, port, env, canonical, "PORT"); }
  }

  lemma NamesAreNoUrls()
    ensures !IsUrlKey("CLIENT_NAME") && !IsUrlKey("PORT") && !IsUrlKey("DOMAINS")
  {
    assert "CLIENT_NAME"[0] == 'C' && "PORT"[1] == 'O' && "DOMAINS"[0] == 'D';
  }

  /** A base URL that the map reader found set in the archived file is read back by
      both; one it found blank is filled in with what the DOMAINS value gives, if it
      gives anything. */
  lemma RestoredUrls(name: string, port: string, env: string, canonical: Canonical, key: string)
    requires PlainValue(port) && PlainUrls(canonical) && key in {"PUBLIC_BASE_URL", "SITEMAP_BASE_URL"}
    requires LeavesKey(name, key) && LeavesKey(name, "DOMAINS")
    ensures var restored := Lines(Restored(name, port, env, canonical));
            var text, base := TextFor(env, key), canonical(TextFor(env, "DOMAINS"));
            && (!Blank(text) ==> Lookup(restored, key) == Some(text) && FirstValue(restored, key + "=") == text)
            && (Blank(text) && base.Some? ==> FirstValue(restored, key + "=") == base.value)
            && (Blank(text) && base.Some? && CountKey(Lines(env), key) <= 1 ==>
                Lookup(restored, key) == Some(base.value))
            && (base.None? ==> Lookup(restored, key) == Lookup(Lines(env), key))
  {
    var content := PatchContent(env, NameAndPort(name, port, env));
    assert Restored(name, port, env, canonical) == WithCanonicalUrls(content, canonical);
    UrlKeys(key);
    PortKeys();
    DomainsIsPlain();
    TextIsValue(env, key);
    TextIsValue(env, "DOMAINS");
    PatchedTexts(name, port, env, key);
    PatchedTexts(name, port, env, "DOMAINS");
    BlankNothing();
    hide WithCanonicalUrls, FirstValue, Lines, PlainValue, Lookup, CountKey, MapOf, Scan, PlainUrls, LeavesKey,
      FirstMatch, Blank, PatchContent, PlainKey;
    CanonicalReads(content, canonical, key);
  }

  lemma BlankNothing()
    ensures Blank("")
  {
  }

  lemma DomainsIsPlain()
    ensures PlainKey("DOMAINS") && "DOMAINS" != PORT && "DOMAINS" != CLIENT_NAME
  {
    assert "DOMAINS"[0] == 'D' && PORT[0] == 'P' && CLIENT_NAME[0] == 'C';
  }

  /** The patched file, for a key that is not overridden. */
  lemma PatchedTexts(name: string, port: string, env: string, key: string)
    requires PlainValue(port) && LeavesKey(name, key) && PlainKey(key) && key != PORT && key != CLIENT_NAME
    ensures var content := PatchContent(env, NameAndPort(name, port, env));
            && Lookup(Lines(content), key) == Lookup(Lines(env), key)
            && FirstValue(Lines(content), key + "=") == TextFor(env, key)
            && CountKey(Lines(content), key) == CountKey(Lines(env), key)
            && Value(MapOf(Scan(content)), key) == TextFor(env, key)
  {
    var content := PatchContent(env, NameAndPort(name, port, env));
    TextIsValue(env, key);
    hide FirstValue, Lines, PlainValue, Lookup, CountKey, MapOf, Scan, LeavesKey, FirstMatch, PatchContent, PlainKey;
    PatchedContentReads(name, port, env, key);
    FirstValueIsMatch(Lines(content), key + "=");
    ScannedValue(content, key);
  }
}
