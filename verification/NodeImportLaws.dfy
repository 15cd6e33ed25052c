/** Importing a node archive keeps the clients' ports apart, or exactly when not. */
module NodeImportLaws {
  import opened GoStrings
  import opened EnvStore
  import opened EnvWrites
  import opened EnvPatch
  import opened NodeImport

  /** No two clients with a readable port share it. */
  ghost predicate Distinct(clients: Clients) {
    forall a, b | a in clients && b in clients && a != b && PortOf(clients[a]).Some? ::
      PortOf(clients[a]) != PortOf(clients[b])
  }

  ghost predicate PlainUrls(canonical: Canonical) {
    forall domains :: canonical(domains).Some? ==> PlainValue(canonical(domains).value)
  }

  // ---- What is read back from a restored file ----

  /** The first match of the line reader. */
  function FirstMatch(lines: seq<string>, prefix: string): Option<string> {
    if lines == [] then None
    else if prefix <= DropCR(lines[0]) then Some(DropCR(lines[0])[|prefix|..])
    else FirstMatch(lines[1..], prefix)
  }

  lemma {:induction false} FirstValueIsMatch(lines: seq<string>, prefix: string)
    ensures FirstValue(lines, prefix) == match FirstMatch(lines, prefix) case Some(v) => v case None => ""
  {
    hide DropCR;
    if lines != [] { FirstValueIsMatch(lines[1..], prefix); }
  }

  lemma {:induction false} FirstMatchAppend(a: seq<string>, b: seq<string>, prefix: string)
    ensures FirstMatch(a + b, prefix) ==
            if FirstMatch(a, prefix).Some? then FirstMatch(a, prefix) else FirstMatch(b, prefix)
  {
    hide DropCR;
    if a == [] {
      assert a + b == b;
    } else {
      assert (a + b)[1..] == a[1..] + b;
      FirstMatchAppend(a[1..], b, prefix);
    }
  }

  /** A PORT line that the client's name brings along on its second or a later
      line. */
  function NamedPort(name: string): Option<string> {
    FirstMatch(Lines(name)[1..], PORT + "=")
  }

  /** Whether the first active line for CLIENT_NAME or PORT is one for the name. */
  predicate NameComesFirst(lines: seq<string>) {
    lines != [] &&
    match ActiveEntry(lines[0])
    case Some(e) => e.key == CLIENT_NAME || (e.key != PORT && NameComesFirst(lines[1..]))
    case None => NameComesFirst(lines[1..])
  }

  predicate AssignsPort(env: string) {
    Lookup(Lines(env), PORT).Some?
  }

  /** The text of the port in the restored file: the name's, if it has one and its
      line comes first; else the resolved port, if there is a line for it. */
  function PortText(name: string, port: string, env: string): Option<string> {
    if NamedPort(name).Some? && NameComesFirst(Lines(env)) then NamedPort(name)
    else if AssignsPort(env) then Some(port)
    else None
  }

  lemma PortKeys()
    ensures PlainKey(PORT) && '\n' !in PORT && PORT != CLIENT_NAME && PlainKey(CLIENT_NAME) && '\n' !in CLIENT_NAME
    ensures PORT !in {"PUBLIC_BASE_URL", "SITEMAP_BASE_URL"}
    ensures '=' !in "PUBLIC_BASE_URL" && '\n' !in "PUBLIC_BASE_URL" && '=' !in "SITEMAP_BASE_URL"
            && '\n' !in "SITEMAP_BASE_URL"
  {
    assert PORT[1] == 'O' && "PUBLIC_BASE_URL"[1] == 'U';
  }

  /** The overrides of a restored client: what was read, with name and port. */
  function NameAndPort(name: string, port: string, env: string): map<string, string> {
    MapOf(Lines(env))[CLIENT_NAME := name][PORT := port]
  }

  /** A line that assigns another key is no match. */
  lemma OtherKeyIsNoMatch(line: string, key: string)
    requires ActiveEntry(line).None? || ActiveEntry(line).value.key != key
    requires PlainKey(key)
    ensures FirstMatch([line], key + "=") == None
  {
    if key + "=" <= DropCR(line) { PrefixedIsActive(line, key); }
    hide ActiveEntry, DropCR;
    assert [line][1..] == [];
  }

  lemma AssignmentMatches(key: string, value: string)
    requires PlainKey(key) && PlainValue(value)
    ensures FirstMatch([key + "=" + value], key + "=") == Some(value)
  {
    var line := key + "=" + value;
    assert DropCR(line) == line by { assert line[|line| - 1] == if value == "" then '=' else value[|value| - 1]; }
    assert line[|key + "="|..] == value;
  }

  /** What one patched line, which may have become several, offers the reader. */
  lemma PatchedLineMatch(line: string, name: string, port: string, env: string)
    requires '\n' !in line && PlainValue(port)
             && (ActiveEntry(line).Some? ==> ActiveEntry(line).value.key in NameAndPort(name, port, env))
    ensures FirstMatch(Split(PatchLine(line, NameAndPort(name, port, env)), '\n'), PORT + "=") ==
            match ActiveEntry(line)
            case None => None
            case Some(e) => if e.key == PORT then Some(port) else if e.key == CLIENT_NAME then NamedPort(name) else None
  {
    PortKeys();
    MapIsPlain(Lines(env));
    var m := MapOf(Lines(env));
    assert forall k | k in m :: PlainValue(m[k]);
    hide ActiveEntry, PlainKey, PlainValue, PORT, CLIENT_NAME, Split, FirstMatch, MapOf;
    match ActiveEntry(line)
    case None =>
      SplitWord(line, '\n');
      OtherKeyIsNoMatch(line, PORT);
    case Some(e) =>
      ActiveEntryIsPlain(line);
      if e.key == PORT {
        AssignmentMatches(PORT, port);
        AssignmentIsOneLine(PORT, port);
        SplitWord(PORT + "=" + port, '\n');
      } else if e.key == CLIENT_NAME {
        NameLines(name);
      } else {
        var v := m[e.key];
        AssignmentIsOneLine(e.key, v);
        SplitWord(e.key + "=" + v, '\n');
        EntryOfAssignment(e.key, v);
        OtherKeyIsNoMatch(e.key + "=" + v, PORT);
      }
  }

  lemma AssignmentIsOneLine(key: string, value: string)
    requires '\n' !in key && PlainValue(value)
    ensures '\n' !in key + "=" + value
  {
  }

  /** The lines of CLIENT_NAME=name. */
  lemma NameLines(name: string)
    ensures FirstMatch(Split(CLIENT_NAME + "=" + name, '\n'), PORT + "=") == NamedPort(name)
  {
    PortKeys();
    hide ActiveEntry, PlainKey, PORT, CLIENT_NAME, Split, FirstMatch;
    var p, names := CLIENT_NAME + "=", Split(name, '\n');
    assert '\n' !in p && p != "\n";
    PrefixedLine(p, name);
    var first := CLIENT_NAME + "=" + names[0];
    NameIsActive(names[0]);
    OtherKeyIsNoMatch(first, PORT);
    FirstMatchAppend([first], names[1..], PORT + "=");
  }

  lemma NameIsActive(s: string)
    ensures ActiveEntry(CLIENT_NAME + "=" + s).Some? && ActiveEntry(CLIENT_NAME + "=" + s).value.key == CLIENT_NAME
  {
    PortKeys();
    hide ActiveEntry, PlainKey;
    PrefixedIsActive(CLIENT_NAME + "=" + s, CLIENT_NAME);
  }

  /** The port text, going through the lines of the archived file. */
  function PortAlong(lines: seq<string>, name: string, port: string): Option<string> {
    if lines == [] then None
    else match ActiveEntry(lines[0])
      case None => PortAlong(lines[1..], name, port)
      case Some(e) =>
        if e.key == PORT then Some(port)
        else if e.key == CLIENT_NAME && NamedPort(name).Some? then NamedPort(name)
        else PortAlong(lines[1..], name, port)
  }

  lemma {:induction false} PortAlongIs(lines: seq<string>, name: string, port: string)
    ensures PortAlong(lines, name, port) ==
            if NamedPort(name).Some? && NameComesFirst(lines) then NamedPort(name)
            else if Lookup(lines, PORT).Some? then Some(port) else None
  {
    hide ActiveEntry, NamedPort, PORT, CLIENT_NAME;
    assert PORT != CLIENT_NAME by { PortKeys(); }
    if lines != [] {
      PortAlongIs(lines[1..], name, port);
      CountAndLookup(lines, PORT);
      CountAndLookup(lines[1..], PORT);
    }
  }

  lemma {:induction false} PatchedPort(lines: seq<string>, name: string, port: string, env: string)
    requires PlainValue(port) && forall i | 0 <= i < |lines| ::
               '\n' !in lines[i]
                 && (ActiveEntry(lines[i]).Some? ==> ActiveEntry(lines[i]).value.key in NameAndPort(name, port, env))
    ensures FirstMatch(Resplit(Patched(lines, NameAndPort(name, port, env)), '\n'), PORT + "=")
            == PortAlong(lines, name, port)
  {
    hide ActiveEntry, NameAndPort, PatchLine, NamedPort, PORT, CLIENT_NAME, PlainValue, Split;
    var overrides := NameAndPort(name, port, env);
    var patched := Patched(lines, overrides);
    if lines == [] {
      assert FirstMatch([], PORT + "=") == None;
    } else {
      assert patched[1..] == Patched(lines[1..], overrides);
      PatchedPort(lines[1..], name, port, env);
      PatchedLineMatch(lines[0], name, port, env);
      FirstMatchAppend(Split(patched[0], '\n'), Resplit(patched[1..], '\n'), PORT + "=");
    }
  }

  /** Every active line's key is read into the map, and so overridden. */
  lemma {:induction false} KeysAreRead(lines: seq<string>, i: nat)
    requires i < |lines| && ActiveEntry(lines[i]).Some?
    ensures ActiveEntry(lines[i]).value.key in MapOf(lines)
    decreases |lines|
  {
    hide ActiveEntry;
    if i < |lines| - 1 { KeysAreRead(lines[..|lines| - 1], i); }
  }

  lemma PatchedContentPort(name: string, port: string, env: string)
    requires PlainValue(port)
    ensures FirstMatch(Lines(PatchContent(env, NameAndPort(name, port, env))), PORT + "=") == PortText(name, port, env)
  {
    hide ActiveEntry, PatchLine, NamedPort, NameComesFirst, Lookup, Split, Join, Resplit, PORT, CLIENT_NAME, PlainValue,
      HasSuffix, MapOf;
    var lines, overrides := Lines(env), NameAndPort(name, port, env);
    var patched := Patched(lines, overrides);
    forall i | 0 <= i < |lines|
      ensures '\n' !in lines[i] && (ActiveEntry(lines[i]).Some? ==> ActiveEntry(lines[i]).value.key in overrides)
    {
      if ActiveEntry(lines[i]).Some? { KeysAreRead(lines, i); }
    }
    PatchedPort(lines, name, port, env);
    PortAlongIs(lines, name, port);
    SplitJoined(patched, '\n');
    SplitNewline(Join(patched, '\n'));
    assert FirstMatch([""], PORT + "=") == None by { NoMatchInNothing(); }
    FirstMatchAppend(Resplit(patched, '\n'), [""], PORT + "=");
  }

  lemma NoMatchInNothing()
    ensures FirstMatch([""], PORT + "=") == None
  {
    assert [""][1..] == [];
  }

  lemma CanonicalKeepsPort(content: string, canonical: Canonical)
    requires PlainUrls(canonical)
    ensures FirstValue(Lines(WithCanonicalUrls(content, canonical)), PORT + "=")
            == FirstValue(Lines(content), PORT + "=")
  {
    hide FirstValue, Lines, MapOf, Scan, SetContent, PlainValue, PlainKey, Blank, PORT;
    PortKeys();
    assert '=' !in PORT by { PlainKeyHasNoEquals(PORT); }
    var values := MapOf(Scan(content));
    var base := canonical(Value(values, "DOMAINS"));
    if base.Some? {
      SetEnvValLaw(content, "PUBLIC_BASE_URL", base.value, PORT);
      var filled := FillIn(content, values, "PUBLIC_BASE_URL", base.value);
      SetEnvValLaw(filled, "SITEMAP_BASE_URL", base.value, PORT);
    }
  }

  /** The PORT read back from a restored file, whatever the client's name is. */
  lemma RestoredPort(name: string, port: string, env: string, canonical: Canonical)
    requires PlainValue(port) && PlainUrls(canonical)
    ensures PortOf(Restored(name, port, env, canonical)) ==
            match PortText(name, port, env) case Some(text) => Atoi(text) case None => None
  {
    hide FirstValue, FirstMatch, MapOf, PatchContent, WithCanonicalUrls, Split, Atoi, PortText, PlainUrls, PlainValue,
      PORT, CLIENT_NAME;
    PatchedContentPort(name, port, env);
    var content := PatchContent(env, NameAndPort(name, port, env));
    FirstValueIsMatch(Lines(content), PORT + "=");
    CanonicalKeepsPort(content, canonical);
    assert Atoi("").None? by { EmptyIsNoPort(); }
  }

  lemma EmptyIsNoPort()
    ensures Atoi("").None?
  {
  }

  // ---- The resolved port ----

  lemma ResolvedIsPlain(env: string, ports: set<int>, port: string)
    requires IsResolved(Archived(env), ports, port)
    ensures PlainValue(port)
  {
    if Usable(Archived(env), ports) {
      hide MapOf, PlainValue, Atoi, Split, IsNext;
      MapIsPlain(Lines(env));
      assert PlainValue("") by { EmptyIsPlain(); }
    } else {
      hide Usable, Atoi, Archived, IsNext, Itoa;
      var next :| IsNext(ports, next) && port == Itoa(next);
      ItoaIsPlain(next);
    }
  }

  lemma ItoaIsPlain(n: int)
    ensures PlainValue(Itoa(n))
  {
    var s := Itoa(n);
    assert IsDigit(s[|s| - 1]);
    hide Itoa;
  }

  lemma EmptyIsPlain()
    ensures PlainValue("")
  {
  }

  /** The one case in which the automatic port is taken: the largest and the
      smallest 64-bit integer are both in use, and the sum wraps around. */
  predicate WrapsOntoUsed(ports: set<int>) {
    MAX_INT in ports && MIN_INT in ports
  }

  /** The automatic port is free except when the sum wraps onto a used one. */
  lemma NextIsFree(ports: set<int>, next: int)
    requires (forall p | p in ports :: MIN_INT <= p <= MAX_INT) && IsNext(ports, next)
    ensures MIN_INT <= next <= MAX_INT
    ensures next !in ports <==> !WrapsOntoUsed(ports)
  {
    if ports != {} {
      var m :| IsMax(ports, m) && next == Increment(m);
      assert MAX_INT in ports <==> m == MAX_INT;
    }
  }

  lemma PortsAreWords(clients: Clients)
    ensures forall p | p in Used(clients) :: MIN_INT <= p <= MAX_INT
  {
    hide FirstValue, Lines;
  }

  /** The resolved port, as a number, and whether it is taken. */
  lemma ResolvedPort(env: string, clients: Clients, port: string)
    requires IsResolved(Archived(env), Used(clients), port)
    ensures Atoi(port).Some?
    ensures Atoi(port).value in Used(clients) <==> !Usable(Archived(env), Used(clients)) && WrapsOntoUsed(Used(clients))
  {
    PortsAreWords(clients);
    hide Used, Atoi, Archived, Itoa, WrapsOntoUsed;
    if !Usable(Archived(env), Used(clients)) {
      var next :| IsNext(Used(clients), next) && port == Itoa(next);
      NextIsFree(Used(clients), next);
      AtoiItoa(next);
    }
  }

  /** What a caller can check before a client is restored: the port it would read
      back is taken, be it the name's or the automatic one. */
  predicate TakesUsedPort(clients: Clients, name: string, env: string) {
    if NamedPort(name).Some? && NameComesFirst(Lines(env)) then
      Atoi(NamedPort(name).value).Some? && Atoi(NamedPort(name).value).value in Used(clients)
    else AssignsPort(env) && !Usable(Archived(env), Used(clients)) && WrapsOntoUsed(Used(clients))
  }

  lemma TakenExactly(clients: Clients, name: string, env: string, port: string, canonical: Canonical)
    requires PlainUrls(canonical) && IsResolved(Archived(env), Used(clients), port)
    ensures var given := PortOf(Restored(name, port, env, canonical));
            (given.Some? && given.value in Used(clients)) <==> TakesUsedPort(clients, name, env)
  {
    hide Used, PortOf, Restored, Archived, PlainUrls, AssignsPort, PlainValue, Atoi, NamedPort, NameComesFirst, Usable,
      WrapsOntoUsed, IsResolved;
    ResolvedIsPlain(env, Used(clients), port);
    RestoredPort(name, port, env, canonical);
    ResolvedPort(env, clients, port);
  }

  lemma DistinctAfterAdding(before: Clients, client: string, env: string)
    requires client !in before
    ensures Distinct(before[client := env])
            <==> Distinct(before) && (PortOf(env).Some? ==> PortOf(env).value !in Used(before))
  {
    hide PortOf;
    var after := before[client := env];
    if Distinct(after) {
      forall a, b | a in before && b in before && a != b && PortOf(before[a]).Some?
        ensures PortOf(before[a]) != PortOf(before[b])
      {
        assert after[a] == before[a] && after[b] == before[b];
      }
      if PortOf(env).Some? {
        forall a | a in before && PortOf(before[a]).Some? ensures PortOf(before[a]).value != PortOf(env).value {
          assert after[a] == before[a] && after[client] == env;
        }
      }
    }
  }
}
