/** Whole imports: which client files change, which ports clash, and when. */
module NodeImportRuns {
  import opened GoStrings
  import opened EnvStore
  import opened EnvWrites
  import opened EnvPatch
  import opened NodeImport
  import opened NodeImportLaws
  import opened NodeImportUploads

  /** Whether a round gives the root a new client. */
  predicate Adds(fs: Fs, root: Path, name: string, archive: Archive) {
    Restores(fs, root, name, archive) && IsChild(root, JoinPath(root, name))
  }

  /** And whether that client takes a port that is in use. */
  predicate Collides(fs: Fs, root: Path, name: string, archive: Archive) {
    Adds(fs, root, name, archive) && TakesUsedPort(View(fs, root), name, EnvOf(name, archive))
  }

  /** What a round with harmless uploads does to the clients' files. */
  lemma RoundView(before: Fs, root: Path, name: string, archive: Archive, canonical: Canonical, after: Fs, alive: bool)
    returns (port: string)
    requires WellFormed(before) && Harmless(before, root, name, archive, canonical)
    requires ImportsOne(before, root, name, archive, canonical, after, alive)
    ensures Restores(before, root, name, archive) ==>
            IsResolved(Archived(EnvOf(name, archive)), Used(View(before, root)), port)
    ensures !(alive && Adds(before, root, name, archive)) ==> View(after, root) == View(before, root)
    ensures alive && Adds(before, root, name, archive) ==>
              var client := JoinPath(root, name)[|root|];
              && client !in View(before, root)
              && View(after, root)
                 == View(before, root)[client := Restored(name, port, EnvOf(name, archive), canonical)]
  {
    hide Prepare, Unpack, IsResolved, Restored, JoinPath, Used, ClientsOf, Archived, WellFormed, Prefix, Value, EnvOf,
      Leaves;
    port := "";
    if Restores(before, root, name, archive) {
      RoundIs(before, root, name, archive, canonical, after, alive);
      hide ImportsOne;
      var p, order :| RunsWith(before, root, name, archive, canonical, after, alive, p, order);
      port := p;
      var env, compose := Restored(name, p, EnvOf(name, archive), canonical),
        Value(archive, Prefix(name) + "compose.yml");
      var ready := Ready(before, root, name, archive, canonical, p).0;
      PrepareKeeps(before, root, name, env, compose);
      ViewAfterPrepare(before, root, name, env, compose);
      if alive { UnpackLeaves(ready, root, name, archive, order); }
      if IsChild(root, JoinPath(root, name)) { NewClient(before, root, JoinPath(root, name)); }
    } else {
      NotRestoring(before, root, name, archive, canonical, after, alive);
    }
  }

  /** A round keeps distinct ports distinct exactly when it does not collide, and
      never separates ports that already clashed: for every name, archived file and
      state, when the uploads are harmless. */
  lemma RoundKeepsDistinct(before: Fs, root: Path, name: string, archive: Archive, canonical: Canonical, after: Fs,
                           alive: bool)
    requires WellFormed(before) && PlainUrls(canonical) && Harmless(before, root, name, archive, canonical)
    requires ImportsOne(before, root, name, archive, canonical, after, alive)
    ensures Distinct(View(after, root))
            <==> Distinct(View(before, root)) && !(alive && Collides(before, root, name, archive))
  {
    hide ImportsOne, ClientsOf, WellFormed, Harmless, Used, PortOf, Restored, IsResolved, Archived, TakesUsedPort,
      JoinPath, Distinct, PlainUrls;
    var port := RoundView(before, root, name, archive, canonical, after, alive);
    if alive && Adds(before, root, name, archive) {
      var clients, env := View(before, root), EnvOf(name, archive);
      DistinctAfterAdding(clients, JoinPath(root, name)[|root|], Restored(name, port, env, canonical));
      TakenExactly(clients, name, env, port, canonical);
    }
  }

  /** A name that leads elsewhere, such as one with a slash in it, gets a directory
      no port is read from: it is no client to the next round. */
  lemma NestedClientIsInvisible(before: Fs, root: Path, name: string, archive: Archive, canonical: Canonical, after: Fs,
                                alive: bool)
    requires WellFormed(before) && Harmless(before, root, name, archive, canonical)
             && !IsChild(root, JoinPath(root, name))
    requires ImportsOne(before, root, name, archive, canonical, after, alive)
    ensures View(after, root) == View(before, root)
  {
    hide ImportsOne, ClientsOf, WellFormed, Harmless, JoinPath;
    var port := RoundView(before, root, name, archive, canonical, after, alive);
  }

  // ---- The whole loop ----

  /** The uploads of every round are harmless when it comes to them. */
  ghost predicate AllHarmless(trace: seq<Fs>, root: Path, names: seq<string>, archive: Archive, canonical: Canonical)
    requires |trace| <= |names| + 1
  {
    forall i | 0 <= i < |trace| - 1 :: Harmless(trace[i], root, names[i], archive, canonical)
  }

  /** That is so for archives in which no upload is bound for a client's .env. */
  lemma ContainedRuns(trace: seq<Fs>, root: Path, names: seq<string>, archive: Archive, canonical: Canonical)
    requires |trace| <= |names| + 1 && forall i | 0 <= i < |names| :: Contained(root, names[i], archive)
    ensures AllHarmless(trace, root, names, archive, canonical)
  {
    hide Contained, Harmless;
    forall i | 0 <= i < |trace| - 1 ensures Harmless(trace[i], root, names[i], archive, canonical) {
      ContainedIsHarmless(trace[i], root, names[i], archive, canonical);
    }
  }

  /** Whether round i was completed. */
  predicate Completed(trace: seq<Fs>, i: nat, alive: bool) {
    i < |trace| - 1 && (alive || i < |trace| - 2)
  }

  /** The run without its last round. */
  lemma ShorterRun(trace: seq<Fs>, root: Path, names: seq<string>, archive: Archive, canonical: Canonical, alive: bool)
    requires ImportRun(trace, root, names, archive, canonical, alive) && |trace| >= 2
    ensures var n := |trace| - 2;
            && ImportRun(trace[..n + 1], root, names[..n], archive, canonical, true)
            && ImportsOne(trace[n], root, names[n], archive, canonical, trace[n + 1], alive)
  {
    hide ImportsOne;
    var n := |trace| - 2;
    forall i | 0 <= i < n
      ensures ImportsOne(trace[..n + 1][i], root, names[..n][i], archive, canonical, trace[..n + 1][i + 1], true)
    {
      assert ImportsOne(trace[i], root, names[i], archive, canonical, trace[i + 1], alive || i < |trace| - 2);
    }
  }

  lemma {:induction false} RunIsWellFormed(trace: seq<Fs>, root: Path, names: seq<string>, archive: Archive,
                                           canonical: Canonical, alive: bool, i: nat)
    requires ImportRun(trace, root, names, archive, canonical, alive) && WellFormed(trace[0]) && i < |trace|
    ensures WellFormed(trace[i]) && trace[0].dirs <= trace[i].dirs
  {
    hide ImportsOne, WellFormed;
    if i > 0 {
      RunIsWellFormed(trace, root, names, archive, canonical, alive, i - 1);
      ImportKeepsWellFormed(trace[i - 1], root, names[i - 1], archive, canonical, trace[i],
                            alive || i - 1 < |trace| - 2);
    }
  }

  /** Ports are distinct after the loop exactly when they were before and no
      completed round collided. */
  lemma {:induction false} ImportKeepsDistinct(trace: seq<Fs>, root: Path, names: seq<string>, archive: Archive,
                                               canonical: Canonical, alive: bool)
    requires ImportRun(trace, root, names, archive, canonical, alive) && WellFormed(trace[0])
    requires PlainUrls(canonical) && AllHarmless(trace, root, names, archive, canonical)
    ensures Distinct(View(trace[|trace| - 1], root)) <==>
            Distinct(View(trace[0], root)) && forall i: nat | i < |trace| - 1 && Completed(trace, i, alive) ::
              !Collides(trace[i], root, names[i], archive)
    decreases |trace|
  {
    hide ImportsOne, PlainUrls, Distinct, Collides, WellFormed, View, Harmless;
    if |trace| >= 2 {
      var n := |trace| - 2;
      var shorter := trace[..n + 1];
      ShorterRun(trace, root, names, archive, canonical, alive);
      ImportKeepsDistinct(shorter, root, names[..n], archive, canonical, true);
      RunIsWellFormed(trace, root, names, archive, canonical, alive, n);
      RoundKeepsDistinct(trace[n], root, names[n], archive, canonical, trace[n + 1], alive);
      assert forall i: nat | i < n ::
        shorter[i] == trace[i] && names[..n][i] == names[i] && Completed(shorter, i, true)
          && Completed(trace, i, alive);
    }
  }

  /** A client that was there before is left exactly as it was if every upload of
      the archive that is bound for its .env brings the text it has. */
  lemma {:induction false} ExistingClientsAreKept(trace: seq<Fs>, root: Path, names: seq<string>, archive: Archive,
                                                  canonical: Canonical, alive: bool, client: string)
    requires ImportRun(trace, root, names, archive, canonical, alive) && WellFormed(trace[0])
             && client in View(trace[0], root)
    requires forall i | 0 <= i < |names| :: BringsOnly(root, names[i], archive, client, View(trace[0], root)[client])
    ensures var after := View(trace[|trace| - 1], root);
            client in after && after[client] == View(trace[0], root)[client]
    decreases |trace|
  {
    hide ImportsOne, WellFormed, View, BringsOnly;
    if |trace| >= 2 {
      var n := |trace| - 2;
      ShorterRun(trace, root, names, archive, canonical, alive);
      ExistingClientsAreKept(trace[..n + 1], root, names[..n], archive, canonical, true, client);
      RunIsWellFormed(trace, root, names, archive, canonical, alive, n);
      ClientIsKept(trace[n], root, names[n], archive, canonical, trace[n + 1], alive, client);
    }
  }

  /** The clients after the import: those before, and one for each completed round
      that adds one. */
  lemma {:induction false} ImportedClients(trace: seq<Fs>, root: Path, names: seq<string>, archive: Archive,
                                           canonical: Canonical, alive: bool, client: string)
    requires ImportRun(trace, root, names, archive, canonical, alive) && WellFormed(trace[0])
             && AllHarmless(trace, root, names, archive, canonical)
    ensures client in View(trace[|trace| - 1], root) <==>
            || client in View(trace[0], root)
            || exists i: nat :: i < |trace| - 1 && Completed(trace, i, alive) && Adds(trace[i], root, names[i], archive)
                                && JoinPath(root, names[i]) == root + [client]
    decreases |trace|
  {
    hide ImportsOne, WellFormed, View, Harmless, Restored, IsResolved, Used, JoinPath, Restores;
    if |trace| >= 2 {
      var n := |trace| - 2;
      var shorter := trace[..n + 1];
      ShorterRun(trace, root, names, archive, canonical, alive);
      ImportedClients(shorter, root, names[..n], archive, canonical, true, client);
      RunIsWellFormed(trace, root, names, archive, canonical, alive, n);
      var port := RoundView(trace[n], root, names[n], archive, canonical, trace[n + 1], alive);
      assert forall i: nat | i < n ::
        shorter[i] == trace[i] && names[..n][i] == names[i] && Completed(shorter, i, true)
          && Completed(trace, i, alive);
      assert Adds(trace[n], root, names[n], archive) ==>
        (JoinPath(root, names[n])[|root|] == client <==> JoinPath(root, names[n]) == root + [client]);
    }
  }

  /** After a completed import every name with an .env in the archive has its
      directory. */
  lemma NamesHaveDirectories(trace: seq<Fs>, root: Path, names: seq<string>, archive: Archive, canonical: Canonical,
                             i: nat)
    requires ImportRun(trace, root, names, archive, canonical, true) && WellFormed(trace[0]) && i < |names|
    requires Prefix(names[i]) + "env" in archive
    ensures JoinPath(root, names[i]) in trace[|names|].dirs
  {
    hide ImportsOne, WellFormed, JoinPath, Prefix;
    RunIsWellFormed(trace, root, names, archive, canonical, true, i);
    ImportKeepsWellFormed(trace[i], root, names[i], archive, canonical, trace[i + 1], true);
    DirectoriesStay(trace, root, names, archive, canonical, i + 1, |names|);
  }

  lemma {:induction false} DirectoriesStay(trace: seq<Fs>, root: Path, names: seq<string>, archive: Archive,
                                           canonical: Canonical, i: nat, j: nat)
    requires ImportRun(trace, root, names, archive, canonical, true) && WellFormed(trace[0]) && i <= j <= |names|
    ensures trace[i].dirs <= trace[j].dirs
  {
    hide ImportsOne, WellFormed;
    if i < j {
      DirectoriesStay(trace, root, names, archive, canonical, i, j - 1);
      RunIsWellFormed(trace, root, names, archive, canonical, true, j - 1);
      ImportKeepsWellFormed(trace[j - 1], root, names[j - 1], archive, canonical, trace[j], true);
    }
  }

  // ---- A guard for the whole loop ----

  ghost predicate PortsAtMost(clients: Clients, bound: int) {
    forall p | p in Used(clients) :: p <= bound
  }

  /** What validateName asks of a name leaves none of these characters in it; one
      line is all the ports need. */
  lemma OneLineNamesNoPort(name: string)
    requires '\n' !in name
    ensures NamedPort(name).None?
  {
    SplitWord(name, '\n');
    assert [name][1..] == [];
  }

  lemma GivenPort(clients: Clients, name: string, env: string, port: string, canonical: Canonical, bound: int)
    requires PlainUrls(canonical) && '\n' !in name && IsResolved(Archived(env), Used(clients), port)
    requires PortsAtMost(clients, bound) && BASE_PORT <= bound < MAX_INT
    requires Atoi(Archived(env)).Some? ==> Atoi(Archived(env)).value <= bound
    ensures var given := PortOf(Restored(name, port, env, canonical)); given.Some? ==> given.value <= bound + 1
    ensures !TakesUsedPort(clients, name, env)
  {
    hide PortOf, Restored, Archived, PlainUrls, PlainValue, Atoi, Itoa, AssignsPort, NamedPort, NameComesFirst, Used;
    OneLineNamesNoPort(name);
    ResolvedIsPlain(env, Used(clients), port);
    RestoredPort(name, port, env, canonical);
    PortsAreWords(clients);
    if !Usable(Archived(env), Used(clients)) {
      var next :| IsNext(Used(clients), next) && port == Itoa(next);
      NextIsFree(Used(clients), next);
      AtoiItoa(next);
    }
  }

  lemma RoundBound(before: Fs, root: Path, name: string, archive: Archive, canonical: Canonical, after: Fs, alive: bool,
                   bound: int)
    requires WellFormed(before) && PlainUrls(canonical) && Harmless(before, root, name, archive, canonical)
             && '\n' !in name
    requires ImportsOne(before, root, name, archive, canonical, after, alive)
    requires PortsAtMost(View(before, root), bound) && BASE_PORT <= bound < MAX_INT
    requires Atoi(Archived(EnvOf(name, archive))).Some? ==> Atoi(Archived(EnvOf(name, archive))).value <= bound
    ensures PortsAtMost(View(after, root), bound + 1) && !Collides(before, root, name, archive)
  {
    hide ImportsOne, WellFormed, PlainUrls, Harmless, PortOf, Restored, Archived, Atoi, ClientsOf, IsResolved, JoinPath,
      Restores, TakesUsedPort;
    var port := RoundView(before, root, name, archive, canonical, after, alive);
    var env := EnvOf(name, archive);
    if Adds(before, root, name, archive) {
      GivenPort(View(before, root), name, env, port, canonical, bound);
      if alive {
        var given := PortOf(Restored(name, port, env, canonical));
        assert Used(View(after, root)) <= Used(View(before, root)) + if given.Some? then {given.value} else {};
      }
    }
  }

  /** With one-line names, harmless uploads and room above every port in sight the
      whole import keeps the assignment of ports injective. */
  lemma {:induction false} ImportIsInjective(trace: seq<Fs>, root: Path, names: seq<string>, archive: Archive,
                                             canonical: Canonical, alive: bool, bound: int)
    requires ImportRun(trace, root, names, archive, canonical, alive) && WellFormed(trace[0]) && PlainUrls(canonical)
    requires AllHarmless(trace, root, names, archive, canonical) && forall i | 0 <= i < |names| :: '\n' !in names[i]
    requires PortsAtMost(View(trace[0], root), bound) && BASE_PORT <= bound && bound + |names| <= MAX_INT
    requires forall i | 0 <= i < |names| && Atoi(Archived(EnvOf(names[i], archive))).Some? ::
               Atoi(Archived(EnvOf(names[i], archive))).value <= bound
    requires Distinct(View(trace[0], root))
    ensures Distinct(View(trace[|trace| - 1], root)) && PortsAtMost(View(trace[|trace| - 1], root), bound + |trace| - 1)
    decreases |trace|
  {
    hide ImportsOne, WellFormed, PlainUrls, Harmless, Distinct, View, Used, Archived, Atoi, Collides;
    if |trace| >= 2 {
      var n := |trace| - 2;
      ShorterRun(trace, root, names, archive, canonical, alive);
      ImportIsInjective(trace[..n + 1], root, names[..n], archive, canonical, true, bound);
      RunIsWellFormed(trace, root, names, archive, canonical, alive, n);
      RoundBound(trace[n], root, names[n], archive, canonical, trace[n + 1], alive, bound + n);
      RoundKeepsDistinct(trace[n], root, names[n], archive, canonical, trace[n + 1], alive);
    }
  }

  // ---- Where it goes wrong ----

  /** The text of a file with only a PORT line. */
  function PortFile(value: string): string {
    PORT + "=" + value
  }

  lemma ReadPortFile(value: string)
    requires PlainValue(value)
    ensures PortOf(PortFile(value)) == Atoi(value) && AssignsPort(PortFile(value)) && Archived(PortFile(value)) == value
    ensures Lines(PortFile(value)) == [PortFile(value)] && !NameComesFirst(Lines(PortFile(value)))
  {
    hide Atoi, MapOf, ActiveEntry;
    var content := PortFile(value);
    assert '\n' !in content;
    SplitWord(content, '\n');
    PortKeys();
    EntryOfAssignment(PORT, value);
    SetThenFirst([], PORT, value);
    assert [content][1..] == [];
    MapIsLookup([content], PORT);
  }

  /** An archive that holds nothing but the .env of one client. */
  function EnvOnly(name: string, env: string): Archive {
    map[Prefix(name) + "env" := env]
  }

  lemma EnvOnlyIsHarmless(before: Fs, root: Path, name: string, env: string, canonical: Canonical)
    ensures Harmless(before, root, name, EnvOnly(name, env), canonical) && EnvOf(name, EnvOnly(name, env)) == env
  {
    assert Contained(root, name, EnvOnly(name, env)) && EnvOf(name, EnvOnly(name, env)) == env by {
      var key := Prefix(name) + "env";
      assert |key| < |Prefix(name) + "uploads/"|;
      hide JoinPath, IsEnvPath;
    }
    hide Harmless, Contained, EnvOf;
    ContainedIsHarmless(before, root, name, EnvOnly(name, env), canonical);
  }

  /** In any state in which a client has the port p, importing a client whose name
      has a second line PORT=p, and whose archived .env names it before its port,
      leaves two clients with that port. */
  lemma TwoLineNameSharesPort(before: Fs, root: Path, client: string, p: int, first: string, rest: string,
                              canonical: Canonical, after: Fs)
    requires WellFormed(before) && PlainUrls(canonical) && MIN_INT <= p <= MAX_INT
    requires client in View(before, root) && PortOf(View(before, root)[client]) == Some(p)
    requires '/' !in first && '\n' !in first && PlainValue(first)
    requires var name := first + "\n" + PortFile(Itoa(p));
             var env := CLIENT_NAME + "=" + first + "\n" + rest;
             && JoinPath(root, name) !in before.dirs
             && ImportsOne(before, root, name, EnvOnly(name, env), canonical, after, true)
    ensures !Distinct(View(after, root))
  {
    var name := first + "\n" + PortFile(Itoa(p));
    var env := CLIENT_NAME + "=" + first + "\n" + rest;
    TwoLineName(first, p);
    NamedFirst(first, rest);
    EnvOnlyIsHarmless(before, root, name, env, canonical);
    AtoiItoa(p);
    hide ImportsOne, WellFormed, PlainUrls, PortOf, JoinPath, Distinct, ClientsOf, Harmless, NamedPort, NameComesFirst,
      Lines, PortFile, Atoi, Itoa, CLIENT_NAME, PORT, Prefix, EnvOf, PlainValue;
    PlainNameIsChild(root, name);
    assert Adds(before, root, name, EnvOnly(name, env));
    assert p in Used(View(before, root));
    RoundKeepsDistinct(before, root, name, EnvOnly(name, env), canonical, after, true);
  }

  lemma TwoLineName(first: string, p: int)
    requires '/' !in first && '\n' !in first
    ensures var name := first + "\n" + PortFile(Itoa(p));
            NamedPort(name) == Some(Itoa(p)) && '/' !in name && name !in {"", ".", ".."}
  {
    var file := PortFile(Itoa(p));
    ItoaIsPlain(p);
    ReadPortFile(Itoa(p));
    PortKeys();
    AssignmentMatches(PORT, Itoa(p));
    PortFileHasNoSlash(p);
    hide PortFile, Itoa, FirstMatch, PORT, PlainValue, PlainKey, PortOf, AssignsPort, NameComesFirst, Archived;
    NameOfTwoLines(first, file);
    assert PORT + "=" + Itoa(p) == file by { PortFileIs(Itoa(p)); }
  }

  lemma NameOfTwoLines(first: string, second: string)
    requires '/' !in first && '\n' !in first && '/' !in second && Lines(second) == [second]
    ensures var name := first + "\n" + second;
            Lines(name)[1..] == [second] && '/' !in name && name !in {"", ".", ".."}
  {
    var name := first + "\n" + second;
    SplitWordThenMore(first, second, '\n');
    assert first + ['\n'] + second == name;
    assert ([first] + [second])[1..] == [second];
    assert name[|first|] == '\n';
    hide Split;
    assert '\n' !in "" && '\n' !in "." && '\n' !in "..";
  }

  lemma PortFileIs(value: string)
    ensures PortFile(value) == PORT + "=" + value
  {
  }

  lemma PortFileHasNoSlash(p: int)
    ensures '/' !in PortFile(Itoa(p))
  {
    hide Itoa;
  }

  lemma NamedFirst(first: string, rest: string)
    requires '\n' !in first && PlainValue(first)
    ensures NameComesFirst(Lines(CLIENT_NAME + "=" + first + "\n" + rest))
  {
    PortKeys();
    var line := CLIENT_NAME + "=" + first;
    assert '\n' !in line;
    SplitWordThenMore(line, rest, '\n');
    assert line + ['\n'] + rest == CLIENT_NAME + "=" + first + "\n" + rest;
    EntryOfAssignment(CLIENT_NAME, first);
  }

  /** Likewise, with both extreme ports in use, importing a client whose PORT is
      empty: the sum wraps onto a used port. */
  lemma WrappedPortIsShared(before: Fs, root: Path, name: string, canonical: Canonical, after: Fs)
    requires WellFormed(before) && PlainUrls(canonical) && WrapsOntoUsed(Used(View(before, root)))
    requires '/' !in name && '\n' !in name && name !in {"", ".", ".."} && JoinPath(root, name) !in before.dirs
    requires ImportsOne(before, root, name, EnvOnly(name, PortFile("")), canonical, after, true)
    ensures !Distinct(View(after, root))
  {
    var env := PortFile("");
    EmptyIsPlain();
    EmptyIsNoPort();
    ReadPortFile("");
    OneLineNamesNoPort(name);
    EnvOnlyIsHarmless(before, root, name, env, canonical);
    hide ImportsOne, WellFormed, PlainUrls, PortOf, JoinPath, Distinct, ClientsOf, Harmless, NamedPort, NameComesFirst,
      Lines, PortFile, Atoi, AssignsPort, Archived, Used, WrapsOntoUsed, Prefix, EnvOf;
    PlainNameIsChild(root, name);
    RoundKeepsDistinct(before, root, name, EnvOnly(name, env), canonical, after, true);
  }
}
