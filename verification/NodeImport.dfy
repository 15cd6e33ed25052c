/** Restoring the clients of a node archive: the directories and files it writes,
    and the ports the clients get. */
module NodeImport {
  import opened GoStrings
  import opened EnvStore
  import opened EnvWrites
  import opened EnvPatch

  const BASE_PORT := 1080
  const PORT := "PORT"
  const CLIENT_NAME := "CLIENT_NAME"

  // ---- Directories and files ----

  /** An absolute path, as its elements. */
  type Path = seq<string>

  function StepInto(p: Path, e: string): Path {
    if e == "" || e == "." then p
    else if e == ".." then if p == [] then [] else p[..|p| - 1]
    else p + [e]
  }

  function Resolve(base: Path, elements: seq<string>): Path
    decreases |elements|
  {
    if elements == [] then base else Resolve(StepInto(base, elements[0]), elements[1..])
  }

  /** filepath.Join onto a clean absolute path. */
  function JoinPath(base: Path, rel: string): Path {
    Resolve(base, Split(rel, '/'))
  }

  datatype Fs = Fs(dirs: set<Path>, files: map<Path, string>)

  function Parent(p: Path): Path
    requires p != []
  {
    p[..|p| - 1]
  }

  /** Everything lies in a directory, and nothing is both file and directory. */
  predicate WellFormed(fs: Fs) {
    && [] in fs.dirs
    && (forall d | d in fs.dirs && d != [] :: Parent(d) in fs.dirs)
    && (forall f | f in fs.files :: f != [] && Parent(f) in fs.dirs && f !in fs.dirs)
  }

  /** os.MkdirAll: fails at a file on the way, with the directories above it made. */
  function MkdirAll(fs: Fs, p: Path): (Fs, bool)
    decreases |p|
  {
    if p == [] then (fs, true)
    else
      var (up, ok) := MkdirAll(fs, Parent(p));
      if !ok || p in fs.files then (up, false) else (up.(dirs := up.dirs + {p}), true)
  }

  function WriteFile(fs: Fs, p: Path, data: string): (Fs, bool) {
    if p == [] || p in fs.dirs || Parent(p) !in fs.dirs then (fs, false) else (fs.(files := fs.files[p := data]), true)
  }

  // ---- Clients and ports ----

  /** The .env files of the client directories, by client. */
  type Clients = map<string, string>

  function EnvPath(root: Path, client: string): Path {
    root + [client, ".env"]
  }

  predicate IsEnvPath(root: Path, p: Path) {
    |p| == |root| + 2 && p == EnvPath(root, p[|root|])
  }

  function Names(root: Path, files: map<Path, string>): set<string> {
    set f | f in files && IsEnvPath(root, f) :: f[|root|]
  }

  function ClientsOf(root: Path, files: map<Path, string>): Clients {
    map c | c in Names(root, files) && EnvPath(root, c) in files :: files[EnvPath(root, c)]
  }

  /** The public base URL derived from a DOMAINS value, when there is one. */
  type Canonical = string -> Option<string>

  function PortOf(env: string): Option<int> {
    Atoi(FirstValue(Lines(env), PORT + "="))
  }

  function Used(clients: Clients): set<int> {
    set c | c in clients && PortOf(clients[c]).Some? :: PortOf(clients[c]).value
  }

  predicate IsMax(ports: set<int>, m: int) {
    m in ports && forall p | p in ports :: p <= m
  }

  /** Adding one to a 64-bit integer. */
  function Increment(n: int): int {
    if n == MAX_INT then MIN_INT else n + 1
  }

  /** The port assigned automatically. */
  ghost predicate IsNext(ports: set<int>, next: int) {
    if ports == {} then next == 1080
    else exists m :: IsMax(ports, m) && next == Increment(m)
  }

  predicate Usable(archived: string, ports: set<int>) {
    Atoi(archived).Some? && Atoi(archived).value > 0 && Atoi(archived).value !in ports
  }

  ghost predicate IsResolved(archived: string, ports: set<int>, port: string) {
    if Usable(archived, ports) then port == archived
    else exists next :: IsNext(ports, next) && port == Itoa(next)
  }

  function Value(m: map<string, string>, key: string): string {
    if key in m then m[key] else ""
  }

  function FillIn(content: string, values: map<string, string>, key: string, base: string): string {
    if Blank(Value(values, key)) then SetContent(content, key, base) else content
  }

  /** syncCanonicalURLDefaults, as a function of the file. */
  function WithCanonicalUrls(content: string, canonical: Canonical): string {
    var values := MapOf(Scan(content));
    var base := canonical(Value(values, "DOMAINS"));
    if base.None? then content
    else FillIn(FillIn(content, values, "PUBLIC_BASE_URL", base.value), values, "SITEMAP_BASE_URL", base.value)
  }

  function Restored(name: string, port: string, env: string, canonical: Canonical): string {
    WithCanonicalUrls(PatchContent(env, MapOf(Lines(env))[CLIENT_NAME := name][PORT := port]), canonical)
  }

  function Archived(env: string): string {
    Value(MapOf(Lines(env)), PORT)
  }

  // ---- One client ----

  /** The regular files of the archive. */
  type Archive = map<string, string>

  function Prefix(name: string): string {
    "clients/" + name + "/"
  }

  predicate IsUpload(prefix: string, entry: string) {
    prefix + "uploads/" <= entry
  }

  /** Where an uploaded file goes: nothing keeps it below the client directory. */
  function Destination(cdir: Path, prefix: string, entry: string): Path
    requires IsUpload(prefix, entry)
  {
    JoinPath(cdir, entry[|prefix|..])
  }

  function Upload(fs: Fs, cdir: Path, prefix: string, entry: string, data: string): Fs {
    if !IsUpload(prefix, entry) then fs
    else
      var dest := Destination(cdir, prefix, entry);
      var (made, ok) := MkdirAll(fs, if dest == [] then [] else Parent(dest));
      if ok then WriteFile(made, dest, data).0 else made
  }

  /** The upload loop, in the order in which it meets the entries. */
  function Unpack(fs: Fs, cdir: Path, prefix: string, archive: Archive, order: seq<string>): Fs
    requires forall e | e in order :: e in archive
    decreases |order|
  {
    if order == [] then fs
    else
      var last := order[|order| - 1];
      Upload(Unpack(fs, cdir, prefix, archive, order[..|order| - 1]), cdir, prefix, last, archive[last])
  }

  /** The directory, the .env and the compose file of a client; false when the
      process ends on the way. */
  function Prepare(fs: Fs, root: Path, name: string, env: string, compose: string): (Fs, bool) {
    var cdir := JoinPath(root, name);
    var (made, dirOk) := MkdirAll(fs, cdir + ["uploads"]);
    if !dirOk then (made, false)
    else
      var (written, envOk) := WriteFile(made, cdir + [".env"], env);
      if !envOk then (written, false)
      else if compose == "" then (written, true)
      else WriteFile(written, cdir + ["compose.yml"], compose)
  }

  /** And its uploads. */
  function Setup(fs: Fs, root: Path, name: string, env: string, compose: string, archive: Archive,
                 order: seq<string>): (Fs, bool)
    requires forall e | e in order :: e in archive
  {
    var (ready, ok) := Prepare(fs, root, name, env, compose);
    if ok then (Unpack(ready, JoinPath(root, name), Prefix(name), archive, order), true) else (ready, false)
  }

  /** Whether a round of the loop restores its client: not there yet, and with an
      .env in the archive. */
  predicate Restores(fs: Fs, root: Path, name: string, archive: Archive) {
    JoinPath(root, name) !in fs.dirs && Prefix(name) + "env" in archive
  }

  function EnvOf(name: string, archive: Archive): string {
    Value(archive, Prefix(name) + "env")
  }

  ghost predicate ListsKeys(order: seq<string>, archive: Archive) {
    |order| == |archive| && forall e :: e in order <==> e in archive
  }

  /** One round of the import loop, with the port it resolves. */
  ghost predicate ImportsOne(before: Fs, root: Path, name: string, archive: Archive, canonical: Canonical, after: Fs,
                             alive: bool)
  {
    if !Restores(before, root, name, archive) then after == before && alive
    else
      exists port, order: seq<string> ::
        && IsResolved(Archived(EnvOf(name, archive)), Used(ClientsOf(root, before.files)), port)
           && ListsKeys(order, archive)
        && (after, alive) == Setup(before, root, name, Restored(name, port, EnvOf(name, archive), canonical),
                                   Value(archive, Prefix(name) + "compose.yml"), archive, order)
  }

  /** The file system after each round of the loop, up to the round that ends the
      process, if one does. */
  ghost predicate ImportRun(trace: seq<Fs>, root: Path, names: seq<string>, archive: Archive, canonical: Canonical,
                            alive: bool)
  {
    && 1 <= |trace| <= |names| + 1 && (if alive then |trace| == |names| + 1 else |trace| >= 2)
    && forall i | 0 <= i < |trace| - 1 ::
         ImportsOne(trace[i], root, names[i], archive, canonical, trace[i + 1], alive || i < |trace| - 2)
  }

  // ---- The node ----

  /** A file system with the client directories below a root. */
  class Node {
    const root: Path
    var dirs: set<Path>
    var files: map<Path, string>

    function State(): Fs
      reads this
    {
      Fs(dirs, files)
    }

    constructor (root: Path, fs: Fs)
      ensures this.root == root && State() == fs
    {
      this.root := root;
      dirs, files := fs.dirs, fs.files;
    }

    method MakeDirs(p: Path) returns (ok: bool)
      modifies this
      ensures (State(), ok) == MkdirAll(old(State()), p)
    {
      var made := MkdirAll(State(), p);
      dirs, files, ok := made.0.dirs, made.0.files, made.1;
    }

    method Write(p: Path, data: string) returns (ok: bool)
      modifies this
      ensures (State(), ok) == WriteFile(old(State()), p, data)
    {
      ok := p != [] && p !in dirs && Parent(p) in dirs;
      if ok {
        files := files[p := data];
      }
    }

    /** The ports of the client directories, in ascending order. */
    method UsedPorts() returns (ports: seq<int>)
      requires WellFormed(State())
      ensures Ascending(ports) && forall p :: p in ports <==> p in Used(ClientsOf(root, files))
    {
      hide PortOf, WellFormed, Ascending;
      var found: seq<int> := [];
      var todo := set d | d in dirs && |d| == |root| + 1 && root <= d;
      ghost var entries := todo;
      while todo != {}
        invariant todo <= entries
        invariant forall p ::
                    p in found
                    <==> exists d :: d in entries && d !in todo && d + [".env"] in files
                           && PortOf(files[d + [".env"]]) == Some(p)
        decreases |todo|
      {
        var d := Any(todo);
        ghost var before := found;
        if d + [".env"] in files {
          var val := EnvValue(files[d + [".env"]], PORT);
          var p := Atoi(val);
          assert p == PortOf(files[d + [".env"]]) by { PortOfText(files[d + [".env"]]); }
          if p.Some? {
            found := found + [p.value];
          }
        }
        forall p ensures p in found
          <==> p in before || (d + [".env"] in files && PortOf(files[d + [".env"]]) == Some(p)) {}
        todo := todo - {d};
      }
      forall p ensures p in found <==> p in Used(ClientsOf(root, files)) {
        DirsAreClients(State(), root, entries, p);
      }
      ports := SortInts(found);
    }

    method NextPort() returns (next: int)
      requires WellFormed(State())
      ensures IsNext(Used(ClientsOf(root, files)), next)
    {
      hide Used, ClientsOf, WellFormed;
      var ports := UsedPorts();
      if |ports| == 0 {
        forall p ensures p !in Used(ClientsOf(root, files)) { assert p !in ports; }
        return BASE_PORT;
      }
      var last := ports[|ports| - 1];
      assert IsMax(Used(ClientsOf(root, files)), last);
      next := if last == MAX_INT then MIN_INT else last + 1;
    }

    method PortInUse(port: int) returns (used: bool)
      requires WellFormed(State())
      ensures used == (port in Used(ClientsOf(root, files)))
    {
      hide Used, ClientsOf, WellFormed;
      var ports := UsedPorts();
      used := port in ports;
    }

    /** An override is used or ends the process; without one the archived port is
        used if it is a positive free number, else the next one. */
    method ResolvePort(archived: string, override: string) returns (port: Option<string>)
      requires WellFormed(State())
      ensures override == "" ==> port.Some? && IsResolved(archived, Used(ClientsOf(root, files)), port.value)
      ensures override != "" ==>
        port == if Atoi(override).Some? && Atoi(override).value !in Used(ClientsOf(root, files)) then Some(override)
          else None
    {
      hide Used, ClientsOf, IsNext, WellFormed;
      if override != "" {
        var p := Atoi(override);
        if p.None? {
          return None;
        }
        var taken := PortInUse(p.value);
        return if taken then None else Some(override);
      }
      var p := Atoi(archived);
      if p.Some? && p.value > 0 {
        var used := PortInUse(p.value);
        if !used {
          return Some(archived);
        }
      }
      var next := NextPort();
      port := Some(Itoa(next));
    }

    method UnpackUploads(cdir: Path, prefix: string, archive: Archive) returns (ghost order: seq<string>)
      modifies this
      ensures ListsKeys(order, archive) && State() == Unpack(old(State()), cdir, prefix, archive, order)
    {
      hide IsUpload, Upload, Destination, JoinPath, MkdirAll;
      order := [];
      var todo := archive.Keys;
      while todo != {}
        invariant todo <= archive.Keys && |order| + |todo| == |archive|
        invariant forall e :: e in order <==> e in archive && e !in todo
        invariant State() == Unpack(old(State()), cdir, prefix, archive, order)
        decreases |todo|
      {
        var entry := Any(todo);
        assert (order + [entry])[..|order|] == order;
        UnpackOne(cdir, prefix, entry, archive[entry]);
        order := order + [entry];
        todo := todo - {entry};
      }
    }

    method UnpackOne(cdir: Path, prefix: string, entry: string, data: string)
      modifies this
      ensures State() == Upload(old(State()), cdir, prefix, entry, data)
    {
      hide JoinPath, MkdirAll, IsUpload;
      if IsUpload(prefix, entry) {
        assert |prefix| <= |entry| by { UploadIsLonger(prefix, entry); }
        var dest := JoinPath(cdir, entry[|prefix|..]);
        var ok := MakeDirs(if dest == [] then [] else Parent(dest));
        if ok {
          var written := Write(dest, data);
        }
      }
    }

    /** setupClientFromFiles */
    method SetupClient(name: string, port: string, env: string, envMap: map<string, string>, compose: string,
                       archive: Archive, canonical: Canonical)
      returns (alive: bool, ghost order: seq<string>)
      requires envMap == MapOf(Lines(env))
      modifies this
      ensures ListsKeys(order, archive)
      ensures (State(), alive)
              == Setup(old(State()), root, name, Restored(name, port, env, canonical), compose, archive, order)
    {
      hide MapOf, PatchContent, JoinPath, MkdirAll, Unpack, WithCanonicalUrls;
      order := AnyOrder(archive);
      var cdir := JoinPath(root, name);
      var ok := MakeDirs(cdir + ["uploads"]);
      if !ok {
        return false, order;
      }
      ghost var made := State();
      var overrides := envMap[CLIENT_NAME := name][PORT := port];
      var content := WriteEnvPatched(env, overrides);
      ok := Write(cdir + [".env"], content);
      if !ok {
        return false, order;
      }
      content := SyncCanonicalUrlDefaults(content, canonical);
      ok := Write(cdir + [".env"], content);
      assert made.files[cdir + [".env"] := PatchContent(env, overrides)][cdir + [".env"] := content]
        == made.files[cdir + [".env"] := content];
      if compose != "" {
        ok := Write(cdir + ["compose.yml"], compose);
        if !ok {
          return false, order;
        }
      }
      order := UnpackUploads(cdir, Prefix(name), archive);
      return true, order;
    }

    ghost method AnyOrder(archive: Archive) returns (order: seq<string>)
      ensures ListsKeys(order, archive)
    {
      order := [];
      var todo := archive.Keys;
      while todo != {}
        invariant todo <= archive.Keys && |order| + |todo| == |archive|
        invariant forall e :: e in order <==> e in archive && e !in todo
        decreases |todo|
      {
        var entry :| entry in todo;
        order := order + [entry];
        todo := todo - {entry};
      }
    }

    method ImportOne(name: string, archive: Archive, canonical: Canonical) returns (restored: bool, alive: bool)
      requires WellFormed(State())
      modifies this
      ensures ImportsOne(old(State()), root, name, archive, canonical, State(), alive)
      ensures restored == (Restores(old(State()), root, name, archive) && alive)
    {
      hide Used, ClientsOf, IsResolved, Restored, Setup, JoinPath, Prefix, ListsKeys, WellFormed, ImportsOne, Archived,
        MapOf, Lookup, Lines, Value;
      NotRestored(State(), root, name, archive, canonical);
      assert EnvOf(name, archive) == Value(archive, Prefix(name) + "env");
      if JoinPath(root, name) in dirs {
        return false, true;
      }
      var entry := Prefix(name) + "env";
      if entry !in archive {
        return false, true;
      }
      var env := archive[entry];
      var envMap := ParseEnvBytes(env);
      var port := ResolvePort(Value(envMap, PORT), "");
      assert Value(envMap, PORT) == Archived(env) by { ArchivedIs(env); }
      assert Value(archive, entry) == env by { ValueIs(archive, entry); }
      ghost var before := State();
      ghost var order: seq<string>;
      alive, order :=
        SetupClient(name, port.value, env, envMap, Value(archive, Prefix(name) + "compose.yml"), archive, canonical);
      RestoredBy(before, root, name, archive, canonical, State(), alive, port.value, order);
      restored := alive;
    }

    /** cmdImportNode: a round for each name, until one ends the process. */
    method ImportNode(names: seq<string>, archive: Archive, canonical: Canonical)
      returns (imported: nat, alive: bool, ghost trace: seq<Fs>)
      requires WellFormed(State())
      modifies this
      ensures trace != [] && trace[0] == old(State()) && trace[|trace| - 1] == State()
      ensures ImportRun(trace, root, names, archive, canonical, alive)
      ensures imported == RestoredRounds(trace, root, names, archive, |trace| - if alive then 1 else 2)
    {
      hide ImportsOne, Restores, WellFormed;
      imported, alive := 0, true;
      trace := [State()];
      var i := 0;
      while i < |names|
        invariant 0 <= i <= |names| && |trace| == i + 1
        invariant WellFormed(State()) && trace[0] == old(State()) && trace[i] == State()
        invariant forall j | 0 <= j < i :: ImportsOne(trace[j], root, names[j], archive, canonical, trace[j + 1], true)
        invariant imported == RestoredRounds(trace, root, names, archive, i)
      {
        ghost var before := State();
        var restored, ok := ImportOne(names[i], archive, canonical);
        ImportKeepsWellFormed(before, root, names[i], archive, canonical, State(), ok);
        RoundsSoFar(trace, State(), root, names, archive, i);
        trace := trace + [State()];
        if !ok {
          return imported, false, trace;
        }
        if restored {
          imported := imported + 1;
        }
        i := i + 1;
      }
    }
  }

  /** How many of the first n rounds restore a client. */
  function RestoredRounds(trace: seq<Fs>, root: Path, names: seq<string>, archive: Archive, n: nat): nat
    requires n <= |trace| && n <= |names|
  {
    if n == 0 then 0
    else
      var restores := Restores(trace[n - 1], root, names[n - 1], archive);
      RestoredRounds(trace, root, names, archive, n - 1) + if restores then 1 else 0
  }

  lemma {:induction false} RoundsSoFar(trace: seq<Fs>, fs: Fs, root: Path, names: seq<string>, archive: Archive, n: nat)
    requires n <= |trace| && n <= |names|
    ensures RestoredRounds(trace + [fs], root, names, archive, n) == RestoredRounds(trace, root, names, archive, n)
  {
    hide Restores;
    if n > 0 { RoundsSoFar(trace, fs, root, names, archive, n - 1); }
  }

  lemma NotRestored(fs: Fs, root: Path, name: string, archive: Archive, canonical: Canonical)
    ensures !Restores(fs, root, name, archive) ==> ImportsOne(fs, root, name, archive, canonical, fs, true)
  {
  }

  lemma RestoredBy(before: Fs, root: Path, name: string, archive: Archive, canonical: Canonical, after: Fs, alive: bool,
                   port: string, order: seq<string>)
    requires Restores(before, root, name, archive) && ListsKeys(order, archive)
    requires IsResolved(Archived(EnvOf(name, archive)), Used(ClientsOf(root, before.files)), port)
    requires (after, alive) == Setup(before, root, name, Restored(name, port, EnvOf(name, archive), canonical),
                                     Value(archive, Prefix(name) + "compose.yml"), archive, order)
    ensures ImportsOne(before, root, name, archive, canonical, after, alive)
  {
    hide Setup, Restored, IsResolved, Used, ClientsOf, Archived, EnvOf, Restores, Value;
  }

  lemma ValueIs(m: map<string, string>, key: string)
    ensures key in m ==> Value(m, key) == m[key]
  {
  }

  // ---- The file system stays one ----

  lemma {:induction false} MkdirKeeps(fs: Fs, p: Path)
    requires WellFormed(fs)
    ensures var (made, ok) := MkdirAll(fs, p);
            && WellFormed(made) && made.files == fs.files && fs.dirs <= made.dirs
            && (ok ==> p in made.dirs) && (forall d | d in made.dirs - fs.dirs :: |d| <= |p| && d == p[..|d|])
    decreases |p|
  {
    if p != [] {
      MkdirKeeps(fs, Parent(p));
      var (up, ok) := MkdirAll(fs, Parent(p));
      assert forall d: Path | |d| <= |p| - 1 && d == Parent(p)[..|d|] :: d == p[..|d|];
      assert p == p[..|p|];
    }
  }

  lemma WriteKeeps(fs: Fs, p: Path, data: string)
    requires WellFormed(fs)
    ensures WellFormed(WriteFile(fs, p, data).0)
  {
  }

  lemma UploadKeeps(fs: Fs, cdir: Path, prefix: string, entry: string, data: string)
    requires WellFormed(fs)
    ensures WellFormed(Upload(fs, cdir, prefix, entry, data)) && fs.dirs <= Upload(fs, cdir, prefix, entry, data).dirs
  {
    hide WellFormed, IsUpload, Destination, MkdirAll;
    if IsUpload(prefix, entry) {
      var dest := Destination(cdir, prefix, entry);
      var dir := if dest == [] then [] else Parent(dest);
      MkdirKeeps(fs, dir);
      WriteKeeps(MkdirAll(fs, dir).0, dest, data);
    }
  }

  lemma {:induction false} UnpackKeeps(fs: Fs, cdir: Path, prefix: string, archive: Archive, order: seq<string>)
    requires WellFormed(fs) && forall e | e in order :: e in archive
    ensures var after := Unpack(fs, cdir, prefix, archive, order); WellFormed(after) && fs.dirs <= after.dirs
    decreases |order|
  {
    hide WellFormed, Upload;
    if order != [] {
      var init, last := order[..|order| - 1], order[|order| - 1];
      UnpackKeeps(fs, cdir, prefix, archive, init);
      UploadKeeps(Unpack(fs, cdir, prefix, archive, init), cdir, prefix, last, archive[last]);
    }
  }

  lemma PrepareKeeps(fs: Fs, root: Path, name: string, env: string, compose: string)
    requires WellFormed(fs)
    ensures var (ready, ok) := Prepare(fs, root, name, env, compose);
            WellFormed(ready) && fs.dirs <= ready.dirs && (ok ==> JoinPath(root, name) in ready.dirs)
  {
    var cdir := JoinPath(root, name);
    var made := MkdirAll(fs, cdir + ["uploads"]).0;
    assert MkdirAll(fs, cdir + ["uploads"]).1 ==> cdir in made.dirs by {
      assert Parent(cdir + ["uploads"]) == cdir;
      MkdirKeeps(fs, cdir + ["uploads"]);
    }
    hide WellFormed, MkdirAll, JoinPath;
    MkdirKeeps(fs, cdir + ["uploads"]);
    WriteKeeps(made, cdir + [".env"], env);
    var written := WriteFile(made, cdir + [".env"], env).0;
    WriteKeeps(written, cdir + ["compose.yml"], compose);
  }

  lemma SetupKeeps(fs: Fs, root: Path, name: string, env: string, compose: string, archive: Archive,
                   order: seq<string>)
    requires WellFormed(fs) && forall e | e in order :: e in archive
    ensures var (after, alive) := Setup(fs, root, name, env, compose, archive, order);
            WellFormed(after) && fs.dirs <= after.dirs && (alive ==> JoinPath(root, name) in after.dirs)
  {
    hide WellFormed, Prepare, JoinPath, Unpack, Prefix;
    PrepareKeeps(fs, root, name, env, compose);
    UnpackKeeps(Prepare(fs, root, name, env, compose).0, JoinPath(root, name), Prefix(name), archive, order);
  }

  lemma ImportKeepsWellFormed(before: Fs, root: Path, name: string, archive: Archive, canonical: Canonical, after: Fs,
                              alive: bool)
    requires WellFormed(before) && ImportsOne(before, root, name, archive, canonical, after, alive)
    ensures WellFormed(after) && before.dirs <= after.dirs
    ensures alive && Prefix(name) + "env" in archive ==> JoinPath(root, name) in after.dirs
  {
    hide WellFormed, Setup, IsResolved, Restored, JoinPath, Used, ClientsOf, Archived;
    if Restores(before, root, name, archive) {
      var port, order: seq<string> :|
        && IsResolved(Archived(EnvOf(name, archive)), Used(ClientsOf(root, before.files)), port)
           && ListsKeys(order, archive)
        && (after, alive) == Setup(before, root, name, Restored(name, port, EnvOf(name, archive), canonical),
                                   Value(archive, Prefix(name) + "compose.yml"), archive, order);
      SetupKeeps(before, root, name, Restored(name, port, EnvOf(name, archive), canonical),
                 Value(archive, Prefix(name) + "compose.yml"), archive, order);
    }
  }

  lemma PortOfText(env: string)
    ensures PortOf(env) == Atoi(FirstValue(Lines(env), PORT + "="))
  {
  }

  lemma ArchivedIs(env: string)
    ensures Archived(env) == Value(MapOf(Lines(env)), PORT)
  {
  }

  lemma UploadIsLonger(prefix: string, entry: string)
    requires IsUpload(prefix, entry)
    ensures |prefix| <= |entry|
  {
  }

  lemma ClientAt(root: Path, files: map<Path, string>, c: string)
    ensures c in ClientsOf(root, files) <==> EnvPath(root, c) in files
    ensures c in ClientsOf(root, files) ==> ClientsOf(root, files)[c] == files[EnvPath(root, c)]
  {
    var f := EnvPath(root, c);
    assert f[|root|] == c;
    if f in files { assert IsEnvPath(root, f); }
  }

  /** Every client .env lies in a directory that is an entry of the root. */
  lemma DirsAreClients(fs: Fs, root: Path, entries: set<Path>, p: int)
    requires WellFormed(fs) && entries == set d | d in fs.dirs && |d| == |root| + 1 && root <= d
    ensures p in Used(ClientsOf(root, fs.files))
            <==> exists d :: d in entries && d + [".env"] in fs.files && PortOf(fs.files[d + [".env"]]) == Some(p)
  {
    hide PortOf, ClientsOf;
    var clients := ClientsOf(root, fs.files);
    if p in Used(clients) {
      var c :| c in clients && PortOf(clients[c]) == Some(p);
      ClientAt(root, fs.files, c);
      var d := root + [c];
      assert d + [".env"] == EnvPath(root, c) && Parent(EnvPath(root, c)) == d;
      assert d in entries;
    }
    if d :| d in entries && d + [".env"] in fs.files && PortOf(fs.files[d + [".env"]]) == Some(p) {
      var c := d[|root|];
      assert d == root + [c];
      assert d + [".env"] == EnvPath(root, c);
      ClientAt(root, fs.files, c);
    }
  }

  method SyncCanonicalUrlDefaults(before: string, canonical: Canonical) returns (content: string)
    ensures content == WithCanonicalUrls(before, canonical)
  {
    hide SetContent, MapOf, Scan, Lines, Lookup;
    content := before;
    var values := LoadEnvMap(content);
    var base := canonical(Value(values, "DOMAINS"));
    if base.Some? {
      if TrimSpace(Value(values, "PUBLIC_BASE_URL")) == "" {
        content := SetEnvVal(content, "PUBLIC_BASE_URL", base.value);
      }
      if TrimSpace(Value(values, "SITEMAP_BASE_URL")) == "" {
        content := SetEnvVal(content, "SITEMAP_BASE_URL", base.value);
      }
    }
  }
}
