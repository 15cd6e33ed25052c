/** The uploads of a client archive can lead anywhere: which of them leave the
    other clients alone, in whatever order they are unpacked. */
module NodeImportUploads {
  import opened GoStrings
  import opened EnvStore
  import opened NodeImport
  import opened NodeImportLaws

  function View(fs: Fs, root: Path): Clients {
    ClientsOf(root, fs.files)
  }

  /** A directory that is an entry of the root, as the clients' directories are. */
  predicate IsChild(root: Path, p: Path) {
    |p| == |root| + 1 && p == root + [p[|root|]]
  }

  /** The archive entry is an upload that leads to the .env of that client. */
  predicate Bound(root: Path, name: string, entry: string, client: string) {
    IsUpload(Prefix(name), entry)
    && Destination(JoinPath(root, name), Prefix(name), entry) == EnvPath(root, client)
  }

  lemma ViewAfterWrite(fs: Fs, root: Path, p: Path, data: string)
    ensures var (after, ok) := WriteFile(fs, p, data);
            && (!ok || !IsEnvPath(root, p) ==> View(after, root) == View(fs, root))
            && (ok && IsEnvPath(root, p) ==> View(after, root) == View(fs, root)[p[|root|] := data])
  {
    hide ClientsOf;
    var (after, ok) := WriteFile(fs, p, data);
    forall c: string
      ensures c in View(after, root) <==> c in View(fs, root) || (ok && IsEnvPath(root, p) && c == p[|root|])
      ensures c in View(after, root) ==>
                View(after, root)[c] == if ok && IsEnvPath(root, p) && c == p[|root|] then data else View(fs, root)[c]
    {
      ClientAt(root, fs.files, c);
      ClientAt(root, after.files, c);
      EnvPathIs(root, p, c);
    }
  }

  lemma EnvPathIs(root: Path, p: Path, c: string)
    ensures p == EnvPath(root, c) <==> IsEnvPath(root, p) && c == p[|root|]
  {
    assert EnvPath(root, c)[|root|] == c;
  }

  // ---- When a file can be written ----

  /** A file is in the way, or the path is a directory. */
  predicate Blocked(fs: Fs, p: Path) {
    p in fs.dirs || exists k :: 0 < k < |p| && p[..k] in fs.files
  }

  lemma {:induction false} MkdirFails(fs: Fs, p: Path)
    ensures MkdirAll(fs, p).1 <==> forall k | 0 < k <= |p| :: p[..k] !in fs.files
    decreases |p|
  {
    if p != [] {
      MkdirFails(fs, Parent(p));
      assert forall k | 0 < k <= |p| - 1 :: Parent(p)[..k] == p[..k];
      assert p[..|p|] == p;
    }
  }

  lemma UploadLands(fs: Fs, p: Path, data: string)
    requires WellFormed(fs) && p != []
    ensures WriteFile(MkdirAll(fs, Parent(p)).0, p, data).1 && MkdirAll(fs, Parent(p)).1 <==> !Blocked(fs, p)
  {
    hide WellFormed, MkdirAll;
    MkdirFails(fs, Parent(p));
    MkdirKeeps(fs, Parent(p));
    assert forall k | 0 < k < |p| :: Parent(p)[..k] == p[..k];
  }

  lemma {:induction false} DirectoryAbove(fs: Fs, d: Path, k: nat)
    requires WellFormed(fs) && d in fs.dirs && k <= |d|
    ensures d[..k] in fs.dirs
    decreases |d|
  {
    if k < |d| {
      DirectoryAbove(fs, Parent(d), k);
      assert Parent(d)[..k] == d[..k];
    } else {
      assert d[..k] == d;
    }
  }

  lemma FilesAreNotBlocked(fs: Fs, p: Path)
    requires WellFormed(fs) && p in fs.files
    ensures !Blocked(fs, p)
  {
    forall k | 0 < k < |p| ensures p[..k] !in fs.files {
      DirectoryAbove(fs, Parent(p), k);
      assert Parent(p)[..k] == p[..k];
    }
  }

  // ---- One upload, and all of them ----

  lemma ViewAfterUpload(fs: Fs, root: Path, name: string, entry: string, data: string, client: string)
    requires WellFormed(fs)
    ensures var after := View(Upload(fs, JoinPath(root, name), Prefix(name), entry, data), root);
            if Bound(root, name, entry, client) && !Blocked(fs, EnvPath(root, client))
            then client in after && after[client] == data
            else (client in after <==> client in View(fs, root))
                 && (client in after ==> after[client] == View(fs, root)[client])
  {
    hide ClientsOf, IsUpload, Destination, WellFormed, MkdirAll, Blocked, JoinPath, Prefix;
    if IsUpload(Prefix(name), entry) {
      var dest := Destination(JoinPath(root, name), Prefix(name), entry);
      var dir := if dest == [] then [] else Parent(dest);
      MkdirKeeps(fs, dir);
      ViewAfterWrite(MkdirAll(fs, dir).0, root, dest, data);
      EnvPathIs(root, dest, client);
      if dest != [] { UploadLands(fs, dest, data); }
    }
  }

  lemma ClientIsNotBlocked(fs: Fs, root: Path, client: string)
    requires WellFormed(fs) && client in View(fs, root)
    ensures !Blocked(fs, EnvPath(root, client))
  {
    hide ClientsOf, Blocked;
    ClientAt(root, fs.files, client);
    FilesAreNotBlocked(fs, EnvPath(root, client));
  }

  /** Nothing is ever removed. */
  predicate Grows(fs: Fs, after: Fs) {
    fs.dirs <= after.dirs && fs.files.Keys <= after.files.Keys
  }

  lemma UploadGrows(fs: Fs, cdir: Path, prefix: string, entry: string, data: string)
    requires WellFormed(fs)
    ensures Grows(fs, Upload(fs, cdir, prefix, entry, data))
  {
    hide WellFormed, IsUpload, Destination, MkdirAll;
    if IsUpload(prefix, entry) {
      var dest := Destination(cdir, prefix, entry);
      MkdirKeeps(fs, if dest == [] then [] else Parent(dest));
    }
  }

  lemma {:induction false} UnpackGrows(fs: Fs, cdir: Path, prefix: string, archive: Archive, order: seq<string>, k: nat)
    requires WellFormed(fs) && k <= |order| && forall e | e in order :: e in archive
    ensures Grows(Unpack(fs, cdir, prefix, archive, order[..k]), Unpack(fs, cdir, prefix, archive, order))
    decreases |order|
  {
    hide WellFormed, Upload;
    if k == |order| {
      assert order[..k] == order;
    } else {
      var init, last := order[..|order| - 1], order[|order| - 1];
      UnpackGrows(fs, cdir, prefix, archive, init, k);
      assert init[..k] == order[..k];
      UnpackKeeps(fs, cdir, prefix, archive, init);
      UploadGrows(Unpack(fs, cdir, prefix, archive, init), cdir, prefix, last, archive[last]);
    }
  }

  lemma BlockedStays(fs: Fs, after: Fs, p: Path)
    requires Grows(fs, after) && Blocked(fs, p)
    ensures Blocked(after, p)
  {
    if p !in fs.dirs {
      var k :| 0 < k < |p| && p[..k] in fs.files;
      assert p[..k] in after.files;
    }
  }

  /** A client that is there keeps its file if every upload bound for it brings the
      same text, and has the text of the last upload if that is bound for it. */
  lemma {:induction false} ClientAfterUnpack(fs: Fs, root: Path, name: string, archive: Archive, order: seq<string>,
                                             client: string)
    requires WellFormed(fs) && client in View(fs, root) && forall e | e in order :: e in archive
    ensures var after := View(Unpack(fs, JoinPath(root, name), Prefix(name), archive, order), root);
            && client in after
            && ((forall e | e in order && Bound(root, name, e, client) :: archive[e] == View(fs, root)[client]) ==>
                  after[client] == View(fs, root)[client])
            && (order != [] && Bound(root, name, order[|order| - 1], client) ==>
                after[client] == archive[order[|order| - 1]])
    decreases |order|
  {
    hide ClientsOf, WellFormed, Upload, JoinPath, Prefix, Bound, Blocked;
    if order != [] {
      var init, last := order[..|order| - 1], order[|order| - 1];
      var next := Unpack(fs, JoinPath(root, name), Prefix(name), archive, init);
      ClientAfterUnpack(fs, root, name, archive, init, client);
      UnpackKeeps(fs, JoinPath(root, name), Prefix(name), archive, init);
      ClientIsNotBlocked(next, root, client);
      ViewAfterUpload(next, root, name, last, archive[last], client);
    }
  }

  /** An upload that no client's file can be told to have seen: not bound for one,
      or bringing the text that is there, or never getting through. */
  ghost predicate Leaves(fs: Fs, root: Path, name: string, entry: string, data: string) {
    forall c | Bound(root, name, entry, c) ::
      if c in View(fs, root) then View(fs, root)[c] == data else Blocked(fs, EnvPath(root, c))
  }

  lemma {:induction false} UnpackLeaves(fs: Fs, root: Path, name: string, archive: Archive, order: seq<string>)
    requires WellFormed(fs) && (forall e | e in order :: e in archive) && forall e | e in order ::
             Leaves(fs, root, name, e, archive[e])
    ensures View(Unpack(fs, JoinPath(root, name), Prefix(name), archive, order), root) == View(fs, root)
    decreases |order|
  {
    hide ClientsOf, WellFormed, Upload, JoinPath, Prefix, Bound, Blocked, Grows;
    if order != [] {
      var init, last := order[..|order| - 1], order[|order| - 1];
      var next := Unpack(fs, JoinPath(root, name), Prefix(name), archive, init);
      var after := Upload(next, JoinPath(root, name), Prefix(name), last, archive[last]);
      UnpackLeaves(fs, root, name, archive, init);
      UnpackKeeps(fs, JoinPath(root, name), Prefix(name), archive, init);
      UnpackGrows(fs, JoinPath(root, name), Prefix(name), archive, init, 0);
      assert init[..0] == [];
      assert Leaves(fs, root, name, last, archive[last]);
      forall c: string
        ensures c in View(after, root) <==> c in View(fs, root)
        ensures c in View(after, root) ==> View(after, root)[c] == View(fs, root)[c]
      {
        ViewAfterUpload(next, root, name, last, archive[last], c);
        if Bound(root, name, last, c) && c !in View(fs, root) { BlockedStays(fs, next, EnvPath(root, c)); }
      }
    }
  }

  // ---- All files ----

  /** The archive entry is an upload for this path. */
  predicate Leads(root: Path, name: string, entry: string, p: Path) {
    IsUpload(Prefix(name), entry) && Destination(JoinPath(root, name), Prefix(name), entry) == p
  }

  lemma FileAfterUpload(fs: Fs, root: Path, name: string, entry: string, data: string, p: Path)
    requires WellFormed(fs)
    ensures var after := Upload(fs, JoinPath(root, name), Prefix(name), entry, data);
            if p != [] && Leads(root, name, entry, p) && !Blocked(fs, p) then p in after.files && after.files[p] == data
            else (p in after.files <==> p in fs.files) && (p in fs.files ==> after.files[p] == fs.files[p])
  {
    hide IsUpload, Destination, WellFormed, MkdirAll, Blocked, JoinPath, Prefix;
    if IsUpload(Prefix(name), entry) {
      var dest := Destination(JoinPath(root, name), Prefix(name), entry);
      MkdirKeeps(fs, if dest == [] then [] else Parent(dest));
      if dest != [] { UploadLands(fs, dest, data); }
    }
  }

  /** Whatever the order, every file after the uploads is as it was before or has the
      text of an upload for it; and an upload for a path is there afterwards, if all
      for that path bring the same text, unless something is in its way. */
  lemma {:induction false} FilesAfterUnpack(fs: Fs, root: Path, name: string, archive: Archive, order: seq<string>,
                                            p: Path)
    requires WellFormed(fs) && p != [] && forall e | e in order :: e in archive
    ensures var after := Unpack(fs, JoinPath(root, name), Prefix(name), archive, order);
            && (p in after.files ==>
                  || (p in fs.files && after.files[p] == fs.files[p])
                  || exists e :: e in order && Leads(root, name, e, p) && after.files[p] == archive[e])
            && (forall e | e in order && Leads(root, name, e, p)
                           && (forall o | o in order && Leads(root, name, o, p) :: archive[o] == archive[e]) ::
                  Blocked(after, p) || (p in after.files && after.files[p] == archive[e]))
            && (p in fs.files ==> p in after.files)
    decreases |order|
  {
    hide WellFormed, Upload, JoinPath, Prefix, Leads, Blocked, Grows;
    if order != [] {
      var init, last := order[..|order| - 1], order[|order| - 1];
      var cdir, prefix := JoinPath(root, name), Prefix(name);
      var next := Unpack(fs, cdir, prefix, archive, init);
      var after := Upload(next, cdir, prefix, last, archive[last]);
      FilesAfterUnpack(fs, root, name, archive, init, p);
      UnpackKeeps(fs, cdir, prefix, archive, init);
      FileAfterUpload(next, root, name, last, archive[last], p);
      UploadGrows(next, cdir, prefix, last, archive[last]);
      if Blocked(next, p) { BlockedStays(next, after, p); }
      assert forall e :: e in order <==> e in init || e == last;
    }
  }

  // ---- Orders ----

  lemma {:induction false} KeysInOrder(keys: set<string>) returns (order: seq<string>)
    ensures |order| == |keys| && forall e :: e in order <==> e in keys
    decreases |keys|
  {
    order := [];
    if e :| e in keys {
      order := KeysInOrder(keys - {e});
      order := [e] + order;
    }
  }

  lemma OrderWithFirst(archive: Archive, entry: string) returns (order: seq<string>)
    requires entry in archive
    ensures ListsKeys(order, archive) && order[..1] == [entry]
  {
    order := KeysInOrder(archive.Keys - {entry});
    order := [entry] + order;
  }

  lemma OrderWithLast(archive: Archive, entry: string) returns (order: seq<string>)
    requires entry in archive
    ensures ListsKeys(order, archive) && order != [] && order[|order| - 1] == entry
  {
    order := KeysInOrder(archive.Keys - {entry});
    order := order + [entry];
  }

  /** The uploads leave the clients' files alone in whatever order they come exactly
      when each of them does. */
  lemma UnpackingLeavesIff(fs: Fs, root: Path, name: string, archive: Archive)
    requires WellFormed(fs)
    ensures (forall order | ListsKeys(order, archive) ::
               View(Unpack(fs, JoinPath(root, name), Prefix(name), archive, order), root) == View(fs, root))
            <==> forall e | e in archive :: Leaves(fs, root, name, e, archive[e])
  {
    hide ClientsOf, WellFormed, Unpack, JoinPath, Prefix, Bound, Blocked;
    if forall e | e in archive :: Leaves(fs, root, name, e, archive[e]) {
      forall order | ListsKeys(order, archive)
        ensures View(Unpack(fs, JoinPath(root, name), Prefix(name), archive, order), root) == View(fs, root)
      {
        UnpackLeaves(fs, root, name, archive, order);
      }
    }
    if e :| e in archive && !Leaves(fs, root, name, e, archive[e]) {
      var order := SomeOrderDisturbs(fs, root, name, archive, e);
    }
  }

  lemma SomeOrderDisturbs(fs: Fs, root: Path, name: string, archive: Archive, entry: string)
    returns (order: seq<string>)
    requires WellFormed(fs) && entry in archive && !Leaves(fs, root, name, entry, archive[entry])
    ensures ListsKeys(order, archive)
    ensures View(Unpack(fs, JoinPath(root, name), Prefix(name), archive, order), root) != View(fs, root)
  {
    hide ClientsOf, WellFormed, JoinPath, Prefix, Bound, Blocked, Upload;
    var c :| Bound(root, name, entry, c)
             && !(if c in View(fs, root) then View(fs, root)[c] == archive[entry] else Blocked(fs, EnvPath(root, c)));
    if c in View(fs, root) {
      order := OrderWithLast(archive, entry);
      ClientAfterUnpack(fs, root, name, archive, order, c);
    } else {
      order := OrderWithFirst(archive, entry);
      var cdir := JoinPath(root, name);
      ViewAfterUpload(fs, root, name, entry, archive[entry], c);
      assert [entry][..0] == [];
      assert Unpack(fs, cdir, Prefix(name), archive, [entry]) == Upload(fs, cdir, Prefix(name), entry, archive[entry]);
      UnpackGrows(fs, cdir, Prefix(name), archive, order, 1);
      ClientAt(root, Unpack(fs, cdir, Prefix(name), archive, [entry]).files, c);
      ClientAt(root, Unpack(fs, cdir, Prefix(name), archive, order).files, c);
    }
  }

  /** A directory that did not exist can be given its .env and compose files. */
  lemma FreshDirectory(fs: Fs, cdir: Path)
    requires WellFormed(fs) && cdir !in fs.dirs && MkdirAll(fs, cdir + ["uploads"]).1
    ensures var made := MkdirAll(fs, cdir + ["uploads"]).0;
            cdir in made.dirs && cdir + [".env"] !in made.dirs && cdir + ["compose.yml"] !in made.dirs
  {
    var target := cdir + ["uploads"];
    assert Parent(target) == cdir;
    MkdirKeeps(fs, target);
    MkdirKeeps(fs, cdir);
    assert Parent(cdir + [".env"]) == cdir && Parent(cdir + ["compose.yml"]) == cdir;
    assert (cdir + [".env"])[|cdir|] != target[|cdir|] && (cdir + ["compose.yml"])[|cdir|] != target[|cdir|];
    assert target[..|target|] == target;
  }

  /** Preparing a new client changes the .env of that client alone, if its
      directory is an entry of the root, and of none otherwise. */
  lemma ViewAfterPrepare(fs: Fs, root: Path, name: string, env: string, compose: string)
    requires WellFormed(fs) && JoinPath(root, name) !in fs.dirs
    ensures var (ready, ok) := Prepare(fs, root, name, env, compose);
            var cdir := JoinPath(root, name);
            View(ready, root) ==
              if ok && IsChild(root, cdir) then View(fs, root)[cdir[|root|] := env] else View(fs, root)
  {
    hide ClientsOf, WellFormed, MkdirAll, JoinPath;
    var cdir := JoinPath(root, name);
    var (made, dirOk) := MkdirAll(fs, cdir + ["uploads"]);
    MkdirKeeps(fs, cdir + ["uploads"]);
    if dirOk {
      FreshDirectory(fs, cdir);
      assert Parent(cdir + [".env"]) == cdir && Parent(cdir + ["compose.yml"]) == cdir;
      var (written, envOk) := WriteFile(made, cdir + [".env"], env);
      ViewAfterWrite(made, root, cdir + [".env"], env);
      ChildEnv(root, cdir);
      ViewAfterWrite(written, root, cdir + ["compose.yml"], compose);
    }
  }

  /** The two files a prepared client has, word for word, and no other file touched. */
  lemma PreparedFiles(fs: Fs, root: Path, name: string, env: string, compose: string)
    requires WellFormed(fs)
    ensures var (ready, ok) := Prepare(fs, root, name, env, compose);
            var envFile, composeFile := JoinPath(root, name) + [".env"], JoinPath(root, name) + ["compose.yml"];
            && (ok ==> envFile in ready.files && ready.files[envFile] == env)
            && (ok && compose != "" ==> composeFile in ready.files && ready.files[composeFile] == compose)
            && (forall p | p in fs.files && p != envFile && p != composeFile ::
                p in ready.files && ready.files[p] == fs.files[p])
            && (forall p | p in ready.files && p != envFile && p != composeFile :: p in fs.files)
  {
    hide MkdirAll, JoinPath, WellFormed;
    var cdir := JoinPath(root, name);
    MkdirKeeps(fs, cdir + ["uploads"]);
    assert (cdir + [".env"])[|cdir|] != (cdir + ["compose.yml"])[|cdir|];
  }

  lemma ChildEnv(root: Path, cdir: Path)
    ensures IsEnvPath(root, cdir + [".env"]) <==> IsChild(root, cdir)
    ensures !IsEnvPath(root, cdir + ["compose.yml"])
    ensures IsChild(root, cdir) ==> (cdir + [".env"])[|root|] == cdir[|root|]
  {
    if IsChild(root, cdir) { assert cdir + [".env"] == EnvPath(root, cdir[|root|]); }
    if IsEnvPath(root, cdir + [".env"]) { assert cdir == (cdir + [".env"])[..|root| + 1]; }
    if |cdir| == |root| + 1 { assert (cdir + ["compose.yml"])[|root| + 1] != EnvPath(root, cdir[|root|])[|root| + 1]; }
  }

  lemma NewClient(fs: Fs, root: Path, cdir: Path)
    requires WellFormed(fs) && cdir !in fs.dirs && IsChild(root, cdir)
    ensures cdir[|root|] !in View(fs, root)
  {
    hide ClientsOf;
    ClientAt(root, fs.files, cdir[|root|]);
    assert Parent(EnvPath(root, cdir[|root|])) == cdir;
  }

  // ---- A round ----

  /** The file system when a round comes to its uploads, if it does. */
  function Ready(before: Fs, root: Path, name: string, archive: Archive, canonical: Canonical, port: string)
    : (Fs, bool)
  {
    Prepare(before, root, name, Restored(name, port, EnvOf(name, archive), canonical),
            Value(archive, Prefix(name) + "compose.yml"))
  }

  ghost predicate PortFor(before: Fs, root: Path, name: string, archive: Archive, port: string) {
    IsResolved(Archived(EnvOf(name, archive)), Used(View(before, root)), port)
  }

  /** A round restores its client and comes to its uploads. */
  predicate Reaches(before: Fs, root: Path, name: string, archive: Archive) {
    Restores(before, root, name, archive)
      && Prepare(before, root, name, "", Value(archive, Prefix(name) + "compose.yml")).1
  }

  lemma ReadyIffReaches(before: Fs, root: Path, name: string, archive: Archive, canonical: Canonical, port: string)
    requires Restores(before, root, name, archive)
    ensures Ready(before, root, name, archive, canonical, port).1 <==> Reaches(before, root, name, archive)
  {
    hide MkdirAll, JoinPath, Restored;
  }

  /** A run of a round with this port and this order of the archive. */
  ghost predicate RunsWith(before: Fs, root: Path, name: string, archive: Archive, canonical: Canonical, after: Fs,
                           alive: bool, port: string, order: seq<string>)
  {
    && PortFor(before, root, name, archive, port) && ListsKeys(order, archive)
    && var (ready, ok) := Ready(before, root, name, archive, canonical, port);
       alive == ok && after == if ok then Unpack(ready, JoinPath(root, name), Prefix(name), archive, order) else ready
  }

  lemma RunsWithIs(before: Fs, root: Path, name: string, archive: Archive, canonical: Canonical, after: Fs, alive: bool,
                   port: string, order: seq<string>)
    requires ListsKeys(order, archive)
    ensures RunsWith(before, root, name, archive, canonical, after, alive, port, order)
            <==> IsResolved(Archived(EnvOf(name, archive)), Used(ClientsOf(root, before.files)), port)
                 && (after, alive) == Setup(before, root, name, Restored(name, port, EnvOf(name, archive), canonical),
                                            Value(archive, Prefix(name) + "compose.yml"), archive, order)
  {
    hide Prepare, Unpack, JoinPath, Prefix, IsResolved, Used, ClientsOf, Archived, EnvOf, Restored, Value, ListsKeys;
  }

  /** A round that restores its client is one of these runs. */
  lemma RoundIs(before: Fs, root: Path, name: string, archive: Archive, canonical: Canonical, after: Fs, alive: bool)
    requires Restores(before, root, name, archive)
    ensures ImportsOne(before, root, name, archive, canonical, after, alive)
            <==> exists port, order :: RunsWith(before, root, name, archive, canonical, after, alive, port, order)
  {
    hide Setup, Prefix, IsResolved, Used, ClientsOf, Archived, EnvOf, Restored, Value, Restores, RunsWith;
    forall port, order | ListsKeys(order, archive)
      ensures RunsWith(before, root, name, archive, canonical, after, alive, port, order)
              <==> IsResolved(Archived(EnvOf(name, archive)), Used(ClientsOf(root, before.files)), port)
                   && (after, alive) == Setup(before, root, name, Restored(name, port, EnvOf(name, archive), canonical),
                                              Value(archive, Prefix(name) + "compose.yml"), archive, order)
    {
      RunsWithIs(before, root, name, archive, canonical, after, alive, port, order);
    }
    forall port, order | RunsWith(before, root, name, archive, canonical, after, alive, port, order)
      ensures ListsKeys(order, archive)
    {
      RunLists(before, root, name, archive, canonical, after, alive, port, order);
    }
  }

  lemma RunLists(before: Fs, root: Path, name: string, archive: Archive, canonical: Canonical, after: Fs, alive: bool,
                 port: string, order: seq<string>)
    requires RunsWith(before, root, name, archive, canonical, after, alive, port, order)
    ensures ListsKeys(order, archive)
  {
  }

  lemma LargestPort(ports: set<int>) returns (m: int)
    requires ports != {}
    ensures IsMax(ports, m)
    decreases |ports|
  {
    var p := Element(ports);
    var rest := ports - {p};
    assert forall q | q in ports :: q == p || q in rest;
    m := p;
    if rest != {} {
      var q := LargestPort(rest);
      m := if p < q then q else p;
    }
  }

  lemma SomePort(before: Fs, root: Path, name: string, archive: Archive) returns (port: string)
    ensures PortFor(before, root, name, archive, port)
  {
    hide Archived, Used, ClientsOf, EnvOf, Usable, Itoa;
    var archived, ports := Archived(EnvOf(name, archive)), Used(View(before, root));
    if Usable(archived, ports) {
      port := archived;
    } else if ports == {} {
      port := Itoa(BASE_PORT);
      assert IsNext(ports, BASE_PORT);
    } else {
      var m := LargestPort(ports);
      port := Itoa(Increment(m));
      assert IsNext(ports, Increment(m));
    }
  }

  lemma OnePort(before: Fs, root: Path, name: string, archive: Archive, p: string, q: string)
    requires PortFor(before, root, name, archive, p) && PortFor(before, root, name, archive, q)
    ensures p == q
  {
    hide Archived, Used, ClientsOf, EnvOf, Usable, Itoa;
  }

  /** The clients that were there are there, unchanged, when a round comes to its
      uploads. */
  lemma ReadyKeepsClients(before: Fs, root: Path, name: string, archive: Archive, canonical: Canonical, port: string,
                          client: string)
    requires WellFormed(before) && Restores(before, root, name, archive) && client in View(before, root)
    ensures var ready := Ready(before, root, name, archive, canonical, port).0;
            WellFormed(ready) && client in View(ready, root) && View(ready, root)[client] == View(before, root)[client]
  {
    hide Prepare, JoinPath, Prefix, ClientsOf, EnvOf, Restored, Value, WellFormed;
    var env := Restored(name, port, EnvOf(name, archive), canonical);
    var compose := Value(archive, Prefix(name) + "compose.yml");
    var cdir := JoinPath(root, name);
    PrepareKeeps(before, root, name, env, compose);
    ViewAfterPrepare(before, root, name, env, compose);
    if IsChild(root, cdir) { NewClient(before, root, cdir); }
  }

  /** The uploads that can be told from a client's file all bring what it holds. */
  predicate BringsOnly(root: Path, name: string, archive: Archive, client: string, text: string) {
    forall e | e in archive && Bound(root, name, e, client) :: archive[e] == text
  }

  lemma ClientIsKept(before: Fs, root: Path, name: string, archive: Archive, canonical: Canonical, after: Fs,
                     alive: bool, client: string)
    requires WellFormed(before) && client in View(before, root)
             && ImportsOne(before, root, name, archive, canonical, after, alive)
    requires BringsOnly(root, name, archive, client, View(before, root)[client])
    ensures client in View(after, root) && View(after, root)[client] == View(before, root)[client]
  {
    hide Unpack, JoinPath, Prefix, ClientsOf, Bound, Ready, WellFormed, PortFor, Restores;
    if Restores(before, root, name, archive) {
      RoundIs(before, root, name, archive, canonical, after, alive);
      hide ImportsOne;
      var port, order :| RunsWith(before, root, name, archive, canonical, after, alive, port, order);
      ReadyKeepsClients(before, root, name, archive, canonical, port, client);
      ClientAfterUnpack(Ready(before, root, name, archive, canonical, port).0, root, name, archive, order, client);
    } else {
      assert after == before by { NotRestoring(before, root, name, archive, canonical, after, alive); }
    }
  }

  lemma NotRestoring(before: Fs, root: Path, name: string, archive: Archive, canonical: Canonical, after: Fs,
                     alive: bool)
    requires !Restores(before, root, name, archive) && ImportsOne(before, root, name, archive, canonical, after, alive)
    ensures after == before && alive
  {
  }

  /** Some run of a round that comes to its uploads unpacks this entry last. */
  lemma RoundEndingWith(before: Fs, root: Path, name: string, archive: Archive, canonical: Canonical, client: string,
                        entry: string)
    returns (after: Fs)
    requires WellFormed(before) && client in View(before, root) && Reaches(before, root, name, archive)
    requires entry in archive && Bound(root, name, entry, client)
    ensures ImportsOne(before, root, name, archive, canonical, after, true)
    ensures client in View(after, root) && View(after, root)[client] == archive[entry]
  {
    hide Unpack, JoinPath, Prefix, ClientsOf, Bound, WellFormed, PortFor, Prepare, Restored, Restores;
    var port := SomePort(before, root, name, archive);
    var order := OrderWithLast(archive, entry);
    ReadyIffReaches(before, root, name, archive, canonical, port);
    hide Ready;
    var ready := Ready(before, root, name, archive, canonical, port).0;
    after := Unpack(ready, JoinPath(root, name), Prefix(name), archive, order);
    assert RunsWith(before, root, name, archive, canonical, after, true, port, order);
    RoundIs(before, root, name, archive, canonical, after, true);
    ReadyKeepsClients(before, root, name, archive, canonical, port, client);
    ClientAfterUnpack(ready, root, name, archive, order, client);
  }

  /** A round that comes to its uploads leaves a client's file as it was, whatever
      the order of the archive, exactly when every upload bound for that file brings
      the text it already has. */
  lemma ClientIsKeptIff(before: Fs, root: Path, name: string, archive: Archive, canonical: Canonical, client: string)
    requires WellFormed(before) && client in View(before, root) && Reaches(before, root, name, archive)
    ensures (forall after, alive | ImportsOne(before, root, name, archive, canonical, after, alive) ::
               client in View(after, root) && View(after, root)[client] == View(before, root)[client])
            <==> BringsOnly(root, name, archive, client, View(before, root)[client])
  {
    hide ImportsOne, ClientsOf, Bound, WellFormed, Reaches;
    if BringsOnly(root, name, archive, client, View(before, root)[client]) {
      forall after, alive | ImportsOne(before, root, name, archive, canonical, after, alive)
        ensures client in View(after, root) && View(after, root)[client] == View(before, root)[client]
      {
        ClientIsKept(before, root, name, archive, canonical, after, alive, client);
      }
    } else {
      var e :| e in archive && Bound(root, name, e, client) && archive[e] != View(before, root)[client];
      var after := RoundEndingWith(before, root, name, archive, canonical, client, e);
    }
  }

  // ---- A round as a whole ----

  /** No upload of the round can be told from the clients' files: each is bound for
      none, or brings the text that is there, or cannot be written. */
  ghost predicate Harmless(before: Fs, root: Path, name: string, archive: Archive, canonical: Canonical) {
    Restores(before, root, name, archive) ==>
      forall port, e | PortFor(before, root, name, archive, port)
                       && Ready(before, root, name, archive, canonical, port).1 && e in archive ::
        Leaves(Ready(before, root, name, archive, canonical, port).0, root, name, e, archive[e])
  }

  ghost predicate ViewIsReady(before: Fs, root: Path, name: string, archive: Archive, canonical: Canonical, after: Fs) {
    exists port :: PortFor(before, root, name, archive, port)
                   && View(after, root) == View(Ready(before, root, name, archive, canonical, port).0, root)
  }

  /** The uploads of a round leave all clients' files as they were before them, in
      every order of the archive, exactly when each of them is harmless. */
  lemma HarmlessIff(before: Fs, root: Path, name: string, archive: Archive, canonical: Canonical)
    requires WellFormed(before) && Restores(before, root, name, archive)
    ensures Harmless(before, root, name, archive, canonical)
            <==> forall after, alive | ImportsOne(before, root, name, archive, canonical, after, alive) ::
                   ViewIsReady(before, root, name, archive, canonical, after)
  {
    var port := SomePort(before, root, name, archive);
    forall p | PortFor(before, root, name, archive, p) ensures p == port {
      OnePort(before, root, name, archive, p, port);
    }
    var (ready, ok) := Ready(before, root, name, archive, canonical, port);
    var cdir, prefix := JoinPath(root, name), Prefix(name);
    assert WellFormed(ready) by {
      PrepareKeeps(before, root, name, Restored(name, port, EnvOf(name, archive), canonical),
                   Value(archive, prefix + "compose.yml"));
    }
    hide ImportsOne, ClientsOf, WellFormed, PortFor, Ready, Restores, Unpack, JoinPath, Prefix, Leaves, ListsKeys, View;
    UnpackingLeavesIff(ready, root, name, archive);
    if Harmless(before, root, name, archive, canonical) {
      forall after, alive | ImportsOne(before, root, name, archive, canonical, after, alive)
        ensures ViewIsReady(before, root, name, archive, canonical, after)
      {
        RoundIs(before, root, name, archive, canonical, after, alive);
      }
    }
    if ok {
      forall order | ListsKeys(order, archive)
        ensures ImportsOne(before, root, name, archive, canonical, Unpack(ready, cdir, prefix, archive, order), true)
      {
        assert RunsWith(before, root, name, archive, canonical, Unpack(ready, cdir, prefix, archive, order), true, port,
                        order);
        RoundIs(before, root, name, archive, canonical, Unpack(ready, cdir, prefix, archive, order), true);
      }
    }
  }

  /** No uploaded file of this client is bound for the .env of a client directory:
      it is not if the entry has no ".." below its uploads directory. */
  predicate Contained(root: Path, name: string, archive: Archive) {
    forall e | e in archive && IsUpload(Prefix(name), e) ::
      !IsEnvPath(root, Destination(JoinPath(root, name), Prefix(name), e))
  }

  /** Then all of them are harmless, in every state. */
  lemma ContainedIsHarmless(before: Fs, root: Path, name: string, archive: Archive, canonical: Canonical)
    requires Contained(root, name, archive)
    ensures Harmless(before, root, name, archive, canonical)
  {
    hide Ready, PortFor, Restores, ClientsOf, Destination, JoinPath, Prefix, IsUpload, IsEnvPath;
    forall e, c | e in archive ensures !Bound(root, name, e, c) {
      if Bound(root, name, e, c) { EnvPathIs(root, EnvPath(root, c), c); }
    }
  }

  // ---- An upload that does harm ----

  /** A plain name is an entry of the root. */
  lemma PlainNameIsChild(root: Path, name: string)
    requires '/' !in name && name !in {"", ".", ".."}
    ensures JoinPath(root, name) == root + [name] && IsChild(root, JoinPath(root, name))
  {
    SplitWord(name, '/');
    assert [name][1..] == [];
    assert Resolve(root, [name]) == Resolve(StepInto(root, name), []);
  }

  /** An entry of another client's uploads that leads back to this client's .env. */
  function Escape(name: string, client: string): string {
    Prefix(name) + Join(["uploads", "..", "..", client, ".env"], '/')
  }

  lemma EscapeLeads(root: Path, name: string, client: string)
    requires '/' !in client && client !in {"", ".", ".."}
    ensures IsUpload(Prefix(name), Escape(name, client))
    ensures Destination(root + [name], Prefix(name), Escape(name, client)) == EnvPath(root, client)
  {
    var rel := ["uploads", "..", "..", client, ".env"];
    var more := ["..", "..", client, ".env"];
    assert rel[1..] == more;
    assert Join(rel, '/') == "uploads" + ['/'] + Join(more, '/');
    assert "uploads" + ['/'] == "uploads/";
    assert Prefix(name) + ("uploads/" + Join(more, '/')) == Prefix(name) + "uploads/" + Join(more, '/');
    assert IsUpload(Prefix(name), Escape(name, client));
    assert Escape(name, client)[|Prefix(name)|..] == Join(rel, '/');
    hide Join, Prefix, IsUpload;
    SplitJoin(rel, '/');
    var cdir := root + [name];
    assert Resolve(cdir, rel) == Resolve(cdir + ["uploads"], more);
    assert (cdir + ["uploads"])[..|cdir|] == cdir && cdir[..|root|] == root;
    assert more[1..] == ["..", client, ".env"] && more[1..][1..] == [client, ".env"];
    assert Resolve(cdir + ["uploads"], more) == Resolve(cdir, ["..", client, ".env"])
      == Resolve(root, [client, ".env"]);
    assert [client, ".env"][1..] == [".env"] && [".env"][1..] == [];
    assert Resolve(root, [client, ".env"]) == Resolve(root + [client], [".env"])
      == Resolve(root + [client] + [".env"], []);
    assert root + [client] + [".env"] == EnvPath(root, client);
  }

  /** A new plain name below an existing root comes to its uploads. */
  lemma PlainNameReaches(before: Fs, root: Path, name: string, archive: Archive)
    requires WellFormed(before) && root in before.dirs && '/' !in name && name !in {"", ".", ".."}
    requires root + [name] !in before.dirs && root + [name] !in before.files
    requires Prefix(name) + "env" in archive && Prefix(name) + "compose.yml" !in archive
    ensures Reaches(before, root, name, archive)
  {
    PlainNameIsChild(root, name);
    hide JoinPath, Prefix, MkdirAll;
    var cdir := root + [name];
    var target := cdir + ["uploads"];
    forall k | 0 < k <= |target| ensures target[..k] !in before.files {
      if k <= |root| {
        DirectoryAbove(before, root, k);
        assert target[..k] == root[..k];
      } else if k == |root| + 1 {
        assert target[..k] == cdir;
      } else {
        assert target[..k] == target && Parent(target) == cdir;
      }
    }
    MkdirFails(before, target);
    FreshDirectory(before, cdir);
    assert Parent(cdir + [".env"]) == cdir;
  }

  /** An archive with the .env of one client and an upload that leads to another's. */
  function Escaping(name: string, env: string, client: string, data: string): Archive {
    map[Prefix(name) + "env" := env, Escape(name, client) := data]
  }

  lemma EscapingKeys(name: string, env: string, client: string, data: string)
    ensures var archive := Escaping(name, env, client, data);
            Prefix(name) + "env" in archive && Prefix(name) + "compose.yml" !in archive
            && Escape(name, client) in archive && archive[Escape(name, client)] == data
  {
    var n := |Prefix(name)|;
    assert Join(["uploads", "..", "..", client, ".env"], '/')[0] == 'u' by {
      assert Join(["uploads", "..", "..", client, ".env"], '/')
          == "uploads" + ['/'] + Join(["uploads", "..", "..", client, ".env"][1..], '/');
    }
    hide Prefix, Join;
    assert Escape(name, client)[n] == 'u' && (Prefix(name) + "env")[n] == 'e'
      && (Prefix(name) + "compose.yml")[n] == 'c';
  }

  /** In every state with a client, importing another with such an upload replaces
      the client's .env by any text. */
  lemma UploadOverwrites(before: Fs, root: Path, name: string, env: string, client: string, data: string,
                         canonical: Canonical)
    returns (after: Fs)
    requires WellFormed(before) && client in View(before, root) && '/' !in client && client !in {"", ".", ".."}
    requires '/' !in name && name !in {"", ".", ".."} && root + [name] !in before.dirs && root + [name] !in before.files
    ensures ImportsOne(before, root, name, Escaping(name, env, client, data), canonical, after, true)
    ensures client in View(after, root) && View(after, root)[client] == data
  {
    var archive := Escaping(name, env, client, data);
    EscapingKeys(name, env, client, data);
    EscapeLeads(root, name, client);
    PlainNameIsChild(root, name);
    assert root in before.dirs by {
      ClientAt(root, before.files, client);
      DirectoryAbove(before, Parent(EnvPath(root, client)), |root|);
      assert Parent(EnvPath(root, client))[..|root|] == root;
    }
    hide ImportsOne, ClientsOf, WellFormed, Reaches, Escaping, Escape, Prefix, IsUpload, Destination, JoinPath, EnvPath;
    PlainNameReaches(before, root, name, archive);
    after := RoundEndingWith(before, root, name, archive, canonical, client, Escape(name, client));
  }
}
