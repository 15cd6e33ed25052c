/** Which files are treated how, in terms of the elements of their paths. */
module TextPolicyKinds {
  import opened GoStrings
  import opened TextPolicy

  // ---- Names and extensions ----

  /** A path element without a dot. */
  predicate IsStem(s: string) {
    s != "" && '.' !in s && '/' !in s
  }

  lemma {:induction false} ExtOfStem(dir: string, stem: string)
    requires '.' !in stem && '/' !in stem
    ensures Ext(dir + "/" + stem) == ""
    decreases |stem|
  {
    var path := dir + "/" + stem;
    if stem == "" {
      assert path[|path| - 1] == '/';
    } else {
      var init := stem[..|stem| - 1];
      assert path[..|path| - 1] == dir + "/" + init && path[|path| - 1] == stem[|stem| - 1];
      ExtOfStem(dir, init);
    }
  }

  lemma {:induction false} ExtOfDotted(before: string, ext: string)
    requires '.' !in ext && '/' !in ext
    ensures Ext(before + "." + ext) == "." + ext
    decreases |ext|
  {
    var path := before + "." + ext;
    if ext == "" {
      assert path[|path| - 1] == '.';
    } else {
      var init := ext[..|ext| - 1];
      assert path[..|path| - 1] == before + "." + init && path[|path| - 1] == ext[|ext| - 1];
      ExtOfDotted(before, init);
      assert "." + init + [ext[|ext| - 1]] == "." + ext;
    }
  }

  lemma {:induction false} AfterLastSlash(dir: string, name: string)
    requires '/' !in name
    ensures AfterSlash(dir + "/" + name) == name
    decreases |name|
  {
    var path := dir + "/" + name;
    if name == "" {
      assert path[|path| - 1] == '/';
    } else {
      var init := name[..|name| - 1];
      assert path[..|path| - 1] == dir + "/" + init && path[|path| - 1] == name[|name| - 1];
      AfterLastSlash(dir, init);
      assert init + [name[|name| - 1]] == name;
    }
  }

  lemma BaseOfFile(dir: string, name: string)
    requires name != "" && '/' !in name
    ensures Base(dir + "/" + name) == name
  {
    var path := dir + "/" + name;
    assert path[|path| - 1] == name[|name| - 1];
    AfterLastSlash(dir, name);
  }

  lemma LowerAppend(a: string, b: string)
    ensures ToLower(a + b) == ToLower(a) + ToLower(b)
  {
  }

  lemma LowerDot(ext: string)
    ensures ToLower("." + ext) == "." + ToLower(ext)
  {
    LowerAppend(".", ext);
  }

  /** A file is commented as its extension says, in any case, unless it is called
      Dockerfile, with an extension or without. */
  lemma StyleOfFile(dir: string, stem: string, ext: string)
    requires IsStem(stem) && '.' !in ext && '/' !in ext
    ensures var style, e := StyleFor(dir + "/" + stem + "." + ext), ToLower(ext);
            if ToLower(stem) == "dockerfile" then style == Hash
            else && (style == Slash <==> e in {"go", "js", "jsx", "ts", "tsx", "css", "scss", "proto"})
                 && (style == Hash <==> e in {"sh", "bash", "zsh", "yaml", "yml"})
  {
    var name := stem + "." + ext;
    var path := dir + "/" + stem + "." + ext;
    assert path == dir + "/" + name && path == (dir + "/" + stem) + "." + ext;
    BaseOfFile(dir, name);
    ExtOfDotted(dir + "/" + stem, ext);
    LowerDot(ext);
    LowerName(stem, ext);
    DotBefore(ToLower(ext));
    hide Base, Ext, ToLower;
  }

  lemma LowerName(stem: string, ext: string)
    requires IsStem(stem)
    ensures var lower := ToLower(stem + "." + ext);
            lower != "dockerfile" && ("dockerfile." <= lower <==> ToLower(stem) == "dockerfile")
  {
    var lower, s := ToLower(stem + "." + ext), ToLower(stem);
    LowerAppend(stem, "." + ext);
    assert stem + "." + ext == stem + ("." + ext);
    LowerDot(ext);
    assert lower == s + ("." + ToLower(ext));
    assert lower[|s|] == '.';
    assert '.' !in s by { LowerKeepsOut(stem); }
    assert forall i | 0 <= i < |s| :: lower[i] == s[i];
    if "dockerfile." <= lower {
      assert lower[10] == '.' && forall i | 0 <= i < 10 :: lower[i] != '.';
      assert |s| == 10 && s == lower[..10];
    }
    if s == "dockerfile" { assert lower[..11] == "dockerfile."; }
    assert '.' in lower && '.' !in "dockerfile";
  }

  lemma LowerKeepsOut(s: string)
    requires '.' !in s
    ensures '.' !in ToLower(s)
  {
  }

  lemma DotBefore(e: string)
    ensures "." + e in SLASH_EXTENSIONS <==> e in {"go", "js", "jsx", "ts", "tsx", "css", "scss", "proto"}
    ensures "." + e in HASH_EXTENSIONS <==> e in {"sh", "bash", "zsh", "yaml", "yml"}
    ensures !("." + e in SLASH_EXTENSIONS && "." + e in HASH_EXTENSIONS)
  {
    var d := "." + e;
    assert d[1..] == e;
    DotSlash(e);
    DotHash(e);
    hide SLASH_EXTENSIONS, HASH_EXTENSIONS;
    Apart(e);
  }

  lemma Apart(e: string)
    ensures !(e in {"go", "js", "jsx", "ts", "tsx", "css", "scss", "proto"}
              && e in {"sh", "bash", "zsh", "yaml", "yml"})
  {
  }

  lemma DotSlash(e: string)
    ensures "." + e in SLASH_EXTENSIONS <==> e in {"go", "js", "jsx", "ts", "tsx", "css", "scss", "proto"}
  {
    var d := "." + e;
    assert d[1..] == e;
    assert ".go" == "." + "go" && ".js" == "." + "js" && ".jsx" == "." + "jsx" && ".ts" == "." + "ts";
    assert ".tsx" == "." + "tsx" && ".css" == "." + "css" && ".scss" == "." + "scss" && ".proto" == "." + "proto";
    assert ".go"[1..] == "go" && ".js"[1..] == "js" && ".jsx"[1..] == "jsx" && ".ts"[1..] == "ts";
    assert ".tsx"[1..] == "tsx" && ".css"[1..] == "css" && ".scss"[1..] == "scss" && ".proto"[1..] == "proto";
  }

  lemma DotHash(e: string)
    ensures "." + e in HASH_EXTENSIONS <==> e in {"sh", "bash", "zsh", "yaml", "yml"}
  {
    var d := "." + e;
    assert d[1..] == e;
    assert ".sh" == "." + "sh" && ".bash" == "." + "bash" && ".zsh" == "." + "zsh";
    assert ".yaml" == "." + "yaml" && ".yml" == "." + "yml";
    assert ".sh"[1..] == "sh" && ".bash"[1..] == "bash" && ".zsh"[1..] == "zsh" && ".yaml"[1..] == "yaml"
      && ".yml"[1..] == "yml";
  }

  // ---- Vendored files ----

  /** Every slash in front of "vendor/" begins an element "vendor". */
  lemma {:induction false} VendorElement(path: string)
    ensures Contains("/" + path + "/", "/vendor/") <==> "vendor" in Split(path, '/')
    decreases |path|
  {
    hide Index;
    if '/' in path {
      var k := FirstSlash(path);
      var head, tail := path[..k], path[k + 1..];
      assert path == head + ['/'] + tail;
      SplitWordThenMore(head, tail, '/');
      VendorElement(tail);
      assert "/" + path + "/" == "/" + head + ("/" + tail + "/");
      FrontElement(head, tail);
      assert "vendor" in [head] + Split(tail, '/') <==> head == "vendor" || "vendor" in Split(tail, '/');
    } else {
      SplitWord(path, '/');
      OneElement(path);
    }
  }

  lemma FirstSlash(path: string) returns (k: nat)
    requires '/' in path
    ensures k < |path| && path[k] == '/' && '/' !in path[..k]
  {
    k := 0;
    while path[k] != '/'
      invariant k < |path| && '/' !in path[..k] && '/' in path[k..]
      decreases |path| - k
    {
      assert path[..k + 1] == path[..k] + [path[k]] && path[k..] == [path[k]] + path[k + 1..];
      k := k + 1;
    }
  }

  lemma ContainsIff(s: string, sub: string)
    ensures Contains(s, sub) <==> exists i :: OccursAt(s, sub, i)
  {
  }

  lemma OneElement(name: string)
    requires '/' !in name
    ensures Contains("/" + name + "/", "/vendor/") <==> name == "vendor"
  {
    var s := "/" + name + "/";
    ContainsIff(s, "/vendor/");
    hide Contains;
    if i :| OccursAt(s, "/vendor/", i) {
      var w := s[i..i + 8];
      assert s[i] == w[0] && s[i + 7] == w[7];
      assert i == 0 && i + 7 == |name| + 1;
      assert forall j | 0 <= j < 6 :: name[j] == s[i..i + 8][j + 1];
    }
    if name == "vendor" { assert s[0..8] == "/vendor/" && OccursAt(s, "/vendor/", 0); }
  }

  /** The first element of a longer path. */
  lemma FrontElement(head: string, tail: string)
    requires '/' !in head
    ensures var rest := "/" + tail + "/";
            Contains("/" + head + rest, "/vendor/") <==> head == "vendor" || Contains(rest, "/vendor/")
  {
    var rest := "/" + tail + "/";
    var s := "/" + head + rest;
    ContainsIff(s, "/vendor/");
    ContainsIff(rest, "/vendor/");
    hide Contains, OccursAt;
    if i :| OccursAt(s, "/vendor/", i) { FoundInFront(head, rest, i); }
    if i :| OccursAt(rest, "/vendor/", i) { FoundBehind(head, rest, i); }
    if head == "vendor" { FoundAtOnce(rest); }
  }

  lemma FoundInFront(head: string, rest: string, i: int)
    requires '/' !in head && rest != "" && rest[0] == '/' && OccursAt("/" + head + rest, "/vendor/", i)
    ensures head == "vendor" || OccursAt(rest, "/vendor/", i - |head| - 1)
  {
    var s := "/" + head + rest;
    assert s[i] == s[i..i + 8][0] == '/';
    if i > |head| {
      assert rest[i - |head| - 1..][..8] == s[i..i + 8];
    } else {
      assert forall j | 0 < j <= |head| :: s[j] == head[j - 1] && s[j] != '/';
      FrontIsVendor(head, rest);
    }
  }

  lemma FoundBehind(head: string, rest: string, i: int)
    requires OccursAt(rest, "/vendor/", i)
    ensures OccursAt("/" + head + rest, "/vendor/", i + |head| + 1)
  {
    var s := "/" + head + rest;
    assert s[i + |head| + 1..][..8] == rest[i..i + 8];
  }

  lemma FoundAtOnce(rest: string)
    requires rest != "" && rest[0] == '/'
    ensures OccursAt("/" + "vendor" + rest, "/vendor/", 0)
  {
    assert ("/" + "vendor" + rest)[0..8] == "/vendor/";
  }

  lemma FrontIsVendor(head: string, rest: string)
    requires '/' !in head && rest != "" && rest[0] == '/' && OccursAt("/" + head + rest, "/vendor/", 0)
    ensures head == "vendor"
  {
    var s := "/" + head + rest;
    var w := s[0..8];
    assert w == "/vendor/" && forall j | 0 <= j < 8 :: s[j] == w[j];
    assert s[|head| + 1] == '/';
    assert forall j | 0 < j <= |head| :: s[j] == head[j - 1] && s[j] != '/';
    assert w[7] == '/' && forall j | 1 <= j < 7 :: w[j] != '/';
    assert |head| == 6;
    assert forall j | 0 <= j < 6 :: head[j] == s[j + 1] == w[j + 1];
  }

  // ---- Generated files ----

  lemma {:induction false} BytePrefixKeeps(head: string, rest: string, n: nat)
    requires 4 * |head| <= n
    ensures head <= BytePrefix(head + rest, n)
  {
    if head != "" {
      assert (head + rest)[1..] == head[1..] + rest;
      BytePrefixKeeps(head[1..], rest, n - Utf8Length(head[0]));
    }
  }

  lemma {:induction false} BytePrefixIsPrefix(s: string, n: nat)
    ensures BytePrefix(s, n) <= s
  {
    if s != "" && n >= Utf8Length(s[0]) { BytePrefixIsPrefix(s[1..], n - Utf8Length(s[0])); }
  }

  lemma ContainedInLonger(s: string, longer: string, sub: string)
    requires s <= longer && Contains(s, sub)
    ensures Contains(longer, sub)
  {
    ContainsIff(s, sub);
    ContainsIff(longer, sub);
    hide Contains;
    var i :| OccursAt(s, sub, i);
    assert longer[i..i + |sub|] == s[i..i + |sub|];
    assert OccursAt(longer, sub, i);
  }

  /** A text is generated if both marks are among its first 512 characters, and only
      if both are somewhere in it. */
  lemma GeneratedHeader(head: string, rest: string)
    ensures |head| <= 512 && Contains(head, "Code generated") && Contains(head, "DO NOT EDIT") ==>
            IsGenerated(head + rest)
    ensures IsGenerated(rest) ==> Contains(rest, "Code generated") && Contains(rest, "DO NOT EDIT")
  {
    hide Contains;
    if |head| <= 512 && Contains(head, "Code generated") && Contains(head, "DO NOT EDIT") {
      BytePrefixKeeps(head, rest, 2048);
      ContainedInLonger(head, BytePrefix(head + rest, 2048), "Code generated");
      ContainedInLonger(head, BytePrefix(head + rest, 2048), "DO NOT EDIT");
    }
    if IsGenerated(rest) {
      BytePrefixIsPrefix(rest, 2048);
      ContainedInLonger(BytePrefix(rest, 2048), rest, "Code generated");
      ContainedInLonger(BytePrefix(rest, 2048), rest, "DO NOT EDIT");
    }
  }
}
