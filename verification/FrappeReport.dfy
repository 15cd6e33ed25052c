/** The KEY=VALUE report a provisioning run prints last, and the parser that
    finds it in the run's output. */
module FrappeReport {
  import opened GoStrings
  import opened ProvisionStream

  const MAX_SITES_PER_CLUSTER := 50

  datatype VersionSpec = VersionSpec(id: string, branch: string, composeFile: string)

  function FrappeVersion(version: string): Option<VersionSpec> {
    var v := ToLower(TrimSpace(version));
    if v in {"", "16", "version-16"} then Some(VersionSpec("16", "version-16", "compose.v16.yml"))
    else if v in {"15", "version-15"} then Some(VersionSpec("15", "version-15", "compose.v15.yml"))
    else if v in {"17", "17-dev", "dev", "develop"} then Some(VersionSpec("17-dev", "develop", "compose.v17-dev.yml"))
    else None
  }

  function PortOffset(id: string): int {
    match id
    case "15" => 150
    case "16" => 160
    case "17-dev" => 170
    case _ => 190
  }

  /** The port a cluster of this version answers on. */
  function HttpPort(id: string, cluster: int): int {
    8000 + (cluster - 1) + PortOffset(id)
  }

  /** How many sites a cluster's metadata lists; a missing file lists none. */
  function SitesIn(sites: map<int, nat>, cluster: int): nat {
    if cluster in sites then sites[cluster] else 0
  }

  /** The first cluster with room. */
  method ChooseCluster(sites: map<int, nat>) returns (cluster: int)
    ensures cluster >= 1 && SitesIn(sites, cluster) < 50
    ensures forall c | 1 <= c < cluster :: SitesIn(sites, c) >= 50
  {
    cluster := 1;
    while SitesIn(sites, cluster) >= MAX_SITES_PER_CLUSTER
      invariant cluster >= 1
      invariant forall c | 1 <= c < cluster :: SitesIn(sites, c) >= MAX_SITES_PER_CLUSTER
      decreases set c | c in sites && c >= cluster
    {
      ghost var above := set c | c in sites && c >= cluster;
      cluster := cluster + 1;
      assert (set c | c in sites && c >= cluster) == above - {cluster - 1};
    }
  }

  datatype Pair = Pair(key: string, value: string)

  const VERSION_KEY := "FRAPPE_CLUSTER_VERSION"
  const CLUSTER_KEY := "FRAPPE_CLUSTER_ID"
  const HTTP_KEY := "FRAPPE_HTTP_PORT"
  const GRPC_KEY := "FRAPPE_GRPC_PORT"

  function Line(p: Pair): string {
    p.key + "=" + p.value
  }

  function Lines(pairs: seq<Pair>): seq<string> {
    if pairs == [] then [] else [Line(pairs[0])] + Lines(pairs[1..])
  }

  /** One KEY=VALUE line each. */
  function Print(pairs: seq<Pair>): string {
    if pairs == [] then "" else Line(pairs[0]) + "\n" + Print(pairs[1..])
  }

  function Report(id: string, cluster: int, http: int, grpc: int): seq<Pair> {
    [Pair(VERSION_KEY, id), Pair(CLUSTER_KEY, Itoa(cluster)), Pair(HTTP_KEY, Itoa(http)), Pair(GRPC_KEY, Itoa(grpc))]
  }

  lemma VersionIds(version: string)
    ensures FrappeVersion(version).Some? ==> FrappeVersion(version).value.id in {"15", "16", "17-dev"}
    ensures 150 <= PortOffset("15") && PortOffset("17-dev") <= 170
  {
  }

  /** What cmdFrappeProvision decides and prints once the cluster is up; None
      when the version is not supported. */
  method CmdFrappeProvision(version: string, sites: map<int, nat>)
    returns (printed: Option<string>, cluster: int, http: int, grpc: int)
    ensures printed.None? <==> FrappeVersion(version).None?
    ensures printed.Some? ==>
      var id := FrappeVersion(version).value.id;
      && printed.value == Print(Report(id, cluster, http, grpc))
      && cluster >= 1 && SitesIn(sites, cluster) < 50 && (forall c | 1 <= c < cluster :: SitesIn(sites, c) >= 50)
      && http == HttpPort(id, cluster) && grpc == http - 4999
      && (cluster <= MAX_INT - 10000 ==> Printable(id, cluster, http, grpc))
  {
    hide FrappeVersion;
    var spec := FrappeVersion(version);
    VersionIds(version);
    if spec.None? { return None, 0, 0, 0; }
    cluster := ChooseCluster(sites);
    http := 8000 + (cluster - 1) + PortOffset(spec.value.id);
    grpc := 3001 + (cluster - 1) + PortOffset(spec.value.id);
    printed := Some(Print(Report(spec.value.id, cluster, http, grpc)));
  }

  // ---- The parser ----

  datatype Fields = Fields(version: string, cluster: string, http: int, grpc: int)

  function DigitsPrefix(s: string): (d: string)
    ensures AllDigits(d) && d <= s
    ensures AllDigits(s) ==> d == s
  {
    if s != "" && IsDigit(s[0]) then [s[0]] + DigitsPrefix(s[1..]) else ""
  }

  /** Sscanf with %d: white space, an optional sign, then as many digits as
      there are; None when there is none or the number does not fit. */
  function ScanInt(value: string): Option<int> {
    var s := TrimLeft(value);
    var signed := s != "" && (s[0] == '+' || s[0] == '-');
    var digits := DigitsPrefix(if signed then s[1..] else s);
    if digits == "" then None
    else
      var magnitude: int := Numeral(digits);
      var n := if s[0] == '-' then -magnitude else magnitude;
      if MIN_INT <= n <= MAX_INT then Some(n) else None
  }

  function SetField(f: Fields, p: Pair): Fields {
    if p.key == VERSION_KEY then f.(version := p.value)
    else if p.key == CLUSTER_KEY then f.(cluster := p.value)
    else if p.key == HTTP_KEY then if ScanInt(p.value).Some? then f.(http := ScanInt(p.value).value) else f
    else if p.key == GRPC_KEY then if ScanInt(p.value).Some? then f.(grpc := ScanInt(p.value).value) else f
    else f
  }

  /** One line of the output. */
  function Assign(f: Fields, line: string): Fields {
    var t := TrimSpace(line);
    var i := Index(t, "=");
    if i == -1 then f else SetField(f, Pair(t[..i], t[i + 1..]))
  }

  function AssignAll(f: Fields, lines: seq<string>): Fields
    decreases |lines|
  {
    if lines == [] then f else AssignAll(Assign(f, lines[0]), lines[1..])
  }

  function WithDefaults(f: Fields): Fields {
    f.(cluster := if f.cluster == "" then "1" else f.cluster,
       http := if f.http == 0 then 8000 else f.http,
       grpc := if f.grpc == 0 then 3001 else f.grpc)
  }

  function ParseOutput(version: string, output: string): Fields {
    WithDefaults(AssignAll(Fields(version, "", 0, 0), Split(output, '\n')))
  }

  datatype Provisioned = Failed(err: StreamError) | Done(fields: Fields)

  method ProvisionFrappeVersion(messages: seq<string>, broken: bool, version: string) returns (p: Provisioned)
    ensures var r := WholeText(Concat(messages), broken);
            p == if r.err.Some? then Failed(r.err.value)
              else Done(ParseOutput(if version == "" then "16" else version, r.output))
  {
    hide WholeText, Concat, Assign, WithDefaults, Split;
    var requested := if version == "" then "16" else version;
    var r := ProvisionFrappeStream(messages, broken);
    if r.err.Some? { return Failed(r.err.value); }
    var out := Fields(requested, "", 0, 0);
    var lines := Split(r.output, '\n');
    var i := 0;
    assert lines[0..] == lines;
    while i < |lines|
      invariant 0 <= i <= |lines|
      invariant AssignAll(Fields(requested, "", 0, 0), lines) == AssignAll(out, lines[i..])
    {
      assert lines[i..][1..] == lines[i + 1..];
      out := Assign(out, lines[i]);
      i := i + 1;
    }
    return Done(WithDefaults(out));
  }

  // ---- Round trip ----

  /** A pair whose line the parser reads back as that pair and the reader does
      not take for an error. */
  predicate Plain(p: Pair) {
    && p.key != "" && '=' !in p.key && !IsSpace(p.key[0]) && p.key[0] != 'E'
    && p.value != "" && !IsSpace(p.value[|p.value| - 1])
    && '\n' !in p.key && '\r' !in p.key && '\n' !in p.value && '\r' !in p.value
  }

  predicate AllPlain(pairs: seq<Pair>) {
    forall i | 0 <= i < |pairs| :: Plain(pairs[i])
  }

  lemma AssignLine(f: Fields, p: Pair)
    requires Plain(p)
    ensures Assign(f, Line(p)) == SetField(f, p)
  {
    hide Index, OccursAt, TrimSpace, IsSpace, SetField;
    CutAssignment(p.key, p.value);
    assert Pair(Line(p)[..|p.key|], Line(p)[|p.key| + 1..]) == p;
  }

  function SetAll(f: Fields, pairs: seq<Pair>): Fields
    decreases |pairs|
  {
    if pairs == [] then f else SetAll(SetField(f, pairs[0]), pairs[1..])
  }

  lemma {:induction false} AssignLines(f: Fields, pairs: seq<Pair>)
    requires AllPlain(pairs)
    ensures AssignAll(f, Lines(pairs)) == SetAll(f, pairs)
    decreases |pairs|
  {
    if pairs != [] {
      AssignLine(f, pairs[0]);
      AssignLines(SetField(f, pairs[0]), pairs[1..]);
    }
  }

  lemma {:induction false} AssignAllAppend(f: Fields, a: seq<string>, b: seq<string>)
    ensures AssignAll(f, a + b) == AssignAll(AssignAll(f, a), b)
    decreases |a|
  {
    if a == [] {
      assert a + b == b;
    } else {
      assert (a + b)[1..] == a[1..] + b;
      AssignAllAppend(Assign(f, a[0]), a[1..], b);
    }
  }

  lemma ScanDigits(s: string)
    requires s != "" && AllDigits(s) && Numeral(s) <= MAX_INT
    ensures ScanInt(s) == Some(Numeral(s))
  {
    assert IsDigit(s[0]) && !IsSpace(s[0]);
    assert TrimLeft(s) == s;
    assert DigitsPrefix(s) == s;
  }

  lemma PrintedNumber(n: int)
    requires 0 <= n <= MAX_INT
    ensures var s := Itoa(n);
            ScanInt(s) == Some(n) && s != "" && !IsSpace(s[|s| - 1]) && '\n' !in s && '\r' !in s
  {
    NumeralDigits(n);
    var s := Itoa(n);
    assert s == Digits(n);
    ScanDigits(s);
    hide ScanInt, Digits, Itoa, Numeral;
    assert IsDigit(s[|s| - 1]);
    assert !IsDigit('\n') && !IsDigit('\r');
  }

  lemma TrimCROnly(line: string)
    ensures TrimCR(line) <= line
    ensures '\r' !in line ==> TrimCR(line) == line
  {
  }

  /** The accumulated output splits back into the emitted lines. */
  lemma {:induction false} SplitUnsplit(lines: seq<string>)
    requires forall i | 0 <= i < |lines| :: '\n' !in lines[i]
    ensures Split(Unsplit(lines), '\n') == Trimmed(lines) + [""]
  {
    if lines != [] {
      var w := TrimCR(lines[0]);
      TrimCROnly(lines[0]);
      assert '\n' !in w;
      SplitUnsplit(lines[1..]);
      SplitWordThenMore(w, Unsplit(lines[1..]), '\n');
      assert w + "\n" + Unsplit(lines[1..]) == w + ['\n'] + Unsplit(lines[1..]);
    }
  }

  /** So does the printed report, which has no carriage return in it. */
  lemma {:induction false} SplitPrint(pairs: seq<Pair>)
    requires AllPlain(pairs)
    ensures Split(Print(pairs), '\n') == Lines(pairs) + [""] && Unlined(Print(pairs)) == Print(pairs)
  {
    if pairs != [] {
      var line, rest := Line(pairs[0]), Print(pairs[1..]);
      SplitPrint(pairs[1..]);
      assert '\n' !in line && '\r' !in line;
      SplitWordThenMore(line, rest, '\n');
      assert line + "\n" + rest == line + ['\n'] + rest;
    }
  }

  lemma {:induction false} LinesArePlain(pairs: seq<Pair>)
    requires AllPlain(pairs)
    ensures forall i | 0 <= i < |Lines(pairs)| :: var line := Lines(pairs)[i];
              '\n' !in line && '\r' !in line && Classify(TrimCR(line)).None?
  {
    if pairs != [] {
      LinesArePlain(pairs[1..]);
      LineIsPlain(pairs[0]);
    }
  }

  lemma LineIsPlain(p: Pair)
    requires Plain(p)
    ensures '\n' !in Line(p) && '\r' !in Line(p) && Classify(TrimCR(Line(p))).None?
  {
    var line := Line(p);
    assert line[0] == p.key[0];
    TrimCROnly(line);
    if |line| > 16 { assert line[..16][0] != "ERROR: exit code"[0]; }
    if |line| > 7 { assert line[..7][0] != "ERROR: "[0]; }
  }

  /** Log text in whole lines, none of which reads as an error. */
  predicate ErrorFreeLog(log: string) {
    && (log == "" || log[|log| - 1] == '\n')
    && forall i | 0 <= i < |Split(Unlined(log), '\n')| :: Classify(TrimCR(Split(Unlined(log), '\n')[i])).None?
  }

  lemma SplitLogAndPrint(log: string, pairs: seq<Pair>) returns (before: seq<string>)
    requires ErrorFreeLog(log) && AllPlain(pairs)
    ensures Split(Unlined(log + Print(pairs)), '\n') == before + Lines(pairs) + [""]
    ensures forall i | 0 <= i < |before| :: '\n' !in before[i] && Classify(TrimCR(before[i])).None?
  {
    var text, parts := Unlined(log), Split(Unlined(log), '\n');
    before := parts[..|parts| - 1];
    assert Unlined(log + Print(pairs)) == text + Print(pairs) by { SplitPrint(pairs); }
    assert Split(Print(pairs), '\n') == Lines(pairs) + [""] by { SplitPrint(pairs); }
    SplitAfterTerminated(text, Print(pairs));
    assert before + (Lines(pairs) + [""]) == before + Lines(pairs) + [""];
  }

  /** Log and report are read without error, the log's lines and then the
      report's. */
  lemma ReadingTheReport(log: string, pairs: seq<Pair>) returns (before: seq<string>)
    requires ErrorFreeLog(log) && AllPlain(pairs)
    ensures var r := WholeText(log + Print(pairs), false);
            r.err.None? && r.output == Unsplit(before + Lines(pairs))
    ensures forall i | 0 <= i < |before| :: '\n' !in before[i]
  {
    before := SplitLogAndPrint(log, pairs);
    var all := before + Lines(pairs);
    assert (all + [""])[..|all|] == all;
    LinesArePlain(pairs);
    forall i | 0 <= i < |all| ensures Classify(TrimCR(all[i])).None? {
      if i >= |before| { assert all[i] == Lines(pairs)[i - |before|]; }
    }
    EmitAllExact(Start, all, |all|);
  }

  lemma {:induction false} TrimmedAppend(a: seq<string>, b: seq<string>)
    requires forall i | 0 <= i < |b| :: '\r' !in b[i]
    ensures Trimmed(a + b) == Trimmed(a) + b
    decreases |a|, |b|
  {
    hide TrimCR;
    if a != [] {
      assert (a + b)[1..] == a[1..] + b;
      TrimmedAppend(a[1..], b);
    } else if b != [] {
      TrimCROnly(b[0]);
      TrimmedAppend([], b[1..]);
      assert [] + b == b && [] + b[1..] == b[1..];
    }
  }

  /** Whatever error-free lines come first, parsing the output of the run is
      setting the printed fields, over some earlier values. */
  lemma ParsingThePrinted(log: string, pairs: seq<Pair>, requested: string) returns (f: Fields)
    requires ErrorFreeLog(log) && AllPlain(pairs)
    ensures var r := WholeText(log + Print(pairs), false);
            r.err.None? && ParseOutput(requested, r.output) == WithDefaults(SetAll(f, pairs))
  {
    var before := ReadingTheReport(log, pairs);
    var lines := Lines(pairs);
    LinesArePlain(pairs);
    forall i | 0 <= i < |before + lines| ensures '\n' !in (before + lines)[i] {
      if i >= |before| { assert (before + lines)[i] == lines[i - |before|]; }
    }
    SplitUnsplit(before + lines);
    TrimmedAppend(before, lines);
    var f0 := Fields(requested, "", 0, 0);
    f := AssignAll(f0, Trimmed(before));
    assert Trimmed(before) + lines + [""] == Trimmed(before) + (lines + [""]);
    AssignAllAppend(f0, Trimmed(before), lines + [""]);
    AssignAllAppend(f, lines, [""]);
    AssignLines(f, pairs);
  }

  predicate Printable(id: string, cluster: int, http: int, grpc: int) {
    id in {"15", "16", "17-dev"} && 1 <= cluster <= MAX_INT && 1 <= http <= MAX_INT && 1 <= grpc <= MAX_INT
  }

  predicate PlainKey(key: string) {
    key != "" && '=' !in key && !IsSpace(key[0]) && key[0] != 'E' && '\n' !in key && '\r' !in key
  }

  lemma VersionKeyIsPlain()
    ensures PlainKey(VERSION_KEY)
  {
  }

  lemma ClusterKeyIsPlain()
    ensures PlainKey(CLUSTER_KEY)
  {
  }

  lemma HttpKeyIsPlain()
    ensures PlainKey(HTTP_KEY)
  {
  }

  lemma GrpcKeyIsPlain()
    ensures PlainKey(GRPC_KEY)
  {
  }

  lemma KeysArePlain()
    ensures PlainKey(VERSION_KEY) && PlainKey(CLUSTER_KEY) && PlainKey(HTTP_KEY) && PlainKey(GRPC_KEY)
  {
    hide PlainKey;
    VersionKeyIsPlain();
    ClusterKeyIsPlain();
    HttpKeyIsPlain();
    GrpcKeyIsPlain();
  }

  lemma VersionIsPlain(id: string)
    requires id in {"15", "16", "17-dev"}
    ensures id != "" && !IsSpace(id[|id| - 1]) && '\n' !in id && '\r' !in id
  {
  }

  lemma NumberPair(key: string, n: int)
    requires PlainKey(key) && 0 <= n <= MAX_INT
    ensures Plain(Pair(key, Itoa(n)))
  {
    PrintedNumber(n);
  }

  lemma VersionPair(key: string, id: string)
    requires PlainKey(key) && id in {"15", "16", "17-dev"}
    ensures Plain(Pair(key, id))
  {
    VersionIsPlain(id);
  }

  lemma ReportIsPlain(id: string, cluster: int, http: int, grpc: int)
    requires Printable(id, cluster, http, grpc)
    ensures AllPlain(Report(id, cluster, http, grpc))
  {
    hide PlainKey, Plain, Itoa;
    KeysArePlain();
    VersionPair(VERSION_KEY, id);
    NumberPair(CLUSTER_KEY, cluster);
    NumberPair(HTTP_KEY, http);
    NumberPair(GRPC_KEY, grpc);
  }

  lemma KeysDiffer()
    ensures VERSION_KEY != CLUSTER_KEY && VERSION_KEY != HTTP_KEY && VERSION_KEY != GRPC_KEY
    ensures CLUSTER_KEY != HTTP_KEY && CLUSTER_KEY != GRPC_KEY && HTTP_KEY != GRPC_KEY
  {
    assert HTTP_KEY[7] != GRPC_KEY[7];
  }

  lemma SetEach(f: Fields, v: string)
    ensures SetField(f, Pair(VERSION_KEY, v)) == f.(version := v)
    ensures SetField(f, Pair(CLUSTER_KEY, v)) == f.(cluster := v)
    ensures ScanInt(v).Some? ==> SetField(f, Pair(HTTP_KEY, v)) == f.(http := ScanInt(v).value)
    ensures ScanInt(v).Some? ==> SetField(f, Pair(GRPC_KEY, v)) == f.(grpc := ScanInt(v).value)
  {
    hide ScanInt;
    KeysDiffer();
  }

  lemma SetReport(f: Fields, id: string, cluster: int, http: int, grpc: int)
    requires 0 <= http <= MAX_INT && 0 <= grpc <= MAX_INT
    ensures SetAll(f, Report(id, cluster, http, grpc)) == Fields(id, Itoa(cluster), http, grpc)
  {
    hide ScanInt, Itoa, SetAll, SetField;
    PrintedNumber(http);
    PrintedNumber(grpc);
    var a, b, c, d := Pair(VERSION_KEY, id), Pair(CLUSTER_KEY, Itoa(cluster)), Pair(HTTP_KEY, Itoa(http)),
      Pair(GRPC_KEY, Itoa(grpc));
    SetAll4(f, a, b, c, d);
    SetEach(f, id);
    var f1 := SetField(f, a);
    SetEach(f1, Itoa(cluster));
    var f2 := SetField(f1, b);
    SetEach(f2, Itoa(http));
    var f3 := SetField(f2, c);
    SetEach(f3, Itoa(grpc));
    var f4 := SetField(f3, d);
    assert f1 == f.(version := id);
    assert f2 == f1.(cluster := Itoa(cluster));
    assert f3 == f2.(http := http);
    assert f4 == f3.(grpc := grpc);
    assert Report(id, cluster, http, grpc) == [a, b, c, d];
  }

  lemma SetAll4(f: Fields, a: Pair, b: Pair, c: Pair, d: Pair)
    ensures SetAll(f, [a, b, c, d]) == SetField(SetField(SetField(SetField(f, a), b), c), d)
  {
    hide SetField;
    var fa := SetField(f, a);
    var fb := SetField(fa, b);
    var fc := SetField(fb, c);
    assert [a, b, c, d][1..] == [b, c, d] && [b, c, d][1..] == [c, d] && [c, d][1..] == [d];
    assert SetAll(f, [a, b, c, d]) == SetAll(fa, [b, c, d]);
    assert SetAll(fa, [b, c, d]) == SetAll(fb, [c, d]);
    assert SetAll(fb, [c, d]) == SetAll(fc, [d]);
    assert [d][1..] == [] && SetAll(fc, [d]) == SetAll(SetField(fc, d), []);
  }

  /** Whatever error-free lines come first and however the stream is cut into
      messages, the parser recovers exactly the printed version, cluster and
      ports, and no default replaces them. */
  lemma ReportRoundTrip(messages: seq<string>, log: string, requested: string, id: string, cluster: int, http: int,
                        grpc: int)
    requires ErrorFreeLog(log) && Printable(id, cluster, http, grpc)
    requires Concat(messages) == log + Print(Report(id, cluster, http, grpc))
    ensures var r := WholeText(Concat(messages), false);
            r.err.None? && ParseOutput(requested, r.output) == Fields(id, Itoa(cluster), http, grpc)
  {
    ReportIsPlain(id, cluster, http, grpc);
    var f := ParsingThePrinted(log, Report(id, cluster, http, grpc), requested);
    SetReport(f, id, cluster, http, grpc);
    PrintedNumber(cluster);
  }
}
