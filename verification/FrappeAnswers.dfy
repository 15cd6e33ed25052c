/** The versions, ports and texts of a provisioning run in plain numbers and words,
    and when two clusters get the same port. */
module FrappeAnswers {
  import opened GoStrings
  import opened ProvisionStream
  import opened ProvisionErrors
  import opened FrappeReport

  /** The spellings of each version, in any case and with white space around. */
  lemma VersionsAccepted(version: string)
    ensures var v, spec := ToLower(TrimSpace(version)), FrappeVersion(version);
            && (spec.Some? <==> v in {"", "15", "version-15", "16", "version-16", "17", "17-dev", "dev", "develop"})
            && (spec.Some? && spec.value.id == "15" <==> v == "15" || v == "version-15")
            && (spec.Some? && spec.value.id == "16" <==> v == "" || v == "16" || v == "version-16")
            && (spec.Some? && spec.value.branch == "develop" <==> v in {"17", "17-dev", "dev", "develop"})
            && (spec.Some? ==> (spec.value.branch == "develop" <==> spec.value.id == "17-dev"))
            && (spec.Some? && spec.value.branch != "develop" ==> spec.value.branch == "version-" + spec.value.id)
  {
    hide ToLower, TrimSpace;
    assert "version-" + "15" == "version-15" && "version-" + "16" == "version-16";
    assert "15" != "16" && |"17-dev"| != |"15"| && |"17-dev"| != |"16"| && |"develop"| != |"version-15"|;
  }

  /** The ports of the first cluster of each version. */
  lemma FirstPorts()
    ensures HttpPort("15", 1) == 8150 && HttpPort("16", 1) == 8160 && HttpPort("17-dev", 1) == 8170
  {
  }

  /** With ten clusters or fewer of each version no two of them share a port; the
      eleventh of one takes the port of the first of the next. */
  lemma PortsClash(id: string, cluster: int, other: string, second: int)
    requires id in {"15", "16", "17-dev"} && other in {"15", "16", "17-dev"}
    ensures 1 <= cluster <= 10 && 1 <= second <= 10 && HttpPort(id, cluster) == HttpPort(other, second) ==>
              id == other && cluster == second
    ensures HttpPort("15", cluster + 10) == HttpPort("16", cluster)
    ensures HttpPort("16", cluster + 10) == HttpPort("17-dev", cluster)
  {
  }

  /** The four lines of the report. */
  lemma PrintedText(id: string, cluster: int, http: int, grpc: int)
    ensures Print(Report(id, cluster, http, grpc))
         == "FRAPPE_CLUSTER_VERSION=" + id + "\n" + "FRAPPE_CLUSTER_ID=" + Itoa(cluster) + "\n"
            + "FRAPPE_HTTP_PORT=" + Itoa(http) + "\n" + "FRAPPE_GRPC_PORT=" + Itoa(grpc) + "\n"
  {
    hide Itoa, Print;
    Print4(Pair(VERSION_KEY, id), Pair(CLUSTER_KEY, Itoa(cluster)), Pair(HTTP_KEY, Itoa(http)),
           Pair(GRPC_KEY, Itoa(grpc)));
    assert VERSION_KEY + "=" == "FRAPPE_CLUSTER_VERSION=" && CLUSTER_KEY + "=" == "FRAPPE_CLUSTER_ID=";
    assert HTTP_KEY + "=" == "FRAPPE_HTTP_PORT=" && GRPC_KEY + "=" == "FRAPPE_GRPC_PORT=";
  }

  lemma Print4(a: Pair, b: Pair, c: Pair, d: Pair)
    ensures Print([a, b, c, d]) == Line(a) + "\n" + Line(b) + "\n" + Line(c) + "\n" + Line(d) + "\n"
  {
    hide Line;
    assert [a, b, c, d][1..] == [b, c, d] && [b, c, d][1..] == [c, d] && [c, d][1..] == [d] && [d][1..] == [];
    assert Print([d]) == Line(d) + "\n" + Print([]) == Line(d) + "\n";
    assert Print([c, d]) == Line(c) + "\n" + (Line(d) + "\n");
    assert Print([b, c, d]) == Line(b) + "\n" + (Line(c) + "\n" + (Line(d) + "\n"));
  }

  // ---- The parser ----

  /** The line reports this key. */
  predicate Reports(line: string, key: string) {
    var t := TrimSpace(line);
    Index(t, "=") >= 0 && t[..Index(t, "=")] == key
  }

  predicate ReportsSomething(line: string) {
    Reports(line, "FRAPPE_CLUSTER_VERSION") || Reports(line, "FRAPPE_CLUSTER_ID")
    || Reports(line, "FRAPPE_HTTP_PORT") || Reports(line, "FRAPPE_GRPC_PORT")
  }

  lemma OtherLine(f: Fields, line: string)
    requires !ReportsSomething(line)
    ensures Assign(f, line) == f
  {
    hide TrimSpace, Index, ScanInt;
  }

  lemma {:induction false} OtherLines(f: Fields, lines: seq<string>)
    requires forall i | 0 <= i < |lines| :: !ReportsSomething(lines[i])
    ensures AssignAll(f, lines) == f
    decreases |lines|
  {
    hide Assign, ReportsSomething;
    if lines != [] {
      OtherLine(f, lines[0]);
      assert forall i | 0 <= i < |lines[1..]| :: lines[1..][i] == lines[i + 1];
      OtherLines(f, lines[1..]);
    }
  }

  /** A run that reports nothing is taken for the first cluster and the default
      ports, in the version that was asked for. */
  lemma NothingReported(version: string, output: string)
    requires forall l | l in Split(output, '\n') :: !ReportsSomething(l)
    ensures ParseOutput(version, output) == Fields(version, "1", 8000, 3001)
  {
    hide Assign, ReportsSomething, Split;
    var lines := Split(output, '\n');
    assert forall i | 0 <= i < |lines| :: lines[i] in lines;
    OtherLines(Fields(version, "", 0, 0), lines);
  }

  /** The last line decides each field, and keeps the others. */
  lemma LastLineDecides(f: Fields, key: string, value: string)
    requires value == "" || !IsSpace(value[|value| - 1])
    ensures Assign(f, "FRAPPE_CLUSTER_VERSION" + "=" + value) == f.(version := value)
    ensures Assign(f, "FRAPPE_CLUSTER_ID" + "=" + value) == f.(cluster := value)
    ensures ScanInt(value).Some? ==> Assign(f, "FRAPPE_HTTP_PORT" + "=" + value) == f.(http := ScanInt(value).value)
    ensures ScanInt(value).Some? ==> Assign(f, "FRAPPE_GRPC_PORT" + "=" + value) == f.(grpc := ScanInt(value).value)
  {
    hide ScanInt, SetField, TrimSpace, Index;
    KeysArePlain();
    SetEach(f, value);
    assert VERSION_KEY == "FRAPPE_CLUSTER_VERSION" && CLUSTER_KEY == "FRAPPE_CLUSTER_ID";
    assert HTTP_KEY == "FRAPPE_HTTP_PORT" && GRPC_KEY == "FRAPPE_GRPC_PORT";
    CutAssignment(VERSION_KEY, value);
    CutAssignment(CLUSTER_KEY, value);
    CutAssignment(HTTP_KEY, value);
    CutAssignment(GRPC_KEY, value);
  }

  /** A run fails exactly when its stream breaks off or brings an error line. */
  lemma RunFails(messages: seq<string>, broken: bool)
    ensures var lines := StreamLines(Concat(messages));
            WholeText(Concat(messages), broken).err.Some?
            <==> broken || exists i :: 0 <= i < |lines| && IsErrorLine(lines[i])
  {
    hide WholeText, IsErrorLine, Split, StreamLines;
    if broken { var e := BreaksExactly(Concat(messages)); } else { FailsExactly(Concat(messages)); }
  }
}
