/** Reading the log stream of a Frappe provisioning run, and the report printed
    at the end of it. */
module ProvisionStream {
  import opened GoStrings

  datatype StreamError =
    | ExitCode(line: string)
    | Api(line: string)
    | Receiving

  /** What the reader has produced: the accumulated output, the lines handed to
      the log callback, and the error it stopped with. */
  datatype Reading = Reading(output: string, logs: seq<string>, err: Option<StreamError>)

  function TrimCR(line: string): string {
    if line != "" && line[|line| - 1] == '\r' then TrimCR(line[..|line| - 1]) else line
  }

  function Classify(line: string): Option<StreamError> {
    if |line| > 16 && line[..16] == "ERROR: exit code" then Some(ExitCode(line))
    else if |line| > 7 && line[..7] == "ERROR: " then Some(Api(line))
    else None
  }

  /** One line through the emit callback. */
  function Emit(r: Reading, raw: string): Reading {
    var line := TrimCR(raw);
    var output := r.output + line + "\n";
    match Classify(line)
    case Some(e) => Reading(output, r.logs, Some(e))
    case None => Reading(output, r.logs + [line], None)
  }

  /** Lines in order, stopping at the first error. */
  function EmitAll(r: Reading, lines: seq<string>): Reading
    decreases |lines|
  {
    if lines == [] || r.err.Some? then r else EmitAll(Emit(r, lines[0]), lines[1..])
  }

  const Start := Reading("", [], None)

  function Unlined(text: string): string {
    Replace(text, '\r', '\n')
  }

  /** The reader's result as a function of the whole text: split it once, emit
      every complete line, then the tail unless it is blank. */
  function WholeText(text: string, broken: bool): Reading {
    var parts := Split(Unlined(text), '\n');
    var body := EmitAll(Start, parts[..|parts| - 1]);
    if body.err.Some? then body
    else if broken then body.(err := Some(Receiving))
    else if Blank(parts[|parts| - 1]) then body
    else Emit(body, parts[|parts| - 1])
  }

  function Concat(messages: seq<string>): string {
    if messages == [] then "" else messages[0] + Concat(messages[1..])
  }

  lemma {:induction false} ConcatSnoc(messages: seq<string>, m: string)
    ensures Concat(messages + [m]) == Concat(messages) + m
  {
    if messages == [] {
      assert [m][1..] == [];
    } else {
      ConcatSnoc(messages[1..], m);
      assert (messages + [m])[1..] == messages[1..] + [m];
      assert messages[0] + Concat(messages[1..] + [m]) == messages[0] + Concat(messages[1..]) + m;
    }
  }

  lemma {:induction false} EmitAllAppend(r: Reading, a: seq<string>, b: seq<string>)
    ensures EmitAll(r, a + b) == EmitAll(EmitAll(r, a), b)
    decreases |a|
  {
    if a == [] {
      assert a + b == b;
    } else if r.err.None? {
      assert (a + b)[1..] == a[1..] + b;
      EmitAllAppend(Emit(r, a[0]), a[1..], b);
    }
  }

  /** Replacing CR in text that is already split changes nothing in it. */
  lemma UnlinedOfPending(pending: string, message: string)
    requires '\r' !in pending
    ensures Unlined(pending + message) == pending + Unlined(message)
  {
  }

  lemma NoCarriageReturns(text: string)
    ensures forall i | 0 <= i < |Split(Unlined(text), '\n')| :: '\r' !in Split(Unlined(text), '\n')[i]
  {
    assert '\r' !in Unlined(text);
    SplitKeepsOut(Unlined(text), '\n', '\r');
  }

  lemma {:induction false} SplitKeepsOut(s: string, sep: char, c: char)
    requires c !in s
    ensures forall i | 0 <= i < |Split(s, sep)| :: c !in Split(s, sep)[i]
  {
    if s != "" {
      assert c !in s[1..];
      SplitKeepsOut(s[1..], sep, c);
    }
  }

  /** A message affects only the part that is still pending. */
  lemma NextParts(before: string, message: string, emitted: seq<string>, pending: string)
    requires Split(Unlined(before), '\n') == emitted + [pending]
    ensures Split(Unlined(before + message), '\n') == emitted + Split(Unlined(pending + message), '\n')
  {
    NoCarriageReturns(before);
    assert pending == Split(Unlined(before), '\n')[|emitted|];
    UnlinedOfPending(pending, message);
    assert Unlined(before + message) == Unlined(before) + Unlined(message);
    SplitAppend(Unlined(before), Unlined(message), '\n');
    assert (emitted + [pending])[..|emitted|] == emitted;
  }

  /** The loop that emits the complete lines of one message. */
  method EmitLines(r0: Reading, lines: seq<string>) returns (r: Reading)
    requires r0.err.None?
    ensures r == EmitAll(r0, lines)
  {
    r := r0;
    var j := 0;
    assert lines[0..] == lines;
    while j < |lines| && r.err.None?
      invariant 0 <= j <= |lines|
      invariant EmitAll(r0, lines) == EmitAll(r, lines[j..])
    {
      assert lines[j..][1..] == lines[j + 1..];
      r := Emit(r, lines[j]);
      j := j + 1;
    }
  }

  /** The text read so far is the emitted lines and a pending rest. */
  predicate Consumed(text: string, emitted: seq<string>, pending: string, r: Reading) {
    Split(Unlined(text), '\n') == emitted + [pending] && r == EmitAll(Start, emitted)
  }

  lemma ConsumeMessage(text: string, message: string, emitted: seq<string>, pending: string, r: Reading)
    requires Consumed(text, emitted, pending, r)
    ensures var parts := Split(Unlined(pending + message), '\n');
            var lines := parts[..|parts| - 1];
            Consumed(text + message, emitted + lines, parts[|parts| - 1], EmitAll(r, lines))
  {
    NextParts(text, message, emitted, pending);
    var parts := Split(Unlined(pending + message), '\n');
    EmitAllAppend(Start, emitted, parts[..|parts| - 1]);
    assert emitted + parts == emitted + parts[..|parts| - 1] + [parts[|parts| - 1]];
  }

  lemma ConsumedAll(text: string, emitted: seq<string>, pending: string, r: Reading, broken: bool)
    requires Consumed(text, emitted, pending, r)
    ensures r.err.None? ==>
              WholeText(text, broken) ==
                if broken then r.(err := Some(Receiving)) else if Blank(pending) then r else Emit(r, pending)
    ensures r.err.Some? ==> WholeText(text, broken) == r
  {
    assert (emitted + [pending])[..|emitted|] == emitted;
  }

  /** provisionFrappeStream over any messages, ended by EOF or by a failing
      receive: the result depends only on the text they add up to. */
  method ProvisionFrappeStream(messages: seq<string>, broken: bool) returns (r: Reading)
    ensures r == WholeText(Concat(messages), broken)
  {
    r := Start;
    var pending := "";
    ghost var emitted: seq<string> := [];
    var i := 0;
    while i < |messages|
      invariant 0 <= i <= |messages|
      invariant Consumed(Concat(messages[..i]), emitted, pending, r) && r.err.None?
    {
      assert messages[..i + 1] == messages[..i] + [messages[i]];
      ConcatSnoc(messages[..i], messages[i]);
      ConsumeMessage(Concat(messages[..i]), messages[i], emitted, pending, r);
      pending := pending + messages[i];
      pending := Unlined(pending);
      var parts := Split(pending, '\n');
      pending := parts[|parts| - 1];
      emitted := emitted + parts[..|parts| - 1];
      r := EmitLines(r, parts[..|parts| - 1]);
      i := i + 1;
      if r.err.Some? {
        ErrorIsFinal(messages, i, emitted, pending, r, broken);
        return;
      }
    }
    assert messages[..i] == messages;
    ConsumedAll(Concat(messages), emitted, pending, r, broken);
    if broken {
      return r.(err := Some(Receiving));
    }
    if !Blank(pending) {
      r := Emit(r, pending);
    }
  }

  /** Once an error line has been emitted, later messages are irrelevant. */
  lemma ErrorIsFinal(messages: seq<string>, i: nat, emitted: seq<string>, pending: string, r: Reading, broken: bool)
    requires i <= |messages| && Consumed(Concat(messages[..i]), emitted, pending, r) && r.err.Some?
    ensures WholeText(Concat(messages), broken) == r
  {
    var rest := Concat(messages[i..]);
    ConcatSplit(messages, i);
    ConsumeMessage(Concat(messages[..i]), rest, emitted, pending, r);
    var parts := Split(Unlined(pending + rest), '\n');
    ConsumedAll(Concat(messages), emitted + parts[..|parts| - 1], parts[|parts| - 1], r, broken);
  }

  lemma {:induction false} ConcatSplit(messages: seq<string>, i: nat)
    requires i <= |messages|
    ensures Concat(messages) == Concat(messages[..i]) + Concat(messages[i..])
  {
    if i == 0 {
      assert messages[0..] == messages;
    } else {
      ConcatSplit(messages[1..], i - 1);
      assert messages[..i][1..] == messages[1..][..i - 1];
      assert messages[i..] == messages[1..][i - 1..];
    }
  }

  /** Is e the first line at which reading stops, if there is one? */
  predicate FirstError(lines: seq<string>, e: nat) {
    && e <= |lines|
    && (forall i | 0 <= i < e :: Classify(TrimCR(lines[i])).None?)
    && (e < |lines| ==> Classify(TrimCR(lines[e])).Some?)
  }

  /** Each line without its carriage returns, followed by a newline. */
  function Unsplit(lines: seq<string>): string {
    if lines == [] then "" else TrimCR(lines[0]) + "\n" + Unsplit(lines[1..])
  }

  function Trimmed(lines: seq<string>): seq<string> {
    if lines == [] then [] else [TrimCR(lines[0])] + Trimmed(lines[1..])
  }

  /** What stops where: the log gets every line before the first error line,
      the output holds those and the error line itself, and the error is that
      line's. */
  lemma {:induction false} EmitAllExact(r: Reading, lines: seq<string>, e: nat)
    requires FirstError(lines, e) && r.err.None?
    ensures var r' := EmitAll(r, lines);
      && r'.logs == r.logs + Trimmed(lines[..e])
      && (e == |lines| ==> r'.err.None? && r'.output == r.output + Unsplit(lines))
      && (e < |lines| ==> r'.err == Classify(TrimCR(lines[e])) && r'.output == r.output + Unsplit(lines[..e + 1]))
    decreases |lines|
  {
    hide Classify, TrimCR;
    if lines != [] {
      var r', rest := Emit(r, lines[0]), lines[1..];
      if e > 0 {
        EmitAllExact(r', rest, e - 1);
        assert lines[..e][1..] == rest[..e - 1];
        if e < |lines| { assert lines[..e + 1][1..] == rest[..e]; }
      } else {
        assert lines[..1][1..] == [];
      }
    }
  }
}
