/** Which lines of the stream are errors, which of them is reported, and what has
    been logged by then. */
module ProvisionErrors {
  import opened GoStrings
  import opened ProvisionStream

  /** A line that starts with "ERROR: " and has something behind it. */
  predicate IsErrorLine(line: string) {
    && |line| > 7
    && line[0] == 'E' && line[1] == 'R' && line[2] == 'R' && line[3] == 'O' && line[4] == 'R'
    && line[5] == ':' && line[6] == ' '
  }

  predicate IsExitCode(line: string) {
    |line| > 16 && "ERROR: exit code" <= line
  }

  lemma ErrorLinesAreErrors(line: string)
    ensures Classify(line).Some? <==> IsErrorLine(line)
    ensures Classify(line).Some? ==> Classify(line).value == if IsExitCode(line) then ExitCode(line) else Api(line)
  {
    var p, q := "ERROR: ", "ERROR: exit code";
    assert q[..7] == p;
    if |line| > 16 && line[..16] == q { assert line[..7] == line[..16][..7]; }
    if |line| > 7 {
      assert line[..7] == p <==> IsErrorLine(line) by {
        if IsErrorLine(line) { assert forall i | 0 <= i < 7 :: line[..7][i] == p[i]; }
        if line[..7] == p { assert forall i | 0 <= i < 7 :: line[i] == p[i]; }
      }
    }
  }

  /** The lines of a text in which carriage returns end lines too. */
  function StreamLines(text: string): seq<string> {
    Split(Replace(text, '\r', '\n'), '\n')
  }

  lemma TrimCRKeeps(line: string)
    requires '\r' !in line
    ensures TrimCR(line) == line
  {
  }

  /** The first error line, or the number of lines. */
  ghost predicate IsFirstError(lines: seq<string>, e: nat) {
    && e <= |lines| && (forall i | 0 <= i < e :: !IsErrorLine(lines[i])) && (e < |lines| ==> IsErrorLine(lines[e]))
  }

  lemma FirstErrorIs(lines: seq<string>, e: nat)
    requires IsFirstError(lines, e) && forall i | 0 <= i < |lines| :: '\r' !in lines[i]
    ensures FirstError(lines, e)
  {
    hide IsErrorLine, Classify;
    forall i | 0 <= i < |lines|
      ensures TrimCR(lines[i]) == lines[i] && (Classify(lines[i]).Some? <==> IsErrorLine(lines[i]))
    {
      TrimCRKeeps(lines[i]);
      ErrorLinesAreErrors(lines[i]);
    }
  }

  lemma {:induction false} SomeFirstError(lines: seq<string>) returns (e: nat)
    ensures IsFirstError(lines, e)
  {
    hide IsErrorLine;
    if lines == [] || IsErrorLine(lines[0]) {
      e := 0;
    } else {
      e := SomeFirstError(lines[1..]);
      e := e + 1;
      assert forall i | 1 <= i < |lines| :: lines[i] == lines[1..][i - 1];
    }
  }

  lemma {:induction false} TrimmedIsSame(lines: seq<string>)
    requires forall i | 0 <= i < |lines| :: '\r' !in lines[i]
    ensures Trimmed(lines) == lines && Unsplit(lines) == Lined(lines)
  {
    if lines != [] {
      TrimCRKeeps(lines[0]);
      TrimmedIsSame(lines[1..]);
    }
  }

  /** Each line followed by a newline. */
  function Lined(lines: seq<string>): string {
    if lines == [] then "" else lines[0] + "\n" + Lined(lines[1..])
  }

  /** What a reading holds that stopped at line e, or came to the end of these. */
  ghost predicate StoppedAt(r: Reading, lines: seq<string>, e: nat) {
    && IsFirstError(lines, e) && r.logs == lines[..e]
    && (e == |lines| ==> r.err.None? && r.output == Lined(lines))
    && (e < |lines| ==>
          && r.err == Some(if IsExitCode(lines[e]) then ExitCode(lines[e]) else Api(lines[e]))
          && r.output == Lined(lines[..e + 1]))
  }

  lemma EmittedUpTo(lines: seq<string>) returns (e: nat)
    requires forall i | 0 <= i < |lines| :: '\r' !in lines[i]
    ensures StoppedAt(EmitAll(Start, lines), lines, e)
  {
    hide IsErrorLine, Classify, TrimCR, IsExitCode;
    e := SomeFirstError(lines);
    FirstErrorIs(lines, e);
    EmitAllExact(Start, lines, e);
    TrimmedIsSame(lines[..e]);
    TrimmedIsSame(lines);
    if e < |lines| {
      TrimmedIsSame(lines[..e + 1]);
      assert TrimCR(lines[e]) == lines[e] by { TrimCRKeeps(lines[e]); }
      ErrorLinesAreErrors(lines[e]);
    }
  }

  /** A blank line is no error line, so a blank tail, which is not emitted, hides
      none. */
  lemma BlankIsNoError(line: string)
    requires IsErrorLine(line)
    ensures !Blank(line)
  {
    assert !IsSpace(line[0]);
  }

  /** The lines that are emitted at the end of the stream: all, but for a blank last
      one. */
  function Emitted(text: string): seq<string> {
    var lines := StreamLines(text);
    if Blank(lines[|lines| - 1]) then lines[..|lines| - 1] else lines
  }

  lemma WholeIsEmitted(text: string)
    ensures WholeText(text, false) == EmitAll(Start, Emitted(text))
  {
    hide Emit, Blank, Split;
    var lines := StreamLines(text);
    var init, last := lines[..|lines| - 1], lines[|lines| - 1];
    assert lines == init + [last];
    EmitAllAppend(Start, init, [last]);
    EmitOne(EmitAll(Start, init), last);
  }

  lemma EmitOne(r: Reading, line: string)
    ensures EmitAll(r, [line]) == if r.err.Some? then r else Emit(r, line)
  {
    hide Emit;
    if r.err.None? {
      assert [line][1..] == [];
      assert EmitAll(Emit(r, line), []) == Emit(r, line);
    }
  }

  /** What a stream that ends gives, in terms of its text: the lines are logged up to
      the first error line, which is reported, as an exit code or as an error of the
      API; the output holds those and the error line itself. */
  lemma StreamThatEnds(text: string) returns (e: nat)
    ensures StoppedAt(WholeText(text, false), Emitted(text), e)
  {
    hide IsErrorLine, Classify, TrimCR, IsExitCode, EmitAll, StoppedAt, Blank, Split;
    WholeIsEmitted(text);
    NoCarriageReturns(text);
    e := EmittedUpTo(Emitted(text));
  }

  /** It fails exactly when some line of the text is an error line; the error is that
      of the first one; and nothing of the kind has been logged. */
  lemma FailsExactly(text: string)
    ensures var r, lines := WholeText(text, false), StreamLines(text);
            && (r.err.Some? <==> exists i :: 0 <= i < |lines| && IsErrorLine(lines[i]))
            && (r.err.Some? ==> exists e: nat ::
                  && e < |lines| && IsFirstError(lines, e)
                  && r.err.value == (if IsExitCode(lines[e]) then ExitCode(lines[e]) else Api(lines[e])))
            && (forall l | l in r.logs :: !IsErrorLine(l))
  {
    hide IsErrorLine, IsExitCode, Blank, Split, WholeText;
    var r, lines := WholeText(text, false), StreamLines(text);
    var e := StreamThatEnds(text);
    var emitted := Emitted(text);
    assert forall i | 0 <= i < |emitted| :: emitted[i] == lines[i];
    if e < |emitted| {
      assert IsErrorLine(lines[e]) && IsFirstError(lines, e);
    } else {
      forall i | 0 <= i < |lines| ensures !IsErrorLine(lines[i]) {
        if i < |emitted| {
          assert !IsErrorLine(emitted[i]);
        } else if IsErrorLine(lines[i]) {
          BlankIsNoError(lines[i]);
        }
      }
    }
    forall l | l in r.logs ensures !IsErrorLine(l) {
      var i :| 0 <= i < |r.logs| && r.logs[i] == l;
      assert l == emitted[i];
    }
  }

  /** A stream that breaks off fails in any case: with the first error among its
      complete lines, or else with the break. */
  lemma BreaksExactly(text: string) returns (e: nat)
    ensures var r, lines := WholeText(text, true), StreamLines(text);
            var complete := lines[..|lines| - 1];
            && IsFirstError(complete, e) && r.logs == complete[..e]
            && r.err == Some(if e == |complete| then Receiving
                             else if IsExitCode(complete[e]) then ExitCode(complete[e]) else Api(complete[e]))
  {
    hide IsErrorLine, IsExitCode, Blank, Split, EmitAll;
    NoCarriageReturns(text);
    var lines := StreamLines(text);
    var complete := lines[..|lines| - 1];
    forall i | 0 <= i < |complete| ensures '\r' !in complete[i] { assert complete[i] == Split(Unlined(text), '\n')[i]; }
    e := EmittedUpTo(complete);
  }
}
