/** The string operations of the Go standard library that several components
    use, over sequences of characters. */
module GoStrings {

  datatype Option<+T> = None | Some(value: T)

  /** The next key of a map being ranged over, in no particular order. */
  method Any<T>(keys: set<T>) returns (key: T)
    requires keys != {}
    ensures key in keys
  {
    key :| key in keys;
  }

  lemma Element<T>(s: set<T>) returns (x: T)
    requires s != {}
    ensures x in s
  {
    x :| x in s;
  }

  lemma SubsetIsSmaller<T>(a: set<T>, b: set<T>)
    requires a <= b
    ensures |a| <= |b|
  {
    assert b == a + (b - a);
  }

  /** The white space TrimSpace removes. */
  predicate IsSpace(c: char) {
    var n := c as int;
    || 9 <= n <= 13 || n == 32 || n == 0x85 || n == 0xA0 || n == 0x1680
    || 0x2000 <= n <= 0x200A || n == 0x2028 || n == 0x2029 || n == 0x202F || n == 0x205F || n == 0x3000
  }

  predicate Blank(s: string) {
    forall i | 0 <= i < |s| :: IsSpace(s[i])
  }

  function TrimLeft(s: string): (r: string)
    ensures |r| <= |s| && r == s[|s| - |r|..] && Blank(s[..|s| - |r|])
    ensures r != "" ==> !IsSpace(r[0])
  {
    if s != "" && IsSpace(s[0]) then
      var r := TrimLeft(s[1..]);
      assert Blank(s[..|s| - |r|]) by { BlankCons(s, |s| - |r|); }
      r
    else s
  }

  lemma BlankCons(s: string, n: nat)
    requires 1 <= n <= |s| && IsSpace(s[0]) && Blank(s[1..][..n - 1])
    ensures Blank(s[..n])
  {
    hide IsSpace;
    assert s[..n] == [s[0]] + s[1..][..n - 1];
  }

  function TrimRight(s: string): (r: string)
    ensures r <= s && (r != "" ==> !IsSpace(r[|r| - 1])) && Blank(s[|r|..])
  {
    if s != "" && IsSpace(s[|s| - 1]) then
      var r := TrimRight(s[..|s| - 1]);
      assert s[|r|..] == s[..|s| - 1][|r|..] + [s[|s| - 1]];
      r
    else s
  }

  lemma TrimRightKeeps(s: string, n: nat)
    requires n < |s| && !IsSpace(s[n])
    ensures |TrimRight(s)| > n
  {
    var r := TrimRight(s);
    var tail := s[|r|..];
    assert forall j | |r| <= j < |s| :: s[j] == tail[j - |r|];
  }

  function TrimSpace(s: string): (r: string)
    ensures r == "" <==> Blank(s)
  {
    var l := TrimLeft(s);
    assert s == s[..|s| - |l|] + l;
    TrimRight(l)
  }

  /** Text with no white space at its ends is left alone. */
  lemma TrimSpaceOfTrimmed(s: string)
    requires s != "" ==> !IsSpace(s[0]) && !IsSpace(s[|s| - 1])
    ensures TrimSpace(s) == s && TrimRight(s) == s
  {
  }

  predicate HasPrefix(s: string, p: string): (r: bool)
    ensures r ==> |p| <= |s|
  {
    p <= s
  }

  predicate HasSuffix(s: string, p: string) {
    |p| <= |s| && s[|s| - |p|..] == p
  }

  predicate OccursAt(s: string, sub: string, i: int) {
    0 <= i <= |s| - |sub| && s[i..i + |sub|] == sub
  }

  lemma OccursLater(s: string, sub: string)
    requires s != "" && !(sub <= s)
    ensures forall i | OccursAt(s, sub, i) :: i >= 1 && OccursAt(s[1..], sub, i - 1)
  {
    forall i | OccursAt(s, sub, i) ensures i >= 1 && OccursAt(s[1..], sub, i - 1) {
      assert s[i..i + |sub|] == s[1..][i - 1..][..|sub|];
    }
  }

  /** The first occurrence, or -1. */
  function Index(s: string, sub: string): (r: int)
    ensures -1 <= r && (r != -1 ==> r + |sub| <= |s|)
    ensures r == -1 ==> forall i :: !OccursAt(s, sub, i)
    ensures r != -1 ==> OccursAt(s, sub, r) && forall i | 0 <= i < r :: !OccursAt(s, sub, i)
    decreases |s|
  {
    if sub <= s then
      assert OccursAt(s, sub, 0);
      0
    else if s == "" then -1
    else
      var r := Index(s[1..], sub);
      assert forall i | OccursAt(s, sub, i) :: i >= 1 && OccursAt(s[1..], sub, i - 1) by { OccursLater(s, sub); }
      if r == -1 then -1 else r + 1
  }

  /** The first equals sign of a line ends its only key. */
  lemma FirstEquals(line: string, key: string)
    requires '=' !in key && key + "=" <= line
    ensures Index(line, "=") == |key|
  {
    assert OccursAt(line, "=", |key|);
    forall i | 0 <= i < |key| ensures !OccursAt(line, "=", i) {
      assert line[i..i + 1][0] == key[i];
    }
  }

  /** A line KEY=value with nothing to trim is cut into its key and value. */
  lemma CutAssignment(key: string, value: string)
    requires key != "" && '=' !in key && !IsSpace(key[0]) && (value == "" || !IsSpace(value[|value| - 1]))
    ensures var line := key + "=" + value;
            TrimSpace(line) == line && Index(line, "=") == |key| && line[..|key|] == key && line[|key| + 1..] == value
  {
    hide Index, TrimSpace, TrimLeft, TrimRight;
    var line := key + "=" + value;
    assert TrimSpace(line) == line by {
      assert !IsSpace('=');
      assert line[0] == key[0];
      assert line[|line| - 1] == if value == "" then '=' else value[|value| - 1];
      hide IsSpace;
      TrimSpaceOfTrimmed(line);
    }
    hide IsSpace;
    FirstEquals(line, key);
    assert line[..|key|] == key && line[|key| + 1..] == value;
  }

  predicate Contains(s: string, sub: string) {
    Index(s, sub) >= 0
  }

  function Lower(c: char): char {
    if 'A' <= c <= 'Z' then c + ' ' else c
  }

  function ToLower(s: string): (r: string)
    ensures |r| == |s|
  {
    seq(|s|, i requires 0 <= i < |s| => Lower(s[i]))
  }

  function Replace(s: string, a: char, b: char): (r: string)
    ensures |r| == |s| && forall i | 0 <= i < |s| :: r[i] == if s[i] == a then b else s[i]
  {
    seq(|s|, i requires 0 <= i < |s| => if s[i] == a then b else s[i])
  }

  // ---- Lines ----

  /** strings.Split with a one-character separator. */
  function Split(s: string, sep: char): (parts: seq<string>)
    ensures |parts| >= 1
    ensures forall i | 0 <= i < |parts| :: sep !in parts[i]
  {
    if s == "" then [""]
    else
      var rest := Split(s[1..], sep);
      if s[0] == sep then [""] + rest else [[s[0]] + rest[0]] + rest[1..]
  }

  function Join(parts: seq<string>, sep: char): string {
    if parts == [] then ""
    else if |parts| == 1 then parts[0]
    else parts[0] + [sep] + Join(parts[1..], sep)
  }

  lemma {:induction false} JoinSplit(s: string, sep: char)
    ensures Join(Split(s, sep), sep) == s
  {
    if s != "" {
      var rest := Split(s[1..], sep);
      JoinSplit(s[1..], sep);
      if s[0] == sep {
        assert ([""] + rest)[1..] == rest;
      } else {
        var whole := [[s[0]] + rest[0]] + rest[1..];
        assert whole[1..] == rest[1..];
        assert s == [s[0]] + s[1..];
      }
    }
  }

  lemma {:induction false} SplitWord(s: string, sep: char)
    requires sep !in s
    ensures Split(s, sep) == [s]
  {
    if s != "" {
      SplitWord(s[1..], sep);
      assert s == [s[0]] + s[1..];
    }
  }

  /** What one more character in front does to the parts. */
  function ConsParts(c: char, rest: seq<string>, sep: char): seq<string>
    requires rest != []
  {
    if c == sep then [""] + rest else [[c] + rest[0]] + rest[1..]
  }

  lemma SplitCons(c: char, s: string, sep: char)
    ensures Split([c] + s, sep) == ConsParts(c, Split(s, sep), sep)
  {
    assert ([c] + s)[1..] == s;
  }

  lemma ConsPartsAppend(c: char, rest: seq<string>, more: seq<string>, sep: char)
    requires rest != [] && more != []
    ensures var parts, init := ConsParts(c, rest, sep), rest[..|rest| - 1];
            parts != []
            && if |rest| == 1 && c != sep then parts == [[c] + rest[0]]
               else parts[|parts| - 1] == rest[|rest| - 1]
                    && ConsParts(c, init + more, sep) == parts[..|parts| - 1] + more
  {
    var init := rest[..|rest| - 1];
    if c == sep {
      assert ([""] + rest)[..|rest|] == [""] + init;
      assert [""] + (init + more) == [""] + init + more;
    } else if |rest| > 1 {
      assert (init + more)[0] == rest[0] && (init + more)[1..] == init[1..] + more;
      var head := [[c] + rest[0]];
      assert (head + rest[1..])[..|rest| - 1] == head + init[1..];
      assert head + (init[1..] + more) == head + init[1..] + more;
    }
  }

  /** Splitting a text that grows: only the last part is affected. */
  lemma {:induction false} SplitAppend(a: string, b: string, sep: char)
    ensures var parts := Split(a, sep);
            Split(a + b, sep) == parts[..|parts| - 1] + Split(parts[|parts| - 1] + b, sep)
  {
    if a == "" {
      assert a + b == b;
    } else {
      SplitAppend(a[1..], b, sep);
      SplitAppendCons(a[0], a[1..], b, sep);
      assert a == [a[0]] + a[1..];
    }
  }

  lemma SplitAppendCons(c: char, a: string, b: string, sep: char)
    requires var parts := Split(a, sep);
             Split(a + b, sep) == parts[..|parts| - 1] + Split(parts[|parts| - 1] + b, sep)
    ensures var parts := Split([c] + a, sep);
            Split([c] + a + b, sep) == parts[..|parts| - 1] + Split(parts[|parts| - 1] + b, sep)
  {
    hide Split, ConsParts;
    var rest := Split(a, sep);
    var more := Split(rest[|rest| - 1] + b, sep);
    SplitCons(c, a, sep);
    SplitCons(c, a + b, sep);
    assert [c] + a + b == [c] + (a + b);
    ConsPartsAppend(c, rest, more, sep);
    if |rest| == 1 && c != sep {
      SplitCons(c, rest[0] + b, sep);
      assert [c] + rest[0] + b == [c] + (rest[0] + b);
      assert rest[..0] + more == more;
    }
  }

  lemma {:induction false} SplitJoin(parts: seq<string>, sep: char)
    requires parts != [] && forall i | 0 <= i < |parts| :: sep !in parts[i]
    ensures Split(Join(parts, sep), sep) == parts
  {
    if |parts| == 1 {
      SplitWord(parts[0], sep);
    } else {
      SplitJoin(parts[1..], sep);
      var tail := [sep] + Join(parts[1..], sep);
      assert parts[0] + [sep] + Join(parts[1..], sep) == parts[0] + tail;
      SplitWord(parts[0], sep);
      SplitAppend(parts[0], tail, sep);
      SplitWordThenMore(parts[0], Join(parts[1..], sep), sep);
    }
  }

  lemma {:induction false} SplitWordThenMore(w: string, s: string, sep: char)
    requires sep !in w
    ensures Split(w + [sep] + s, sep) == [w] + Split(s, sep)
  {
    if w == "" {
      assert w + [sep] + s == [sep] + s;
      assert ([sep] + s)[1..] == s;
    } else {
      SplitWordThenMore(w[1..], s, sep);
      assert (w + [sep] + s)[1..] == w[1..] + [sep] + s;
      assert w == [w[0]] + w[1..];
    }
  }

  lemma SplitNewline(s: string)
    ensures Split(s + "\n", '\n') == Split(s, '\n') + [""]
  {
    var parts := Split(s, '\n');
    var last := parts[|parts| - 1];
    SplitAppend(s, "\n", '\n');
    SplitWordThenMore(last, "", '\n');
    assert last + ['\n'] + "" == last + "\n";
  }

  /** Characters in front of a text go to its first line. */
  lemma {:induction false} PrefixedLine(p: string, s: string)
    requires '\n' !in p || p == "\n"
    ensures var parts := Split(s, '\n');
            Split(p + s, '\n') == if p == "\n" then [""] + parts else [p + parts[0]] + parts[1..]
  {
    hide Split;
    var parts := Split(s, '\n');
    if p == "\n" {
      SplitCons('\n', s, '\n');
    } else if p == "" {
      assert p + s == s && p + parts[0] == parts[0];
    } else {
      PrefixedLine(p[1..], s);
      assert [p[0]] + (p[1..] + s) == p + s && [p[0]] + (p[1..] + parts[0]) == p + parts[0];
      SplitCons(p[0], p[1..] + s, '\n');
    }
  }

  /** A text with a separator in the middle is split on both sides of it. */
  lemma SplitTwo(a: string, b: string, sep: char)
    ensures Split(a + [sep] + b, sep) == Split(a, sep) + Split(b, sep)
  {
    hide Split;
    var parts := Split(a, sep);
    var last := parts[|parts| - 1];
    SplitAppend(a, [sep] + b, sep);
    assert a + [sep] + b == a + ([sep] + b) && last + ([sep] + b) == last + [sep] + b;
    SplitWordThenMore(last, b, sep);
    assert parts == parts[..|parts| - 1] + [last];
    assert parts[..|parts| - 1] + ([last] + Split(b, sep)) == parts[..|parts| - 1] + [last] + Split(b, sep);
  }

  /** The parts of all parts. */
  function Resplit(parts: seq<string>, sep: char): seq<string> {
    if parts == [] then [] else Split(parts[0], sep) + Resplit(parts[1..], sep)
  }

  /** Joining parts that may hold separators themselves. */
  lemma {:induction false} SplitJoined(parts: seq<string>, sep: char)
    requires parts != []
    ensures Split(Join(parts, sep), sep) == Resplit(parts, sep)
  {
    hide Split;
    if |parts| == 1 {
      assert parts[1..] == [];
    } else {
      SplitJoined(parts[1..], sep);
      SplitTwo(parts[0], Join(parts[1..], sep), sep);
    }
  }

  lemma {:induction false} SplitTerminated(s: string)
    requires s == "" || s[|s| - 1] == '\n'
    ensures var parts := Split(s, '\n'); parts[|parts| - 1] == ""
  {
    if s != "" {
      SplitTerminated(s[1..]);
    }
  }

  lemma SplitAfterTerminated(a: string, b: string)
    requires a == "" || a[|a| - 1] == '\n'
    ensures var parts := Split(a, '\n'); Split(a + b, '\n') == parts[..|parts| - 1] + Split(b, '\n')
  {
    SplitTerminated(a);
    SplitAppend(a, b, '\n');
    assert "" + b == b;
  }

  // ---- Decimal numbers ----

  const MAX_INT := 0x7FFF_FFFF_FFFF_FFFF
  const MIN_INT := -0x8000_0000_0000_0000

  predicate IsDigit(c: char) {
    '0' <= c <= '9'
  }

  predicate AllDigits(s: string) {
    forall i | 0 <= i < |s| :: IsDigit(s[i])
  }

  function Digits(n: nat): (s: string)
    ensures s != "" && AllDigits(s)
  {
    var d := [('0' as int + n % 10) as char];
    if n < 10 then d else Digits(n / 10) + d
  }

  /** strconv.Itoa */
  function Itoa(n: int): (s: string)
    ensures s != "" && forall i | 0 <= i < |s| :: IsDigit(s[i]) || s[i] == '-'
  {
    if n < 0 then "-" + Digits(-n) else Digits(n)
  }

  function Numeral(s: string): nat
    requires AllDigits(s)
  {
    if s == "" then 0 else Numeral(s[..|s| - 1]) * 10 + (s[|s| - 1] as int - '0' as int)
  }

  /** strconv.Atoi: an optional sign, digits, and the 64-bit range. */
  function Atoi(s: string): (r: Option<int>)
    ensures r.Some? ==> MIN_INT <= r.value <= MAX_INT
  {
    var digits := if s != "" && s[0] in {'+', '-'} then s[1..] else s;
    if digits == "" || !AllDigits(digits) then None
    else
      var magnitude: int := Numeral(digits);
      var n := if s[0] == '-' then -magnitude else magnitude;
      if MIN_INT <= n <= MAX_INT then Some(n) else None
  }

  lemma {:induction false} NumeralDigits(n: nat)
    ensures Numeral(Digits(n)) == n
  {
    var d := [('0' as int + n % 10) as char];
    if n < 10 {
      assert d[..|d| - 1] == "";
    } else {
      NumeralDigits(n / 10);
      var s := Digits(n / 10) + d;
      assert s[..|s| - 1] == Digits(n / 10);
    }
  }

  /** Printing a 64-bit number and reading it back. */
  lemma AtoiItoa(n: int)
    requires MIN_INT <= n <= MAX_INT
    ensures Atoi(Itoa(n)) == Some(n)
  {
    if n < 0 {
      NumeralDigits(-n);
      assert Itoa(n)[1..] == Digits(-n);
    } else {
      NumeralDigits(n);
      assert IsDigit(Itoa(n)[0]);
    }
  }

  // ---- Sorting ----

  predicate Ascending(s: seq<int>) {
    forall i, j | 0 <= i < j < |s| :: s[i] <= s[j]
  }

  /** sort.Ints */
  method SortInts(s: seq<int>) returns (sorted: seq<int>)
    ensures Ascending(sorted) && |sorted| == |s| && forall x :: x in sorted <==> x in s
  {
    hide Ascending;
    sorted := [];
    assert Ascending([]) by { NothingToSort(); }
    var i := 0;
    while i < |s|
      invariant 0 <= i <= |s| == |sorted| + (|s| - i)
      invariant Ascending(sorted) && forall x :: x in sorted <==> x in s[..i]
    {
      var p := 0;
      while p < |sorted| && sorted[p] <= s[i]
        invariant 0 <= p <= |sorted|
        invariant forall q | 0 <= q < p :: sorted[q] <= s[i]
      {
        p := p + 1;
      }
      InsertedBetween(sorted, s[i], p);
      InsertedInto(sorted, s[i], p);
      assert s[..i + 1] == s[..i] + [s[i]];
      sorted := sorted[..p] + [s[i]] + sorted[p..];
      i := i + 1;
    }
    assert s[..i] == s;
  }

  lemma NothingToSort()
    ensures Ascending([])
  {
  }

  lemma InsertedBetween(s: seq<int>, x: int, p: nat)
    requires Ascending(s) && p <= |s| && (forall q | 0 <= q < p :: s[q] <= x) && (p < |s| ==> x < s[p])
    ensures Ascending(s[..p] + [x] + s[p..])
  {
    var longer := s[..p] + [x] + s[p..];
    forall i, j | 0 <= i < j < |longer| ensures longer[i] <= longer[j] {
      assert longer[i] == if i < p then s[i] else if i == p then x else s[i - 1];
      assert longer[j] == if j < p then s[j] else if j == p then x else s[j - 1];
    }
  }

  lemma InsertedInto(s: seq<int>, x: int, p: nat)
    requires p <= |s|
    ensures forall y :: y in s[..p] + [x] + s[p..] <==> y in s || y == x
  {
    assert s == s[..p] + s[p..];
  }
}
