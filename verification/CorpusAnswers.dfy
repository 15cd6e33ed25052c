/** The bytes of a frame, the verses of a book and the words of a book key. */
module CorpusAnswers {
  import opened GoStrings
  import opened Corpus

  // ---- Frames ----

  lemma NumberSnoc(b: Bytes, last: Byte)
    ensures Number(b + [last]) == Number(b) * 256 + last
  {
    assert (b + [last])[..|b|] == b;
  }

  /** Four bytes from there on, the highest first. */
  function Four(b: Bytes, at: nat): int
    requires at + 4 <= |b|
  {
    16777216 * (b[at] as int) + 65536 * (b[at + 1] as int) + 256 * (b[at + 2] as int) + (b[at + 3] as int)
  }

  lemma NumberOf4(b: Bytes)
    requires |b| == 4
    ensures Number(b) == Four(b, 0)
  {
    hide Number;
    assert Number([]) == 0 by { NumberOfNone(); }
    NumberSnoc([], b[0]);
    NumberSnoc([b[0]], b[1]);
    NumberSnoc([b[0], b[1]], b[2]);
    NumberSnoc([b[0], b[1], b[2]], b[3]);
    assert [] + [b[0]] == [b[0]] && [b[0]] + [b[1]] == [b[0], b[1]] && [b[0], b[1]] + [b[2]] == [b[0], b[1], b[2]];
    assert b == [b[0], b[1], b[2]] + [b[3]];
  }

  lemma NumberOfNone()
    ensures Number([]) == 0
  {
  }

  lemma {:induction false} NumberAppend(a: Bytes, b: Bytes)
    ensures Number(a + b) == Number(a) * Pow256(|b|) + Number(b)
    decreases |b|
  {
    if b == [] {
      assert a + b == a;
    } else {
      var init, last := b[..|b| - 1], b[|b| - 1];
      NumberAppend(a, init);
      NumberSnoc(a + init, last);
      NumberSnoc(init, last);
      assert a + b == a + init + [last] && b == init + [last];
      ScaledSum(Number(a), Pow256(|init|), Number(init));
    }
  }

  lemma ScaledSum(n: nat, p: nat, m: nat)
    ensures (n * p + m) * 256 == n * (256 * p) + m * 256
  {
  }

  /** The bytes of a frame: four for the length of the name, the highest first, the name,
      eight for the length of the file, the highest first, and the file. */
  lemma FrameLayout(f: Frame)
    requires Fits(f)
    ensures var b, n := Encode(f), |f.name|;
            && |b| == 4 + n + 8 + |f.raw|
            && Four(b, 0) == n && b[4..4 + n] == f.name
            && Four(b, 4 + n) * 4294967296 + Four(b, 8 + n) == |f.raw|
            && b[12 + n..] == f.raw
  {
    hide BigEndian, Number, Pow256;
    var b, n := Encode(f), |f.name|;
    var head, tail := BigEndian(n, 4), BigEndian(|f.raw|, 8);
    NumberOfBigEndian(n, 4);
    NumberOfBigEndian(|f.raw|, 8);
    assert b == head + f.name + (tail + f.raw);
    NumberOf4(head);
    assert tail == tail[..4] + tail[4..];
    NumberAppend(tail[..4], tail[4..]);
    NumberOf4(tail[..4]);
    NumberOf4(tail[4..]);
    FourBytes();
    assert b[4 + n..12 + n] == tail;
    assert forall i | 0 <= i < 8 :: b[4 + n + i] == tail[i];
  }

  lemma FourBytes()
    ensures Pow256(4) == 4294967296
  {
    assert Pow256(1) == 256 && Pow256(2) == 65536 && Pow256(3) == 16777216;
  }

  // ---- Books ----

  /** The verses of the first chapters, each by its chapter and its own key. */
  function VersesIn(b: Book, n: nat): set<(string, string)> {
    set i, v | 1 <= i <= n && Itoa(i) in b && v in b[Itoa(i)] :: (Itoa(i), v)
  }

  function Keyed(c: string, verses: set<string>): set<(string, string)> {
    set v | v in verses :: (c, v)
  }

  lemma {:induction false} KeyedAreMany(c: string, verses: set<string>)
    ensures |Keyed(c, verses)| == |verses|
    decreases |verses|
  {
    if verses == {} {
      assert Keyed(c, verses) == {};
    } else {
      var v := Element(verses);
      KeyedAreMany(c, verses - {v});
      assert Keyed(c, verses) == Keyed(c, verses - {v}) + {(c, v)};
    }
  }

  /** The number of verses that is returned counts every verse of every chapter once. */
  lemma {:induction false} VersesAreCounted(b: Book, n: nat)
    ensures VersesUpTo(b, n) == |VersesIn(b, n)|
  {
    hide Itoa;
    if n == 0 {
      assert VersesIn(b, 0) == {};
    } else {
      VersesAreCounted(b, n - 1);
      if Itoa(n) in b { OneMoreChapter(b, n); } else { assert VersesIn(b, n) == VersesIn(b, n - 1); }
    }
  }

  lemma OneMoreChapter(b: Book, n: nat)
    requires n > 0 && Itoa(n) in b
    ensures |VersesIn(b, n)| == |VersesIn(b, n - 1)| + |b[Itoa(n)]|
  {
    hide Itoa;
    var c := Itoa(n);
    var before, more := VersesIn(b, n - 1), Keyed(c, b[c].Keys);
    KeyedAreMany(c, b[c].Keys);
    assert VersesIn(b, n) == before + more;
    assert before !! more by { Apart(b, n); }
  }

  lemma Apart(b: Book, n: nat)
    requires n > 0 && Itoa(n) in b
    ensures VersesIn(b, n - 1) !! Keyed(Itoa(n), b[Itoa(n)].Keys)
  {
    hide Itoa;
    forall p | p in VersesIn(b, n - 1) ensures p.0 != Itoa(n) {
      var i :| 1 <= i <= n - 1 && Itoa(i) == p.0;
      if Itoa(i) == Itoa(n) { ItoaIsInjective(i, n); }
    }
  }

  // ---- Book keys ----

  function NonEmpty(parts: seq<string>): seq<string> {
    if parts == [] then [] else (if parts[0] == "" then [] else [parts[0]]) + NonEmpty(parts[1..])
  }

  lemma {:induction false} NonEmptyAppend(a: seq<string>, b: seq<string>)
    ensures NonEmpty(a + b) == NonEmpty(a) + NonEmpty(b)
  {
    if a == [] {
      assert a + b == b;
    } else {
      assert (a + b)[1..] == a[1..] + b;
      NonEmptyAppend(a[1..], b);
    }
  }

  /** The words between dashes. */
  function Words(s: string): seq<string> {
    NonEmpty(Split(s, '-'))
  }

  lemma WordsAfterDash(s: string)
    requires s != "" && s[0] == '-'
    ensures Words(s) == Words(s[1..]) && Split(s, '-')[0] == "" && Split(s, '-')[1..] == Split(s[1..], '-')
  {
    assert ([""] + Split(s[1..], '-'))[1..] == Split(s[1..], '-');
  }

  /** Squeezing keeps the first part and the words behind it. */
  lemma {:induction false} SqueezeKeepsWords(s: string)
    ensures var parts, squeezed := Split(s, '-'), Split(Squeeze(s), '-');
            squeezed[0] == parts[0] && NonEmpty(squeezed[1..]) == NonEmpty(parts[1..])
  {
    if |s| >= 2 {
      SqueezeKeepsWords(s[1..]);
      var rest := Squeeze(s[1..]);
      if s[0] == '-' && s[1] == '-' {
        WordsAfterDash(s);
        WordsAfterDash(s[1..]);
        assert rest[0] == '-';
        WordsAfterDash(rest);
      } else {
        var r := [s[0]] + rest;
        assert r[1..] == rest;
        SplitCons(s[0], rest, '-');
        SplitCons(s[0], s[1..], '-');
        assert s == [s[0]] + s[1..];
        WholeWords(Split(rest, '-'), Split(s[1..], '-'), s[0]);
      }
    }
  }

  lemma WholeWords(a: seq<string>, b: seq<string>, c: char)
    requires a != [] && b != [] && a[0] == b[0] && NonEmpty(a[1..]) == NonEmpty(b[1..])
    ensures var p, q := ConsParts(c, a, '-'), ConsParts(c, b, '-'); p[0] == q[0] && NonEmpty(p[1..]) == NonEmpty(q[1..])
  {
    if c == '-' {
      assert ([""] + a)[1..] == a && ([""] + b)[1..] == b;
    } else {
      assert ([[c] + a[0]] + a[1..])[1..] == a[1..] && ([[c] + b[0]] + b[1..])[1..] == b[1..];
    }
  }

  lemma SameWords(a: seq<string>, b: seq<string>)
    requires a != [] && b != [] && a[0] == b[0] && NonEmpty(a[1..]) == NonEmpty(b[1..])
    ensures NonEmpty(a) == NonEmpty(b)
  {
  }

  lemma {:induction false} TrimKeepsWords(s: string)
    ensures Words(TrimDashes(s)) == Words(s)
    decreases |s|
  {
    hide Split, NonEmpty;
    if s != "" && s[0] == '-' {
      WordsAfterDash(s);
      TrimKeepsWords(s[1..]);
    } else if s != "" && s[|s| - 1] == '-' {
      var init := s[..|s| - 1];
      TrimKeepsWords(init);
      LastDash(init);
      assert s == init + "-";
    }
  }

  lemma LastDash(s: string)
    ensures Words(s + "-") == Words(s)
  {
    SplitTwo(s, "", '-');
    assert s + ['-'] + "" == s + "-";
    SplitWord("", '-');
    NonEmptyAppend(Split(s, '-'), [""]);
    assert NonEmpty([""]) == [] by { assert [""][1..] == []; }
  }

  /** A text without double dashes or dashes at its ends has no empty part. */
  lemma {:induction false} NoEmptyParts(s: string)
    requires s != "" && !DoubleDash(s) && s[|s| - 1] != '-'
    ensures var parts := Split(s, '-'); (parts[0] == "" <==> s[0] == '-') && forall i | 1 <= i < |parts| ::
            parts[i] != ""
  {
    if |s| == 1 {
      assert s[1..] == "";
    } else {
      NoDoubleBehind(s);
      NoEmptyParts(s[1..]);
    }
  }

  lemma NoDoubleBehind(s: string)
    requires |s| >= 2 && !DoubleDash(s)
    ensures !DoubleDash(s[1..]) && !(s[0] == '-' && s[1] == '-')
  {
    assert forall i | 0 <= i < |s| - 1 :: s[1..][i] == s[i + 1];
  }

  lemma {:induction false} AllNonEmpty(parts: seq<string>)
    requires forall i | 0 <= i < |parts| :: parts[i] != ""
    ensures NonEmpty(parts) == parts
  {
    if parts != [] {
      AllNonEmpty(parts[1..]);
      assert parts == [parts[0]] + parts[1..];
    }
  }

  /** A book key is the words of its text, cut at dashes, underscores and spaces, in
      lower case and joined by single dashes. */
  lemma KeyIsWords(value: string)
    ensures BookKey(value) == Join(Words(Dashed(ToLower(TrimSpace(value)))), '-')
  {
    var dashed := Dashed(ToLower(TrimSpace(value)));
    var squeezed, key := Squeeze(dashed), BookKey(value);
    assert key == TrimDashes(squeezed);
    hide BookKey, Squeeze, TrimDashes, Dashed, TrimSpace, ToLower, Split, NonEmpty;
    SqueezeKeepsWords(dashed);
    SameWords(Split(squeezed, '-'), Split(dashed, '-'));
    TrimKeepsWords(squeezed);
    BookKeyIsShaped(value);
    if key == "" { EmptyKey(); } else { KeyOfWords(key); }
  }

  lemma KeyOfWords(key: string)
    requires KeyShaped(key) && key != ""
    ensures Join(Words(key), '-') == key
  {
    hide Split, NonEmpty, KeyShaped;
    ShapedEnds(key);
    NoEmptyParts(key);
    AllNonEmpty(Split(key, '-'));
    JoinSplit(key, '-');
  }

  lemma EmptyKey()
    ensures Join(Words(""), '-') == ""
  {
    assert Split("", '-') == [""];
    assert NonEmpty([""]) == [] by { assert [""][1..] == []; }
  }

  lemma ShapedEnds(key: string)
    requires KeyShaped(key) && key != ""
    ensures !DoubleDash(key) && key[0] != '-' && key[|key| - 1] != '-'
  {
  }
}
