/** The embedded corpus: length-prefixed frames fed to a hash, and the checks on
    books, marker spans and book keys. */
module Corpus {
  import opened GoStrings

  type Byte = n: int | 0 <= n < 256

  type Bytes = seq<Byte>

  // ---- Frames ----

  datatype Frame = Frame(name: Bytes, raw: Bytes)

  function Pow256(width: nat): nat {
    if width == 0 then 1 else 256 * Pow256(width - 1)
  }

  /** The low bytes of a number, most significant first. */
  function BigEndian(n: nat, width: nat): (b: Bytes)
    ensures |b| == width
  {
    if width == 0 then [] else BigEndian(n / 256, width - 1) + [n % 256]
  }

  function Number(b: Bytes): nat {
    if b == [] then 0 else Number(b[..|b| - 1]) * 256 + b[|b| - 1]
  }

  lemma {:induction false} NumberOfBigEndian(n: nat, width: nat)
    requires n < Pow256(width)
    ensures Number(BigEndian(n, width)) == n
  {
    if width > 0 {
      NumberOfBigEndian(n / 256, width - 1);
      var b := BigEndian(n, width);
      assert b[..|b| - 1] == BigEndian(n / 256, width - 1);
    }
  }

  const NAME_WIDTH := 4
  const RAW_WIDTH := 8

  function Encode(f: Frame): Bytes {
    BigEndian(|f.name|, NAME_WIDTH) + f.name + (BigEndian(|f.raw|, RAW_WIDTH) + f.raw)
  }

  function EncodeAll(frames: seq<Frame>): Bytes {
    if frames == [] then [] else Encode(frames[0]) + EncodeAll(frames[1..])
  }

  /** A hash state, as the bytes written to it. */
  class Hasher {
    var written: Bytes

    method Write(b: Bytes)
      modifies this
      ensures written == old(written) + b
    {
      written := written + b;
    }
  }

  /** Lengths are cut to 32 and 64 bits. */
  method WriteCorpusFrame(hasher: Hasher, name: Bytes, raw: Bytes)
    modifies hasher
    ensures hasher.written == old(hasher.written) + Encode(Frame(name, raw))
  {
    hide BigEndian;
    ghost var before := hasher.written;
    var nameLength := BigEndian(|name|, NAME_WIDTH);
    hasher.Write(nameLength);
    hasher.Write(name);
    var fileLength := BigEndian(|raw|, RAW_WIDTH);
    hasher.Write(fileLength);
    hasher.Write(raw);
    assert before + nameLength + name + fileLength + raw == before + (nameLength + name + (fileLength + raw));
  }

  predicate Fits(f: Frame) {
    |f.name| < Pow256(NAME_WIDTH) && |f.raw| < Pow256(RAW_WIDTH)
  }

  /** A length-prefixed field and what follows it. */
  function TakeField(b: Bytes, width: nat): Option<(Bytes, Bytes)> {
    if |b| < width || |b| - width < Number(b[..width]) then None
    else Some((b[width..width + Number(b[..width])], b[width + Number(b[..width])..]))
  }

  lemma TakeFieldOf(field: Bytes, rest: Bytes, width: nat)
    requires |field| < Pow256(width)
    ensures TakeField(BigEndian(|field|, width) + field + rest, width) == Some((field, rest))
  {
    hide BigEndian, Number;
    NumberOfBigEndian(|field|, width);
    var b := BigEndian(|field|, width) + field + rest;
    assert b[..width] == BigEndian(|field|, width);
    assert b[width..width + |field|] == field && b[width + |field|..] == rest;
  }

  function DecodeOne(b: Bytes): Option<(Frame, Bytes)> {
    var name := TakeField(b, NAME_WIDTH);
    if name.None? then None
    else
      var raw := TakeField(name.value.1, RAW_WIDTH);
      if raw.None? then None else Some((Frame(name.value.0, raw.value.0), raw.value.1))
  }

  function DecodeAll(b: Bytes): Option<seq<Frame>>
    decreases |b|
  {
    if b == [] then Some([])
    else
      var first := DecodeOne(b);
      if first.None? || |first.value.1| >= |b| then None
      else
        var rest := DecodeAll(first.value.1);
        if rest.None? then None else Some([first.value.0] + rest.value)
  }

  lemma DecodeEncode(f: Frame, rest: Bytes)
    requires Fits(f)
    ensures DecodeOne(Encode(f) + rest) == Some((f, rest)) && |Encode(f)| > 0
  {
    hide BigEndian, TakeField, Pow256;
    var tail := BigEndian(|f.raw|, RAW_WIDTH) + f.raw + rest;
    assert Encode(f) + rest == BigEndian(|f.name|, NAME_WIDTH) + f.name + tail;
    TakeFieldOf(f.name, tail, NAME_WIDTH);
    TakeFieldOf(f.raw, rest, RAW_WIDTH);
  }

  /** The decoder inverts the framing of any frames whose lengths fit. */
  lemma {:induction false} DecodeAllEncoded(frames: seq<Frame>)
    requires forall i | 0 <= i < |frames| :: Fits(frames[i])
    ensures DecodeAll(EncodeAll(frames)) == Some(frames)
  {
    hide Encode, DecodeOne, Fits;
    if frames != [] {
      DecodeEncode(frames[0], EncodeAll(frames[1..]));
      DecodeAllEncoded(frames[1..]);
      assert frames == [frames[0]] + frames[1..];
    }
  }

  /** So the bytes that are hashed determine the files, their names and their
      order. */
  lemma FramingIsInjective(a: seq<Frame>, b: seq<Frame>)
    requires (forall i | 0 <= i < |a| :: Fits(a[i])) && (forall i | 0 <= i < |b| :: Fits(b[i]))
    requires EncodeAll(a) == EncodeAll(b)
    ensures a == b
  {
    DecodeAllEncoded(a);
    DecodeAllEncoded(b);
  }

  // ---- Books ----

  type Chapter = map<string, string>
  type Book = map<string, Chapter>

  /** The decimals 1 to n. */
  function Decimals(n: nat): set<string> {
    set i | 1 <= i <= n :: Itoa(i)
  }

  lemma ItoaIsInjective(a: nat, b: nat)
    requires Itoa(a) == Itoa(b)
    ensures a == b
  {
    NumeralDigits(a);
    NumeralDigits(b);
  }

  lemma {:induction false} DecimalsAreMany(n: nat)
    ensures |Decimals(n)| == n
  {
    if n == 0 {
      assert Decimals(0) == {};
    } else {
      DecimalsAreMany(n - 1);
      hide Itoa;
      assert Itoa(n) !in Decimals(n - 1) by {
        if Itoa(n) in Decimals(n - 1) {
          var i :| 1 <= i <= n - 1 && Itoa(i) == Itoa(n);
          ItoaIsInjective(i, n);
        }
      }
      assert Decimals(n) == Decimals(n - 1) + {Itoa(n)};
    }
  }

  lemma SubsetOfSameSize(a: set<string>, b: set<string>)
    requires a <= b && |a| == |b|
    ensures a == b
  {
    if x :| x in b && x !in a {
      var rest := b - {x};
      assert a <= rest;
      SubsetIsSmaller(a, rest);
    }
  }

  /** Keys that contain all decimals up to their number are those decimals. */
  lemma KeysAreDecimals(keys: set<string>)
    ensures (forall i | 1 <= i <= |keys| :: Itoa(i) in keys) <==> keys == Decimals(|keys|)
  {
    hide Itoa;
    DecimalsAreMany(|keys|);
    if forall i | 1 <= i <= |keys| :: Itoa(i) in keys { SubsetOfSameSize(Decimals(|keys|), keys); }
  }

  predicate ValidChapter(c: Chapter) {
    c != map[] && c.Keys == Decimals(|c|) && forall v | v in c :: !Blank(c[v])
  }

  predicate ValidBook(b: Book) {
    b != map[] && b.Keys == Decimals(|b|) && forall c | c in b :: ValidChapter(b[c])
  }

  /** The number of verses of the first chapters. */
  function VersesUpTo(b: Book, n: nat): nat {
    if n == 0 then 0 else VersesUpTo(b, n - 1) + if Itoa(n) in b then |b[Itoa(n)]| else 0
  }

  datatype Counts = Invalid | Counts(chapters: nat, verses: nat)

  method ValidateChapter(chapter: Chapter) returns (valid: bool)
    ensures valid == ValidChapter(chapter)
  {
    hide Itoa, TrimSpace, Blank, Decimals;
    if |chapter| == 0 {
      return false;
    }
    KeysAreDecimals(chapter.Keys);
    var verseNumber := 1;
    while verseNumber <= |chapter|
      invariant 1 <= verseNumber <= |chapter| + 1
      invariant forall i | 1 <= i < verseNumber :: Itoa(i) in chapter && !Blank(chapter[Itoa(i)])
    {
      var verseKey := Itoa(verseNumber);
      if verseKey !in chapter || TrimSpace(chapter[verseKey]) == "" {
        return false;
      }
      verseNumber := verseNumber + 1;
    }
    DecimalKeys(chapter.Keys);
    return true;
  }

  lemma DecimalKeys(keys: set<string>)
    requires keys == Decimals(|keys|)
    ensures forall k | k in keys :: exists i :: 1 <= i <= |keys| && k == Itoa(i)
  {
    hide Itoa;
    forall k | k in keys ensures exists i :: 1 <= i <= |keys| && k == Itoa(i) {
      assert k in Decimals(|keys|);
    }
  }

  /** Accepted are exactly the books whose chapters and verses are numbered from
      one without gaps, with text in every verse. */
  method ValidateBook(chapters: Book) returns (counts: Counts)
    ensures counts.Counts? <==> ValidBook(chapters)
    ensures counts.Counts? ==> counts == Counts(|chapters|, VersesUpTo(chapters, |chapters|))
  {
    hide Itoa, ValidChapter, Decimals;
    if |chapters| == 0 {
      return Invalid;
    }
    KeysAreDecimals(chapters.Keys);
    var verses := 0;
    var chapterNumber := 1;
    while chapterNumber <= |chapters|
      invariant 1 <= chapterNumber <= |chapters| + 1
      invariant forall i | 1 <= i < chapterNumber :: Itoa(i) in chapters && ValidChapter(chapters[Itoa(i)])
      invariant verses == VersesUpTo(chapters, chapterNumber - 1)
    {
      var chapterKey := Itoa(chapterNumber);
      if chapterKey !in chapters {
        return Invalid;
      }
      var valid := ValidateChapter(chapters[chapterKey]);
      if !valid {
        return Invalid;
      }
      verses := verses + |chapters[chapterKey]|;
      chapterNumber := chapterNumber + 1;
    }
    DecimalKeys(chapters.Keys);
    return Counts(|chapters|, verses);
  }

  // ---- Marker spans ----

  datatype Span = Span(start: int, end: int)

  /** Spans lie in the text, are not empty, and come one after another. */
  predicate ValidSpans(spans: seq<Span>, length: int) {
    && (forall i | 0 <= i < |spans| :: 0 <= spans[i].start < spans[i].end <= length)
    && (forall i, j | 0 <= i < j < |spans| :: spans[i].end <= spans[j].start)
  }

  /** Comparing neighbours is enough. */
  method ValidateSpans(spans: seq<Span>, length: int) returns (valid: bool)
    ensures valid == ValidSpans(spans, length)
  {
    var previousEnd := 0;
    var index := 0;
    while index < |spans|
      invariant 0 <= index <= |spans|
      invariant ValidSpans(spans[..index], length)
      invariant previousEnd == if index > 0 then spans[index - 1].end else 0
      invariant forall i | 0 <= i < index :: spans[i].end <= previousEnd
    {
      var span := spans[index];
      if span.start < 0 || span.end <= span.start || span.end > length {
        return false;
      }
      if index > 0 && span.start < previousEnd {
        return false;
      }
      previousEnd := span.end;
      index := index + 1;
    }
    assert spans[..index] == spans;
    return true;
  }

  // ---- Book keys ----

  function Dashed(s: string): string {
    Replace(Replace(s, '_', '-'), ' ', '-')
  }

  /** strings.ReplaceAll(s, "--", "-") */
  function HalveDashes(s: string): (r: string)
    ensures |r| <= |s|
  {
    if |s| < 2 then s
    else if s[0] == '-' && s[1] == '-' then "-" + HalveDashes(s[2..])
    else [s[0]] + HalveDashes(s[1..])
  }

  predicate DoubleDash(s: string) {
    exists i | 0 <= i < |s| - 1 :: s[i] == '-' && s[i + 1] == '-'
  }

  /** Every run of dashes becomes one. */
  function Squeeze(s: string): (r: string)
    ensures s == "" <==> r == ""
    ensures s != "" ==> r[0] == s[0]
  {
    if |s| < 2 then s
    else if s[0] == '-' && s[1] == '-' then Squeeze(s[1..])
    else [s[0]] + Squeeze(s[1..])
  }

  function TrimDashes(s: string): (r: string)
    ensures r != "" ==> r[0] != '-' && r[|r| - 1] != '-'
    decreases |s|
  {
    if s != "" && s[0] == '-' then TrimDashes(s[1..])
    else if s != "" && s[|s| - 1] == '-' then TrimDashes(s[..|s| - 1])
    else s
  }

  function BookKey(value: string): string {
    TrimDashes(Squeeze(Dashed(ToLower(TrimSpace(value)))))
  }

  lemma {:induction false} HalvingKeepsSqueeze(s: string)
    ensures Squeeze(HalveDashes(s)) == Squeeze(s)
    ensures s != "" ==> HalveDashes(s) != "" && HalveDashes(s)[0] == s[0]
    decreases |s|
  {
    if |s| < 2 {
    } else if s[0] == '-' && s[1] == '-' {
      HalvingKeepsSqueeze(s[2..]);
      var rest := HalveDashes(s[2..]);
      assert ("-" + rest)[1..] == rest;
      assert s[1..][1..] == s[2..];
    } else {
      HalvingKeepsSqueeze(s[1..]);
      var rest := HalveDashes(s[1..]);
      assert ([s[0]] + rest)[1..] == rest;
    }
  }

  lemma {:induction false} HalvingShrinks(s: string)
    requires DoubleDash(s)
    ensures |HalveDashes(s)| < |s|
    decreases |s|
  {
    if !(s[0] == '-' && s[1] == '-') {
      var i :| 0 <= i < |s| - 1 && s[i] == '-' && s[i + 1] == '-';
      assert s[1..][i - 1] == '-' && s[1..][i] == '-';
      HalvingShrinks(s[1..]);
    }
  }

  lemma {:induction false} SqueezedAlready(s: string)
    ensures Squeeze(s) == s <==> !DoubleDash(s)
    ensures !DoubleDash(Squeeze(s)) && |Squeeze(s)| <= |s|
  {
    if |s| >= 2 {
      SqueezedAlready(s[1..]);
      var rest := Squeeze(s[1..]);
      if DoubleDash(s[1..]) {
        var i :| 0 <= i < |s[1..]| - 1 && s[1..][i] == '-' && s[1..][i + 1] == '-';
        assert s[i + 1] == '-' && s[i + 2] == '-';
      }
      if DoubleDash(s) && !(s[0] == '-' && s[1] == '-') {
        var i :| 0 <= i < |s| - 1 && s[i] == '-' && s[i + 1] == '-';
        assert s[1..][i - 1] == '-' && s[1..][i] == '-';
      }
      if !(s[0] == '-' && s[1] == '-') {
        var r := [s[0]] + rest;
        assert r[1..] == rest && rest[0] == s[1];
        forall i | 0 <= i < |r| - 1 ensures !(r[i] == '-' && r[i + 1] == '-') {
          if i > 0 { assert r[i] == rest[i - 1] && r[i + 1] == rest[i]; }
        }
      }
    }
  }

  /** The loop over "--" squeezes every run of dashes. */
  method NormalizeBookKey(value: string) returns (key: string)
    ensures key == BookKey(value)
  {
    hide TrimSpace, ToLower, Dashed, TrimDashes, Squeeze, HalveDashes;
    key := Dashed(ToLower(TrimSpace(value)));
    while DoubleDash(key)
      invariant Squeeze(key) == Squeeze(Dashed(ToLower(TrimSpace(value))))
      decreases |key|
    {
      HalvingKeepsSqueeze(key);
      HalvingShrinks(key);
      key := HalveDashes(key);
    }
    SqueezedAlready(key);
    key := TrimDashes(key);
  }

  predicate IsKeyChar(c: char) {
    !('A' <= c <= 'Z') && c != '_' && c != ' '
  }

  predicate KeyShaped(s: string) {
    && (forall i | 0 <= i < |s| :: IsKeyChar(s[i]))
    && !DoubleDash(s)
    && (s != "" ==> s[0] != '-' && s[|s| - 1] != '-')
  }

  lemma {:induction false} SqueezeKeepsChars(s: string)
    ensures forall c | c in Squeeze(s) :: c in s
  {
    if |s| >= 2 {
      SqueezeKeepsChars(s[1..]);
      assert forall c | c in s[1..] :: c in s;
    }
  }

  lemma {:induction false} TrimDashesIsPart(s: string)
    ensures exists lo, hi :: 0 <= lo <= hi <= |s| && TrimDashes(s) == s[lo..hi]
    decreases |s|
  {
    if s != "" && s[0] == '-' {
      TrimDashesIsPart(s[1..]);
      var lo, hi :| 0 <= lo <= hi <= |s[1..]| && TrimDashes(s[1..]) == s[1..][lo..hi];
      assert s[1..][lo..hi] == s[lo + 1..hi + 1];
    } else if s != "" && s[|s| - 1] == '-' {
      TrimDashesIsPart(s[..|s| - 1]);
      var lo, hi :| 0 <= lo <= hi <= |s[..|s| - 1]| && TrimDashes(s[..|s| - 1]) == s[..|s| - 1][lo..hi];
      assert s[..|s| - 1][lo..hi] == s[lo..hi];
    } else {
      assert s == s[0..|s|];
    }
  }

  /** A key has no capitals, underscores or spaces, no two dashes in a row and
      none at its ends. */
  lemma BookKeyIsShaped(value: string)
    ensures KeyShaped(BookKey(value))
  {
    hide TrimSpace, Squeeze, TrimDashes;
    var dashed := Dashed(ToLower(TrimSpace(value)));
    DashedIsPlain(TrimSpace(value));
    var squeezed := Squeeze(dashed);
    SqueezeKeepsChars(dashed);
    SqueezedAlready(dashed);
    TrimDashesIsPart(squeezed);
    var lo, hi :| 0 <= lo <= hi <= |squeezed| && TrimDashes(squeezed) == squeezed[lo..hi];
    var key := squeezed[lo..hi];
    forall i | 0 <= i < |key| ensures IsKeyChar(key[i]) {
      assert key[i] in squeezed;
      assert key[i] in dashed;
    }
    forall i | 0 <= i < |key| - 1 ensures !(key[i] == '-' && key[i + 1] == '-') {
      assert key[i] == squeezed[lo + i] && key[i + 1] == squeezed[lo + i + 1];
    }
  }

  lemma DashedIsPlain(s: string)
    ensures forall c | c in Dashed(ToLower(s)) :: IsKeyChar(c)
  {
  }

  // ---- Normalising twice ----

  /** The characters that end up as dashes. */
  predicate IsDashLike(c: char) {
    c == '-' || c == '_' || c == ' '
  }

  /** What is left of a key when those are taken off both its ends. */
  function Core(s: string): string
    decreases |s|
  {
    if s != "" && IsDashLike(s[0]) then Core(s[1..])
    else if s != "" && IsDashLike(s[|s| - 1]) then Core(s[..|s| - 1])
    else s
  }

  predicate SolidEnds(s: string) {
    s != "" ==> !IsSpace(s[0]) && !IsSpace(s[|s| - 1])
  }

  lemma DashedParts(s: string)
    requires s != ""
    ensures var t := Dashed(ToLower(s));
            && t[1..] == Dashed(ToLower(s[1..])) && t[..|t| - 1] == Dashed(ToLower(s[..|s| - 1]))
            && (t[0] == '-' <==> IsDashLike(s[0])) && (t[|t| - 1] == '-' <==> IsDashLike(s[|s| - 1]))
  {
  }

  lemma {:induction false} CoreIsTrimmed(s: string)
    ensures TrimDashes(Dashed(ToLower(s))) == Dashed(ToLower(Core(s)))
    decreases |s|
  {
    hide ToLower, Dashed, IsDashLike;
    if s != "" {
      DashedParts(s);
      assert |Dashed(ToLower(s))| == |s| by { DashedLength(s); }
      if IsDashLike(s[0]) {
        CoreIsTrimmed(s[1..]);
      } else if IsDashLike(s[|s| - 1]) {
        CoreIsTrimmed(s[..|s| - 1]);
      }
    } else {
      DashedLength(s);
    }
  }

  lemma DashedLength(s: string)
    ensures |Dashed(ToLower(s))| == |s|
  {
  }

  lemma {:induction false} SqueezeSnocDash(s: string)
    requires s != ""
    ensures Squeeze(s + "-") == if s[|s| - 1] == '-' then Squeeze(s) else Squeeze(s) + "-"
    ensures Squeeze(s)[|Squeeze(s)| - 1] == s[|s| - 1]
  {
    if |s| == 1 {
      assert (s + "-")[1..] == "-";
    } else {
      SqueezeSnocDash(s[1..]);
      assert (s + "-")[1..] == s[1..] + "-";
    }
  }

  lemma TrimSnocDash(s: string)
    ensures s == "" || s[0] != '-' ==> TrimDashes(s + "-") == TrimDashes(s)
  {
    assert (s + "-")[..|s|] == s;
  }

  /** Trimming and squeezing dashes commute. */
  lemma {:induction false} TrimThenSqueeze(s: string)
    ensures TrimDashes(Squeeze(s)) == Squeeze(TrimDashes(s))
    decreases |s|
  {
    if s == "" {
    } else if s[0] == '-' {
      TrimThenSqueeze(s[1..]);
      if |s| > 1 && s[1] != '-' {
        assert Squeeze(s)[1..] == Squeeze(s[1..]);
      }
    } else if s[|s| - 1] == '-' {
      var init := s[..|s| - 1];
      assert s == init + "-";
      TrimThenSqueeze(init);
      SqueezeSnocDash(init);
      TrimSnocDash(Squeeze(init));
    } else {
      SqueezeSnocDash(s);
    }
  }

  /** So a key has the ends of the core of its text, in lower case. */
  lemma KeyHasCoreEnds(value: string)
    ensures SolidEnds(BookKey(value)) <==> SolidEnds(Core(TrimSpace(value)))
  {
    hide TrimSpace, Squeeze, TrimDashes;
    var s := TrimSpace(value);
    var core := Core(s);
    var t := Dashed(ToLower(core));
    CoreIsTrimmed(s);
    TrimThenSqueeze(Dashed(ToLower(s)));
    assert BookKey(value) == Squeeze(t);
    if core != "" {
      CoreEnds(s);
      SqueezeSnocDash(t);
      LowerKeepsSpaces(core[0]);
      LowerKeepsSpaces(core[|core| - 1]);
    }
  }

  lemma {:induction false} CoreEnds(s: string)
    ensures Core(s) != "" ==> !IsDashLike(Core(s)[0]) && !IsDashLike(Core(s)[|Core(s)| - 1])
    decreases |s|
  {
    if s != "" && IsDashLike(s[0]) {
      CoreEnds(s[1..]);
    } else if s != "" && IsDashLike(s[|s| - 1]) {
      CoreEnds(s[..|s| - 1]);
    }
  }

  lemma LowerKeepsSpaces(c: char)
    requires !IsDashLike(c)
    ensures IsSpace(Dashed(ToLower([c]))[0]) <==> IsSpace(c)
  {
  }

  lemma SolidIsTrimmed(s: string)
    ensures TrimSpace(s) == s <==> SolidEnds(s)
  {
    if SolidEnds(s) {
      TrimSpaceOfTrimmed(s);
    } else {
      hide IsSpace;
      assert TrimLeft(s) != "" ==> !IsSpace(TrimLeft(s)[0]);
      assert TrimSpace(s) <= TrimLeft(s);
    }
  }

  /** Normalising a key again changes nothing exactly when the text, without the
      dashes, underscores and spaces at its ends, is empty or has no other white
      space there. */
  lemma NormalizingTwice(value: string)
    ensures BookKey(BookKey(value)) == BookKey(value) <==> SolidEnds(Core(TrimSpace(value)))
  {
    hide TrimSpace, Squeeze, TrimDashes, BookKey, SolidEnds, Core;
    var key := BookKey(value);
    KeyHasCoreEnds(value);
    SolidIsTrimmed(key);
    BookKeyIsShaped(value);
    if TrimSpace(key) == key {
      ShapedIsKept(key);
    } else {
      TrimmedIsShorter(key);
      KeyIsNoLonger(key);
    }
  }

  lemma ShapedIsKept(key: string)
    requires KeyShaped(key) && TrimSpace(key) == key
    ensures BookKey(key) == key
  {
    hide TrimSpace;
    assert Dashed(ToLower(key)) == key;
    SqueezedAlready(key);
  }

  lemma TrimmedIsShorter(s: string)
    ensures TrimSpace(s) == s || |TrimSpace(s)| < |s|
  {
    hide TrimLeft, TrimRight;
    var l := TrimLeft(s);
    assert TrimRight(l) <= l;
    assert |l| == |s| ==> l == s;
  }

  lemma KeyIsNoLonger(value: string)
    ensures |BookKey(value)| <= |TrimSpace(value)|
  {
    hide TrimSpace, Squeeze, TrimDashes;
    var dashed := Dashed(ToLower(TrimSpace(value)));
    SqueezedAlready(dashed);
    TrimDashesIsPart(Squeeze(dashed));
  }

  /** Then it does: any other white space between dashes is a key the first time
      only. */
  lemma SpaceBetweenDashes(c: char)
    requires IsSpace(c) && IsKeyChar(c)
    ensures BookKey(['-', c, '-']) == [c] && BookKey([c]) == ""
  {
    hide TrimSpace, TrimDashes, Squeeze, Dashed, ToLower, IsSpace, IsKeyChar;
    KeptBetweenDashes(c);
    DashesComeOff(c);
    assert Blank([c]);
    NothingLeft();
  }

  lemma KeptBetweenDashes(c: char)
    requires IsSpace(c) && IsKeyChar(c)
    ensures var s := ['-', c, '-']; TrimSpace(s) == s && Dashed(ToLower(s)) == s && Squeeze(s) == s && c != '-'
  {
    hide TrimSpace, TrimLeft, TrimRight;
    var s := ['-', c, '-'];
    assert !IsSpace('-') && c != '-';
    TrimSpaceOfTrimmed(s);
    hide IsSpace, Squeeze;
    assert ToLower(s) == s && Dashed(s) == s;
    SqueezedAlready(s);
  }

  lemma DashesComeOff(c: char)
    requires c != '-'
    ensures TrimDashes(['-', c, '-']) == [c]
  {
    assert ['-', c, '-'][1..] == [c, '-'] && [c, '-'][..1] == [c];
    assert TrimDashes([c]) == [c];
    assert TrimDashes([c, '-']) == [c];
  }

  lemma NothingLeft()
    ensures TrimDashes(Squeeze(Dashed(ToLower("")))) == ""
  {
  }
}
