/** parseVersion (internal/pgxexporter/postgres_exporter.go): the short version of a banner. */
module VersionParsing {
  import opened Wrappers
  import opened Text
  import opened Versions

  const UINT64_LIMIT: nat := 0x1_0000_0000_0000_0000

  // The groups `(\.\d+)?` after the major number.
  const OPTIONAL_GROUPS: nat := 2

  datatype VersionError = NoVersion | LeadingZero | NotANumber | OutOfRange

  /** How many leading characters of `s` satisfy `p`: what a greedy `+` takes. */
  function Span(p: char -> bool, s: string): (n: nat)
    ensures n <= |s| && (forall i | 0 <= i < n :: p(s[i])) && (n < |s| ==> !p(s[n]))
  {
    if s != "" && p(s[0]) then 1 + Span(p, s[1..]) else 0
  }

  /** How much of `s` the group `(\.\d+)?` takes. */
  function Component(s: string): (n: nat)
    ensures n <= |s|
  {
    if s != "" && s[0] == '.' && Span(IsDigit, s[1..]) > 0 then 1 + Span(IsDigit, s[1..]) else 0
  }

  /** How much `k` such groups in a row take. */
  function Components(s: string, k: nat): (n: nat)
    ensures n <= |s|
  {
    if k == 0 then 0 else var c := Component(s); c + Components(s[c..], k - 1)
  }

  /** What the group `((\d+)(\.\d+)?(\.\d+)?)` takes. */
  function Numbers(rest: string): Option<string> {
    var major := Span(IsDigit, rest);
    if major == 0 then None else Some(rest[..major + Components(rest[major..], OPTIONAL_GROUPS)])
  }

  /** The first group of `^\w+ ((\d+)(\.\d+)?(\.\d+)?)`. */
  function FindSubmatch(s: string): Option<string> {
    var word := Span(IsWordChar, s);
    if word == 0 || word == |s| || s[word] != ' ' then None else Numbers(s[word + 1..])
  }

  function ParseNumeral(p: string): Result<nat, VersionError> {
    if !Digits(p) then Err(NotANumber)
    else if |p| > 1 && p[0] == '0' then Err(LeadingZero)
    else if Value(p) >= UINT64_LIMIT then Err(OutOfRange)
    else Ok(Value(p))
  }

  function Pad(parts: seq<string>): seq<string>
    decreases 3 - |parts|
  {
    if |parts| < 3 then Pad(parts + ["0"]) else parts
  }

  /** semver.ParseTolerant on a short version: missing components are zero. */
  function ParseTolerant(s: string): Result<Version, VersionError> {
    var parts := Pad(Split(s, '.'));
    if |parts| != 3 then Err(NotANumber)
    else
      match (ParseNumeral(parts[0]), ParseNumeral(parts[1]), ParseNumeral(parts[2]))
      case (Ok(a), Ok(b), Ok(c)) => Ok(Version(a, b, c))
      case (Err(e), _, _) => Err(e)
      case (_, Err(e), _) => Err(e)
      case (_, _, Err(e)) => Err(e)
  }

  function ParseVersion(s: string): Result<Version, VersionError> {
    match FindSubmatch(s)
    case None => Err(NoVersion)
    case Some(m) => ParseTolerant(m)
  }

  // ---- The grammar the regular expression stands for ----

  /** `tail` does not lengthen a match of `n` components. */
  ghost predicate Ends(tail: string, n: nat) {
    && !(|tail| > 0 && '0' <= tail[0] <= '9')
    && (n < 3 ==> !(|tail| > 1 && tail[0] == '.' && '0' <= tail[1] <= '9'))
  }

  /** `s` is a product word, a blank, up to three dotted numbers, and a rest that adds nothing to them. */
  ghost predicate Reads(s: string, word: string, parts: seq<string>, tail: string) {
    && word != "" && (forall c | c in word :: 'a' <= c <= 'z' || 'A' <= c <= 'Z' || '0' <= c <= '9' || c == '_')
    && 1 <= |parts| <= 3 && (forall p | p in parts :: p != "" && forall c | c in p :: '0' <= c <= '9')
    && Ends(tail, |parts|)
    && s == word + " " + Join(parts, '.') + tail
  }

  lemma ReadsInClasses(s: string, word: string, parts: seq<string>, tail: string)
    requires Reads(s, word, parts, tail)
    ensures forall i | 0 <= i < |word| :: IsWordChar(word[i])
    ensures forall p | p in parts :: Digits(p)
  {
    assert forall i | 0 <= i < |word| :: word[i] in word;
    forall p | p in parts ensures Digits(p) {
      assert forall i | 0 <= i < |p| :: p[i] in p;
    }
  }

  lemma {:induction false} SpanOfPrefix(p: char -> bool, a: string, b: string)
    requires forall i | 0 <= i < |a| :: p(a[i])
    requires b != "" ==> !p(b[0])
    ensures Span(p, a + b) == |a|
  {
    if a == "" {
      assert a + b == b;
    } else {
      assert (a + b)[1..] == a[1..] + b;
      SpanOfPrefix(p, a[1..], b);
    }
  }

  lemma ComponentOf(p: string, rest: string)
    requires Digits(p) && (rest != "" ==> !IsDigit(rest[0]))
    ensures Component("." + p + rest) == 1 + |p|
  {
    assert ("." + p + rest)[1..] == p + rest;
    SpanOfPrefix(IsDigit, p, rest);
  }

  /** The text `k` groups match when the numbers are `parts`. */
  function Dotted(parts: seq<string>): string {
    if parts == [] then "" else "." + parts[0] + Dotted(parts[1..])
  }

  lemma {:induction false} JoinIsDotted(parts: seq<string>)
    requires parts != []
    ensures Join(parts, '.') == parts[0] + Dotted(parts[1..])
  {
    if |parts| > 1 {
      JoinIsDotted(parts[1..]);
    } else {
      assert parts[0] + "" == parts[0];
    }
  }

  /** A group takes a leading component and leaves the rest to the other groups. */
  lemma ComponentsCons(p: string, rest: string, k: nat)
    requires Digits(p) && (rest != "" ==> !IsDigit(rest[0])) && k > 0
    ensures Components("." + p + rest, k) == 1 + |p| + Components(rest, k - 1)
  {
    ComponentOf(p, rest);
    assert ("." + p + rest)[1 + |p|..] == rest;
  }

  lemma ComponentsNone(tail: string, k: nat)
    requires k <= 2 && Ends(tail, 3 - k)
    ensures Components(tail, k) == 0
  {
    if k > 0 {
      assert |tail| > 1 ==> tail[1..][0] == tail[1];
      assert Component(tail) == 0 && tail[0..] == tail;
      ComponentsNone(tail, k - 1);
    }
  }

  lemma DottedThen(parts: seq<string>, tail: string)
    requires parts != []
    ensures Dotted(parts) + tail == "." + parts[0] + (Dotted(parts[1..]) + tail)
  {
    Pieces("." + parts[0], Dotted(parts[1..]), tail);
  }

  lemma DottedStart(parts: seq<string>, tail: string)
    requires tail != "" ==> !IsDigit(tail[0])
    ensures Dotted(parts) + tail != "" ==> !IsDigit((Dotted(parts) + tail)[0])
  {
    if parts == [] {
      assert Dotted(parts) + tail == tail;
    }
  }

  lemma {:induction false} ComponentsAreComplete(parts: seq<string>, tail: string, k: nat)
    requires |parts| <= k <= 2 && (forall p | p in parts :: Digits(p)) && Ends(tail, 3 - k + |parts|)
    ensures Components(Dotted(parts) + tail, k) == |Dotted(parts)|
  {
    if parts == [] {
      assert Dotted(parts) + tail == tail;
      ComponentsNone(tail, k);
    } else {
      assert parts[0] in parts;
      DottedThen(parts, tail);
      DottedStart(parts[1..], tail);
      ComponentsCons(parts[0], Dotted(parts[1..]) + tail, k);
      ComponentsAreComplete(parts[1..], tail, k - 1);
    }
  }

  lemma {:induction false} ComponentsAreSound(s: string, k: nat) returns (parts: seq<string>, tail: string)
    requires k <= 2 && (s != "" ==> !IsDigit(s[0]))
    ensures |parts| <= k && (forall p | p in parts :: Digits(p)) && Ends(tail, 3 - k + |parts|)
    ensures s == Dotted(parts) + tail && Components(s, k) == |Dotted(parts)|
  {
    if k == 0 || Component(s) == 0 {
      parts, tail := [], s;
      NothingTaken(s, k);
    } else {
      var c := Component(s);
      AfterComponent(s);
      var others;
      others, tail := ComponentsAreSound(s[c..], k - 1);
      parts := [s[1..c]] + others;
      DottedCons(s, c, others, tail);
    }
  }

  lemma NothingTaken(s: string, k: nat)
    requires k <= 2 && (s != "" ==> !IsDigit(s[0])) && (k == 0 || Component(s) == 0)
    ensures Ends(s, 3 - k) && Components(s, k) == 0 && s == Dotted([]) + s
  {
    assert Dotted([]) + s == s;
    if k > 0 {
      assert |s| > 1 ==> s[1..][0] == s[1];
    }
    ComponentsNone(s, k);
  }

  lemma DottedCons(s: string, c: nat, others: seq<string>, tail: string)
    requires 1 <= c <= |s| && s[0] == '.' && s[c..] == Dotted(others) + tail
    ensures Dotted([s[1..c]] + others) == "." + s[1..c] + Dotted(others)
    ensures s == Dotted([s[1..c]] + others) + tail
  {
    assert ([s[1..c]] + others)[1..] == others;
    Halves(s, 1, c);
    Pieces("." + s[1..c], Dotted(others), tail);
  }

  lemma AfterComponent(s: string)
    requires Component(s) > 0
    ensures var c := Component(s);
            && s[0] == '.' && 1 < c <= |s| && Digits(s[1..c])
            && (s[c..] != "" ==> !IsDigit(s[c..][0]))
  {
    var c := Component(s);
    assert c == 1 + Span(IsDigit, s[1..]);
    assert s[1..c] == s[1..][..c - 1];
    assert c < |s| ==> s[c..][0] == s[1..][c - 1];
  }

  /** The major number is the leading digits `a`, and the other groups take `b`. */
  lemma NumbersOf(a: string, b: string, c: string)
    requires a != "" && Span(IsDigit, a + (b + c)) == |a| && Components(b + c, OPTIONAL_GROUPS) == |b|
    ensures Numbers(a + (b + c)) == Some(a + b)
  {
    var s := a + (b + c);
    Pieces(a, b, c);
    var rest := s[|a|..];
    assert rest == b + c;
    assert Numbers(s) == Some(s[..|a| + Components(rest, OPTIONAL_GROUPS)]);
  }

  lemma NumbersAreComplete(parts: seq<string>, tail: string)
    requires 1 <= |parts| <= 3 && (forall p | p in parts :: Digits(p)) && Ends(tail, |parts|)
    ensures Numbers(Join(parts, '.') + tail) == Some(Join(parts, '.'))
  {
    var first, dotted := parts[0], Dotted(parts[1..]);
    assert Digits(first);
    DottedStart(parts[1..], tail);
    ComponentsAreComplete(parts[1..], tail, OPTIONAL_GROUPS);
    SpanOfPrefix(IsDigit, first, dotted + tail);
    NumbersOf(first, dotted, tail);
    Pieces(first, dotted, tail);
    JoinIsDotted(parts);
  }

  lemma NumbersAreSound(rest: string) returns (parts: seq<string>, tail: string)
    requires Numbers(rest).Some?
    ensures 1 <= |parts| <= 3 && (forall p | p in parts :: Digits(p)) && Ends(tail, |parts|)
    ensures rest == Join(parts, '.') + tail && Numbers(rest).value == Join(parts, '.')
  {
    var n := Span(IsDigit, rest);
    var others;
    others, tail := ComponentsAreSound(rest[n..], OPTIONAL_GROUPS);
    parts := [rest[..n]] + others;
    assert Digits(rest[..n]);
    assert parts[1..] == others;
    JoinIsDotted(parts);
    NumbersTake(rest, n, Dotted(others), tail);
  }

  lemma NumbersTake(rest: string, n: nat, dotted: string, tail: string)
    requires n == Span(IsDigit, rest) > 0 && rest[n..] == dotted + tail && Components(rest[n..], OPTIONAL_GROUPS) == |dotted|
    ensures rest == rest[..n] + dotted + tail && Numbers(rest) == Some(rest[..n] + dotted)
  {
    Halves(rest, 0, n);
    Pieces(rest[..n], dotted, tail);
  }

  /** Every text of the grammar is matched, and the match is exactly its dotted numbers. */
  lemma MatchIsComplete(s: string, word: string, parts: seq<string>, tail: string)
    requires Reads(s, word, parts, tail)
    ensures FindSubmatch(s) == Some(Join(parts, '.'))
  {
    ReadsInClasses(s, word, parts, tail);
    var body := Join(parts, '.') + tail;
    Pieces(word + " ", Join(parts, '.'), tail);
    Pieces(word, " ", body);
    SpanOfPrefix(IsWordChar, word, " " + body);
    assert s[|word| + 1..] == body;
    NumbersAreComplete(parts, tail);
  }

  /** Every match comes from a text of the grammar. */
  lemma MatchIsSound(s: string) returns (word: string, parts: seq<string>, tail: string)
    requires FindSubmatch(s).Some?
    ensures Reads(s, word, parts, tail) && FindSubmatch(s).value == Join(parts, '.')
  {
    var w := Span(IsWordChar, s);
    word := s[..w];
    parts, tail := NumbersAreSound(s[w + 1..]);
    Halves(s, w, w + 1);
    assert s[w..w + 1] == " ";
    Pieces(word + " ", Join(parts, '.'), tail);
  }

  // ---- What the numbers mean ----

  /** A component semver accepts: no leading zero, within 64 bits. */
  ghost predicate Acceptable(p: string) {
    Digits(p) && (|p| > 1 ==> p[0] != '0') && Value(p) < 0x1_0000_0000_0000_0000
  }

  ghost function ComponentValue(parts: seq<string>, i: nat): nat
    requires forall p | p in parts :: Digits(p)
  {
    if i < |parts| then assert Digits(parts[i]); Value(parts[i]) else 0
  }

  lemma ParseNumeralMeans(p: string)
    ensures ParseNumeral(p).Ok? <==> Acceptable(p)
    ensures Acceptable(p) ==> ParseNumeral(p) == Ok(Value(p))
    ensures ParseNumeral("0") == Ok(0)
  {
    assert "0"[..0] == "";
    assert Value("0") == 0;
  }

  lemma PadParts(parts: seq<string>)
    requires 1 <= |parts| <= 3
    ensures |Pad(parts)| == 3
    ensures forall i | 0 <= i < 3 :: Pad(parts)[i] == if i < |parts| then parts[i] else "0"
  {
    if |parts| == 1 {
      assert Pad(parts) == Pad(parts + ["0"] + ["0"]);
    }
  }

  lemma TolerantMeans(s: string)
    requires |Pad(Split(s, '.'))| == 3
    ensures var parts := Pad(Split(s, '.'));
            var a, b, c := ParseNumeral(parts[0]), ParseNumeral(parts[1]), ParseNumeral(parts[2]);
            && (ParseTolerant(s).Ok? <==> a.Ok? && b.Ok? && c.Ok?)
            && (ParseTolerant(s).Ok? ==> ParseTolerant(s).value == Version(a.value, b.value, c.value))
  {
  }

  lemma PaddedNumeral(parts: seq<string>, i: nat)
    requires 1 <= |parts| <= 3 && i < 3 && forall p | p in parts :: Digits(p)
    ensures |Pad(parts)| == 3
    ensures var r := ParseNumeral(Pad(parts)[i]);
            (r.Ok? <==> (i < |parts| ==> Acceptable(parts[i]))) && (r.Ok? ==> r.value == ComponentValue(parts, i))
  {
    PadParts(parts);
    ParseNumeralMeans(Pad(parts)[i]);
  }

  lemma AllAcceptable(parts: seq<string>)
    requires |parts| <= 3
    ensures (forall p | p in parts :: Acceptable(p)) <==>
              && (0 < |parts| ==> Acceptable(parts[0]))
              && (1 < |parts| ==> Acceptable(parts[1]))
              && (2 < |parts| ==> Acceptable(parts[2]))
  {
    forall p | p in parts ensures p == parts[0] || (1 < |parts| && p == parts[1]) || (2 < |parts| && p == parts[2]) {
    }
  }

  /** A short version parses exactly when each component does, missing ones counting as zero. */
  lemma ShortVersionMeans(parts: seq<string>)
    requires 1 <= |parts| <= 3 && forall p | p in parts :: Digits(p)
    ensures ParseTolerant(Join(parts, '.')).Ok? <==> forall p | p in parts :: Acceptable(p)
    ensures var r := ParseTolerant(Join(parts, '.'));
            r.Ok? ==> r.value == Version(ComponentValue(parts, 0), ComponentValue(parts, 1), ComponentValue(parts, 2))
  {
    forall p | p in parts ensures '.' !in p {}
    SplitJoin(parts, '.');
    PaddedNumeral(parts, 0);
    PaddedNumeral(parts, 1);
    PaddedNumeral(parts, 2);
    AllAcceptable(parts);
    TolerantMeans(Join(parts, '.'));
  }

  lemma GrammarMeans(s: string, word: string, parts: seq<string>, tail: string)
    requires Reads(s, word, parts, tail)
    ensures ParseVersion(s).Ok? <==> forall p | p in parts :: Acceptable(p)
  {
    MatchIsComplete(s, word, parts, tail);
    ReadsInClasses(s, word, parts, tail);
    ShortVersionMeans(parts);
  }

  /** The parser accepts exactly the banners of the grammar whose numbers semver accepts. */
  lemma ParserAcceptsTheGrammar(s: string)
    ensures ParseVersion(s).Ok? <==>
              exists word, parts, tail :: Reads(s, word, parts, tail) && forall p | p in parts :: Acceptable(p)
  {
    if word, parts, tail :| Reads(s, word, parts, tail) && forall p | p in parts :: Acceptable(p) {
      GrammarMeans(s, word, parts, tail);
    }
    if ParseVersion(s).Ok? {
      var word, parts, tail := MatchIsSound(s);
      GrammarMeans(s, word, parts, tail);
    }
  }

  /** Parsing undoes printing: a word, a blank and one to three numerals give back the numbers,
      padded with zeros, whatever text follows without adding to them. A fourth component is such a text. */
  lemma ParseUndoesPrint(word: string, numbers: seq<nat>, tail: string)
    requires word != "" && forall c | c in word :: 'a' <= c <= 'z' || 'A' <= c <= 'Z' || '0' <= c <= '9' || c == '_'
    requires 1 <= |numbers| <= 3 && forall n | n in numbers :: n < 0x1_0000_0000_0000_0000
    requires Ends(tail, |numbers|)
    ensures var shown := seq(|numbers|, i requires 0 <= i < |numbers| => Numeral(numbers[i]));
            ParseVersion(word + " " + Join(shown, '.') + tail) ==
            Ok(Version(numbers[0], if |numbers| > 1 then numbers[1] else 0, if |numbers| > 2 then numbers[2] else 0))
  {
    var shown := seq(|numbers|, i requires 0 <= i < |numbers| => Numeral(numbers[i]));
    forall i | 0 <= i < |shown| ensures Acceptable(shown[i]) && Value(shown[i]) == numbers[i] {
      assert numbers[i] in numbers;
      NumeralDenotes(numbers[i]);
    }
    assert forall p | p in shown :: Acceptable(p);
    var s := word + " " + Join(shown, '.') + tail;
    assert Reads(s, word, shown, tail);
    MatchIsComplete(s, word, shown, tail);
    ShortVersionMeans(shown);
  }

  lemma BannerOf(numbers: seq<nat>, shown: seq<string>, tail: string)
    requires |numbers| == |shown| && 1 <= |numbers| <= 3 && forall i | 0 <= i < |numbers| :: shown[i] == Numeral(numbers[i])
    requires (forall n | n in numbers :: n < 0x1_0000_0000_0000_0000) && Ends(tail, |numbers|)
    ensures ParseVersion("PostgreSQL" + " " + Join(shown, '.') + tail) ==
            Ok(Version(numbers[0], if |numbers| > 1 then numbers[1] else 0, if |numbers| > 2 then numbers[2] else 0))
  {
    ParseUndoesPrint("PostgreSQL", numbers, tail);
    assert seq(|numbers|, i requires 0 <= i < |numbers| => Numeral(numbers[i])) == shown;
  }

  /** The banners of PostgreSQL, with one number, two or three, and any text after them. */
  lemma PostgresBanners(major: nat, minor: nat, patch: nat, tail: string)
    requires major < 0x1_0000_0000_0000_0000 && minor < 0x1_0000_0000_0000_0000 && patch < 0x1_0000_0000_0000_0000
    ensures var (a, b, c) := (Numeral(major), Numeral(minor), Numeral(patch));
            && (Ends(tail, 1) ==> ParseVersion("PostgreSQL" + " " + a + tail) == Ok(Version(major, 0, 0)))
            && (Ends(tail, 2) ==> ParseVersion("PostgreSQL" + " " + (a + "." + b) + tail) == Ok(Version(major, minor, 0)))
            && (Ends(tail, 3) ==>
                  ParseVersion("PostgreSQL" + " " + (a + "." + b + "." + c) + tail) == Ok(Version(major, minor, patch)))
  {
    var (a, b, c) := (Numeral(major), Numeral(minor), Numeral(patch));
    JoinTwo(a, b, '.');
    JoinThree(a, b, c, '.');
    if Ends(tail, 1) {
      BannerOf([major], [a], tail);
    }
    if Ends(tail, 2) {
      BannerOf([major, minor], [a, b], tail);
    }
    if Ends(tail, 3) {
      BannerOf([major, minor, patch], [a, b, c], tail);
    }
  }

  /** Without a blank nothing is a banner. */
  lemma NotABanner(s: string)
    requires ' ' !in s
    ensures ParseVersion(s) == Err(NoVersion)
  {
    var word := Span(IsWordChar, s);
    assert word < |s| ==> s[word] in s;
  }

  /** The version metric's short_version label reads back as the version. */
  lemma ShowRoundTrip(word: string, v: Version, tail: string)
    requires word != "" && forall c | c in word :: 'a' <= c <= 'z' || 'A' <= c <= 'Z' || '0' <= c <= '9' || c == '_'
    requires v.major < 0x1_0000_0000_0000_0000 && v.minor < 0x1_0000_0000_0000_0000 && v.patch < 0x1_0000_0000_0000_0000
    requires Ends(tail, 3)
    ensures ParseVersion(word + " " + Show(v) + tail) == Ok(v)
  {
    var numbers := [v.major, v.minor, v.patch];
    ParseUndoesPrint(word, numbers, tail);
    var shown := seq(|numbers|, i requires 0 <= i < |numbers| => Numeral(numbers[i]));
    assert shown == [Numeral(v.major), Numeral(v.minor), Numeral(v.patch)];
  }
}
