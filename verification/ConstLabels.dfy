/** parseConstLabels (internal/pgxexporter/utils.go): the `-constantLabels` flag. */
module ConstLabels {
  import opened Wrappers
  import opened Sequences
  import opened Text

  /** One comma-separated part: `key=value` with neither side blank, or nothing. */
  function ParsePart(p: string): Option<(string, string)> {
    var keyValue := Split(TrimSpace(p), '=');
    if |keyValue| != 2 then None
    else
      var key, value := TrimSpace(keyValue[0]), TrimSpace(keyValue[1]);
      if key == "" || value == "" then None else Some((key, value))
  }

  function AddPart(labels: map<string, string>, p: string): map<string, string> {
    match ParsePart(p)
    case None => labels
    case Some((key, value)) => labels[key := value]
  }

  /** The labels of a list of parts, later parts winning. */
  function Fold(parts: seq<string>): map<string, string> {
    if parts == [] then map[] else AddPart(Fold(parts[..|parts| - 1]), parts[|parts| - 1])
  }

  /** The labels a flag value stands for: each comma-separated part on its own. */
  function Labels(s: string): map<string, string> {
    Fold(Split(s, ','))
  }

  method ParseConstLabels(flag: string) returns (labels: map<string, string>)
    ensures labels == Labels(flag)
  {
    labels := map[];
    var s := TrimSpace(flag);
    TrimmingIsInvisible(flag);
    if |s| == 0 {
      return;
    }
    var parts := Split(s, ',');
    for i := 0 to |parts|
      invariant labels == Fold(parts[..i])
    {
      assert parts[..i + 1][..i] == parts[..i];
      var keyValue := Split(TrimSpace(parts[i]), '=');
      if |keyValue| != 2 {
        continue;
      }
      var key := TrimSpace(keyValue[0]);
      var value := TrimSpace(keyValue[1]);
      if key == "" || value == "" {
        continue;
      }
      labels := labels[key := value];
    }
    assert parts[..|parts|] == parts;
  }

  lemma AddPartToMerge(m: map<string, string>, n: map<string, string>, p: string)
    ensures AddPart(m + n, p) == m + AddPart(n, p)
  {
  }

  lemma {:induction false} FoldAppend(a: seq<string>, b: seq<string>)
    ensures Fold(a + b) == Fold(a) + Fold(b)
  {
    if b == [] {
      assert a + b == a;
    } else {
      var n := |b| - 1;
      var last := b[n];
      FoldAppend(a, b[..n]);
      assert (a + b)[..|a| + n] == a + b[..n] && (a + b)[|a| + n] == last;
      AddPartToMerge(Fold(a), Fold(b[..n]), last);
    }
  }

  lemma FoldOne(p: string, q: string, rest: seq<string>)
    requires TrimSpace(p) == TrimSpace(q)
    ensures Fold([p] + rest) == Fold([q] + rest)
    ensures Fold(rest + [p]) == Fold(rest + [q])
  {
    FoldAppend([p], rest);
    FoldAppend([q], rest);
    FoldAppend(rest, [p]);
    FoldAppend(rest, [q]);
    assert [p][..0] == [] && [q][..0] == [];
  }

  lemma FoldIgnoresFirstSpace(c: char, parts: seq<string>)
    requires parts != [] && IsSpace(c)
    ensures Fold([[c] + parts[0]] + parts[1..]) == Fold(parts)
  {
    TrimSpaceIgnoresLeft(c, parts[0]);
    FoldOne(parts[0], [c] + parts[0], parts[1..]);
    assert parts == [parts[0]] + parts[1..];
  }

  lemma FirstSpaceIsInvisible(c: char, s: string)
    requires IsSpace(c)
    ensures Labels([c] + s) == Labels(s)
  {
    assert ([c] + s)[1..] == s;
    FoldIgnoresFirstSpace(c, Split(s, ','));
  }

  lemma {:induction false} TrimLeftIsInvisible(s: string)
    ensures Labels(TrimLeft(s)) == Labels(s)
  {
    if s != "" && IsSpace(s[0]) {
      TrimLeftIsInvisible(s[1..]);
      FirstSpaceIsInvisible(s[0], s[1..]);
      assert [s[0]] + s[1..] == s;
    }
  }

  lemma FoldIgnoresLastSpace(parts: seq<string>, c: char)
    requires parts != [] && IsSpace(c)
    ensures Fold(After(parts, c)) == Fold(parts)
  {
    var front, last := parts[..|parts| - 1], parts[|parts| - 1];
    TrimSpaceIgnoresRight(last, c);
    FoldOne(last, last + [c], front);
    assert parts == front + [last];
  }

  lemma LastSpaceIsInvisible(s: string, c: char)
    requires IsSpace(c)
    ensures Labels(s + [c]) == Labels(s)
  {
    SplitSnoc(s, ',', c);
    FoldIgnoresLastSpace(Split(s, ','), c);
  }

  lemma {:induction false} TrimRightIsInvisible(s: string)
    ensures Labels(TrimRight(s)) == Labels(s)
  {
    if s != "" && IsSpace(s[|s| - 1]) {
      var n := |s| - 1;
      TrimRightIsInvisible(s[..n]);
      LastSpaceIsInvisible(s[..n], s[n]);
      assert s[..n] + [s[n]] == s;
    }
  }

  /** The initial TrimSpace and the early return for a blank flag change nothing. */
  lemma TrimmingIsInvisible(s: string)
    ensures Labels(TrimSpace(s)) == Labels(s)
    ensures Labels("") == map[]
  {
    TrimLeftIsInvisible(s);
    TrimRightIsInvisible(TrimLeft(s));
    assert Split("", ',') == [""] && [""][..0] == [];
    assert ParsePart("") == None by {
      TrimSpaceFacts("");
      assert Split("", '=') == [""];
    }
  }

  // ---- What one part means, said of its characters ----

  /** The characters of Unicode's White_Space property. */
  ghost predicate IsWhite(c: char) {
    || c as int in {0x9, 0xA, 0xB, 0xC, 0xD, 0x20, 0x85, 0xA0, 0x1680, 0x2028, 0x2029, 0x202F, 0x205F, 0x3000}
    || 0x2000 <= c as int <= 0x200A
  }

  ghost predicate AllWhite(s: string) {
    forall c | c in s :: IsWhite(c)
  }

  lemma WhiteIsSpace(c: char)
    ensures IsWhite(c) <==> IsSpace(c)
  {
  }

  lemma {:induction false} TrimDropsWhiteLeft(pad: string, s: string)
    requires AllWhite(pad)
    ensures TrimSpace(pad + s) == TrimSpace(s)
  {
    if pad == "" {
      assert pad + s == s;
    } else {
      assert pad + s == [pad[0]] + (pad[1..] + s);
      WhiteIsSpace(pad[0]);
      TrimSpaceIgnoresLeft(pad[0], pad[1..] + s);
      TrimDropsWhiteLeft(pad[1..], s);
    }
  }

  lemma {:induction false} TrimDropsWhiteRight(s: string, pad: string)
    requires AllWhite(pad)
    ensures TrimSpace(s + pad) == TrimSpace(s)
  {
    if pad == "" {
      assert s + pad == s;
    } else {
      var n := |pad| - 1;
      assert s + pad == (s + pad[..n]) + [pad[n]];
      WhiteIsSpace(pad[n]);
      TrimSpaceIgnoresRight(s + pad[..n], pad[n]);
      TrimDropsWhiteRight(s, pad[..n]);
    }
  }

  /** A word that neither begins nor ends with white space is what trimming leaves of it and any white space around it. */
  lemma TrimLeavesWord(before: string, w: string, after: string)
    requires AllWhite(before) && AllWhite(after) && (w != "" ==> !IsWhite(w[0]) && !IsWhite(w[|w| - 1]))
    ensures TrimSpace(before + w + after) == w
  {
    TrimDropsWhiteRight(before + w, after);
    TrimDropsWhiteLeft(before, w);
    if w != "" {
      WhiteIsSpace(w[0]);
      WhiteIsSpace(w[|w| - 1]);
    }
    TrimSpaceFacts(w);
  }

  /** A part with one "=" gives its trimmed sides, unless one of them is blank. */
  lemma PartWithOneEquals(a: string, k: string, b: string, c: string, v: string, d: string)
    requires AllWhite(a) && AllWhite(b) && AllWhite(c) && AllWhite(d)
    requires '=' !in k && (k != "" ==> !IsWhite(k[0]) && !IsWhite(k[|k| - 1]))
    requires '=' !in v && (v != "" ==> !IsWhite(v[0]) && !IsWhite(v[|v| - 1]))
    ensures ParsePart((a + k + b) + "=" + (c + v + d)) == if k == "" || v == "" then None else Some((k, v))
  {
    // The white space at the ends of the part, and what is left of its sides without it.
    var before, left := if k == "" then a + b else a, if k == "" then "" else k + b;
    var right, after := if v == "" then "" else c + v, if v == "" then c + d else d;
    TrimSides(a, k, b, c, v, d, before, left, right, after);
    CoreEnds(left, right);
    TrimLeavesWord(before, left + "=" + right, after);
    KeySide(k, b, left);
    ValueSide(c, v, right);
    PartIs((a + k + b) + "=" + (c + v + d), left, right, k, v);
  }

  lemma PartIs(p: string, left: string, right: string, k: string, v: string)
    requires TrimSpace(p) == left + "=" + right && '=' !in left && '=' !in right
    requires TrimSpace(left) == k && TrimSpace(right) == v
    ensures ParsePart(p) == if k == "" || v == "" then None else Some((k, v))
  {
    SplitWhole(left, '=');
    SplitWhole(right, '=');
    SplitConcat(left, '=', right);
  }

  lemma CoreEnds(left: string, right: string)
    requires (left != "" ==> !IsWhite(left[0])) && (right != "" ==> !IsWhite(right[|right| - 1]))
    ensures var core := left + "=" + right; !IsWhite(core[0]) && !IsWhite(core[|core| - 1])
  {
  }

  lemma KeySide(k: string, b: string, left: string)
    requires AllWhite(b) && '=' !in k && (k != "" ==> !IsWhite(k[0]) && !IsWhite(k[|k| - 1]))
    requires left == if k == "" then "" else k + b
    ensures TrimSpace(left) == k && '=' !in left
  {
    TrimDropsWhiteRight(k, b);
    TrimLeavesWord("", k, "");
    assert "" + k + "" == k;
  }

  lemma ValueSide(c: string, v: string, right: string)
    requires AllWhite(c) && '=' !in v && (v != "" ==> !IsWhite(v[0]) && !IsWhite(v[|v| - 1]))
    requires right == if v == "" then "" else c + v
    ensures TrimSpace(right) == v && '=' !in right
  {
    TrimDropsWhiteLeft(c, v);
    TrimLeavesWord("", v, "");
    assert "" + v + "" == v;
  }

  lemma TrimSides(a: string, k: string, b: string, c: string, v: string, d: string,
                  before: string, left: string, right: string, after: string)
    requires if k == "" then before == a + b && left == "" else before == a && left == k + b
    requires if v == "" then right == "" && after == c + d else right == c + v && after == d
    ensures (a + k + b) + "=" + (c + v + d) == before + (left + "=" + right) + after
  {
    assert a + k + b == before + left;
    assert c + v + d == right + after;
  }

  lemma {:induction false} SplitCounts(s: string, sep: char)
    ensures |Split(s, sep)| == 1 + multiset(s)[sep]
  {
    if s != "" {
      SplitCounts(s[1..], sep);
      assert s == [s[0]] + s[1..];
    }
  }

  lemma {:induction false} TrimLeftKeepsCount(s: string, c: char)
    requires !IsSpace(c)
    ensures multiset(TrimLeft(s))[c] == multiset(s)[c]
  {
    if s != "" && IsSpace(s[0]) {
      TrimLeftKeepsCount(s[1..], c);
      assert s == [s[0]] + s[1..];
    }
  }

  lemma {:induction false} TrimRightKeepsCount(s: string, c: char)
    requires !IsSpace(c)
    ensures multiset(TrimRight(s))[c] == multiset(s)[c]
  {
    if s != "" && IsSpace(s[|s| - 1]) {
      var n := |s| - 1;
      TrimRightKeepsCount(s[..n], c);
      assert s == s[..n] + [s[n]];
    }
  }

  /** A part with no "=" or with several gives nothing. */
  lemma PartWithoutOneEquals(p: string)
    requires multiset(p)['='] != 1
    ensures ParsePart(p) == None
  {
    TrimLeftKeepsCount(p, '=');
    TrimRightKeepsCount(TrimLeft(p), '=');
    SplitCounts(TrimSpace(p), '=');
  }

  /** A flag without a comma is one part. */
  lemma OnePart(p: string)
    requires ',' !in p
    ensures Labels(p) == match ParsePart(p) case None => map[] case Some((k, v)) => map[k := v]
  {
    SplitWhole(p, ',');
    assert [p][..0] == [];
  }

  /** A comma between two flags overrides the first with the second. */
  lemma Homomorphism(s: string, t: string)
    ensures Labels(s + "," + t) == Labels(s) + Labels(t)
  {
    SplitConcat(s, ',', t);
    FoldAppend(Split(s, ','), Split(t, ','));
  }

  predicate CleanWord(w: string) {
    w != "" && Trimmed(w) && ',' !in w && '=' !in w
  }

  predicate Clean(labels: map<string, string>) {
    forall k | k in labels :: CleanWord(k) && CleanWord(labels[k])
  }

  lemma PartIsClean(p: string)
    requires ',' !in p && ParsePart(p).Some?
    ensures CleanWord(ParsePart(p).value.0) && CleanWord(ParsePart(p).value.1)
  {
    TrimSpaceFacts(p);
    SplitParts(TrimSpace(p), '=');
    var keyValue := Split(TrimSpace(p), '=');
    assert keyValue[0] in keyValue && keyValue[1] in keyValue;
    TrimSpaceFacts(keyValue[0]);
    TrimSpaceFacts(keyValue[1]);
  }

  lemma {:induction false} FoldIsClean(parts: seq<string>)
    requires forall p | p in parts :: ',' !in p
    ensures Clean(Fold(parts))
  {
    if parts != [] {
      FoldIsClean(parts[..|parts| - 1]);
      var last := parts[|parts| - 1];
      if ParsePart(last).Some? {
        PartIsClean(last);
      }
    }
  }

  /** Whatever the flag, every key and value is trimmed, non-empty and free of separators. */
  lemma ParsedLabelsAreClean(s: string)
    ensures Clean(Labels(s))
  {
    SplitParts(s, ',');
    FoldIsClean(Split(s, ','));
  }

  /** `labels` written back as a flag, its keys in the given order. */
  function Render(labels: map<string, string>, order: seq<string>): string
    requires forall k | k in order :: k in labels
  {
    Join(Pairs(labels, order), ',')
  }

  function Pairs(labels: map<string, string>, order: seq<string>): (r: seq<string>)
    requires forall k | k in order :: k in labels
    ensures |r| == |order| && forall i | 0 <= i < |order| :: r[i] == order[i] + "=" + labels[order[i]]
  {
    seq(|order|, i requires 0 <= i < |order| => order[i] + "=" + labels[order[i]])
  }

  lemma PairParses(k: string, v: string)
    requires CleanWord(k) && CleanWord(v)
    ensures ParsePart(k + "=" + v) == Some((k, v))
    ensures ',' !in k + "=" + v
  {
    var p := k + "=" + v;
    assert p[0] == k[0] && p[|p| - 1] == v[|v| - 1];
    TrimSpaceFacts(p);
    SplitWhole(k, '=');
    SplitWhole(v, '=');
    SplitConcat(k, '=', v);
    TrimSpaceFacts(k);
    TrimSpaceFacts(v);
  }

  lemma {:induction false} FoldOfPairs(labels: map<string, string>, order: seq<string>)
    requires Clean(labels) && forall k | k in order :: k in labels
    ensures Fold(Pairs(labels, order)).Keys == (set k | k in order)
    ensures forall k | k in order :: Fold(Pairs(labels, order))[k] == labels[k]
  {
    if order != [] {
      var n := |order| - 1;
      FoldOfPairs(labels, order[..n]);
      assert Pairs(labels, order)[..n] == Pairs(labels, order[..n]);
      PairParses(order[n], labels[order[n]]);
      assert order == order[..n] + [order[n]];
    }
  }

  lemma FoldOfAllPairs(labels: map<string, string>, order: seq<string>)
    requires Clean(labels) && Enumerates(order, labels.Keys)
    ensures Fold(Pairs(labels, order)) == labels
  {
    FoldOfPairs(labels, order);
    assert labels.Keys == (set k | k in order);
  }

  lemma SplitOfRender(labels: map<string, string>, order: seq<string>)
    requires Clean(labels) && order != [] && forall k | k in order :: k in labels
    ensures Split(Render(labels, order), ',') == Pairs(labels, order)
  {
    var pairs := Pairs(labels, order);
    forall p | p in pairs ensures ',' !in p {
      var i :| 0 <= i < |pairs| && pairs[i] == p;
      PairParses(order[i], labels[order[i]]);
    }
    SplitJoin(pairs, ',');
  }

  /** Rendering a clean label map in any order and parsing it gives the map back. */
  lemma ParseUndoesRender(labels: map<string, string>, order: seq<string>)
    requires Clean(labels) && Enumerates(order, labels.Keys)
    ensures Labels(Render(labels, order)) == labels
  {
    if order == [] {
      TrimmingIsInvisible("");
      assert labels.Keys == {};
    } else {
      SplitOfRender(labels, order);
      FoldOfAllPairs(labels, order);
    }
  }

  /** Parsing is a normaliser: render and parse again, and nothing changes. */
  lemma ParseIsIdempotent(s: string, order: seq<string>)
    requires Enumerates(order, Labels(s).Keys)
    ensures Labels(Render(Labels(s), order)) == Labels(s)
  {
    ParsedLabelsAreClean(s);
    ParseUndoesRender(Labels(s), order);
  }
}
