/**
 * How `getNutrientValues` cuts its input text into ingredients: it splits
 * the text with the regular expression `\s*,\s*` and drops the empty pieces.
 *
 * The separator is a comma together with the white space on both sides of it,
 * so every piece comes out without a comma, a piece never ends in white space
 * that stood before a comma, and a piece never starts with white space that
 * stood after one. White space at the very start or end of the text is kept.
 */
module Ingredients {

  /**
   * The characters of the JavaScript class `\s`: the white space and line
   * terminator characters of ECMAScript (tab, line feed, vertical tab, form
   * feed, carriage return, space, no-break space, the Unicode space separators,
   * line and paragraph separators, and the byte order mark).
   */
  predicate IsSpace(c: char) {
    || c == '\t' || c == '\n' || c == '\U{B}' || c == '\U{C}' || c == '\r' || c == ' '
    || c == '\U{A0}' || c == '\U{1680}' || ('\U{2000}' <= c <= '\U{200A}')
    || c == '\U{2028}' || c == '\U{2029}' || c == '\U{202F}' || c == '\U{205F}'
    || c == '\U{3000}' || c == '\U{FEFF}'
  }

  /** `s` without its leading white space. */
  function TrimStart(s: string): (r: string)
    ensures |r| <= |s|
    ensures r == [] || !IsSpace(r[0])
  {
    if s != [] && IsSpace(s[0]) then TrimStart(s[1..]) else s
  }

  /** `s` without its trailing white space. */
  function TrimEnd(s: string): (r: string)
    ensures |r| <= |s|
    ensures r == [] || !IsSpace(r[|r| - 1])
  {
    if s != [] && IsSpace(s[|s| - 1]) then TrimEnd(s[..|s| - 1]) else s
  }

  /** `TrimStart(s)` is a suffix of `s`, and what it removes is white space. */
  lemma {:induction false} TrimStartCut(s: string)
    ensures TrimStart(s) == s[|s| - |TrimStart(s)|..]
    ensures forall i | 0 <= i < |s| - |TrimStart(s)| :: IsSpace(s[i])
    decreases |s|
  {
    if s != [] && IsSpace(s[0]) {
      TrimStartCut(s[1..]);
      assert forall i | 1 <= i < |s| - |TrimStart(s)| :: s[i] == s[1..][i - 1];
    }
  }

  /** `TrimEnd(s)` is a prefix of `s`, and what it removes is white space. */
  lemma {:induction false} TrimEndCut(s: string)
    ensures TrimEnd(s) == s[..|TrimEnd(s)|]
    ensures forall i | |TrimEnd(s)| <= i < |s| :: IsSpace(s[i])
    decreases |s|
  {
    if s != [] && IsSpace(s[|s| - 1]) {
      TrimEndCut(s[..|s| - 1]);
      assert forall i | |TrimEnd(s)| <= i < |s| - 1 :: s[i] == s[..|s| - 1][i];
    }
  }

  /** The position of the first comma in `s`, or `|s|` when there is none. */
  function CommaIndex(s: string): (i: nat)
    ensures i <= |s|
    ensures ',' !in s[..i]
    ensures i < |s| ==> s[i] == ','
  {
    if s == [] || s[0] == ',' then 0
    else
      var j := CommaIndex(s[1..]);
      assert s[..j + 1] == [s[0]] + s[1..][..j];
      j + 1
  }

  /**
   * Splitting at `\s*,\s*`: the piece before the first comma loses the white
   * space in front of the comma, the rest loses the white space after it and
   * is split again. Text without a comma is one piece, as it stands.
   */
  function SplitAtCommas(s: string): (pieces: seq<string>)
    ensures |pieces| >= 1
    ensures forall i | 0 <= i < |pieces| :: ',' !in pieces[i]
    decreases |s|
  {
    var c := CommaIndex(s);
    if c == |s| then [s]
    else
      var rest := SplitAtCommas(TrimStart(s[c + 1..]));
      TrimEndCut(s[..c]);
      [TrimEnd(s[..c])] + rest
  }

  /**
   * The white space around a comma goes with the separator: piece `i` is not
   * followed by a comma it ends in white space before, and is not preceded by
   * a comma it starts with white space after.
   */
  lemma {:induction false} SplitAtCommasEdges(s: string, i: nat)
    requires i < |SplitAtCommas(s)|
    ensures var p := SplitAtCommas(s)[i];
      && (i < |SplitAtCommas(s)| - 1 && p != [] ==> !IsSpace(p[|p| - 1]))
      && (0 < i && p != [] ==> !IsSpace(p[0]))
    decreases |s|, 2
  {
    var c := CommaIndex(s);
    if c < |s| {
      SplitAtCommasEdgesStep(s, c, i);
    } else {
      assert SplitAtCommas(s) == [s];
    }
  }

  lemma {:induction false} SplitAtCommasEdgesStep(s: string, c: nat, i: nat)
    requires c == CommaIndex(s) < |s|
    requires i < |SplitAtCommas(s)|
    ensures var p := SplitAtCommas(s)[i];
      && (i < |SplitAtCommas(s)| - 1 && p != [] ==> !IsSpace(p[|p| - 1]))
      && (0 < i && p != [] ==> !IsSpace(p[0]))
    decreases |s|, 1
  {
    var t := TrimStart(s[c + 1..]);
    var pre, rest := TrimEnd(s[..c]), SplitAtCommas(t);
    SplitAtCommasAt(s, c);
    ConsAt(SplitAtCommas(s), pre, rest, i);
    if i > 0 {
      SplitAtCommasEdgesAfterComma(t, i - 1);
    }
  }

  /** In text that does not start with white space, no non-empty piece starts with white space. */
  lemma {:induction false} SplitAtCommasEdgesAfterComma(t: string, j: nat)
    requires t == [] || !IsSpace(t[0])
    requires j < |SplitAtCommas(t)|
    ensures var p := SplitAtCommas(t)[j];
      && (j < |SplitAtCommas(t)| - 1 && p != [] ==> !IsSpace(p[|p| - 1]))
      && (p != [] ==> !IsSpace(p[0]))
    decreases |t|, 3
  {
    SplitAtCommasEdges(t, j);
    if j == 0 {
      SplitAtCommasFirst(t);
    }
  }

  lemma ConsAt<T>(xs: seq<T>, x: T, rest: seq<T>, i: nat)
    requires xs == [x] + rest && i < |xs|
    ensures |xs| == |rest| + 1
    ensures xs[i] == if i == 0 then x else rest[i - 1]
  {
  }

  /** The first piece starts where the text starts. */
  lemma {:induction false} SplitAtCommasFirst(s: string)
    ensures var p := SplitAtCommas(s)[0];
      p != [] ==> s != [] && p[0] == s[0]
  {
    var c := CommaIndex(s);
    if c < |s| {
      SplitAtCommasAt(s, c);
      TrimEndCut(s[..c]);
    }
  }

  /** `.filter(v => v.length != 0)`. */
  function NonEmpty(pieces: seq<string>): (r: seq<string>)
    ensures forall i | 0 <= i < |r| :: r[i] != [] && r[i] in pieces
  {
    if pieces == [] then []
    else if pieces[0] == [] then NonEmpty(pieces[1..])
    else [pieces[0]] + NonEmpty(pieces[1..])
  }

  /**
   * The filter works piece by piece: filtering a concatenation filters each
   * part, so the kept pieces come in input order.
   */
  lemma {:induction false} NonEmptyAppend(a: seq<string>, b: seq<string>)
    ensures NonEmpty(a + b) == NonEmpty(a) + NonEmpty(b)
    decreases |a|
  {
    if a == [] {
      assert a + b == b;
    } else {
      assert (a + b)[0] == a[0];
      assert (a + b)[1..] == a[1..] + b;
      NonEmptyAppend(a[1..], b);
    }
  }

  /** A single piece is kept exactly when it is non-empty. */
  lemma NonEmptySingle(x: string)
    ensures NonEmpty([x]) == if x == [] then [] else [x]
  {
    assert [x][1..] == [];
  }

  /** The ingredient list `getNutrientValues` queries, in input order. */
  function IngredientList(input: string): (r: seq<string>)
    ensures forall i | 0 <= i < |r| :: r[i] != [] && ',' !in r[i]
  {
    NonEmpty(SplitAtCommas(input))
  }

  /** The number of commas in `s`. */
  function CommaCount(s: string): nat {
    if s == [] then 0 else (if s[0] == ',' then 1 else 0) + CommaCount(s[1..])
  }

  lemma {:induction false} CommaCountAppend(a: string, b: string)
    ensures CommaCount(a + b) == CommaCount(a) + CommaCount(b)
    decreases |a|
  {
    if a != [] {
      assert (a + b)[0] == a[0];
      assert (a + b)[1..] == a[1..] + b;
      CommaCountAppend(a[1..], b);
    } else {
      assert a + b == b;
    }
  }

  lemma {:induction false} CommaCountNone(s: string)
    requires ',' !in s
    ensures CommaCount(s) == 0
    decreases |s|
  {
    if s != [] {
      assert forall c :: c in s[1..] ==> c in s;
      CommaCountNone(s[1..]);
    }
  }

  lemma {:induction false} CommaCountSpaces(s: string)
    requires forall i | 0 <= i < |s| :: IsSpace(s[i])
    ensures CommaCount(s) == 0
    decreases |s|
  {
    if s != [] {
      CommaCountSpaces(s[1..]);
    }
  }

  /** Every comma separates two pieces: there is one piece more than there are commas. */
  lemma {:induction false} SplitAtCommasCount(s: string)
    ensures |SplitAtCommas(s)| == CommaCount(s) + 1
    decreases |s|, 1
  {
    var c := CommaIndex(s);
    if c == |s| {
      assert s[..c] == s;
      CommaCountNone(s);
    } else {
      SplitAtCommasCountStep(s, c);
    }
  }

  lemma {:induction false} SplitAtCommasCountStep(s: string, c: nat)
    requires c == CommaIndex(s) < |s|
    ensures |SplitAtCommas(s)| == CommaCount(s) + 1
    decreases |s|, 0
  {
    var t := TrimStart(s[c + 1..]);
    calc {
      |SplitAtCommas(s)|;
      { SplitAtCommasAt(s, c); }
      1 + |SplitAtCommas(t)|;
      { SplitAtCommasCount(t); }
      1 + CommaCount(t) + 1;
      { CommaCountCut(s, c); }
      CommaCount(s) + 1;
    }
  }

  /** Cutting at the first comma and the white space after it removes exactly one comma. */
  lemma CommaCountCut(s: string, c: nat)
    requires c == CommaIndex(s) < |s|
    ensures CommaCount(s) == 1 + CommaCount(TrimStart(s[c + 1..]))
  {
    var t := TrimStart(s[c + 1..]);
    var e := |s| - |t|;
    CutSpacesAfter(s, c, t);
    SeparatorAt(s, c, c, e);
    CommaCountNone(s[..c]);
    CommaCountSlices(s, c, e);
  }

  lemma CommaCountSlices(s: string, p: nat, e: nat)
    requires p <= e <= |s|
    ensures CommaCount(s) == CommaCount(s[..p]) + CommaCount(s[p..e]) + CommaCount(s[e..])
  {
    SliceThree(s, p, e);
    CommaCountAppend(s[..p] + s[p..e], s[e..]);
    CommaCountAppend(s[..p], s[p..e]);
  }

  lemma CommaCountJoin(pre: string, gap: string, t: string)
    requires ',' !in pre
    requires forall i | 0 <= i < |gap| :: IsSpace(gap[i])
    ensures CommaCount(pre + [','] + gap + t) == 1 + CommaCount(t)
  {
    calc {
      CommaCount(pre + [','] + gap + t);
      { CommaCountAppend(pre + [','] + gap, t); }
      CommaCount(pre + [','] + gap) + CommaCount(t);
      { CommaCountAppend(pre + [','], gap);
        CommaCountSpaces(gap); }
      CommaCount(pre + [',']) + CommaCount(t);
      { CommaCountAppend(pre, [',']);
        CommaCountNone(pre);
        assert [','][1..] == []; }
      1 + CommaCount(t);
    }
  }

  // Any input, well formed or not, is its pieces with the separators between them.

  /** A separator the split consumes: white space, one comma, white space. */
  predicate IsSeparator(x: string) {
    && CommaCount(x) == 1
    && forall i | 0 <= i < |x| :: x[i] == ',' || IsSpace(x[i])
  }

  /** The separators of `s`, in order: each comma with the white space on both sides of it. */
  function Separators(s: string): seq<string>
    decreases |s|
  {
    var c := CommaIndex(s);
    if c == |s| then []
    else
      var t := TrimStart(s[c + 1..]);
      [s[|TrimEnd(s[..c])|..|s| - |t|]] + Separators(t)
  }

  /** `pieces[0] + seps[0] + pieces[1] + ... + seps[|seps| - 1] + pieces[|seps|]`. */
  function Interleave(pieces: seq<string>, seps: seq<string>): string
    requires |pieces| == |seps| + 1
    decreases |seps|
  {
    if seps == [] then pieces[0] else pieces[0] + seps[0] + Interleave(pieces[1..], seps[1..])
  }

  /** White space, then a comma at `c`, then white space: `s[p..e]` is a separator. */
  lemma SeparatorAt(s: string, p: nat, c: nat, e: nat)
    requires p <= c < e <= |s| && s[c] == ','
    requires forall i | p <= i < c :: IsSpace(s[i])
    requires forall i | c < i < e :: IsSpace(s[i])
    ensures IsSeparator(s[p..e])
  {
    var w, g := s[p..c], s[c + 1..e];
    assert forall i | 0 <= i < |w| :: IsSpace(w[i]) by {
      forall i | 0 <= i < |w|
        ensures IsSpace(w[i])
      {
        assert w[i] == s[p + i];
      }
    }
    assert forall i | 0 <= i < |g| :: IsSpace(g[i]) by {
      forall i | 0 <= i < |g|
        ensures IsSpace(g[i])
      {
        assert g[i] == s[c + 1 + i];
      }
    }
    assert s[p..e] == w + [','] + g + [];
    CommaCountJoin(w, g, []);
  }

  lemma SliceThree<T>(s: seq<T>, p: nat, e: nat)
    requires p <= e <= |s|
    ensures s == s[..p] + s[p..e] + s[e..]
  {
  }

  /** The white space `TrimEnd` removes from `s[..c]`. */
  lemma CutSpacesBefore(s: string, c: nat, pre: string)
    requires c <= |s| && pre == TrimEnd(s[..c])
    ensures |pre| <= c && pre == s[..|pre|]
    ensures forall i | |pre| <= i < c :: IsSpace(s[i])
  {
    var u := s[..c];
    assert pre == u[..|pre|] && forall i | |pre| <= i < |u| :: IsSpace(u[i]) by {
      TrimEndCut(u);
    }
    TakenSpaces(s, c, |pre|);
  }

  /** The white space `TrimStart` removes from `s[c + 1..]`. */
  lemma CutSpacesAfter(s: string, c: nat, t: string)
    requires c < |s| && t == TrimStart(s[c + 1..])
    ensures c + 1 <= |s| - |t| && t == s[|s| - |t|..]
    ensures forall i | c < i < |s| - |t| :: IsSpace(s[i])
  {
    var u := s[c + 1..];
    assert t == u[|u| - |t|..] && forall i | 0 <= i < |u| - |t| :: IsSpace(u[i]) by {
      TrimStartCut(u);
    }
    DroppedSpaces(s, c + 1, |u| - |t|);
  }

  /** White space at the end of `s[..c]`, from `k` on, in terms of `s`. */
  lemma TakenSpaces(s: string, c: nat, k: nat)
    requires k <= c <= |s|
    requires forall i | k <= i < c :: IsSpace(s[..c][i])
    ensures s[..c][..k] == s[..k]
    ensures forall i | k <= i < c :: IsSpace(s[i])
  {
    forall i | k <= i < c
      ensures IsSpace(s[i])
    {
      assert s[i] == s[..c][i];
    }
  }

  /** White space at the start of `s[m..]`, `k` characters of it, in terms of `s`. */
  lemma DroppedSpaces(s: string, m: nat, k: nat)
    requires m + k <= |s|
    requires forall i | 0 <= i < k :: IsSpace(s[m..][i])
    ensures s[m..][k..] == s[m + k..]
    ensures forall i | m <= i < m + k :: IsSpace(s[i])
  {
    forall i | m <= i < m + k
      ensures IsSpace(s[i])
    {
      assert s[i] == s[m..][i - m];
    }
  }

  /** At a comma `c`, the text is the trimmed text before it, a separator, and the trimmed rest. */
  lemma CutSeparator(s: string, c: nat, pre: string, t: string)
    requires c < |s| && s[c] == ','
    requires pre == TrimEnd(s[..c]) && t == TrimStart(s[c + 1..])
    ensures |pre| <= c < |s| - |t|
    ensures s == pre + s[|pre|..|s| - |t|] + t
    ensures IsSeparator(s[|pre|..|s| - |t|])
  {
    CutSpacesBefore(s, c, pre);
    CutSpacesAfter(s, c, t);
    CutAround(s, |pre|, c, |s| - |t|, pre, t);
  }

  /** Text cut before and after a comma flanked by white space: the middle is a separator. */
  lemma CutAround(s: string, p: nat, c: nat, e: nat, pre: string, t: string)
    requires p <= c < e <= |s| && s[c] == ','
    requires pre == s[..p] && t == s[e..]
    requires forall i | p <= i < c :: IsSpace(s[i])
    requires forall i | c < i < e :: IsSpace(s[i])
    ensures s == pre + s[p..e] + t
    ensures IsSeparator(s[p..e])
  {
    SeparatorAt(s, p, c, e);
    Reassemble(s, pre, t, p, e);
  }

  /** A sequence is its prefix, middle and suffix put back together. */
  lemma Reassemble<T>(s: seq<T>, pre: seq<T>, t: seq<T>, p: nat, e: nat)
    requires p <= e <= |s| && pre == s[..p] && t == s[e..]
    ensures s == pre + s[p..e] + t
  {
    SliceThree(s, p, e);
  }

  /**
   * The split loses nothing: the input is its pieces with a separator between
   * each two, and every separator is white space, one comma and white space.
   */
  lemma {:induction false} SplitAtCommasSeparators(s: string)
    ensures |SplitAtCommas(s)| == |Separators(s)| + 1
    ensures Interleave(SplitAtCommas(s), Separators(s)) == s
    ensures forall i | 0 <= i < |Separators(s)| :: IsSeparator(Separators(s)[i])
    decreases |s|, 1
  {
    var c := CommaIndex(s);
    if c < |s| {
      SplitAtCommasSeparatorsStep(s, c);
    } else {
      assert SplitAtCommas(s) == [s];
    }
  }

  lemma {:induction false} SplitAtCommasSeparatorsStep(s: string, c: nat)
    requires c == CommaIndex(s) < |s|
    ensures |SplitAtCommas(s)| == |Separators(s)| + 1
    ensures Interleave(SplitAtCommas(s), Separators(s)) == s
    ensures forall i | 0 <= i < |Separators(s)| :: IsSeparator(Separators(s)[i])
    decreases |s|, 0
  {
    var t := TrimStart(s[c + 1..]);
    var pre := TrimEnd(s[..c]);
    var sep := s[|pre|..|s| - |t|];
    var rest, seps := SplitAtCommas(t), Separators(t);
    CutSeparator(s, c, pre, t);
    assert SplitAtCommas(s) == [pre] + rest by {
      SplitAtCommasAt(s, c);
    }
    assert Separators(s) == [sep] + seps;
    SplitAtCommasSeparators(t);
    InterleaveCons(pre, sep, rest, seps);
    forall i | 0 <= i < |Separators(s)|
      ensures IsSeparator(Separators(s)[i])
    {
      if i > 0 {
        assert Separators(s)[i] == seps[i - 1];
      }
    }
  }

  lemma InterleaveCons(x: string, y: string, pieces: seq<string>, seps: seq<string>)
    requires |pieces| == |seps| + 1
    ensures Interleave([x] + pieces, [y] + seps) == x + y + Interleave(pieces, seps)
  {
    assert ([x] + pieces)[1..] == pieces;
    assert ([y] + seps)[1..] == seps;
  }

  /** A well-formed ingredient: not empty, no comma, no white space at either end. */
  predicate Clean(x: string) {
    && x != []
    && ',' !in x
    && !IsSpace(x[0])
    && !IsSpace(x[|x| - 1])
  }

  /** Every ingredient of `xs` is well formed. */
  predicate AllClean(xs: seq<string>) {
    xs == [] || (Clean(xs[0]) && AllClean(xs[1..]))
  }

  /** `xs.join(", ")`. */
  function JoinComma(xs: seq<string>): string {
    if xs == [] then []
    else if |xs| == 1 then xs[0]
    else xs[0] + ", " + JoinComma(xs[1..])
  }

  lemma JoinCommaStart(xs: seq<string>)
    requires xs != [] && Clean(xs[0])
    ensures JoinComma(xs) != [] && !IsSpace(JoinComma(xs)[0])
  {
    if |xs| > 1 {
      assert JoinComma(xs)[0] == xs[0][0];
    }
  }

  lemma {:induction false} CommaIndexAfter(x: string, t: string)
    requires ',' !in x
    requires t != [] && t[0] == ','
    ensures CommaIndex(x + t) == |x|
    decreases |x|
  {
    if x != [] {
      assert (x + t)[0] == x[0];
      assert (x + t)[1..] == x[1..] + t;
      assert forall c :: c in x[1..] ==> c in x;
      CommaIndexAfter(x[1..], t);
    } else {
      assert x + t == t;
    }
  }

  /** One cut of the split, at the first comma `c`. */
  lemma SplitAtCommasAt(s: string, c: nat)
    requires c == CommaIndex(s) < |s|
    ensures SplitAtCommas(s) == [TrimEnd(s[..c])] + SplitAtCommas(TrimStart(s[c + 1..]))
  {
  }

  lemma CommaSpaceSlices(x: string, rest: string)
    ensures (x + ", " + rest)[..|x|] == x
    ensures (x + ", " + rest)[|x|..] == ", " + rest
    ensures (x + ", " + rest)[|x| + 1..] == [' '] + rest
  {
  }

  lemma TrimStartOneSpace(rest: string)
    requires rest == [] || !IsSpace(rest[0])
    ensures TrimStart([' '] + rest) == rest
  {
    assert ([' '] + rest)[1..] == rest;
  }

  lemma SplitCleanStep(x: string, rest: string)
    requires Clean(x)
    requires rest == [] || !IsSpace(rest[0])
    ensures SplitAtCommas(x + ", " + rest) == [x] + SplitAtCommas(rest)
  {
    var s := x + ", " + rest;
    assert CommaIndex(s) == |x| by {
      CommaSpaceSlices(x, rest);
      assert s == x + s[|x|..];
      CommaIndexAfter(x, s[|x|..]);
    }
    assert TrimEnd(s[..|x|]) == x by {
      CommaSpaceSlices(x, rest);
    }
    assert TrimStart(s[|x| + 1..]) == rest by {
      CommaSpaceSlices(x, rest);
      TrimStartOneSpace(rest);
    }
    SplitAtCommasAt(s, |x|);
  }

  lemma {:induction false} CommaIndexNone(s: string)
    requires ',' !in s
    ensures CommaIndex(s) == |s|
  {
  }

  lemma {:induction false} SplitJoin(xs: seq<string>)
    requires xs != [] && AllClean(xs)
    ensures SplitAtCommas(JoinComma(xs)) == xs
    decreases |xs|, 1
  {
    if |xs| == 1 {
      assert JoinComma(xs) == xs[0];
      CommaIndexNone(xs[0]);
    } else {
      SplitJoinStep(xs);
    }
  }

  lemma {:induction false} SplitJoinStep(xs: seq<string>)
    requires |xs| >= 2 && AllClean(xs)
    ensures SplitAtCommas(JoinComma(xs)) == xs
    decreases |xs|, 0
  {
    var head, tail := xs[0], xs[1..];
    var rest := JoinComma(tail);
    calc {
      SplitAtCommas(JoinComma(xs));
      SplitAtCommas(head + ", " + rest);
      { JoinCommaStart(tail);
        SplitCleanStep(head, rest); }
      [head] + SplitAtCommas(rest);
      { SplitJoin(tail); }
      [head] + tail;
      xs;
    }
  }

  lemma {:induction false} NonEmptyKeeps(xs: seq<string>)
    requires AllClean(xs)
    ensures NonEmpty(xs) == xs
    decreases |xs|
  {
    if xs != [] {
      NonEmptyKeeps(xs[1..]);
    }
  }

  /**
   * Ingredients written out with `", "` between them come back one by one, in
   * the same order: the list `getNutrientValues` queries is the list that was
   * typed.
   */
  lemma IngredientListJoin(xs: seq<string>)
    requires AllClean(xs)
    ensures IngredientList(JoinComma(xs)) == xs
  {
    if xs == [] {
      assert SplitAtCommas([]) == [[]];
      assert NonEmpty([[]]) == NonEmpty([]);
    } else {
      SplitJoin(xs);
      NonEmptyKeeps(xs);
    }
  }
}
