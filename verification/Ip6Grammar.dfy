/**
 * What IPv6 text means, without the one-pass automaton: the text is cut into hex groups and the
 * runs of colons between them, and the address is read off the cut.
 */
module Ip6Grammar {
  import opened Common

  const N_QUADS: nat := 8

  // ----- Characters and hex groups -----

  /** The value of a hex digit in either case, 16 for every other character. */
  function HexDigit(c: char): nat {
    if '0' <= c <= '9' then c as int - '0' as int
    else if 'a' <= c <= 'f' then c as int + 10 - 'a' as int
    else if 'A' <= c <= 'F' then c as int + 10 - 'A' as int
    else 16
  }

  predicate IsHex(c: char) {
    HexDigit(c) < 16
  }

  predicate InAlphabet(c: char) {
    IsHex(c) || c == ':'
  }

  predicate AllHex(g: string) {
    forall i :: 0 <= i < |g| ==> IsHex(g[i])
  }

  function HexValue(g: string): nat {
    if g == "" then 0 else 16 * HexValue(g[..|g| - 1]) + HexDigit(g[|g| - 1])
  }

  function Pow16(n: nat): nat {
    if n == 0 then 1 else 16 * Pow16(n - 1)
  }

  lemma {:induction false} HexValueBound(g: string)
    requires AllHex(g)
    ensures HexValue(g) < Pow16(|g|)
  {
    if g != "" {
      assert IsHex(g[|g| - 1]);
      HexValueBound(g[..|g| - 1]);
    }
  }

  const LOWER: string := "0123456789abcdef"
  const UPPER: string := "0123456789ABCDEF"

  /** A digit is worth its place in the row of digits, in either case, and nothing else is a digit. */
  lemma HexDigitIs(c: char, v: nat)
    requires v < 16
    ensures HexDigit(c) == v <==> c == LOWER[v] || c == UPPER[v]
    ensures HexDigit(c) <= 16
  {
  }

  /** Text is read from left to right, the leading digits counting most. */
  lemma {:induction false} HexValuePositional(a: string, b: string)
    ensures HexValue(a + b) == HexValue(a) * Pow16(|b|) + HexValue(b)
    ensures forall c :: HexValue([c]) == HexDigit(c)
    decreases |b|
  {
    forall c
      ensures HexValue([c]) == HexDigit(c)
    {
      assert [c][..0] == "";
    }
    if b == "" {
      assert a + b == a;
    } else {
      var n := |b| - 1;
      HexValuePositional(a, b[..n]);
      assert (a + b)[..|a + b| - 1] == a + b[..n];
      Shift16(HexValue(a), Pow16(n));
    }
  }

  lemma Shift16(v: nat, p: nat)
    ensures 16 * (v * p) == v * (16 * p)
  {
  }

  /** A group as the grammar wants it: one to four hex digits. */
  predicate IsGroup(g: string) {
    AllHex(g) && 1 <= |g| <= 4
  }

  /** A group always fits the 16-bit slot it is stored in. */
  lemma GroupFits(g: string)
    requires AllHex(g) && |g| <= 4
    ensures HexValue(g) < 0x1_0000
  {
    HexValueBound(g);
    assert Pow16(4) == 0x1_0000 && Pow16(3) == 0x1000 && Pow16(2) == 0x100 && Pow16(1) == 0x10;
  }

  // ----- The longest readable prefix -----

  predicate TripleAt(t: string, i: int)
    requires 0 <= i < |t| - 2
  {
    t[i] == ':' && t[i + 1] == ':' && t[i + 2] == ':'
  }

  /** Only hex digits and colons, and never three colons in a row. */
  predicate Clean(t: string) {
    && (forall i :: 0 <= i < |t| ==> InAlphabet(t[i]))
    && (forall i :: 0 <= i < |t| - 2 ==> !TripleAt(t, i))
  }

  predicate Continues(s: string, k: nat)
    requires k < |s|
  {
    InAlphabet(s[k]) && !(k >= 2 && TripleAt(s, k - 2))
  }

  function Scan(s: string, k: nat): (r: nat)
    requires k <= |s|
    ensures k <= r <= |s|
    decreases |s| - k
  {
    if k < |s| && Continues(s, k) then Scan(s, k + 1) else k
  }

  function Span(s: string): (r: nat)
    ensures r <= |s|
  {
    Scan(s, 0)
  }

  lemma {:induction false} ScanIsLongest(s: string, k: nat)
    requires k <= |s| && Clean(s[..k])
    ensures Clean(s[..Scan(s, k)])
    ensures Scan(s, k) < |s| ==> !Clean(s[..Scan(s, k) + 1])
    decreases |s| - k
  {
    if k < |s| {
      CleanExtends(s, k);
      if Continues(s, k) {
        ScanIsLongest(s, k + 1);
      }
    }
  }

  lemma CleanExtends(s: string, k: nat)
    requires k < |s| && Clean(s[..k])
    ensures Clean(s[..k + 1]) <==> Continues(s, k)
  {
    var t := s[..k + 1];
    assert forall i :: 0 <= i < k ==> t[i] == s[..k][i];
    if Continues(s, k) {
      forall i | 0 <= i < |t| - 2
        ensures !TripleAt(t, i)
      {
        if i + 2 < k {
          assert !TripleAt(s[..k], i);
        }
      }
    } else if InAlphabet(s[k]) {
      assert TripleAt(t, k - 2);
    } else {
      assert !InAlphabet(t[k]);
    }
  }

  /** `Span` is the length of the longest clean prefix, and the clean prefixes are exactly the shorter ones. */
  lemma SpanIsLongest(s: string, k: nat)
    requires k <= |s|
    ensures Clean(s[..k]) <==> k <= Span(s)
  {
    var n := Span(s);
    ScanIsLongest(s, 0);
    if k <= n {
      CleanPrefix(s[..n], k);
      assert s[..n][..k] == s[..k];
    } else if Clean(s[..k]) {
      assert s[..n + 1] == s[..k][..n + 1];
      CleanPrefix(s[..k], n + 1);
    }
  }

  lemma CleanPrefix(t: string, k: nat)
    requires k <= |t| && Clean(t)
    ensures Clean(t[..k])
  {
    forall i | 0 <= i < k - 2
      ensures !TripleAt(t[..k], i)
    {
      assert !TripleAt(t, i);
    }
  }

  // ----- Groups and gaps -----

  /** A text is its leading colons, followed by groups of hex digits, each with the colons behind it. */
  datatype Text = Lead(gap: nat) | Group(before: Text, digits: string, gap: nat)

  predicate Shape(x: Text) {
    x.Group? ==> Shape(x.before) && AllHex(x.digits) && x.digits != "" && (x.before.Group? ==> x.before.gap > 0)
  }

  function Colons(n: nat): string {
    seq(n, i => ':')
  }

  function Render(x: Text): string {
    match x
    case Lead(n) => Colons(n)
    case Group(b, g, n) => Render(b) + g + Colons(n)
  }

  /** One more character: a longer gap, a longer group, or a new group. */
  function AddChar(x: Text, c: char): Text {
    if c == ':' then x.(gap := x.gap + 1)
    else if x.Group? && x.gap == 0 then x.(digits := x.digits + [c])
    else Group(x, [c], 0)
  }

  function Tokens(t: string): Text {
    if t == "" then Lead(0) else AddChar(Tokens(t[..|t| - 1]), t[|t| - 1])
  }

  lemma ColonsSnoc(n: nat)
    ensures Colons(n + 1) == Colons(n) + [':']
  {
  }

  lemma RenderAddChar(x: Text, c: char)
    requires Shape(x) && InAlphabet(c)
    ensures Shape(AddChar(x, c)) && Render(AddChar(x, c)) == Render(x) + [c]
  {
    assert Colons(0) == "";
    ColonsSnoc(x.gap);
  }

  lemma TokensSnoc(t: string, c: char)
    ensures Tokens(t + [c]) == AddChar(Tokens(t), c)
  {
    assert (t + [c])[..|t|] == t;
  }

  /** Cutting loses nothing: rendering the cut gives the text back. */
  lemma {:induction false} RenderTokens(t: string)
    requires forall i :: 0 <= i < |t| ==> InAlphabet(t[i])
    ensures Shape(Tokens(t)) && Render(Tokens(t)) == t
  {
    if t != "" {
      RenderTokens(t[..|t| - 1]);
      assert InAlphabet(t[|t| - 1]);
      RenderAddChar(Tokens(t[..|t| - 1]), t[|t| - 1]);
      assert t == t[..|t| - 1] + [t[|t| - 1]];
    }
  }

  lemma {:induction false} TokensColons(t: string, n: nat)
    ensures Tokens(t + Colons(n)) == (var x := Tokens(t); x.(gap := x.gap + n))
  {
    if n == 0 {
      assert t + Colons(0) == t;
    } else {
      var u := t + Colons(n - 1);
      TokensColons(t, n - 1);
      TokensSnoc(u, ':');
      assert t + Colons(n) == u + [':'];
    }
  }

  lemma {:induction false} TokensGroup(t: string, g: string)
    requires AllHex(g) && g != ""
    requires Tokens(t).Group? ==> Tokens(t).gap > 0
    ensures Tokens(t + g) == Group(Tokens(t), g, 0)
  {
    var h, c := g[..|g| - 1], g[|g| - 1];
    var u := t + h;
    assert IsHex(c) && t + g == u + [c] && g == h + [c];
    TokensSnoc(u, c);
    if h == "" {
      assert u == t;
    } else {
      TokensGroup(t, h);
    }
  }

  /** The cut is unique: a shaped text is what cutting its rendering gives. */
  lemma {:induction false} TokensRender(x: Text)
    requires Shape(x)
    ensures Tokens(Render(x)) == x
  {
    match x
    case Lead(n) =>
      TokensColons("", n);
      assert "" + Colons(n) == Colons(n);
    case Group(b, g, n) =>
      TokensRender(b);
      TokensGroup(Render(b), g);
      TokensColons(Render(b) + g, n);
  }

  lemma {:induction false} RenderAlphabet(x: Text)
    requires Shape(x)
    ensures forall i :: 0 <= i < |Render(x)| ==> InAlphabet(Render(x)[i])
  {
    if x.Group? {
      RenderAlphabet(x.before);
    }
  }

  /** What the last two characters say about the last gap; this is the automaton's colon counter. */
  lemma ContinuesByGap(s: string, k: nat)
    requires k < |s| && (forall i :: 0 <= i < k ==> InAlphabet(s[i]))
    ensures Continues(s, k) <==> InAlphabet(s[k]) && (s[k] == ':' ==> Tokens(s[..k]).gap < 2)
  {
    var t := s[..k];
    if k > 0 {
      var u := t[..k - 1];
      assert t == u + [s[k - 1]];
      TokensSnoc(u, s[k - 1]);
      if k > 1 {
        assert u == u[..k - 2] + [s[k - 2]];
        TokensSnoc(u[..k - 2], s[k - 2]);
      }
    }
  }

  predicate SmallGaps(x: Text) {
    x.gap <= 2 && (x.Group? ==> SmallGaps(x.before))
  }

  lemma {:induction false} CleanGaps(t: string)
    requires forall i :: 0 <= i < |t| ==> InAlphabet(t[i])
    ensures Clean(t) <==> SmallGaps(Tokens(t))
  {
    if t != "" {
      var u := t[..|t| - 1];
      assert t == t[..|u| + 1] && t[..|u|] == u;
      CleanGaps(u);
      ContinuesByGap(t, |u|);
      if Clean(u) {
        CleanExtends(t, |u|);
      } else if Clean(t) {
        CleanPrefix(t, |u|);
      }
    }
  }

  // ----- Addresses -----

  function Count(x: Text): nat {
    if x.Lead? then 0 else Count(x.before) + 1
  }

  /** How many groups stand before the double colon. */
  function DoubleAt(x: Text): Option<nat> {
    if x.Group? && DoubleAt(x.before).Some? then DoubleAt(x.before)
    else if x.gap == 2 then Some(Count(x))
    else None
  }

  /**
   * What may still become an address: at most eight groups of one to four digits, gaps of at most
   * two colons, at most one of them double, and no double colon behind the eighth group.
   */
  predicate Admissible(x: Text) {
    && Shape(x)
    && x.gap <= 2
    && (x.Group? ==>
          && Admissible(x.before)
          && IsGroup(x.digits)
          && Count(x) <= N_QUADS
          && (x.gap == 2 ==> DoubleAt(x.before).None? && Count(x) < N_QUADS))
  }

  /** The texts that name an address. */
  predicate IsAddress(x: Text) {
    Admissible(x) && (DoubleAt(x).Some? || Count(x) == N_QUADS)
  }

  function Quads(x: Text): (qs: seq<u16>)
    requires Admissible(x)
    ensures |qs| == Count(x) <= N_QUADS
  {
    if x.Lead? then []
    else
      GroupFits(x.digits);
      Quads(x.before) + [HexValue(x.digits)]
  }

  function Zeros(n: nat): seq<u16> {
    seq(n, i => 0)
  }

  lemma SplitTwice<T>(a: seq<T>, i: nat, j: nat)
    requires i <= j <= |a|
    ensures a == a[..i] + a[i..j] + a[j..]
  {
  }

  lemma DoubleInRange(x: Text)
    ensures DoubleAt(x).Some? ==> DoubleAt(x).value <= Count(x)
  {
  }

  /** The eight quads: those before the double colon, zeros in its place, those after it. */
  function Expand(x: Text): (a: seq<u16>)
    requires IsAddress(x)
    ensures |a| == N_QUADS
  {
    DoubleInRange(x);
    var qs := Quads(x);
    match DoubleAt(x)
    case Some(k) => qs[..k] + Zeros(N_QUADS - |qs|) + qs[k..]
    case None => qs
  }

  lemma AdmissibleAddChar(x: Text, c: char)
    requires Shape(x) && InAlphabet(c) && Admissible(AddChar(x, c))
    ensures Admissible(x)
  {
    if x.Group? && x.gap == 0 && c != ':' {
      assert forall i :: 0 <= i < |x.digits| ==> x.digits[i] == (x.digits + [c])[i];
    }
  }

  lemma {:induction false} AdmissiblePrefix(t: string, k: nat)
    requires k <= |t| && (forall i :: 0 <= i < |t| ==> InAlphabet(t[i]))
    requires Admissible(Tokens(t))
    ensures Admissible(Tokens(t[..k]))
    decreases |t|
  {
    if k < |t| {
      var u := t[..|t| - 1];
      assert InAlphabet(t[|t| - 1]);
      RenderTokens(u);
      AdmissibleAddChar(Tokens(u), t[|t| - 1]);
      AdmissiblePrefix(u, k);
      assert u[..k] == t[..k];
    } else {
      assert t[..k] == t;
    }
  }

  // ----- The parse, as a function of the input text -----

  function Parse(s: string): Option<(seq<u16>, string)> {
    var x := Tokens(s[..Span(s)]);
    if IsAddress(x) then Some((Expand(x), s[Span(s)..])) else None
  }

  // ----- Either case -----

  /** The same character, or the same hex digit in the other case. */
  predicate AlikeChar(c: char, d: char) {
    c == d || (IsHex(c) && HexDigit(c) == HexDigit(d))
  }

  predicate Alike(s: string, t: string) {
    |s| == |t| && forall i :: 0 <= i < |s| ==> AlikeChar(s[i], t[i])
  }

  predicate AlikeText(x: Text, y: Text) {
    match (x, y)
    case (Lead(m), Lead(n)) => m == n
    case (Group(b, g, m), Group(c, h, n)) => AlikeText(b, c) && Alike(g, h) && m == n
    case _ => false
  }

  lemma AlikeAddChar(x: Text, y: Text, c: char, d: char)
    requires AlikeText(x, y) && AlikeChar(c, d)
    ensures AlikeText(AddChar(x, c), AddChar(y, d))
  {
  }

  lemma {:induction false} TokensAlike(s: string, t: string)
    requires Alike(s, t)
    ensures AlikeText(Tokens(s), Tokens(t))
  {
    if s != "" {
      var n := |s| - 1;
      TokensAlike(s[..n], t[..n]);
      assert AlikeChar(s[n], t[n]);
      AlikeAddChar(Tokens(s[..n]), Tokens(t[..n]), s[n], t[n]);
    }
  }

  lemma {:induction false} ScanAlike(s: string, t: string, k: nat)
    requires Alike(s, t) && k <= |s|
    ensures Scan(s, k) == Scan(t, k)
    decreases |s| - k
  {
    if k < |s| {
      assert AlikeChar(s[k], t[k]);
      assert k >= 2 ==> AlikeChar(s[k - 1], t[k - 1]) && AlikeChar(s[k - 2], t[k - 2]);
      ScanAlike(s, t, k + 1);
    }
  }

  lemma {:induction false} HexValueAlike(g: string, h: string)
    requires Alike(g, h)
    ensures HexValue(g) == HexValue(h) && (AllHex(g) <==> AllHex(h))
  {
    if g != "" {
      var n := |g| - 1;
      HexValueAlike(g[..n], h[..n]);
      assert AlikeChar(g[n], h[n]);
    }
    assert forall i :: 0 <= i < |g| ==> AlikeChar(g[i], h[i]);
  }

  lemma {:induction false} AdmissibleAlike(x: Text, y: Text)
    requires AlikeText(x, y)
    ensures Shape(x) <==> Shape(y)
    ensures Admissible(x) <==> Admissible(y)
    ensures Count(x) == Count(y) && DoubleAt(x) == DoubleAt(y)
    ensures Admissible(x) ==> Quads(x) == Quads(y)
  {
    if x.Group? {
      AdmissibleAlike(x.before, y.before);
      HexValueAlike(x.digits, y.digits);
    }
  }

  function Upper(s: string): string {
    seq(|s|, i requires 0 <= i < |s| => if 'a' <= s[i] <= 'f' then s[i] - 'a' + 'A' else s[i])
  }

  /** Case does not matter: an input and any other spelling of it give the same address and leave as much unread. */
  lemma CaseDoesNotMatter(s: string, t: string)
    requires Alike(s, t)
    ensures Parse(s).Some? <==> Parse(t).Some?
    ensures Parse(s).Some? ==> Parse(s).value.0 == Parse(t).value.0 && |Parse(s).value.1| == |Parse(t).value.1|
  {
    var n := Span(s);
    ScanAlike(s, t, 0);
    TokensAlike(s[..n], t[..n]);
    AdmissibleAlike(Tokens(s[..n]), Tokens(t[..n]));
  }

  lemma UpperDoesNotMatter(s: string)
    ensures Parse(s).Some? <==> Parse(Upper(s)).Some?
    ensures Parse(s).Some? ==>
              Parse(s).value.0 == Parse(Upper(s)).value.0 && |Parse(s).value.1| == |Parse(Upper(s)).value.1|
  {
    CaseDoesNotMatter(s, Upper(s));
  }

  // ----- The accepted language -----

  /** The input starts with the text `x`, and `x` is its longest clean prefix. */
  ghost predicate Reads(s: string, x: Text, rest: string) {
    && Shape(x)
    && s == Render(x) + rest
    && Clean(Render(x))
    && (rest != "" ==> !Clean(Render(x) + rest[..1]))
  }

  lemma ReadsIsSpan(s: string, x: Text, rest: string)
    requires Reads(s, x, rest)
    ensures Span(s) == |Render(x)| && s[..Span(s)] == Render(x) && Tokens(s[..Span(s)]) == x
  {
    var n := |Render(x)|;
    assert s[..n] == Render(x);
    SpanIsLongest(s, n);
    if rest != "" {
      assert s[..n + 1] == Render(x) + rest[..1];
      SpanIsLongest(s, n + 1);
    }
    TokensRender(x);
  }

  lemma SpanReads(s: string)
    ensures Reads(s, Tokens(s[..Span(s)]), s[Span(s)..])
  {
    var n := Span(s);
    var t, rest := s[..n], s[n..];
    SpanIsLongest(s, n);
    RenderTokens(t);
    assert s == t + rest;
    if rest != "" {
      SpanIsLongest(s, n + 1);
      assert t + rest[..1] == s[..n + 1];
    }
  }

  /**
   * The accepted language: parsing gives address `a` and leaves `rest` exactly when some
   * grammatical text with that value is the longest clean prefix and `rest` is what follows it.
   */
  lemma ParseIff(s: string, a: seq<u16>, rest: string)
    ensures Parse(s) == Some((a, rest)) <==> exists x :: Reads(s, x, rest) && IsAddress(x) && Expand(x) == a
  {
    if Parse(s) == Some((a, rest)) {
      SpanReads(s);
    }
    if x :| Reads(s, x, rest) && IsAddress(x) && Expand(x) == a {
      ReadsIsSpan(s, x, rest);
    }
  }
}
