/**
 * The text forms of section 2.2 of RFC 4291 and the canonical one of section 4 of RFC 5952,
 * written independently of the parser's grammar, and the round trip through the parser.
 */
module Ip6Printer {
  import opened Common
  import opened Ip6Grammar

  // ----- The text forms -----

  /** Either case and leading zeros are free; only the value counts. */
  ghost predicate Spells(gs: seq<string>, a: seq<u16>) {
    && |gs| == |a|
    && forall i :: 0 <= i < |gs| ==> IsGroup(gs[i]) && HexValue(gs[i]) == a[i]
  }

  /** The groups with single colons between them. */
  function Join(gs: seq<string>): string {
    if |gs| == 0 then ""
    else if |gs| == 1 then gs[0]
    else Join(gs[..|gs| - 1]) + ":" + gs[|gs| - 1]
  }

  ghost predicate FullForm(t: string, a: seq<u16>, gs: seq<string>) {
    Spells(gs, a) && t == Join(gs)
  }

  /** A double colon replaces a run of one or more zero quads; `b` and `c` are the quads around it. */
  ghost predicate CompressedForm(t: string, a: seq<u16>, p: seq<string>, b: seq<u16>, q: seq<string>, c: seq<u16>) {
    && |b| + |c| < |a|
    && a == b + Zeros(|a| - |b| - |c|) + c
    && Spells(p, b) && Spells(q, c)
    && t == Join(p) + "::" + Join(q)
  }

  ghost predicate IsRendering(t: string, a: seq<u16>) {
    && |a| == N_QUADS
    && ((exists gs :: FullForm(t, a, gs)) || (exists p, b, q, c :: CompressedForm(t, a, p, b, q, c)))
  }

  lemma CompressedIsRendering(t: string, a: seq<u16>, p: seq<string>, b: seq<u16>, q: seq<string>, c: seq<u16>)
    requires |a| == N_QUADS && CompressedForm(t, a, p, b, q, c)
    ensures IsRendering(t, a)
  {
  }

  // ----- The same texts as groups and gaps -----

  function JoinText(gs: seq<string>): Text {
    var n := |gs|;
    if n == 0 then Lead(0)
    else Group(JoinText(gs[..n - 1]).(gap := if n == 1 then 0 else 1), gs[n - 1], 0)
  }

  function CompressedText(p: seq<string>, q: seq<string>): Text {
    var n := |q|;
    if n == 0 then JoinText(p).(gap := 2)
    else Group(CompressedText(p, q[..n - 1]).(gap := if n == 1 then 2 else 1), q[n - 1], 0)
  }

  lemma RenderGap(x: Text, n: nat)
    requires x.gap == 0
    ensures Render(x.(gap := n)) == Render(x) + Colons(n)
  {
    assert Colons(0) == "";
  }

  lemma {:induction false} JoinIsRender(gs: seq<string>)
    ensures Render(JoinText(gs)) == Join(gs)
    ensures JoinText(gs).gap == 0
  {
    var n := |gs|;
    assert Colons(0) == "" && Colons(1) == ":";
    if n > 0 {
      JoinIsRender(gs[..n - 1]);
      RenderGap(JoinText(gs[..n - 1]), if n == 1 then 0 else 1);
    }
  }

  lemma {:induction false} CompressedIsRender(p: seq<string>, q: seq<string>)
    ensures Render(CompressedText(p, q)) == Join(p) + "::" + Join(q)
    ensures CompressedText(p, q).gap == if q == [] then 2 else 0
  {
    var n := |q|;
    assert Colons(0) == "" && Colons(1) == ":" && Colons(2) == "::";
    if n == 0 {
      JoinIsRender(p);
      RenderGap(JoinText(p), 2);
    } else {
      var r := q[..n - 1];
      CompressedIsRender(p, r);
      if n == 1 {
        assert Join(p) + "::" + "" == Join(p) + "::";
      } else {
        RenderGap(CompressedText(p, r), 1);
        Associative(Join(p) + "::", Join(r), ":", q[n - 1]);
      }
    }
  }

  lemma Associative(a: string, b: string, c: string, d: string)
    ensures a + b + c + d == a + (b + c + d)
  {
  }

  lemma {:induction false} JoinIsAdmissible(gs: seq<string>, a: seq<u16>)
    requires |a| <= N_QUADS && Spells(gs, a)
    ensures var x := JoinText(gs); Admissible(x) && DoubleAt(x).None? && x.gap == 0 && Quads(x) == a
  {
    var n := |gs|;
    if n > 0 {
      JoinIsAdmissible(gs[..n - 1], a[..n - 1]);
      GapKeeps(JoinText(gs[..n - 1]), if n == 1 then 0 else 1);
      assert a == a[..n - 1] + [a[n - 1]];
    }
  }

  /** A single colon, or none, behind the last group changes nothing but the gap. */
  lemma GapKeeps(x: Text, n: nat)
    requires Admissible(x) && n < 2 && (x.gap == 2 ==> x.Lead?)
    ensures var y := x.(gap := n);
            Admissible(y) && Quads(y) == Quads(x) && Count(y) == Count(x) && (x.gap < 2 ==> DoubleAt(y) == DoubleAt(x))
  {
  }

  /** Nothing behind the double colon yet. */
  lemma DoubleAtEnd(p: seq<string>, a: seq<u16>)
    requires |a| < N_QUADS && Spells(p, a)
    ensures var x := JoinText(p).(gap := 2); Admissible(x) && DoubleAt(x) == Some(|p|) && Quads(x) == a
  {
    JoinIsAdmissible(p, a);
    JoinIsStrict(p);
  }

  /** One more group behind a text that ends in a separator. */
  lemma OneMoreGroup(x: Text, g: string)
    requires Admissible(x) && Count(x) < N_QUADS && DoubleAt(x).Some? && x.gap > 0 && IsGroup(g)
    ensures var y := Group(x, g, 0);
            Admissible(y) && DoubleAt(y) == DoubleAt(x) && Quads(y) == Quads(x) + [HexValue(g)]
  {
    GroupFits(g);
  }

  lemma {:induction false} CompressedIsAdmissible(p: seq<string>, a: seq<u16>, q: seq<string>, b: seq<u16>)
    requires |a| + |b| < N_QUADS && Spells(p, a) && Spells(q, b)
    ensures var x := CompressedText(p, q);
            && Admissible(x) && DoubleAt(x) == Some(|p|) && Quads(x) == a + b
            && x.gap == if q == [] then 2 else 0
  {
    var n := |q|;
    if n == 0 {
      DoubleAtEnd(p, a);
      assert a + b == a;
    } else {
      var x := CompressedText(p, q[..n - 1]);
      CompressedIsAdmissible(p, a, q[..n - 1], b[..n - 1]);
      if n > 1 {
        GapKeeps(x, 1);
      }
      OneMoreGroup(x.(gap := if n == 1 then 2 else 1), q[n - 1]);
      SnocAssociates(a, b);
    }
  }

  lemma SnocAssociates(a: seq<u16>, b: seq<u16>)
    requires b != []
    ensures a + b == a + b[..|b| - 1] + [b[|b| - 1]]
  {
  }

  lemma CompressedExpands(t: string, a: seq<u16>, p: seq<string>, b: seq<u16>, q: seq<string>, c: seq<u16>)
    requires |a| == N_QUADS && CompressedForm(t, a, p, b, q, c)
    ensures var x := CompressedText(p, q); IsAddress(x) && Expand(x) == a && Count(x) < N_QUADS
  {
    CompressedIsAdmissible(p, b, q, c);
    assert (b + c)[..|b|] == b && (b + c)[|b|..] == c;
  }

  function FirstGap(x: Text): nat {
    if x.Lead? then x.gap else FirstGap(x.before)
  }

  /** No single colon at either end, and a double colon only where quads are missing. */
  predicate Strict(x: Text) {
    FirstGap(x) != 1 && x.gap != 1 && (DoubleAt(x).Some? ==> Count(x) < N_QUADS)
  }

  lemma {:induction false} JoinIsStrict(gs: seq<string>)
    ensures var x := JoinText(gs); FirstGap(x) == 0 == x.gap && DoubleAt(x).None? && Count(x) == |gs|
  {
    if gs != [] {
      JoinIsStrict(gs[..|gs| - 1]);
    }
  }

  lemma {:induction false} CompressedIsStrict(p: seq<string>, q: seq<string>)
    ensures var x := CompressedText(p, q); FirstGap(x) != 1 && x.gap != 1 && Count(x) == |p| + |q|
  {
    if q == [] {
      JoinIsStrict(p);
    } else {
      CompressedIsStrict(p, q[..|q| - 1]);
    }
  }

  /** The cut of a rendering, which is unique. */
  lemma RenderingText(t: string, a: seq<u16>) returns (x: Text)
    requires IsRendering(t, a)
    ensures IsAddress(x) && Strict(x) && Render(x) == t && Tokens(t) == x && Expand(x) == a
  {
    if gs :| FullForm(t, a, gs) {
      x := JoinText(gs);
      JoinIsRender(gs);
      JoinIsAdmissible(gs, a);
      JoinIsStrict(gs);
    } else {
      var p, b, q, c :| CompressedForm(t, a, p, b, q, c);
      x := CompressedText(p, q);
      CompressedIsRender(p, q);
      CompressedExpands(t, a, p, b, q, c);
      CompressedIsStrict(p, q);
    }
    TokensRender(x);
  }

  // ----- Round trips -----

  /** A grammatical text is read to its end and no further, unless a hex digit or a colon follows. */
  lemma ParseText(x: Text, rest: string)
    requires IsAddress(x)
    requires rest == "" || !InAlphabet(rest[0])
    ensures Parse(Render(x) + rest) == Some((Expand(x), rest))
  {
    var t := Render(x);
    TokensRender(x);
    RenderAlphabet(x);
    CleanGaps(t);
    AdmissibleGaps(x);
    if rest != "" {
      assert (t + rest[..1])[|t|] == rest[0];
    }
    assert Reads(t + rest, x, rest);
    ReadsIsSpan(t + rest, x, rest);
    assert (t + rest)[|t|..] == rest;
  }

  lemma AdmissibleGaps(x: Text)
    requires Admissible(x)
    ensures SmallGaps(x)
  {
  }

  /** Every rendering of every address is read back, unless a hex digit or a colon follows. */
  lemma RoundTrip(t: string, a: seq<u16>, rest: string)
    requires IsRendering(t, a)
    requires rest == "" || !InAlphabet(rest[0])
    ensures Parse(t + rest) == Some((a, rest))
  {
    var x := RenderingText(t, a);
    ParseText(x, rest);
  }

  // ----- Where the parser goes beyond the standard -----

  /** The groups of a text and their values. */
  function Groups(x: Text): seq<string> {
    if x.Lead? then [] else Groups(x.before) + [x.digits]
  }

  lemma {:induction false} GroupsSpell(x: Text)
    requires Admissible(x)
    ensures Spells(Groups(x), Quads(x))
  {
    if x.Group? {
      GroupsSpell(x.before);
    }
  }

  lemma {:induction false} SingleText(x: Text)
    requires Admissible(x) && DoubleAt(x).None? && FirstGap(x) == 0
    ensures x.(gap := 0) == JoinText(Groups(x))
  {
    if x.Group? {
      SingleText(x.before);
      assert (Groups(x.before) + [x.digits])[..|Groups(x.before)|] == Groups(x.before);
    }
  }

  /** The groups on either side of the double colon. */
  lemma {:induction false} DoubleText(x: Text) returns (p: seq<string>, q: seq<string>)
    requires Admissible(x) && DoubleAt(x).Some? && FirstGap(x) != 1
    ensures x.(gap := if q == [] then 2 else 0) == CompressedText(p, q)
    ensures Groups(x) == p + q && DoubleAt(x) == Some(|p|)
    ensures x.gap == 2 <==> q == []
  {
    if x.gap == 2 {
      p, q := Groups(x), [];
      if x.Group? {
        assert FirstGap(x) == 0 by { DoubleNotFirst(x.before); }
        SingleText(x.(gap := 0));
      }
      GroupsSpell(x);
    } else {
      var r;
      p, r := DoubleText(x.before);
      q := r + [x.digits];
      assert q[..|r|] == r;
    }
  }

  lemma DoubleNotFirst(x: Text)
    requires Admissible(x) && DoubleAt(x).None?
    ensures FirstGap(x) < 2
  {
  }

  lemma DoubleIsRendering(x: Text)
    requires IsAddress(x) && Strict(x) && DoubleAt(x).Some?
    ensures IsRendering(Render(x), Expand(x))
  {
    var p, q := DoubleText(x);
    CompressedIsRender(p, q);
    GroupsSpell(x);
    SpellsSplit(p, q, Quads(x));
    CompressedIsRendering(Render(x), Expand(x), p, Quads(x)[..|p|], q, Quads(x)[|p|..]);
  }

  lemma SpellsSplit(p: seq<string>, q: seq<string>, a: seq<u16>)
    requires Spells(p + q, a)
    ensures Spells(p, a[..|p|]) && Spells(q, a[|p|..])
  {
    assert forall i :: 0 <= i < |p| ==> (p + q)[i] == p[i];
    assert forall i :: 0 <= i < |q| ==> (p + q)[|p| + i] == q[i];
  }

  /**
   * An accepted text is a rendering of its address in the sense of RFC 4291 exactly when it is
   * strict; the parser's own language is larger.
   */
  lemma AcceptedIsRendering(x: Text)
    requires IsAddress(x)
    ensures IsRendering(Render(x), Expand(x)) <==> Strict(x)
  {
    if IsRendering(Render(x), Expand(x)) {
      TokensRender(x);
      var y := RenderingText(Render(x), Expand(x));
    } else if Strict(x) {
      if DoubleAt(x).Some? {
        DoubleIsRendering(x);
      } else {
        DoubleNotFirst(x);
        SingleText(x);
        JoinIsRender(Groups(x));
        GroupsSpell(x);
        assert FullForm(Render(x), Expand(x), Groups(x));
      }
    }
  }

  /** Accepted although RFC 4291 does not allow it: a single colon behind the last group. */
  lemma StrayColon(gs: seq<string>, a: seq<u16>)
    requires |a| == N_QUADS && Spells(gs, a)
    ensures Parse(Join(gs) + ":") == Some((a, "")) && !IsRendering(Join(gs) + ":", a)
  {
    var x := JoinText(gs).(gap := 1);
    JoinIsRender(gs);
    JoinIsAdmissible(gs, a);
    GapKeeps(JoinText(gs), 1);
    RenderGap(JoinText(gs), 1);
    assert Colons(1) == ":" && Render(x) + "" == Render(x);
    ParseText(x, "");
    AcceptedIsRendering(x);
  }

  /** Accepted although RFC 4291 does not allow it: a double colon next to eight groups. */
  lemma IdleDouble(gs: seq<string>, a: seq<u16>)
    requires |a| == N_QUADS && Spells(gs, a)
    ensures Parse("::" + Join(gs)) == Some((a, "")) && !IsRendering("::" + Join(gs), a)
  {
    var x := CompressedText([], gs);
    CompressedIsRender([], gs);
    assert "" + "::" + Join(gs) == "::" + Join(gs) && Render(x) + "" == Render(x);
    IdleIsAdmissible(gs, a);
    assert Quads(x)[..0] + Zeros(0) + Quads(x)[0..] == a;
    ParseText(x, "");
    AcceptedIsRendering(x);
  }

  lemma {:induction false} IdleIsAdmissible(gs: seq<string>, a: seq<u16>)
    requires |a| <= N_QUADS && Spells(gs, a)
    ensures var x := CompressedText([], gs);
            && Admissible(x) && DoubleAt(x) == Some(0) && Quads(x) == a
            && x.gap == if gs == [] then 2 else 0
  {
    var n := |gs|;
    if n > 0 {
      IdleIsAdmissible(gs[..n - 1], a[..n - 1]);
      if n > 1 {
        GapKeeps(CompressedText([], gs[..n - 1]), 1);
      }
      assert a == a[..n - 1] + [a[n - 1]];
    }
  }

  // ----- The canonical text -----

  /** Lower case, without leading zeros. */
  function HexText(v: nat): (t: string)
    ensures |t| >= 1 && AllHex(t) && HexValue(t) == v
    ensures v > 0 ==> t[0] != '0'
    ensures forall i :: 0 <= i < |t| ==> !('A' <= t[i] <= 'F')
  {
    var d := if v % 16 < 10 then '0' + (v % 16) as char else 'a' + (v % 16 - 10) as char;
    if v < 16 then
      assert [d][..0] == "";
      [d]
    else
      var t := HexText(v / 16);
      assert (t + [d])[..|t|] == t;
      t + [d]
  }

  lemma {:induction false} HexTextLength(v: nat, n: nat)
    requires n > 0 && v < Pow16(n)
    ensures |HexText(v)| <= n
    decreases n
  {
    if v >= 16 {
      assert n > 1 && v / 16 < Pow16(n - 1);
      HexTextLength(v / 16, n - 1);
    }
  }

  function HexTexts(a: seq<u16>): seq<string> {
    seq(|a|, i requires 0 <= i < |a| => HexText(a[i]))
  }

  lemma HexTextsSpell(a: seq<u16>)
    ensures Spells(HexTexts(a), a)
  {
    assert Pow16(4) == 0x1_0000;
    forall i | 0 <= i < |a|
      ensures IsGroup(HexTexts(a)[i])
    {
      HexTextLength(a[i], 4);
    }
  }

  /** The length of the run of zero quads that starts at `i`. */
  function RunAt(a: seq<u16>, i: nat): (r: nat)
    requires i <= |a|
    ensures i + r <= |a| && forall k :: i <= k < i + r ==> a[k] == 0
    ensures i + r < |a| ==> a[i + r] != 0
    decreases |a| - i
  {
    if i < |a| && a[i] == 0 then 1 + RunAt(a, i + 1) else 0
  }

  /** The first of the longest zero runs that start before `n`. */
  function LongestRun(a: seq<u16>, n: nat): (s: nat)
    requires 0 < n <= |a|
    ensures s < n
    ensures forall i :: 0 <= i < n ==> RunAt(a, i) <= RunAt(a, s)
    ensures forall i :: 0 <= i < s ==> RunAt(a, i) < RunAt(a, s)
  {
    if n == 1 then 0
    else
      var s := LongestRun(a, n - 1);
      if RunAt(a, n - 1) > RunAt(a, s) then n - 1 else s
  }

  /** The recommended text: only the first longest run of two or more zeros is shortened. */
  function Canonical(a: seq<u16>): string
    requires |a| == N_QUADS
  {
    var s := LongestRun(a, N_QUADS);
    var r := RunAt(a, s);
    if r >= 2 then Join(HexTexts(a[..s])) + "::" + Join(HexTexts(a[s + r..])) else Join(HexTexts(a))
  }

  /** Any texts for what stands before and behind a run of zeros make a compressed text. */
  lemma CompressParts(a: seq<u16>, s: nat, r: nat, p: seq<string>, q: seq<string>)
    requires |a| == N_QUADS && 0 < r && s + r <= N_QUADS
    requires forall k :: s <= k < s + r ==> a[k] == 0
    requires Spells(p, a[..s]) && Spells(q, a[s + r..])
    ensures IsRendering(Join(p) + "::" + Join(q), a)
  {
    SplitTwice(a, s, s + r);
    assert a[s..s + r] == Zeros(r);
    CompressedIsRendering(Join(p) + "::" + Join(q), a, p, a[..s], q, a[s + r..]);
  }

  lemma CompressRun(a: seq<u16>, s: nat, r: nat)
    requires |a| == N_QUADS && 0 < r && s + r <= N_QUADS
    requires forall k :: s <= k < s + r ==> a[k] == 0
    ensures IsRendering(Join(HexTexts(a[..s])) + "::" + Join(HexTexts(a[s + r..])), a)
  {
    HexTextsSpell(a[..s]);
    HexTextsSpell(a[s + r..]);
    CompressParts(a, s, r, HexTexts(a[..s]), HexTexts(a[s + r..]));
  }

  lemma FullIsRendering(a: seq<u16>)
    requires |a| == N_QUADS
    ensures IsRendering(Join(HexTexts(a)), a)
  {
    HexTextsSpell(a);
    assert FullForm(Join(HexTexts(a)), a, HexTexts(a));
  }

  lemma CanonicalIsRendering(a: seq<u16>)
    requires |a| == N_QUADS
    ensures IsRendering(Canonical(a), a)
  {
    var s := LongestRun(a, N_QUADS);
    var r := RunAt(a, s);
    if r >= 2 {
      CompressRun(a, s, r);
    } else {
      FullIsRendering(a);
    }
  }

  // ----- What the recommended text looks like -----

  /** Quads `i` to `i + m` are zero. */
  ghost predicate ZeroRun(a: seq<u16>, i: nat, m: nat) {
    i + m <= |a| && forall k :: i <= k < i + m ==> a[k] == 0
  }

  lemma {:induction false} RunAtIsLongest(a: seq<u16>, i: nat, m: nat)
    requires ZeroRun(a, i, m)
    ensures m <= RunAt(a, i)
    decreases m
  {
    if m > 0 {
      assert a[i] == 0;
      RunAtIsLongest(a, i + 1, m - 1);
    }
  }

  /** The shortest lower-case spelling of a group. */
  predicate Plain(g: string) {
    (|g| > 1 ==> g[0] != '0') && forall i :: 0 <= i < |g| ==> !('A' <= g[i] <= 'F')
  }

  lemma {:induction false} JoinGroups(gs: seq<string>)
    ensures Groups(JoinText(gs)) == gs
  {
    var n := |gs|;
    if n > 0 {
      JoinGroups(gs[..n - 1]);
      GapKeepsGroups(JoinText(gs[..n - 1]), if n == 1 then 0 else 1);
    }
  }

  lemma GapKeepsGroups(x: Text, n: nat)
    ensures Groups(x.(gap := n)) == Groups(x)
  {
  }

  lemma {:induction false} CompressedGroups(p: seq<string>, q: seq<string>)
    ensures Groups(CompressedText(p, q)) == p + q
  {
    var n := |q|;
    if n == 0 {
      JoinGroups(p);
      GapKeepsGroups(JoinText(p), 2);
    } else {
      CompressedGroups(p, q[..n - 1]);
      GapKeepsGroups(CompressedText(p, q[..n - 1]), if n == 1 then 2 else 1);
      assert p + q == p + q[..n - 1] + [q[n - 1]];
    }
  }

  lemma HexTextsPlain(a: seq<u16>)
    ensures AllPlain(HexTexts(a))
  {
    forall i | 0 <= i < |a|
      ensures Plain(HexTexts(a)[i])
    {
      assert Pow16(1) == 16;
      if a[i] == 0 {
        HexTextLength(0, 1);
      }
    }
  }

  /** The double colon of `x`, if it has one, stands for the first of the longest runs of two or more zeros. */
  ghost predicate ShortensFirstLongest(x: Text, a: seq<u16>) {
    match DoubleAt(x)
    case None => forall i: nat, m: nat :: ZeroRun(a, i, m) ==> m < 2
    case Some(k) =>
      && Count(x) <= N_QUADS - 2 && ZeroRun(a, k, N_QUADS - Count(x))
      && forall i: nat, m: nat :: ZeroRun(a, i, m) ==> m <= N_QUADS - Count(x) && (i < k ==> m < N_QUADS - Count(x))
  }

  lemma RunsAreBounded(a: seq<u16>)
    requires |a| == N_QUADS
    ensures var s := LongestRun(a, N_QUADS);
            forall i: nat, m: nat :: ZeroRun(a, i, m) ==> m <= RunAt(a, s) && (i < s ==> m < RunAt(a, s) || m == 0)
  {
    var s := LongestRun(a, N_QUADS);
    forall i: nat, m: nat | ZeroRun(a, i, m)
      ensures m <= RunAt(a, s) && (i < s ==> m < RunAt(a, s) || m == 0)
    {
      if m > 0 {
        RunAtIsLongest(a, i, m);
      }
    }
  }

  ghost predicate AllPlain(gs: seq<string>) {
    forall i :: 0 <= i < |gs| ==> Plain(gs[i])
  }

  lemma CompressedCut(p: seq<string>, b: seq<u16>, q: seq<string>, c: seq<u16>)
    requires |b| + |c| < N_QUADS && Spells(p, b) && Spells(q, c) && AllPlain(p) && AllPlain(q)
    ensures var t := Join(p) + "::" + Join(q);
            var x := Tokens(t);
            && Render(x) == t && AllPlain(Groups(x))
            && DoubleAt(x) == Some(|b|) && Count(x) == |b| + |c|
  {
    var x := CompressedText(p, q);
    CompressedIsAdmissible(p, b, q, c);
    CompressedIsRender(p, q);
    CompressedGroups(p, q);
    TokensRender(x);
    assert Count(x) == |Quads(x)|;
  }

  lemma FullCut(gs: seq<string>, a: seq<u16>)
    requires |a| <= N_QUADS && Spells(gs, a) && AllPlain(gs)
    ensures var x := Tokens(Join(gs)); Render(x) == Join(gs) && AllPlain(Groups(x)) && DoubleAt(x).None?
  {
    JoinIsAdmissible(gs, a);
    JoinIsRender(gs);
    JoinGroups(gs);
    TokensRender(JoinText(gs));
  }

  /** The text has the recommended shape for `a`. */
  ghost predicate Recommended(t: string, a: seq<u16>) {
    var x := Tokens(t);
    Render(x) == t && AllPlain(Groups(x)) && ShortensFirstLongest(x, a)
  }

  lemma ShortenedIsRecommended(a: seq<u16>, s: nat, r: nat)
    requires |a| == N_QUADS && 2 <= r && ZeroRun(a, s, r)
    requires forall i: nat, m: nat :: ZeroRun(a, i, m) ==> m <= r && (i < s ==> m < r)
    ensures Recommended(Join(HexTexts(a[..s])) + "::" + Join(HexTexts(a[s + r..])), a)
  {
    HexTextsSpell(a[..s]);
    HexTextsSpell(a[s + r..]);
    HexTextsPlain(a[..s]);
    HexTextsPlain(a[s + r..]);
    CompressedCut(HexTexts(a[..s]), a[..s], HexTexts(a[s + r..]), a[s + r..]);
  }

  lemma FullIsRecommended(a: seq<u16>)
    requires |a| == N_QUADS && forall i: nat, m: nat :: ZeroRun(a, i, m) ==> m < 2
    ensures Recommended(Join(HexTexts(a)), a)
  {
    HexTextsSpell(a);
    HexTextsPlain(a);
    FullCut(HexTexts(a), a);
  }

  /**
   * What section 4 of RFC 5952 asks of the text: no leading zeros, lower case, and a double colon
   * exactly where the first of the longest runs of at least two zeros stands.
   */
  lemma CanonicalIsRecommended(a: seq<u16>)
    requires |a| == N_QUADS
    ensures Recommended(Canonical(a), a)
  {
    var s := LongestRun(a, N_QUADS);
    var r := RunAt(a, s);
    RunsAreBounded(a);
    if r >= 2 {
      ShortenedIsRecommended(a, s, r);
    } else {
      FullIsRecommended(a);
    }
  }

  /** Printing and parsing an address gives it back, unless a hex digit or a colon follows. */
  lemma CanonicalRoundTrip(a: seq<u16>, rest: string)
    requires |a| == N_QUADS
    requires rest == "" || !InAlphabet(rest[0])
    ensures Parse(Canonical(a) + rest) == Some((a, rest))
  {
    CanonicalIsRendering(a);
    RoundTrip(Canonical(a), a, rest);
  }
}
