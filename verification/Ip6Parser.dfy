/**
 * `unformat_ip6_address`: a one-pass automaton over the input, then an in-place shift that
 * makes room for the zeros a double colon stands for.
 */
module Ip6Parser {
  import opened Common
  import opened Ip6Grammar

  /** Big-endian bytes, and how the quads are read back from them. */
  function NetworkBytes(a: seq<u16>): (b: seq<u8>)
    ensures |b| == 2 * |a|
    ensures forall i :: 0 <= i < |a| ==> a[i] == 0x100 * (b[2 * i] as int) + b[2 * i + 1] as int
  {
    seq(2 * |a|, i requires 0 <= i < 2 * |a| => if i % 2 == 0 then a[i / 2] / 0x100 else a[i / 2] % 0x100)
  }

  lemma NetworkBytesSnoc(a: seq<u16>, q: u16)
    ensures NetworkBytes(a + [q]) == NetworkBytes(a) + [q / 0x100, q % 0x100]
  {
    var b, n := NetworkBytes(a + [q]), |a|;
    assert (2 * n) / 2 == n == (2 * n + 1) / 2 && (2 * n) % 2 == 0 && (2 * n + 1) % 2 == 1;
    assert b[2 * n] == q / 0x100 && b[2 * n + 1] == q % 0x100;
    assert b[..2 * n] == NetworkBytes(a);
    assert b == b[..2 * n] + [b[2 * n], b[2 * n + 1]];
  }

  /** The input being unformatted: characters are taken one at a time and the last one can be put back. */
  class UnformatInput {
    const buffer: string
    var index: nat

    constructor (s: string)
      ensures buffer == s && index == 0
    {
      buffer := s;
      index := 0;
    }

    ghost predicate Valid()
      reads this
    {
      index <= |buffer|
    }

    method GetInput() returns (c: Option<char>)
      requires Valid()
      modifies this
      ensures Valid()
      ensures old(index) < |buffer| ==> c == Some(buffer[old(index)]) && index == old(index) + 1
      ensures old(index) == |buffer| ==> c == None && index == old(index)
    {
      if index == |buffer| {
        return None;
      }
      c := Some(buffer[index]);
      index := index + 1;
    }

    method PutInput()
      requires Valid() && index > 0
      modifies this
      ensures Valid() && index == old(index) - 1
    {
      index := index - 1;
    }
  }

  /** A group that no colon has closed yet. */
  predicate Pending(x: Text) {
    x.Group? && x.gap == 0
  }

  /** The text whose groups are already in the quad array. */
  function Closed(x: Text): Text {
    if Pending(x) then x.before else x
  }

  predicate DoubleIs(x: Text, doubleColonIndex: nat) {
    doubleColonIndex == match DoubleAt(x) case Some(k) => k case None => N_QUADS
  }

  /** What the automaton's variables say about the text `x` read so far. */
  ghost predicate Tracks(x: Text, quads: seq<u16>, hexQuad: nat, nHexQuads: nat, nHexDigits: nat, nColon: nat,
                         doubleColonIndex: nat)
  {
    && Admissible(x)
    && |quads| == N_QUADS
    && nHexQuads == Count(Closed(x)) <= N_QUADS
    && quads[..nHexQuads] == Quads(Closed(x))
    && (if Pending(x) then nHexDigits == |x.digits| && hexQuad == HexValue(x.digits)
        else nHexDigits == hexQuad == 0)
    && nColon == x.gap
    && DoubleIs(x, doubleColonIndex)
  }

  /** A digit is refused exactly when the text stops being admissible. */
  lemma DigitStep(x: Text, c: char, quads: seq<u16>, hexQuad: nat, nHexQuads: nat, nHexDigits: nat, nColon: nat,
                  doubleColonIndex: nat)
    requires IsHex(c)
    requires Tracks(x, quads, hexQuad, nHexQuads, nHexDigits, nColon, doubleColonIndex)
    ensures Admissible(AddChar(x, c)) <==> nHexQuads < N_QUADS && nHexDigits < 4
    ensures nHexQuads < N_QUADS && nHexDigits < 4 ==>
              Tracks(AddChar(x, c), quads, 16 * hexQuad + HexDigit(c), nHexQuads, nHexDigits + 1, 0, doubleColonIndex)
  {
    if Pending(x) {
      assert (x.digits + [c])[..|x.digits|] == x.digits;
    } else {
      assert [c][..0] == "" && HexValue("") == 0;
    }
  }

  /** A colon is refused exactly when the text stops being admissible; otherwise it closes a pending group. */
  lemma ColonStep(x: Text, quads: seq<u16>, hexQuad: nat, nHexQuads: nat, nHexDigits: nat, nColon: nat,
                  doubleColonIndex: nat)
    requires Tracks(x, quads, hexQuad, nHexQuads, nHexDigits, nColon, doubleColonIndex) && nColon < 2
    ensures doubleColonIndex <= N_QUADS
    ensures Admissible(AddChar(x, ':')) <==> nHexQuads < N_QUADS && (nColon == 1 ==> doubleColonIndex == N_QUADS)
    ensures Admissible(AddChar(x, ':')) ==>
              var d := if nColon == 1 then nHexQuads else doubleColonIndex;
              if nHexDigits > 0
              then hexQuad < 0x1_0000 &&
                   Tracks(AddChar(x, ':'), quads[nHexQuads := hexQuad], 0, nHexQuads + 1, 0, nColon + 1, d)
              else Tracks(AddChar(x, ':'), quads, hexQuad, nHexQuads, 0, nColon + 1, d)
  {
    DoubleBelow(x);
    if Pending(x) {
      ColonCloses(x, quads, hexQuad, nHexQuads, nHexDigits, doubleColonIndex);
    }
  }

  lemma ColonCloses(x: Text, quads: seq<u16>, hexQuad: nat, nHexQuads: nat, nHexDigits: nat, doubleColonIndex: nat)
    requires Tracks(x, quads, hexQuad, nHexQuads, nHexDigits, 0, doubleColonIndex) && Pending(x)
    ensures nHexDigits > 0 && nHexQuads < N_QUADS && hexQuad < 0x1_0000 && Admissible(AddChar(x, ':'))
    ensures Tracks(AddChar(x, ':'), quads[nHexQuads := hexQuad], 0, nHexQuads + 1, 0, 1, doubleColonIndex)
  {
    GroupFits(x.digits);
    assert Quads(x) == Quads(x.before) + [hexQuad];
  }

  /** A double colon of an admissible text never stands behind eight groups. */
  lemma DoubleBelow(x: Text)
    requires Admissible(x)
    ensures DoubleAt(x).Some? ==> DoubleAt(x).value < N_QUADS
  {
  }

  /** The shift and the zero fill work on overlapping ranges of one array. */
  method ExpandDoubleColon(hexQuads: array<u16>, nHexQuads: nat, doubleColonIndex: nat)
    requires hexQuads.Length == N_QUADS && doubleColonIndex <= nHexQuads <= N_QUADS
    modifies hexQuads
    ensures hexQuads[..] == old(hexQuads[..doubleColonIndex]) + Zeros(N_QUADS - nHexQuads)
                            + old(hexQuads[doubleColonIndex..nHexQuads])
  {
    var nZero := N_QUADS - nHexQuads;
    ghost var before := hexQuads[..];
    ShiftBack(hexQuads, nHexQuads, doubleColonIndex, nZero);
    FillZeros(hexQuads, doubleColonIndex, nZero);
    ExpandedParts(before, hexQuads[..], nHexQuads, doubleColonIndex, nZero);
  }

  /** The quads behind the double colon move to the end, the last one first. */
  method ShiftBack(hexQuads: array<u16>, nHexQuads: nat, doubleColonIndex: nat, nZero: nat)
    requires hexQuads.Length == N_QUADS == nHexQuads + nZero && doubleColonIndex <= nHexQuads
    modifies hexQuads
    ensures forall j :: 0 <= j < doubleColonIndex ==> hexQuads[j] == old(hexQuads[j])
    ensures forall j :: doubleColonIndex <= j < nHexQuads ==> hexQuads[nZero + j] == old(hexQuads[j])
  {
    var i: int := nHexQuads - 1;
    while i >= doubleColonIndex
      invariant doubleColonIndex - 1 <= i < nHexQuads
      invariant forall j :: 0 <= j <= i ==> hexQuads[j] == old(hexQuads[j])
      invariant forall j :: i < j < nHexQuads ==> hexQuads[nZero + j] == old(hexQuads[j])
    {
      hexQuads[nZero + i] := hexQuads[i];
      i := i - 1;
    }
  }

  method FillZeros(hexQuads: array<u16>, doubleColonIndex: nat, nZero: nat)
    requires doubleColonIndex + nZero <= hexQuads.Length
    modifies hexQuads
    ensures forall j :: 0 <= j < hexQuads.Length ==>
              hexQuads[j] == if doubleColonIndex <= j < doubleColonIndex + nZero then 0 else old(hexQuads[j])
  {
    var i := 0;
    while i < nZero
      invariant 0 <= i <= nZero
      invariant forall j :: 0 <= j < hexQuads.Length ==>
                  hexQuads[j] == if doubleColonIndex <= j < doubleColonIndex + i then 0 else old(hexQuads[j])
    {
      hexQuads[doubleColonIndex + i] := 0;
      i := i + 1;
    }
  }

  lemma ExpandedParts(before: seq<u16>, after: seq<u16>, n: nat, d: nat, nZero: nat)
    requires |before| == |after| == N_QUADS == n + nZero && d <= n
    requires forall j :: 0 <= j < d ==> after[j] == before[j]
    requires forall j :: d <= j < d + nZero ==> after[j] == 0
    requires forall j :: d <= j < n ==> after[nZero + j] == before[j]
    ensures after == before[..d] + Zeros(nZero) + before[d..n]
  {
    SplitTwice(after, d, d + nZero);
    assert after[..d] == before[..d];
    assert after[d..d + nZero] == Zeros(nZero);
    forall j | 0 <= j < n - d
      ensures after[d + nZero..][j] == before[d..n][j]
    {
      assert after[nZero + (d + j)] == before[d + j];
    }
    assert after[d + nZero..] == before[d..n];
  }

  /** The first `k` characters of `s` belong to its span, and `x` is how they are cut. */
  ghost predicate ReadSoFar(s: string, k: nat, x: Text) {
    k <= |s| && Scan(s, k) == Span(s) && x == Tokens(s[..k])
  }

  /** The first `k` characters cannot become an address any more, and the last of them is to blame. */
  ghost predicate Refused(s: string, k: int) {
    0 < k <= Span(s) && Admissible(Tokens(s[..k - 1])) && !Admissible(Tokens(s[..k]))
  }

  /** The whole span of `s` was read and is admissible; its groups are stored. */
  ghost predicate Scanned(s: string, quads: seq<u16>, nHexQuads: nat, doubleColonIndex: nat) {
    var x := Tokens(s[..Span(s)]);
    && Admissible(x)
    && nHexQuads == Count(x) <= |quads| && quads[..nHexQuads] == Quads(x)
    && DoubleIs(x, doubleColonIndex)
  }

  /** Storing the pending group, if any, completes the scan. */
  lemma EndOfScan(s: string, x: Text, quads: seq<u16>, hexQuad: nat, nHexQuads: nat, nHexDigits: nat, nColon: nat,
                  doubleColonIndex: nat)
    requires ReadSoFar(s, Span(s), x)
    requires Tracks(x, quads, hexQuad, nHexQuads, nHexDigits, nColon, doubleColonIndex)
    ensures if nHexDigits > 0 then
              && nHexQuads < N_QUADS && hexQuad < 0x1_0000
              && Scanned(s, quads[nHexQuads := hexQuad], nHexQuads + 1, doubleColonIndex)
            else Scanned(s, quads, nHexQuads, doubleColonIndex)
  {
    if Pending(x) {
      GroupFits(x.digits);
      assert Quads(x) == Quads(x.before) + [hexQuad];
    }
  }

  /** One character of the automaton, a hex digit or a colon that is not the third in a row. */
  method Feed(ghost x: Text, c: char, hexQuads: array<u16>, hexQuad0: nat, nHexQuads0: nat, nHexDigits0: nat,
              nColon0: nat, doubleColonIndex0: nat)
    returns (ok: bool, hexQuad: nat, nHexQuads: nat, nHexDigits: nat, nColon: nat, doubleColonIndex: nat)
    requires hexQuads.Length == N_QUADS
    requires Tracks(x, hexQuads[..], hexQuad0, nHexQuads0, nHexDigits0, nColon0, doubleColonIndex0)
    requires InAlphabet(c) && (c == ':' ==> nColon0 < 2)
    modifies hexQuads
    ensures ok <==> Admissible(AddChar(x, c))
    ensures ok ==> Tracks(AddChar(x, c), hexQuads[..], hexQuad, nHexQuads, nHexDigits, nColon, doubleColonIndex)
  {
    hexQuad, nHexQuads, nHexDigits, nColon, doubleColonIndex :=
      hexQuad0, nHexQuads0, nHexDigits0, nColon0, doubleColonIndex0;
    var hexDigit := HexDigit(c);
    if hexDigit >= 16 {
      nColon := nColon + 1;
      ColonStep(x, hexQuads[..], hexQuad, nHexQuads, nHexDigits, nColon0, doubleColonIndex);
    } else {
      DigitStep(x, c, hexQuads[..], hexQuad, nHexQuads, nHexDigits, nColon0, doubleColonIndex);
    }
    ok := false;

    // A ninth group.
    if nHexQuads >= N_QUADS {
      return;
    }

    if hexDigit < 16 {
      hexQuad := 16 * hexQuad + hexDigit;
      // A fifth digit.
      if nHexDigits >= 4 {
        return;
      }
      nColon := 0;
      nHexDigits := nHexDigits + 1;
    }

    // Save the position of the double colon; there is at most one.
    if nColon == 2 {
      if doubleColonIndex < N_QUADS {
        return;
      }
      doubleColonIndex := nHexQuads;
    }

    if nColon > 0 && nHexDigits > 0 {
      hexQuads[nHexQuads] := hexQuad;
      nHexQuads := nHexQuads + 1;
      hexQuad := 0;
      nHexDigits := 0;
    }
    ok := true;
  }

  /**
   * The scanning loop. It refuses as soon as the text can no longer become an address; otherwise
   * it stops behind the longest clean prefix with every group stored.
   */
  method ScanGroups(input: UnformatInput, hexQuads: array<u16>)
    returns (ok: bool, nHexQuads: nat, doubleColonIndex: nat)
    requires input.Valid() && hexQuads.Length == N_QUADS
    modifies input, hexQuads
    ensures input.Valid()
    ensures !ok ==> var s := input.buffer[old(input.index)..];
                    Parse(s).None? && Refused(s, input.index - old(input.index))
    ensures ok ==> var s := input.buffer[old(input.index)..];
                   input.index == old(input.index) + Span(s) && Scanned(s, hexQuads[..], nHexQuads, doubleColonIndex)
  {
    var hexQuad: nat, nHexDigits: nat, nColon: nat := 0, 0, 0;
    nHexQuads := 0;
    doubleColonIndex := N_QUADS;
    ghost var start := input.index;
    ghost var s := input.buffer[start..];
    ghost var x := Lead(0);
    ghost var k: nat := 0;
    assert s[..0] == "";
    while true
      invariant ReadSoFar(s, k, x) && input.index == start + k
      invariant Tracks(x, hexQuads[..], hexQuad, nHexQuads, nHexDigits, nColon, doubleColonIndex)
      decreases |s| - k
    {
      var c := input.GetInput();
      if c.None? {
        break;
      }
      NextChar(s, k, x);
      if !InAlphabet(c.value) || (c.value == ':' && nColon >= 2) {
        input.PutInput();
        break;
      }
      ok, hexQuad, nHexQuads, nHexDigits, nColon, doubleColonIndex :=
        Feed(x, c.value, hexQuads, hexQuad, nHexQuads, nHexDigits, nColon, doubleColonIndex);
      x, k := AddChar(x, c.value), k + 1;
      if !ok {
        RefusedForGood(s, k, x);
        return;
      }
    }

    EndOfScan(s, x, hexQuads[..], hexQuad, nHexQuads, nHexDigits, nColon, doubleColonIndex);
    if nHexDigits > 0 {
      hexQuads[nHexQuads] := hexQuad;
      nHexQuads := nHexQuads + 1;
    }
    ok := true;
  }

  method StoreQuads(hexQuads: array<u16>, result: array<u8>)
    requires result.Length == 2 * hexQuads.Length
    requires hexQuads as object != result
    modifies result
    ensures result[..] == NetworkBytes(hexQuads[..])
  {
    var i := 0;
    while i < hexQuads.Length
      invariant 0 <= i <= hexQuads.Length
      invariant hexQuads[..] == old(hexQuads[..])
      invariant result[..2 * i] == NetworkBytes(hexQuads[..i])
    {
      result[2 * i], result[2 * i + 1] := hexQuads[i] / 0x100, hexQuads[i] % 0x100;
      NetworkBytesSnoc(hexQuads[..i], hexQuads[i]);
      assert hexQuads[..i + 1] == hexQuads[..i] + [hexQuads[i]];
      assert result[..2 * (i + 1)] == result[..2 * i] + [result[2 * i], result[2 * i + 1]];
      i := i + 1;
    }
    assert hexQuads[..i] == hexQuads[..] && result[..2 * i] == result[..];
  }

  /** What the double colon leaves behind is the address the grammar gives, if there is one. */
  lemma ExpandedIs(x: Text, n: nat, d: nat, before: seq<u16>, after: seq<u16>)
    requires Admissible(x) && |before| == N_QUADS && n == Count(x) <= N_QUADS && before[..n] == Quads(x)
    requires DoubleIs(x, d) && (d < N_QUADS ==> d <= n)
    requires after == if d < N_QUADS then before[..d] + Zeros(N_QUADS - n) + before[d..n] else before
    ensures IsAddress(x) <==> d < N_QUADS || n == N_QUADS
    ensures IsAddress(x) ==> after == Expand(x)
  {
    var qs := Quads(x);
    DoubleBelow(x);
    if d < N_QUADS {
      assert before[..d] == qs[..d] && before[d..n] == qs[d..];
    } else if n == N_QUADS {
      assert before == before[..n];
    }
  }

  /** Expands the double colon, if there is one; all eight quads are there exactly for an address. */
  method ExpandIfDouble(ghost s: string, hexQuads: array<u16>, n: nat, doubleColonIndex: nat) returns (nHexQuads: nat)
    requires hexQuads.Length == N_QUADS && Scanned(s, hexQuads[..], n, doubleColonIndex)
    modifies hexQuads
    ensures var x := Tokens(s[..Span(s)]);
            && (nHexQuads >= N_QUADS <==> IsAddress(x))
            && (IsAddress(x) ==> hexQuads[..] == Expand(x))
  {
    ghost var x, before := Tokens(s[..Span(s)]), hexQuads[..];
    nHexQuads := n;
    DoubleInRange(x);
    if doubleColonIndex < N_QUADS {
      ExpandDoubleColon(hexQuads, nHexQuads, doubleColonIndex);
      nHexQuads := N_QUADS;
    }
    ExpandedIs(x, n, doubleColonIndex, before, hexQuads[..]);
  }

  method UnformatIp6Address(input: UnformatInput, result: array<u8>) returns (ok: bool)
    requires input.Valid() && result.Length == 16
    modifies input, result
    ensures input.Valid()
    ensures ok <==> Parse(input.buffer[old(input.index)..]).Some?
    ensures ok ==> var (a, rest) := Parse(input.buffer[old(input.index)..]).value;
                   result[..] == NetworkBytes(a) && input.buffer[input.index..] == rest
    ensures !ok ==> result[..] == old(result[..])
    ensures !ok ==> var s, k := input.buffer[old(input.index)..], input.index - old(input.index);
                    Refused(s, k) || (k == Span(s) && Admissible(Tokens(s[..k])))
  {
    var hexQuads := new u16[N_QUADS](i => 0);
    ghost var s := input.buffer[input.index..];
    var nHexQuads, doubleColonIndex;
    ok, nHexQuads, doubleColonIndex := ScanGroups(input, hexQuads);
    if !ok {
      return;
    }
    nHexQuads := ExpandIfDouble(s, hexQuads, nHexQuads, doubleColonIndex);

    // Without a double colon all eight groups are needed.
    if nHexQuads < N_QUADS {
      return false;
    }
    StoreQuads(hexQuads, result);
  }

  /** What the next character does to the text read so far. */
  lemma NextChar(s: string, k: nat, x: Text)
    requires ReadSoFar(s, k, x) && k < |s|
    ensures if InAlphabet(s[k]) && (s[k] == ':' ==> x.gap < 2) then ReadSoFar(s, k + 1, AddChar(x, s[k]))
            else k == Span(s)
  {
    SpanIsLongest(s, k);
    ContinuesByGap(s, k);
    assert s[..k + 1] == s[..k] + [s[k]];
    TokensSnoc(s[..k], s[k]);
  }

  /** Once a prefix within the span is refused, no continuation can repair it. */
  lemma RefusedForGood(s: string, k: nat, x: Text)
    requires ReadSoFar(s, k, x) && !Admissible(x) && k > 0 && Admissible(Tokens(s[..k - 1]))
    ensures Parse(s).None? && Refused(s, k)
  {
    var n := Span(s);
    SpanIsLongest(s, n);
    if Admissible(Tokens(s[..n])) {
      assert s[..k] == s[..n][..k];
      AdmissiblePrefix(s[..n], k);
    }
  }
}
