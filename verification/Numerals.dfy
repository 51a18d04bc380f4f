/**
 What parseNumericValue accepts (cache.go:127-133): decimal numerals within white space, by a definition that
 does not parse, and what printing gives.
 */
module Numerals {
  import opened Entries
  import opened Decimal

  // ----- numerals and what they denote

  predicate AllDigits(s: string) { forall i :: 0 <= i < |s| ==> '0' <= s[i] <= '9' }

  function Pow10(n: nat): int { if n == 0 then 1 else 10 * Pow10(n - 1) }

  /** The sum of the digits, each times the power of ten of its place. */
  function Places(s: string): int
    requires AllDigits(s)
  {
    if s == "" then 0 else (s[0] as int - '0' as int) * Pow10(|s| - 1) + Places(s[1..])
  }

  function Unsigned(s: string): string {
    if s != "" && (s[0] == '-' || s[0] == '+') then s[1..] else s
  }

  /** An optional sign and at least one digit, nothing else. */
  predicate Denotes(s: string, n: int) {
    var ds := Unsigned(s);
    ds != "" && AllDigits(ds) && n == if s[0] == '-' then -Places(ds) else Places(ds)
  }

  /** The text is such a numeral with white space around it, and denotes a 64-bit integer. */
  ghost predicate IsNumeral(raw: string, n: int) {
    && IsInt64(n)
    && exists left, core, right ::
         raw == left + core + right && AllSpace(left) && AllSpace(right) && Denotes(core, n)
  }

  // ----- reading digits from the left and from the right

  lemma {:induction false} PlacesLast(s: string)
    requires AllDigits(s) && s != ""
    ensures Places(s) == 10 * Places(s[..|s| - 1]) + (s[|s| - 1] as int - '0' as int)
    decreases |s|
  {
    if |s| > 1 {
      var rest, d, p := s[1..], s[0] as int - '0' as int, Pow10(|s| - 2);
      PlacesLast(rest);
      assert s[..|s| - 1][1..] == rest[..|rest| - 1];
      assert Places(s[..|s| - 1]) == d * p + Places(rest[..|rest| - 1]);
      assert d * (10 * p) == 10 * (d * p);
    }
  }

  lemma {:induction false} DigitsArePlaces(s: string)
    ensures Digits(s).Some? <==> AllDigits(s)
    ensures AllDigits(s) ==> Digits(s).value == Places(s)
  {
    if s != "" {
      var front := s[..|s| - 1];
      DigitsArePlaces(front);
      assert AllDigits(s) <==> AllDigits(front) && IsDigit(s[|s| - 1]) by { assert s == front + [s[|s| - 1]]; }
      if AllDigits(s) { PlacesLast(s); }
    }
  }

  lemma ParsesCore(s: string, n: int)
    ensures ParseInt(s) == Some(n) <==> IsInt64(n) && Denotes(s, n)
  {
    DigitsArePlaces(Unsigned(s));
  }

  // ----- white space

  /** The Unicode white space, by code point. */
  predicate WhiteSpace(r: nat) {
    || 0x09 <= r <= 0x0D || r == 0x20 || r == 0x85 || r == 0xA0 || r == 0x1680 || 0x2000 <= r <= 0x200A
    || r == 0x2028 || r == 0x2029 || r == 0x202F || r == 0x205F || r == 0x3000
  }

  /** UTF-8 of a code point of up to 16 bits. */
  function Utf8(r: nat): string
    requires r < 0x1_0000
  {
    if r < 0x80 then [r as char]
    else if r < 0x800 then [(0xC0 + r / 0x40) as char, (0x80 + r % 0x40) as char]
    else [(0xE0 + r / 0x1000) as char, (0x80 + r / 0x40 % 0x40) as char, (0x80 + r % 0x40) as char]
  }

  /** What the trimming takes for white space is that. */
  lemma TrimsWhiteSpace(r: nat)
    requires r < 0x1_0000
    ensures Lead(Utf8(r)) == Tail(Utf8(r)) == if WhiteSpace(r) then |Utf8(r)| else 0
  {
  }

  lemma {:induction false} AllSpaceAppend(a: string, b: string)
    requires AllSpace(a) && AllSpace(b)
    ensures AllSpace(a + b)
    decreases |a|
  {
    if a == "" {
      assert a + b == b;
    } else {
      LeadAppend(a, b);
      assert (a + b)[Lead(a)..] == a[Lead(a)..] + b;
      AllSpaceAppend(a[Lead(a)..], b);
    }
  }

  lemma OneSpaceAtEnd(s: string)
    requires Tail(s) > 0
    ensures AllSpace(s[|s| - Tail(s)..])
  {
    var b := s[|s| - Tail(s)..];
    assert Lead(b) == |b|;
    assert b[|b|..] == "";
  }

  /** A white space in front of other ones. */
  lemma AllSpaceCons(s: string, n: nat, m: nat)
    requires Lead(s) == n > 0 && n + m <= |s| && AllSpace(s[n..][..m])
    ensures AllSpace(s[..n + m])
  {
    OneSpace(s);
    LeadAppend(s[..n], s[n..][..m]);
    assert s[..n + m] == s[..n] + s[n..][..m];
    assert s[..n + m][n..] == s[n..][..m];
  }

  lemma {:induction false} TrimLeftCut(s: string) returns (n: nat)
    ensures n <= |s| && AllSpace(s[..n]) && TrimLeft(s) == s[n..]
    decreases |s|
  {
    n := Lead(s);
    if n > 0 {
      var m := TrimLeftCut(s[n..]);
      AllSpaceCons(s, n, m);
      assert s[n..][m..] == s[n + m..];
      n := n + m;
    }
  }

  lemma AllSpaceSnoc(s: string, m: nat, n: nat)
    requires Tail(s) > 0 && m <= n == |s| - Tail(s) && AllSpace(s[..n][m..])
    ensures AllSpace(s[m..])
  {
    OneSpaceAtEnd(s);
    AllSpaceAppend(s[..n][m..], s[n..]);
    assert s[m..] == s[..n][m..] + s[n..];
  }

  lemma {:induction false} TrimRightCut(s: string) returns (m: nat)
    ensures m <= |s| && AllSpace(s[m..]) && TrimRight(s) == s[..m]
    decreases |s|
  {
    m := |s| - Tail(s);
    if m < |s| {
      var n := m;
      m := TrimRightCut(s[..n]);
      AllSpaceSnoc(s, m, n);
      assert s[..n][..m] == s[..m];
    }
  }

  lemma CoreEdges(core: string, n: int, right: string)
    requires Denotes(core, n)
    ensures Lead(core + right) == 0 && Tail(core) == 0
  {
    var last := core[|core| - 1];
    assert last == Unsigned(core)[|Unsigned(core)| - 1];
  }

  lemma Trimmed(left: string, core: string, back: string, right: string)
    requires AllSpace(left) && AllSpace(right) && back == core + right && Lead(back) == 0 && Tail(core) == 0
    ensures TrimRight(TrimLeft(left + back)) == core
  {
    TrimLeftPad(left, back);
    TrimRightPad(core, right);
  }

  lemma NumeralParses(left: string, core: string, right: string, n: int)
    requires AllSpace(left) && AllSpace(right) && Denotes(core, n) && IsInt64(n)
    ensures ParseNumericValue(left + core + right) == Some(n)
  {
    CoreEdges(core, n, right);
    Trimmed(left, core, core + right, right);
    assert left + core + right == left + (core + right);
    ParsesCore(core, n);
  }

  lemma ThreeParts(s: string, n: nat, m: nat)
    requires n + m <= |s|
    ensures s == s[..n] + s[n..][..m] + s[n..][m..]
  {
    assert s == s[..n] + s[n..] && s[n..] == s[n..][..m] + s[n..][m..];
  }

  lemma ParsedSplits(raw: string) returns (left: string, core: string, right: string)
    ensures raw == left + core + right && AllSpace(left) && AllSpace(right)
    ensures ParseNumericValue(raw) == ParseInt(core)
  {
    var n := TrimLeftCut(raw);
    var m := TrimRightCut(raw[n..]);
    left, core, right := raw[..n], raw[n..][..m], raw[n..][m..];
    ThreeParts(raw, n, m);
  }

  /** The parser accepts exactly the numerals, as the numbers they denote. */
  lemma ParsesExactly(raw: string, n: int)
    ensures ParseNumericValue(raw) == Some(n) <==> IsNumeral(raw, n)
  {
    if IsNumeral(raw, n) {
      var left, core, right :|
        raw == left + core + right && AllSpace(left) && AllSpace(right) && Denotes(core, n);
      NumeralParses(left, core, right, n);
    }
    var left, core, right := ParsedSplits(raw);
    ParsesCore(core, n);
  }

  // ----- printing

  lemma ZeroPlaces()
    ensures Places("0") == 0
  {
    assert "0"[1..] == "";
  }

  lemma {:induction false} NatCanonical(n: nat)
    ensures var s := FormatNat(n);
      s != "" && AllDigits(s) && Places(s) == n && (s[0] == '0' ==> s == "0")
  {
    var s := FormatNat(n);
    if n >= 10 {
      NatCanonical(n / 10);
      var front := FormatNat(n / 10);
      assert s == front + [DigitChar(n % 10)] && s[..|s| - 1] == front;
      PlacesLast(s);
      ZeroPlaces();
    } else {
      assert s[1..] == "";
    }
  }

  /** Printing gives the numeral without a plus sign or leading zeros. */
  lemma PrintsCanonical(n: int)
    ensures Denotes(FormatInt(n), n)
    ensures var s := FormatInt(n);
      s[0] != '+' && (s[0] == '-' <==> n < 0) && (Unsigned(s)[0] == '0' ==> s == "0")
  {
    var m := if n < 0 then -n else n;
    NatCanonical(m);
    assert n < 0 ==> FormatInt(n)[1..] == FormatNat(m);
    ZeroPlaces();
  }

  /** A wrapped sum is the one 64-bit integer that differs from the sum by a multiple of 2^64. */
  lemma WrapsExactly(n: int, r: int)
    ensures Wrap(n) == r <==> IsInt64(r) && (n - r) % TWO_64 == 0
  {
    var q := (n + TWO_63) / TWO_64;
    assert n + TWO_63 == q * TWO_64 + (n + TWO_63) % TWO_64;
    assert n - Wrap(n) == q * TWO_64;
    if IsInt64(r) && (n - r) % TWO_64 == 0 {
      var p := (n - r) / TWO_64;
      assert n - r == p * TWO_64;
      assert r - Wrap(n) == (q - p) * TWO_64;
      assert -TWO_64 < r - Wrap(n) < TWO_64;
    }
  }
}
