/**
 Decimal text of signed 64-bit integers, as strconv.FormatInt writes it and as cache.go's
 parseNumericValue reads it back (trim, optional sign, digits, range check).
 */
module Decimal {
  import opened Entries

  const TWO_63: int := 0x8000_0000_0000_0000
  const TWO_64: int := 0x1_0000_0000_0000_0000

  predicate IsInt64(n: int) { -TWO_63 <= n < TWO_63 }

  /** Two's-complement wrap-around to 64 bits. */
  function Wrap(n: int): (r: int)
    ensures IsInt64(r)
  {
    (n + TWO_63) % TWO_64 - TWO_63
  }

  lemma ModShift(z: int, q: int)
    ensures (z - q * TWO_64) % TWO_64 == z % TWO_64
  {
    var d, r := z / TWO_64, z % TWO_64;
    assert z - q * TWO_64 == (d - q) * TWO_64 + r;
  }

  /** Wrapping early or late gives the same sum. */
  lemma WrapAdd(a: int, b: int)
    ensures Wrap(Wrap(a) + b) == Wrap(a + b)
    ensures IsInt64(a) ==> Wrap(a) == a
  {
    ModShift(a + b + TWO_63, (a + TWO_63) / TWO_64);
  }

  // ----- printing

  function DigitChar(d: nat): char
    requires d < 10
  {
    '0' + d as char
  }

  function FormatNat(n: nat): (s: string)
    ensures s != ""
  {
    if n < 10 then [DigitChar(n)] else FormatNat(n / 10) + [DigitChar(n % 10)]
  }

  function FormatInt(n: int): string {
    if n < 0 then "-" + FormatNat(-n) else FormatNat(n)
  }

  // ----- parsing

  predicate IsDigit(c: char) { '0' <= c <= '9' }

  function Digits(s: string): Option<nat> {
    if s == "" then Some(0)
    else
      var c := s[|s| - 1];
      var v := Digits(s[..|s| - 1]);
      if v.Some? && IsDigit(c) then Some(10 * v.value + (c as int - '0' as int)) else None
  }

  function ParseUint(s: string): Option<nat> { if s == "" then None else Digits(s) }

  function ParseInt(s: string): Option<int> {
    if s == "" then None
    else
      var neg := s[0] == '-';
      var u := ParseUint(if neg || s[0] == '+' then s[1..] else s);
      if u.None? then None
      else
        var n: int := u.value;
        if neg then (if n > TWO_63 then None else Some(-n))
        else (if n >= TWO_63 then None else Some(n))
  }

  predicate IsSpace(c: char) { c == ' ' || '\t' <= c <= '\r' }

  /** The two- and three-byte characters that count as white space, in UTF-8. */
  predicate Space2(a: char, b: char) { a as int == 0xC2 && (b as int == 0x85 || b as int == 0xA0) }

  predicate Space3(a: char, b: char, c: char) {
    var (x, y, z) := (a as int, b as int, c as int);
    || (x == 0xE1 && y == 0x9A && z == 0x80)
    || (x == 0xE2 && y == 0x80 && (0x80 <= z <= 0x8A || z == 0xA8 || z == 0xA9 || z == 0xAF))
    || (x == 0xE2 && y == 0x81 && z == 0x9F)
    || (x == 0xE3 && y == 0x80 && z == 0x80)
  }

  /** The number of bytes of the white space that the text begins with; 0 if it begins with none. */
  function Lead(s: string): (n: nat)
    ensures n <= |s|
  {
    if |s| >= 1 && IsSpace(s[0]) then 1
    else if |s| >= 2 && Space2(s[0], s[1]) then 2
    else if |s| >= 3 && Space3(s[0], s[1], s[2]) then 3
    else 0
  }

  function Tail(s: string): (n: nat)
    ensures n <= |s|
  {
    var e := |s|;
    if e >= 1 && IsSpace(s[e - 1]) then 1
    else if e >= 2 && Space2(s[e - 2], s[e - 1]) then 2
    else if e >= 3 && Space3(s[e - 3], s[e - 2], s[e - 1]) then 3
    else 0
  }

  function TrimLeft(s: string): string {
    if Lead(s) > 0 then TrimLeft(s[Lead(s)..]) else s
  }

  function TrimRight(s: string): string {
    if Tail(s) > 0 then TrimRight(s[..|s| - Tail(s)]) else s
  }

  function ParseNumericValue(raw: string): Option<int> { ParseInt(TrimRight(TrimLeft(raw))) }

  // ----- print, then parse

  lemma {:induction false} DigitsOfNat(n: nat)
    ensures Digits(FormatNat(n)) == Some(n)
    ensures IsDigit(FormatNat(n)[0]) && IsDigit(FormatNat(n)[|FormatNat(n)| - 1])
  {
    if n >= 10 {
      DigitsOfNat(n / 10);
      assert FormatNat(n)[..|FormatNat(n)| - 1] == FormatNat(n / 10);
    } else {
      assert FormatNat(n)[..0] == "";
    }
  }

  /** Parsing what was printed gives the number back for every 64-bit integer, and fails for every
      other one. */
  lemma PrintParse(n: int)
    ensures ParseInt(FormatInt(n)) == if IsInt64(n) then Some(n) else None
  {
    if n < 0 { ParseNegative(-n); } else { ParseNatural(n); }
  }

  lemma ParseNatural(n: nat)
    ensures ParseInt(FormatNat(n)) == if n < TWO_63 then Some(n) else None
  {
    DigitsOfNat(n);
  }

  lemma ParseNegative(n: int)
    requires n >= 0
    ensures ParseInt("-" + FormatNat(n)) == if n <= TWO_63 then Some(-n) else None
  {
    DigitsOfNat(n);
    assert ("-" + FormatNat(n))[1..] == FormatNat(n);
  }

  predicate AllSpace(s: string) { s == "" || (Lead(s) > 0 && AllSpace(s[Lead(s)..])) }

  /** What follows a white space does not change it. */
  lemma LeadAppend(a: string, b: string)
    requires Lead(a) > 0
    ensures Lead(a + b) == Lead(a)
  {
  }

  lemma TailPrepend(a: string, b: string)
    requires Tail(b) > 0
    ensures Tail(a + b) == Tail(b)
  {
  }

  lemma {:induction false} TrimLeftPad(pad: string, s: string)
    requires AllSpace(pad) && Lead(s) == 0
    ensures TrimLeft(pad + s) == s
    decreases |pad|
  {
    if pad == "" {
      assert pad + s == s;
    } else {
      var n := Lead(pad);
      LeadAppend(pad, s);
      assert (pad + s)[n..] == pad[n..] + s;
      TrimLeftPad(pad[n..], s);
    }
  }

  /** White space taken from the back is white space, too. */
  lemma {:induction false} AllSpaceTail(pad: string)
    requires AllSpace(pad) && pad != ""
    ensures Tail(pad) > 0 && AllSpace(pad[..|pad| - Tail(pad)])
    decreases |pad|
  {
    var n := Lead(pad);
    var rest := pad[n..];
    if rest == "" {
      LoneSpace(pad);
    } else {
      AllSpaceTail(rest);
      var r := rest[..|rest| - Tail(rest)];
      TailPrepend(pad[..n], rest);
      assert pad == pad[..n] + rest && pad[..|pad| - Tail(pad)] == pad[..n] + r;
      OneSpace(pad);
      LeadAppend(pad[..n], r);
      assert (pad[..n] + r)[n..] == r;
    }
  }

  lemma OneSpace(s: string)
    requires Lead(s) > 0
    ensures Lead(s[..Lead(s)]) == Lead(s)
  {
  }

  lemma LoneSpace(s: string)
    requires Lead(s) == |s| > 0
    ensures Tail(s) == |s|
  {
  }

  lemma PrintedEdges(n: int, right: string)
    ensures Lead(FormatInt(n) + right) == 0 && Tail(FormatInt(n)) == 0
  {
    if n < 0 { DigitsOfNat(-n); } else { DigitsOfNat(n); }
  }

  lemma {:induction false} TrimRightPad(s: string, pad: string)
    requires AllSpace(pad) && Tail(s) == 0
    ensures TrimRight(s + pad) == s
    decreases |pad|
  {
    if pad == "" {
      assert s + pad == s;
    } else {
      AllSpaceTail(pad);
      var n := Tail(pad);
      TailPrepend(s, pad);
      assert (s + pad)[..|s + pad| - n] == s + pad[..|pad| - n];
      TrimRightPad(s, pad[..|pad| - n]);
    }
  }

  /** The round trip survives surrounding white space of any kind. */
  lemma StoredNumber(n: int, left: string, right: string)
    requires AllSpace(left) && AllSpace(right)
    ensures ParseNumericValue(left + FormatInt(n) + right) == if IsInt64(n) then Some(n) else None
  {
    var s := FormatInt(n);
    PrintedEdges(n, right);
    assert left + s + right == left + (s + right);
    TrimLeftPad(left, s + right);
    TrimRightPad(s, right);
    PrintParse(n);
  }

  lemma PrintedNumber(n: int)
    requires IsInt64(n)
    ensures FormatInt(n) != "" && ParseNumericValue(FormatInt(n)) == Some(n)
  {
    StoredNumber(n, "", "");
    assert "" + FormatInt(n) + "" == FormatInt(n);
  }
}
