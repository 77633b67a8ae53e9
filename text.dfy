/**
 * Character-level helpers with the meaning the probe code relies on:
 * `str.rstrip()`, clamped slicing `s[lo:hi]`, `int()` on a digit string
 * and the decimal rendering of a non-negative integer (`'{}'.format(r)`).
 */
module Text {
  import opened Wrappers

  /** Characters that Python's `str.isspace()` accepts (and so `rstrip()` removes). */
  predicate IsSpace(c: char) {
    c == ' ' || ('\t' <= c <= '\r') || ('\U{1C}' <= c <= '\U{1F}')
    || c == '\U{85}' || c == '\U{A0}' || c == '\U{1680}'
    || ('\U{2000}' <= c <= '\U{200A}') || c == '\U{2028}' || c == '\U{2029}'
    || c == '\U{202F}' || c == '\U{205F}' || c == '\U{3000}'
  }

  /** `s.rstrip()`: the longest prefix of `s` that does not end in whitespace. */
  function Rstrip(s: string): (r: string)
    ensures |r| <= |s| && r == s[..|r|]
    ensures r == [] || !IsSpace(r[|r| - 1])
    ensures forall i :: |r| <= i < |s| ==> IsSpace(s[i])
  {
    if s == [] || !IsSpace(s[|s| - 1]) then s else Rstrip(s[..|s| - 1])
  }

  /** Stripping twice is stripping once, and trailing whitespace never matters. */
  lemma {:induction false} RstripAppendSpace(s: string, w: string)
    requires forall i :: 0 <= i < |w| ==> IsSpace(w[i])
    ensures Rstrip(s + w) == Rstrip(s)
    ensures Rstrip(Rstrip(s)) == Rstrip(s)
  {
    if w != [] {
      assert (s + w)[..|s + w| - 1] == s + w[..|w| - 1];
      assert IsSpace((s + w)[|s + w| - 1]);
      RstripAppendSpace(s, w[..|w| - 1]);
    } else {
      assert s + w == s;
    }
  }

  /** A line that ends in a visible character loses exactly its line end. */
  lemma RstripLineEnd(line: string, eol: string)
    requires line != [] && !IsSpace(line[|line| - 1])
    requires forall i :: 0 <= i < |eol| ==> IsSpace(eol[i])
    ensures Rstrip(line + eol) == line
  {
    RstripAppendSpace(line, eol);
  }

  function Min(a: int, b: int): int { if a < b then a else b }

  /** Python's `s[lo:hi]` for non-negative bounds: out-of-range bounds are clamped. */
  function Slice(s: string, lo: nat, hi: nat): (r: string)
    ensures |r| == (if lo >= |s| || hi <= lo then 0 else Min(hi, |s|) - lo)
    ensures forall k :: 0 <= k < |r| ==> r[k] == s[lo + k]
  {
    if lo >= |s| || hi <= lo then [] else s[lo..Min(hi, |s|)]
  }

  predicate IsDigit(c: char) { '0' <= c <= '9' }

  predicate AllDigits(s: string) { forall i :: 0 <= i < |s| ==> IsDigit(s[i]) }

  function DigitValue(c: char): (d: nat)
    requires IsDigit(c)
    ensures d < 10
  {
    (c as int) - ('0' as int)
  }

  function DigitChar(d: nat): (c: char)
    requires d < 10
    ensures IsDigit(c) && DigitValue(c) == d
  {
    (('0' as int) + d) as char
  }

  /** The end of the maximal run of digits that starts at `i`. */
  function DigitRun(s: string, i: nat): (e: nat)
    requires i <= |s|
    ensures i <= e <= |s|
    ensures e == |s| || !IsDigit(s[e])
    decreases |s| - i
  {
    if i < |s| && IsDigit(s[i]) then DigitRun(s, i + 1) else i
  }

  /** Everything a digit run covers is a digit. */
  lemma {:induction false} DigitRunDigits(s: string, i: nat)
    requires i <= |s|
    ensures forall k :: i <= k < DigitRun(s, i) ==> IsDigit(s[k])
    decreases |s| - i
  {
    if i < |s| && IsDigit(s[i]) {
      DigitRunDigits(s, i + 1);
    }
  }

  /** A digit run is determined by where the digits stop. */
  lemma {:induction false} DigitRunEnds(s: string, i: nat, e: nat)
    requires i <= e <= |s|
    requires forall k :: i <= k < e ==> IsDigit(s[k])
    requires e == |s| || !IsDigit(s[e])
    ensures DigitRun(s, i) == e
    decreases e - i
  {
    if i < e {
      DigitRunEnds(s, i + 1, e);
    }
  }

  /** The number a string of decimal digits denotes (most significant first). */
  function DigitsValue(s: string): nat
    requires AllDigits(s)
  {
    if s == [] then 0 else DigitsValue(s[..|s| - 1]) * 10 + DigitValue(s[|s| - 1])
  }

  function Pow10(n: nat): (p: nat)
    ensures p >= 1
  {
    if n == 0 then 1 else 10 * Pow10(n - 1)
  }

  /** A string of `k` digits denotes a number below `10^k`. */
  lemma {:induction false} DigitsValueBound(s: string)
    requires AllDigits(s)
    ensures DigitsValue(s) < Pow10(|s|)
  {
    if s != [] {
      DigitsValueBound(s[..|s| - 1]);
    }
  }

  /**
   * `int(s)` restricted to what the probe replies contain: a non-empty run of
   * decimal digits parses, anything else is the `ValueError` path.
   */
  function ParseNat(s: string): (r: Option<nat>)
    ensures r.Some? <==> s != [] && AllDigits(s)
    ensures r.Some? ==> r.value < Pow10(|s|)
  {
    if s != [] && AllDigits(s) then DigitsValueBound(s); Some(DigitsValue(s)) else None
  }

  /** `str(n)` for a non-negative integer: its shortest decimal rendering. */
  function NatToString(n: nat): (r: string)
    ensures r != [] && AllDigits(r)
    ensures |r| > 1 ==> r[0] != '0'
  {
    if n < 10 then [DigitChar(n)] else NatToString(n / 10) + [DigitChar(n % 10)]
  }

  /** Rendering a number and reading it back with `int()` gives the number. */
  lemma {:induction false} ParseNatToString(n: nat)
    ensures ParseNat(NatToString(n)) == Some(n)
    ensures DigitsValue(NatToString(n)) == n
  {
    var r := NatToString(n);
    if n >= 10 {
      ParseNatToString(n / 10);
      assert r[..|r| - 1] == NatToString(n / 10);
    } else {
      assert r[..|r| - 1] == [];
    }
  }

  /** Distinct numbers render as distinct strings. */
  lemma NatToStringInjective(m: nat, n: nat)
    requires NatToString(m) == NatToString(n)
    ensures m == n
  {
    ParseNatToString(m);
    ParseNatToString(n);
  }
}
