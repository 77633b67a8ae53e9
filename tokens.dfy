/**
 * Value extraction from a `D` reply: `re.findall('[\+\-][0-9]+\.[0-9]+', reply)`,
 * the `float(value)` conversion of each match (as an exact decimal) and the
 * open-interval range check `-5 < value < 120`.
 */
module Tokens {
  import opened Wrappers
  import opened Text

  predicate IsSign(c: char) { c == '+' || c == '-' }

  /** A sensor value as it appears on the wire: sign, integer digits, `.`, fraction digits. */
  datatype Decimal = Decimal(negative: bool, whole: string, fraction: string)

  predicate WellFormed(d: Decimal) {
    d.whole != [] && d.fraction != [] && AllDigits(d.whole) && AllDigits(d.fraction)
  }

  function Render(d: Decimal): string {
    [if d.negative then '-' else '+'] + d.whole + "." + d.fraction
  }

  /** `ParseToken(t)` is `float(t)` on a match: it succeeds exactly on rendered decimals. */
  function ParseToken(t: string): (r: Option<Decimal>)
    ensures r.Some? ==> WellFormed(r.value) && Render(r.value) == t && |t| >= 4
  {
    if |t| >= 1 && IsSign(t[0]) then
      var j := DigitRun(t, 1);
      DigitRunDigits(t, 1);
      if 1 < j && j + 1 < |t| && t[j] == '.' && DigitRun(t, j + 1) == |t| then
        DigitRunDigits(t, j + 1);
        var d := Decimal(t[0] == '-', t[1..j], t[j + 1..]);
        assert Render(d) == t;
        Some(d)
      else None
    else None
  }

  /** Rendering a decimal and parsing it back gives the same decimal. */
  lemma RenderParses(d: Decimal)
    requires WellFormed(d)
    ensures ParseToken(Render(d)) == Some(d)
  {
    var t := Render(d);
    var j := 1 + |d.whole|;
    assert t[1..j] == d.whole && t[j] == '.' && t[j + 1..] == d.fraction;
    DigitRunEnds(t, 1, j);
    DigitRunEnds(t, j + 1, |t|);
  }

  /**
   * Where the regular expression matches when tried at position `i`: a sign,
   * a maximal digit run, a `.`, and a maximal digit run. Backtracking cannot
   * help because digits, `.` and signs are disjoint.
   */
  function MatchEnd(s: string, i: nat): (r: Option<nat>)
    requires i <= |s|
    ensures r.Some? ==> i + 4 <= r.value <= |s|
  {
    if i < |s| && IsSign(s[i]) then
      var j := DigitRun(s, i + 1);
      if i + 1 < j < |s| && s[j] == '.' then
        var k := DigitRun(s, j + 1);
        if k > j + 1 then Some(k) else None
      else None
    else None
  }

  /** What the expression matches is exactly what `float()` reads as a decimal. */
  lemma MatchEndParses(s: string, i: nat)
    requires i <= |s| && MatchEnd(s, i).Some?
    ensures ParseToken(s[i..MatchEnd(s, i).value]).Some?
  {
    var j := DigitRun(s, i + 1);
    var k := DigitRun(s, j + 1);
    DigitRunDigits(s, i + 1);
    DigitRunDigits(s, j + 1);
    var t := s[i..k];
    var d := j - i;
    assert IsSign(t[0]) && t[d] == '.';
    forall x | 1 <= x < d ensures IsDigit(t[x]) {
      assert t[x] == s[i + x];
    }
    forall x | d + 1 <= x < |t| ensures IsDigit(t[x]) {
      assert t[x] == s[i + x];
    }
    DigitRunEnds(t, 1, d);
    DigitRunEnds(t, d + 1, |t|);
  }

  /**
   * `re.findall` from position `i`: leftmost matches, scanning resumes after
   * each one. A match takes at least four characters, which bounds their number.
   */
  function ScanFrom(s: string, i: nat): (r: seq<string>)
    requires i <= |s|
    ensures 4 * |r| <= |s| - i
    decreases |s| - i
  {
    if i == |s| then []
    else match MatchEnd(s, i)
      case Some(e) => [s[i..e]] + ScanFrom(s, e)
      case None => ScanFrom(s, i + 1)
  }

  /** All values of a reply, in reply order; `float()` accepts every one of them. */
  function FindAll(s: string): (r: seq<string>)
    ensures 4 * |r| <= |s|
    ensures forall k :: 0 <= k < |r| ==> ParseToken(r[k]).Some?
  {
    ScanFromParses(s, 0);
    ScanFrom(s, 0)
  }

  /** Every match of the scan is a well-formed decimal. */
  lemma {:induction false} ScanFromParses(s: string, i: nat)
    requires i <= |s|
    ensures forall k :: 0 <= k < |ScanFrom(s, i)| ==> ParseToken(ScanFrom(s, i)[k]).Some?
    decreases |s| - i
  {
    if i < |s| {
      match MatchEnd(s, i)
      case Some(e) =>
        MatchEndParses(s, i);
        ScanFromParses(s, e);
      case None =>
        ScanFromParses(s, i + 1);
    }
  }

  /** Characters that cannot start a match (such as the `,` in `+4.567,`) are skipped. */
  lemma {:induction false} ScanSkipsNonSigns(s: string, i: nat, j: nat)
    requires i <= j <= |s|
    requires forall k :: i <= k < j ==> !IsSign(s[k])
    ensures ScanFrom(s, i) == ScanFrom(s, j)
    decreases j - i
  {
    if i < j {
      ScanSkipsNonSigns(s, i + 1, j);
    }
  }

  /** A reply without any sign character yields no values. */
  lemma NoSignNoValues(s: string)
    requires forall k :: 0 <= k < |s| ==> !IsSign(s[k])
    ensures FindAll(s) == []
  {
    ScanSkipsNonSigns(s, 0, |s|);
  }

  /** A rendered decimal that is not followed by a digit is matched whole. */
  lemma MatchRendered(s: string, i: nat, d: Decimal)
    requires WellFormed(d)
    requires i + |Render(d)| <= |s| && s[i..i + |Render(d)|] == Render(d)
    requires i + |Render(d)| == |s| || !IsDigit(s[i + |Render(d)|])
    ensures MatchEnd(s, i) == Some(i + |Render(d)|)
  {
    var t := Render(d);
    var j := i + 1 + |d.whole|;
    var e := i + |t|;
    assert s[i] == t[0] && s[j] == t[1 + |d.whole|] == '.';
    forall k | i + 1 <= k < j ensures IsDigit(s[k]) {
      assert s[k] == t[k - i] == d.whole[k - i - 1];
    }
    forall k | j + 1 <= k < e ensures IsDigit(s[k]) {
      assert s[k] == t[k - i] == d.fraction[k - j - 1];
    }
    DigitRunEnds(s, i + 1, j);
    DigitRunEnds(s, j + 1, e);
  }

  /** The scan takes such a decimal as its next value and resumes right after it. */
  lemma ScanRenderedAt(s: string, i: nat, d: Decimal, e: nat)
    requires WellFormed(d) && e == i + |Render(d)|
    requires e <= |s| && s[i..e] == Render(d)
    requires e == |s| || !IsDigit(s[e])
    ensures ScanFrom(s, i) == [Render(d)] + ScanFrom(s, e)
  {
    MatchRendered(s, i, d);
    assert i < |s|;
    assert ScanFrom(s, i) == [s[i..e]] + ScanFrom(s, e);
  }

  /** Concatenation of the renderings, back to back, as a probe sends them. */
  function Join(ds: seq<Decimal>): string {
    if ds == [] then [] else Render(ds[0]) + Join(ds[1..])
  }

  function Renders(ds: seq<Decimal>): (r: seq<string>)
    ensures |r| == |ds| && forall k :: 0 <= k < |ds| ==> r[k] == Render(ds[k])
  {
    if ds == [] then [] else [Render(ds[0])] + Renders(ds[1..])
  }

  /** Text holding rendered decimals back to back starts with the first one, followed by the rest. */
  lemma JoinHead(s: string, i: nat, ds: seq<Decimal>, e: nat)
    requires ds != [] && forall k :: 0 <= k < |ds| ==> WellFormed(ds[k])
    requires i <= |s| && s[i..] == Join(ds)
    requires e == i + |Render(ds[0])|
    ensures e <= |s| && s[i..e] == Render(ds[0]) && s[e..] == Join(ds[1..])
    ensures e == |s| || !IsDigit(s[e])
  {
    var t := Render(ds[0]);
    var rest := Join(ds[1..]);
    assert s[i..] == t + rest;
    assert s[i..e] == s[i..][..|t|];
    assert s[e..] == s[i..][|t|..];
    if e < |s| {
      assert rest[0] == Render(ds[1..][0])[0];
      assert s[e] == rest[0];
    }
  }

  /** One step of the scan over rendered decimals sent back to back. */
  lemma ScanJoinStep(s: string, i: nat, ds: seq<Decimal>, e: nat)
    requires ds != [] && forall k :: 0 <= k < |ds| ==> WellFormed(ds[k])
    requires i <= |s| && s[i..] == Join(ds)
    requires e == i + |Render(ds[0])|
    ensures e <= |s| && s[e..] == Join(ds[1..])
    ensures ScanFrom(s, i) == [Render(ds[0])] + ScanFrom(s, e)
  {
    JoinHead(s, i, ds, e);
    ScanRenderedAt(s, i, ds[0], e);
  }

  lemma {:induction false} ScanJoinFrom(s: string, i: nat, ds: seq<Decimal>)
    requires forall k :: 0 <= k < |ds| ==> WellFormed(ds[k])
    requires i <= |s| && s[i..] == Join(ds)
    ensures ScanFrom(s, i) == Renders(ds)
    decreases ds
  {
    if ds == [] {
      assert i == |s|;
    } else {
      var e := i + |Render(ds[0])|;
      ScanJoinStep(s, i, ds, e);
      ScanJoinFrom(s, e, ds[1..]);
    }
  }

  /** Extracting from well-formed values sent back to back returns exactly those values. */
  lemma ScanJoin(ds: seq<Decimal>)
    requires forall k :: 0 <= k < |ds| ==> WellFormed(ds[k])
    ensures FindAll(Join(ds)) == Renders(ds)
  {
    ScanJoinFrom(Join(ds), 0, ds);
  }

  /** The exact number a well-formed decimal denotes (what `float` approximates). */
  function Value(d: Decimal): real
    requires WellFormed(d)
  {
    var magnitude := DigitsValue(d.whole) as real
      + DigitsValue(d.fraction) as real / Pow10(|d.fraction|) as real;
    if d.negative then -magnitude else magnitude
  }

  /** The open sensor range: both `-5` and `120` themselves are out of range. */
  predicate InRange(v: real) { -5.0 < v < 120.0 }

  /** How one extracted value is handled: appended, or logged with the error flag set. */
  datatype Verdict = Accepted(value: real) | Invalid | OutOfRange(value: real)

  function Classify(t: string): (v: Verdict)
    ensures v.Invalid? <==> ParseToken(t).None?
    ensures v.Accepted? ==> InRange(v.value) && v.value == Value(ParseToken(t).value)
    ensures v.OutOfRange? ==> !InRange(v.value) && v.value == Value(ParseToken(t).value)
  {
    match ParseToken(t)
    case None => Invalid
    case Some(d) => if InRange(Value(d)) then Accepted(Value(d)) else OutOfRange(Value(d))
  }

  /** The values a sequence of matches contributes, in order. */
  function AcceptedValues(ts: seq<string>): (vs: seq<real>)
    ensures |vs| <= |ts|
    ensures forall k :: 0 <= k < |vs| ==> InRange(vs[k])
  {
    if ts == [] then []
    else
      var v := Classify(ts[|ts| - 1]);
      AcceptedValues(ts[..|ts| - 1]) + (if v.Accepted? then [v.value] else [])
  }

  /** Whether some match was logged as invalid or out of range. */
  predicate AnyRejected(ts: seq<string>) {
    ts != [] && (AnyRejected(ts[..|ts| - 1]) || !Classify(ts[|ts| - 1]).Accepted?)
  }

  /** Folding over a concatenation is folding over each part. */
  lemma {:induction false} AcceptedAppend(a: seq<string>, b: seq<string>)
    ensures AcceptedValues(a + b) == AcceptedValues(a) + AcceptedValues(b)
    ensures AnyRejected(a + b) == (AnyRejected(a) || AnyRejected(b))
    decreases |b|
  {
    if b == [] {
      assert a + b == a;
    } else {
      var b' := b[..|b| - 1];
      assert (a + b)[..|a + b| - 1] == a + b';
      assert (a + b)[|a + b| - 1] == b[|b| - 1];
      AcceptedAppend(a, b');
    }
  }

  /** A single match contributes its value when accepted and raises the flag otherwise. */
  lemma AcceptedOne(t: string)
    ensures AcceptedValues([t]) == if Classify(t).Accepted? then [Classify(t).value] else []
    ensures AnyRejected([t]) == !Classify(t).Accepted?
  {
    assert [t][..0] == [];
  }

  /** Two accepted matches contribute both values, in order. */
  lemma AcceptedPair(a: string, b: string)
    requires Classify(a).Accepted? && Classify(b).Accepted?
    ensures AcceptedValues([a, b]) == [Classify(a).value, Classify(b).value]
  {
    AcceptedOne(a);
    AcceptedOne(b);
    AcceptedAppend([a], [b]);
    assert [a] + [b] == [a, b];
  }

  /** No value is lost without the error flag: all matches accepted iff none rejected. */
  lemma {:induction false} AllAcceptedIff(ts: seq<string>)
    ensures |AcceptedValues(ts)| == |ts| <==> !AnyRejected(ts)
  {
    if ts != [] {
      AllAcceptedIff(ts[..|ts| - 1]);
    }
  }

  /** The flag is raised iff some match was not accepted. */
  lemma {:induction false} AnyRejectedIff(ts: seq<string>)
    ensures AnyRejected(ts) <==> exists k :: 0 <= k < |ts| && !Classify(ts[k]).Accepted?
  {
    if ts != [] {
      var init := ts[..|ts| - 1];
      AnyRejectedIff(init);
      if AnyRejected(init) {
        var k :| 0 <= k < |init| && !Classify(init[k]).Accepted?;
        assert ts[k] == init[k];
      }
      if exists k :: 0 <= k < |ts| && !Classify(ts[k]).Accepted? {
        var k :| 0 <= k < |ts| && !Classify(ts[k]).Accepted?;
        if k < |init| {
          assert init[k] == ts[k];
        }
      }
    }
  }

  /** Values extracted from a reply are never `Invalid`: that branch is unreachable. */
  lemma ExtractedNeverInvalid(s: string, k: nat)
    requires k < |FindAll(s)|
    ensures !Classify(FindAll(s)[k]).Invalid?
  {
  }

  /** A rendered decimal is classified by its exact value. */
  lemma ClassifyRendered(d: Decimal)
    requires WellFormed(d)
    ensures Classify(Render(d)) == if InRange(Value(d)) then Accepted(Value(d)) else OutOfRange(Value(d))
  {
    RenderParses(d);
  }

  /** The bound values themselves are out of range (the comparison is strict). */
  lemma RangeBoundariesRejected()
    ensures Classify("-5.0") == OutOfRange(-5.0)
    ensures Classify("+120.0") == OutOfRange(120.0)
  {
    assert DigitsValue("12") == 12 by { assert "12"[..1] == "1"; }
    assert DigitsValue("120") == 120 by { assert "120"[..2] == "12"; }
    var lo, hi := Decimal(true, "5", "0"), Decimal(false, "120", "0");
    assert Render(lo) == "-5.0" && Value(lo) == -5.0;
    assert Render(hi) == "+120.0" && Value(hi) == 120.0;
    ClassifyRendered(lo);
    ClassifyRendered(hi);
  }

  /** Just inside either bound is accepted. */
  lemma RangeBoundariesAccepted()
    ensures Classify("-4.999") == Accepted(-4.999)
    ensures Classify("+119.999") == Accepted(119.999)
  {
    LowerBoundAccepted();
    UpperBoundAccepted();
  }

  lemma ThreeNines()
    ensures DigitsValue("999") == 999 && Pow10(3) == 1000
  {
    assert DigitsValue("9") == 9;
    assert DigitsValue("99") == 99 by { assert "99"[..1] == "9"; }
    assert DigitsValue("999") == 999 by { assert "999"[..2] == "99"; }
  }

  lemma LowerBoundAccepted()
    ensures Classify("-4.999") == Accepted(-4.999)
  {
    ThreeNines();
    var lo := Decimal(true, "4", "999");
    assert Render(lo) == "-4.999" && Value(lo) == -4.999;
    ClassifyRendered(lo);
  }

  lemma UpperBoundAccepted()
    ensures Classify("+119.999") == Accepted(119.999)
  {
    ThreeNines();
    assert DigitsValue("11") == 11 by { assert "11"[..1] == "1"; }
    assert DigitsValue("119") == 119 by { assert "119"[..2] == "11"; }
    var hi := Decimal(false, "119", "999");
    assert Render(hi) == "+119.999" && Value(hi) == 119.999;
    ClassifyRendered(hi);
  }
}
