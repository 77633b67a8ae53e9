/**
 * The line protocol spoken to an AquaCheck probe: command frames, the
 * identification reply (split at the `AquaChck` marker, then cut into fixed
 * slices) and the measurement-start reply (a delay and a sensor count).
 */
module Protocol {
  import opened Wrappers
  import opened Text

  // ---------------------------------------------------------------- frames

  /** `<address><verb>!\r\n`, the address written in decimal. */
  function Command(address: nat, verb: string): string {
    NatToString(address) + verb + "!\r\n"
  }

  /** Reads a frame back into its address and verb; `None` if it is not a command frame. */
  function ParseCommand(f: string): Option<(nat, string)> {
    var j := DigitRun(f, 0);
    DigitRunDigits(f, 0);
    if 0 < j && j + 3 <= |f| && f[|f| - 3..] == "!\r\n" then
      Some((DigitsValue(f[..j]), f[j..|f| - 3]))
    else None
  }

  /** A frame reads as a command iff it starts with a digit and ends in `!\r\n`. */
  lemma ParseCommandIff(f: string)
    ensures ParseCommand(f).Some? <==> |f| >= 4 && IsDigit(f[0]) && f[|f| - 3..] == "!\r\n"
  {
    var j := DigitRun(f, 0);
    DigitRunDigits(f, 0);
    if |f| >= 4 && f[|f| - 3..] == "!\r\n" {
      assert f[|f| - 3] == '!';
    }
  }

  /** A verb that does not start with a digit is recovered together with its address. */
  lemma CommandRoundTrip(address: nat, verb: string)
    requires verb == [] || !IsDigit(verb[0])
    ensures ParseCommand(Command(address, verb)) == Some((address, verb))
  {
    var a := NatToString(address);
    var f := Command(address, verb);
    assert f[..|a|] == a;
    assert f[|a|] == (verb + "!\r\n")[0];
    DigitRunEnds(f, 0, |a|);
    assert f[|f| - 3..] == "!\r\n";
    assert f[|a|..|f| - 3] == verb;
    ParseNatToString(address);
  }

  /** The `D` frame for data block `r` after a fixed prefix (address and letter). */
  function DataFrame(prefix: string, r: nat): string {
    prefix + NatToString(r) + "!\r\n"
  }

  /** The data frames for blocks `0 .. k-1`, in the order they are sent. */
  function DataFrames(prefix: string, k: nat): (fs: seq<string>)
    ensures |fs| == k && forall r :: 0 <= r < k ==> fs[r] == DataFrame(prefix, r)
  {
    if k == 0 then [] else DataFrames(prefix, k - 1) + [DataFrame(prefix, k - 1)]
  }

  /** With an address prefix, a data frame is the command `D<r>` at that address. */
  lemma DataFrameIsCommand(address: nat, r: nat)
    ensures DataFrame(NatToString(address) + "D", r) == Command(address, "D" + NatToString(r))
    ensures ParseCommand(DataFrame(NatToString(address) + "D", r)) == Some((address, "D" + NatToString(r)))
  {
    assert NatToString(address) + "D" + NatToString(r) + "!\r\n"
      == NatToString(address) + ("D" + NatToString(r)) + "!\r\n";
    CommandRoundTrip(address, "D" + NatToString(r));
  }

  /** A frame that starts with a letter carries no address at all. */
  lemma LetterPrefixIsNoCommand(prefix: string, r: nat)
    requires prefix != [] && !IsDigit(prefix[0])
    ensures ParseCommand(DataFrame(prefix, r)) == None
  {
    assert DataFrame(prefix, r)[0] == prefix[0];
  }

  // -------------------------------------------------------- the marker

  const Marker: string := "AquaChck"

  predicate MarkerAt(s: string, j: nat) {
    j + |Marker| <= |s| && s[j..j + |Marker|] == Marker
  }

  /** Two occurrences of the marker never overlap: its first letter occurs nowhere else in it. */
  lemma MarkersApart(s: string, p: nat, q: nat)
    requires MarkerAt(s, p) && MarkerAt(s, q) && p < q
    ensures p + |Marker| <= q
  {
    assert s[q] == s[q..q + |Marker|][0] == 'A';
    assert forall k :: 0 < k < |Marker| ==> Marker[k] != 'A';
    assert forall k :: p <= k < p + |Marker| ==> s[k] == s[p..p + |Marker|][k - p] == Marker[k - p];
  }

  /** A marker at `i` is a marker at `i - k` once the first `k` characters are dropped. */
  lemma MarkerShift(s: string, k: nat, i: nat)
    requires k <= |s| && k <= i
    ensures MarkerAt(s[k..], i - k) <==> MarkerAt(s, i)
  {
    if i + |Marker| <= |s| {
      assert s[k..][i - k..i - k + |Marker|] == s[i..i + |Marker|];
    }
  }

  lemma MarkerShiftAll(s: string, k: nat)
    requires k <= |s|
    ensures forall j :: MarkerAt(s[k..], j) <==> MarkerAt(s, k + j)
  {
    forall j: nat ensures MarkerAt(s[k..], j) <==> MarkerAt(s, k + j) {
      MarkerShift(s, k, k + j);
    }
  }

  /** The first occurrence of the marker at or after `i`. */
  function FindMarker(s: string, i: nat): (r: Option<nat>)
    requires i <= |s|
    ensures r.Some? ==> i <= r.value && MarkerAt(s, r.value)
    ensures r.Some? ==> forall j :: i <= j < r.value ==> !MarkerAt(s, j)
    ensures r.None? ==> forall j :: i <= j ==> !MarkerAt(s, j)
    decreases |s| - i
  {
    if i + |Marker| > |s| then None
    else if MarkerAt(s, i) then Some(i)
    else FindMarker(s, i + 1)
  }

  /** `s.split('AquaChck')[-1]`: what follows the last marker, or all of `s` without one. */
  function AfterLastMarker(s: string): (r: string)
    ensures |r| <= |s| && r == s[|s| - |r|..]
    ensures forall j :: !MarkerAt(r, j)
    ensures FindMarker(s, 0).None? ==> r == s
    ensures FindMarker(s, 0).Some? ==> |r| + |Marker| <= |s| && MarkerAt(s, |s| - |r| - |Marker|)
    decreases |s|
  {
    match FindMarker(s, 0)
    case None => s
    case Some(p) =>
      var t := s[p + |Marker|..];
      MarkerShiftAll(s, p + |Marker|);
      AfterLastMarker(t)
  }

  /** When the last marker in `s` is followed by `b`, `AfterLastMarker(s)` is exactly `b`. */
  lemma {:induction false} AfterLastMarkerIs(a: string, b: string)
    requires FindMarker(b, 0).None?
    ensures AfterLastMarker(a + Marker + b) == b
    decreases |a|
  {
    var s := a + Marker + b;
    var p := FirstMarkerBefore(a, b);
    AfterFirstMarker(s, p);
    if p < |a| {
      AfterLastMarkerIs(a[p + |Marker|..], b);
    }
  }

  /** The first marker in `a + Marker + b` ends inside `a` or is the one placed there. */
  lemma FirstMarkerBefore(a: string, b: string) returns (p: nat)
    ensures FindMarker(a + Marker + b, 0) == Some(p)
    ensures p == |a| ==> (a + Marker + b)[p + |Marker|..] == b
    ensures p != |a| ==> p + |Marker| <= |a| && (a + Marker + b)[p + |Marker|..] == a[p + |Marker|..] + Marker + b
  {
    var s := a + Marker + b;
    MarkerBetween(a, b);
    p := FindMarker(s, 0).value;
    if p != |a| {
      MarkersApart(s, p, |a|);
      assert s[p + |Marker|..] == a[p + |Marker|..] + Marker + b;
    }
  }

  /** Splitting resumes after the first marker. */
  lemma AfterFirstMarker(s: string, p: nat)
    requires FindMarker(s, 0) == Some(p)
    ensures AfterLastMarker(s) == AfterLastMarker(s[p + |Marker|..])
  {
  }

  /** A string holds no marker iff the search for one finds none. */
  lemma NoMarkerFound(b: string)
    requires forall j :: !MarkerAt(b, j)
    ensures FindMarker(b, 0).None?
  {
    assert !FindMarker(b, 0).Some?;
  }

  /** The marker placed between `a` and `b` sits right after `a`, with `b` after it. */
  lemma MarkerBetween(a: string, b: string)
    ensures MarkerAt(a + Marker + b, |a|) && (a + Marker + b)[|a| + |Marker|..] == b
  {
    var s := a + Marker + b;
    assert s[|a|..|a| + |Marker|] == Marker;
    assert s[|a| + |Marker|..] == b;
  }

  // ------------------------------------------------- identification replies

  /** What the block logs about a probe: `info[6:9]` and `info[10:]`. */
  datatype BlockIdentity = BlockIdentity(version: string, serial: string)

  /** The block's parse of an identify reply; it has no failing case. */
  function BlockIdentify(reply: string): (id: BlockIdentity)
    ensures |id.version| <= 3
  {
    BlockFields(AfterLastMarker(Rstrip(reply)))
  }

  /** The version and serial the block cuts out of the text after the marker. */
  function BlockFields(info: string): BlockIdentity {
    BlockIdentity(Slice(info, 6, 9), Slice(info, 10, |info|))
  }

  /**
   * A reply `<padding>AquaChck<info><line end>`, where `info` is a 6-character
   * model, a 3-character version, one separator and the serial number, yields
   * that version and serial whatever the padding holds.
   */
  lemma BlockIdentifyWellFormed(pad: string, info: string, eol: string)
    requires |info| >= 10 && !IsSpace(info[|info| - 1])
    requires forall j :: !MarkerAt(info, j)
    requires forall i :: 0 <= i < |eol| ==> IsSpace(eol[i])
    ensures BlockIdentify(pad + Marker + info + eol) == BlockIdentity(info[6..9], info[10..])
  {
    var line := pad + Marker + info;
    assert line[|line| - 1] == info[|info| - 1];
    RstripLineEnd(line, eol);
    NoMarkerFound(info);
    AfterLastMarkerIs(pad, info);
    BlockFieldsWithin(info);
  }

  lemma BlockFieldsWithin(info: string)
    requires |info| >= 10
    ensures BlockFields(info) == BlockIdentity(info[6..9], info[10..])
  {
    assert Slice(info, 6, 9) == info[6..9];
    assert Slice(info, 10, |info|) == info[10..];
  }

  datatype Identification = Identification(model: string, version: string, serial: string)

  /** Why the test script gives up on a probe. */
  datatype IdentifyError = NoResponse | InvalidResponse

  datatype IdentifyResult = Identified(id: Identification) | Rejected(error: IdentifyError)

  /**
   * The script's parse: `split('AquaChck', 1)` must give two parts, then
   * `info[:6]`, `info[6:9]`, `info[9:]`.
   */
  function ScriptIdentify(reply: string): (r: IdentifyResult)
    ensures r.Rejected? <==> forall j :: !MarkerAt(Rstrip(reply), j)
    ensures r.Rejected? ==> (r.error == NoResponse <==> Rstrip(reply) == [])
    ensures r.Identified? ==>
      var s := Rstrip(reply);
      var p := FindMarker(s, 0).value;
      r.id.model + r.id.version + r.id.serial == s[p + |Marker|..]
    ensures r.Identified? ==> |r.id.model| <= 6 && |r.id.version| <= 3
    ensures r.Identified? ==> (r.id.version != [] ==> |r.id.model| == 6) && (r.id.serial != [] ==> |r.id.version| == 3)
  {
    var s := Rstrip(reply);
    match FindMarker(s, 0)
    case None => Rejected(if s == [] then NoResponse else InvalidResponse)
    case Some(p) =>
      var info := s[p + |Marker|..];
      var id := Identification(Slice(info, 0, 6), Slice(info, 6, 9), Slice(info, 9, |info|));
      ThreeSlices(info);
      Identified(id)
  }

  /** A marker starts with its first letter. */
  lemma MarkerFirst(s: string, j: nat)
    ensures MarkerAt(s, j) ==> s[j] == Marker[0]
  {
    if MarkerAt(s, j) {
      assert s[j] == s[j..j + |Marker|][0];
    }
  }

  /**
   * A reply `<padding>AquaChck<info><line end>` whose padding holds no `A`
   * splits at that marker, whatever `info` holds after it.
   */
  lemma ScriptIdentifyWellFormed(pad: string, info: string, eol: string)
    requires forall k :: 0 <= k < |pad| ==> pad[k] != Marker[0]
    requires info != [] && !IsSpace(info[|info| - 1])
    requires forall i :: 0 <= i < |eol| ==> IsSpace(eol[i])
    ensures ScriptIdentify(pad + Marker + info + eol)
      == Identified(Identification(Slice(info, 0, 6), Slice(info, 6, 9), Slice(info, 9, |info|)))
  {
    var line := pad + Marker + info;
    var m := |pad| + |Marker|;
    assert line[|line| - 1] == info[|info| - 1];
    RstripLineEnd(line, eol);
    forall j: nat | j < |pad| ensures !MarkerAt(line, j) {
      MarkerFirst(line, j);
      assert line[j] == pad[j];
    }
    assert line[|pad|..m] == Marker && line[m..] == info;
    assert MarkerAt(line, |pad|);
    assert FindMarker(line, 0) == Some(|pad|);
  }

  /** `info[:6]`, `info[6:9]` and `info[9:]` put back together give `info`. */
  lemma ThreeSlices(info: string)
    ensures Slice(info, 0, 6) + Slice(info, 6, 9) + Slice(info, 9, |info|) == info
  {
    if |info| >= 9 {
      assert Slice(info, 0, 6) == info[..6] && Slice(info, 6, 9) == info[6..9] && Slice(info, 9, |info|) == info[9..];
      assert info[..6] + info[6..9] + info[9..] == info;
    } else if |info| >= 6 {
      assert Slice(info, 0, 6) == info[..6] && Slice(info, 6, 9) == info[6..] && Slice(info, 9, |info|) == [];
      assert info[..6] + info[6..] + [] == info;
    } else {
      assert Slice(info, 0, 6) == info && Slice(info, 6, 9) == [] && Slice(info, 9, |info|) == [];
      assert info + [] + [] == info;
    }
  }

  // --------------------------------------------- measurement-start replies

  /** `delay = int(response[0:3])`, `num_sensors = int(response[-1])`. */
  datatype MeasureStart = MeasureStart(delay: nat, count: nat)

  function ParseMeasureStart(reply: string): (r: Option<MeasureStart>)
    ensures r.Some? <==>
      var s := Rstrip(reply);
      s != [] && AllDigits(Slice(s, 0, 3)) && IsDigit(s[|s| - 1])
    ensures r.Some? ==> r.value.delay < 1000 && r.value.count < 10
  {
    var s := Rstrip(reply);
    if s == [] then None
    else
      var head := Slice(s, 0, 3);
      var delay := ParseNat(head);
      var count := ParseNat([s[|s| - 1]]);
      if delay.Some? && count.Some? then
        Pow10AtMost3(|head|);
        Some(MeasureStart(delay.value, count.value))
      else None
  }

  lemma Pow10AtMost3(k: nat)
    requires k <= 3
    ensures Pow10(k) <= 1000
  {
    assert Pow10(1) == 10 && Pow10(2) == 100 && Pow10(3) == 1000;
  }

  /** The three-digit, zero-padded rendering of a delay. */
  function Pad3(n: nat): (r: string)
    requires n < 1000
    ensures |r| == 3 && AllDigits(r)
  {
    [DigitChar(n / 100), DigitChar(n / 10 % 10), DigitChar(n % 10)]
  }

  lemma Pad3Value(n: nat)
    requires n < 1000
    ensures DigitsValue(Pad3(n)) == n
  {
    var p := Pad3(n);
    assert p[..2][..1] == [p[0]] && [p[0]][..0] == [];
    assert DigitsValue([p[0]]) == n / 100;
    assert DigitsValue(p[..2]) == n / 100 * 10 + n / 10 % 10;
  }

  /**
   * A reply that starts with a padded delay and ends with a count digit
   * (before its line end) parses back to that delay and count.
   */
  lemma MeasureStartRoundTrip(delay: nat, count: nat, middle: string, eol: string)
    requires delay < 1000 && count < 10
    requires forall i :: 0 <= i < |eol| ==> IsSpace(eol[i])
    ensures ParseMeasureStart(Pad3(delay) + middle + [DigitChar(count)] + eol)
      == Some(MeasureStart(delay, count))
  {
    var s := Pad3(delay) + middle + [DigitChar(count)];
    RstripAppendSpace(s, eol);
    assert Rstrip(s) == s;
    assert Slice(s, 0, 3) == Pad3(delay);
    Pad3Value(delay);
    assert [s[|s| - 1]][..0] == [];
  }

  /** The reply `0036`: a three-second wait, then six sensors to fetch. */
  lemma MeasureStartExample()
    ensures ParseMeasureStart("0036\r\n") == Some(MeasureStart(3, 6))
  {
    MeasureStartRoundTrip(3, 6, [], "\r\n");
    assert Pad3(3) + [] + [DigitChar(6)] + "\r\n" == "0036\r\n";
  }
}
