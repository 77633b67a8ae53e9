/**
 * The stand-alone probe test script: identify the probe at address 0, run
 * the moisture measurement (waiting in half-second reads for the attention
 * response), collect the moisture values, run the temperature measurement,
 * collect those values, and report. The port is a scripted `Port`; what the
 * script prints is modelled as the facts the messages are about.
 */
module ProbeTest {
  import opened Wrappers
  import opened Text
  import opened Tokens
  import opened Protocol
  import opened Serial
  import opened Exchange

  /** `probe_address`. */
  const Address: nat := 0

  /** The `D` frames: the address, then `D`, then the block index. */
  function DataPrefix(): string {
    NatToString(Address) + "D"
  }

  /** The facts the script prints once both measurements ran. */
  datatype Report = Report(
    id: Identification,
    /** "no attention response" was printed. */
    noAttention: bool,
    moisture: seq<real>,
    /** `num_sensors - len(values)`: the count the mismatch message prints when the two differ. */
    moistureMissing: int,
    /** `error` as it stood after the moisture phase. */
    moistureError: bool,
    temperature: seq<real>,
    temperatureMissing: int,
    /** `error` at the end: "failed to read all values" was printed. */
    failed: bool)

  /** How the script ends: `sys.exit` after identification, an exception from `int()`, or a report. */
  datatype Ending = Exited(error: IdentifyError) | Crashed | Finished(report: Report)

  /** The ending, the frames written and the replies left unread. */
  datatype ScriptRun = ScriptRun(ending: Ending, frames: seq<string>, rest: seq<string>)

  /** What the script reports from its two measurements. */
  function Summarize(id: Identification, m: Phase, t: Phase): (r: Report)
    requires m.start.Some? && t.start.Some?
    ensures r.id == id
    ensures !r.moistureError <==> |r.moisture| == |m.fetched| && r.moistureMissing == 0
    ensures r.failed <==> |r.temperature| < |t.fetched| || r.temperatureMissing != 0
    ensures r.moistureMissing < 0 ==> r.moistureError
    ensures (forall k :: 0 <= k < |r.moisture| ==> InRange(r.moisture[k]))
      && (forall k :: 0 <= k < |r.temperature| ==> InRange(r.temperature[k]))
  {
    AllAcceptedIff(m.fetched);
    AllAcceptedIff(t.fetched);
    var moisture := AcceptedValues(m.fetched);
    var temperature := AcceptedValues(t.fetched);
    var moistureError := AnyRejected(m.fetched) || |moisture| != m.start.value.count;
    var temperatureError := AnyRejected(t.fetched) || |temperature| != t.start.value.count;
    Report(id, m.start.value.delay > 0 && !m.attended,
           moisture, m.start.value.count - |moisture|, moistureError,
           temperature, t.start.value.count - |temperature|, temperatureError)
  }

  /** The two measurements, run once the probe identified as `id`. */
  function Measure(id: Identification, q: seq<string>): (r: ScriptRun)
    ensures |r.frames| >= 1 && r.frames[0] == Command(Address, "M0")
    ensures !r.ending.Exited?
  {
    var m := RunPhase(q, HalfSeconds);
    var moistureFrames := PhaseFrames(Command(Address, "M0"), DataPrefix(), m);
    if m.start.None? then ScriptRun(Crashed, moistureFrames, m.rest)
    else
      var t := RunPhase(m.rest, NoWait);
      var frames := moistureFrames + PhaseFrames(Command(Address, "M1"), DataPrefix(), t);
      if t.start.None? then ScriptRun(Crashed, frames, t.rest)
      else ScriptRun(Finished(Summarize(id, m, t)), frames, t.rest)
  }

  lemma SummarizeIs(id: Identification, m: Phase, t: Phase, noAttention: bool,
                    moisture: seq<real>, moistureMissing: int, moistureError: bool,
                    temperature: seq<real>, temperatureMissing: int, failed: bool)
    requires m.start.Some? && t.start.Some?
    requires moisture == AcceptedValues(m.fetched) && temperature == AcceptedValues(t.fetched)
    requires noAttention == (m.start.value.delay > 0 && !m.attended)
    requires moistureMissing == m.start.value.count - |moisture|
    requires temperatureMissing == t.start.value.count - |temperature|
    requires moistureError == (AnyRejected(m.fetched) || |moisture| != m.start.value.count)
    requires failed == (AnyRejected(t.fetched) || |temperature| != t.start.value.count)
    ensures Summarize(id, m, t) == Report(id, noAttention, moisture, moistureMissing, moistureError,
                                          temperature, temperatureMissing, failed)
  {
  }

  /** The script run against a device that will send the replies `q`. */
  function Script(q: seq<string>): (r: ScriptRun)
    ensures |r.frames| >= 1 && r.frames[0] == Command(Address, "I")
  {
    var identify := [Command(Address, "I")];
    match ScriptIdentify(Head(q))
    case Rejected(e) => ScriptRun(Exited(e), identify, Rest(q))
    case Identified(id) =>
      var r := Measure(id, Rest(q));
      ScriptRun(r.ending, identify + r.frames, r.rest)
  }

  /**
   * The script exits right after `0I!` exactly when the stripped identify
   * reply holds no `AquaChck`, and it says "No response" exactly when that
   * reply is empty.
   */
  lemma ScriptExits(q: seq<string>)
    ensures Script(q).ending.Exited? <==> forall j :: !MarkerAt(Rstrip(Head(q)), j)
    ensures Script(q).ending.Exited? ==>
      && Script(q).frames == [Command(Address, "I")] && Script(q).rest == Rest(q)
      && (Script(q).ending.error == NoResponse <==> Rstrip(Head(q)) == [])
  {
  }

  /**
   * The script reads the same reply differently from the block: model
   * `ACHSDI`, version `043`, and a serial number that keeps the `S`.
   */
  lemma IdentifyExample()
    ensures ScriptIdentify("013" + Marker + "ACHSDI043S012345" + "\r\n")
      == Identified(Identification("ACHSDI", "043", "S012345"))
  {
    ExampleParts("013", "ACHSDI043S012345");
    ScriptIdentifyWellFormed("013", "ACHSDI043S012345", "\r\n");
  }

  lemma ExampleParts(pad: string, info: string)
    requires pad == "013" && info == "ACHSDI043S012345"
    ensures forall k :: 0 <= k < |pad| ==> pad[k] != Marker[0]
    ensures info != [] && !IsSpace(info[|info| - 1])
    ensures Slice(info, 0, 6) == "ACHSDI" && Slice(info, 6, 9) == "043" && Slice(info, 9, |info|) == "S012345"
  {
    assert info[..6] == "ACHSDI" && info[6..9] == "043" && info[9..] == "S012345";
  }

  /** Every frame in `fs` is a command to the probe's address. */
  ghost predicate Addressed(fs: seq<string>) {
    forall k :: 0 <= k < |fs| ==> ParseCommand(fs[k]).Some? && ParseCommand(fs[k]).value.0 == Address
  }

  lemma AddressedAppend(a: seq<string>, b: seq<string>)
    requires Addressed(a) && Addressed(b)
    ensures Addressed(a + b)
  {
    forall k | 0 <= k < |a + b|
      ensures ParseCommand((a + b)[k]).Some? && ParseCommand((a + b)[k]).value.0 == Address
    {
      if k < |a| {
        assert (a + b)[k] == a[k];
      } else {
        assert (a + b)[k] == b[k - |a|];
      }
    }
  }

  /** A measurement phase writes its `M` command and then `0D0!`, `0D1!` ...: all addressed to the probe. */
  lemma PhaseAddressed(verb: string, p: Phase)
    requires verb == "M0" || verb == "M1"
    ensures Addressed(PhaseFrames(Command(Address, verb), DataPrefix(), p))
  {
    CommandRoundTrip(Address, verb);
    var ds := DataFrames(DataPrefix(), p.rounds);
    forall r | 0 <= r < |ds|
      ensures ParseCommand(ds[r]).Some? && ParseCommand(ds[r]).value.0 == Address
    {
      DataFrameIsCommand(Address, r);
    }
    AddressedAppend([Command(Address, verb)], ds);
  }

  /**
   * Unlike the block's temperature phase, the script writes only well-formed
   * commands to address 0, whatever the probe replies.
   */
  lemma ScriptAddressed(q: seq<string>)
    ensures forall k :: 0 <= k < |Script(q).frames| ==>
      ParseCommand(Script(q).frames[k]).Some? && ParseCommand(Script(q).frames[k]).value.0 == Address
  {
    CommandRoundTrip(Address, "I");
    assert Addressed([Command(Address, "I")]);
    if ScriptIdentify(Head(q)).Identified? {
      var id := ScriptIdentify(Head(q)).id;
      var m := RunPhase(Rest(q), HalfSeconds);
      var t := RunPhase(m.rest, NoWait);
      var f1 := PhaseFrames(Command(Address, "M0"), DataPrefix(), m);
      var f2 := PhaseFrames(Command(Address, "M1"), DataPrefix(), t);
      PhaseAddressed("M0", m);
      if m.start.Some? {
        PhaseAddressed("M1", t);
        AddressedAppend(f1, f2);
        assert Measure(id, Rest(q)).frames == f1 + f2;
      }
      AddressedAppend([Command(Address, "I")], Measure(id, Rest(q)).frames);
    }
  }

  /**
   * The frames of an identified probe: `0I!`, `0M0!`, one `0D<r>!` per
   * moisture round, then `0M1!` and one per temperature round, at most as
   * many rounds as each `M` reply announced; at most 21 frames in all.
   */
  lemma ScriptFrames(q: seq<string>)
    requires ScriptIdentify(Head(q)).Identified? && RunPhase(Rest(q), HalfSeconds).start.Some?
    ensures var m := RunPhase(Rest(q), HalfSeconds);
      var t := RunPhase(m.rest, NoWait);
      && m.rounds <= m.start.value.count
      && (t.start.Some? ==> t.rounds <= t.start.value.count)
      && (t.start.None? ==> t.rounds == 0)
      && Script(q).frames == [Command(Address, "I"), Command(Address, "M0")] + DataFrames(DataPrefix(), m.rounds)
                             + [Command(Address, "M1")] + DataFrames(DataPrefix(), t.rounds)
      && |Script(q).frames| <= 21
  {
    var id := ScriptIdentify(Head(q)).id;
    var m := RunPhase(Rest(q), HalfSeconds);
    var t := RunPhase(m.rest, NoWait);
    var d1, d2 := DataFrames(DataPrefix(), m.rounds), DataFrames(DataPrefix(), t.rounds);
    assert Measure(id, Rest(q)).frames == ([Command(Address, "M0")] + d1) + ([Command(Address, "M1")] + d2);
    Regroup(Command(Address, "I"), Command(Address, "M0"), Command(Address, "M1"), d1, d2);
  }

  lemma Regroup(a: string, b: string, c: string, d1: seq<string>, d2: seq<string>)
    ensures [a] + (([b] + d1) + ([c] + d2)) == [a, b] + d1 + [c] + d2
  {
  }

  /**
   * With a report, "failed to read all values" is printed iff a temperature
   * value was out of range or the temperature count fell short or overshot:
   * `error = False` before the temperature loop drops every moisture error,
   * which the report still records on its own.
   */
  lemma ScriptFailedIff(q: seq<string>)
    requires Script(q).ending.Finished?
    ensures var m := RunPhase(Rest(q), HalfSeconds);
      var t := RunPhase(m.rest, NoWait);
      var report := Script(q).ending.report;
      && m.start.Some? && t.start.Some?
      && (report.failed <==>
           (exists k :: 0 <= k < |t.fetched| && Classify(t.fetched[k]).OutOfRange?)
           || |report.temperature| != t.start.value.count)
      && (report.moistureError <==>
           (exists k :: 0 <= k < |m.fetched| && Classify(m.fetched[k]).OutOfRange?)
           || |report.moisture| != m.start.value.count)
  {
    var m := RunPhase(Rest(q), HalfSeconds);
    ScriptSummary(q);
    PhaseRejectedIff(Rest(q), HalfSeconds);
    PhaseRejectedIff(m.rest, NoWait);
  }

  /** A finished run reports on the two measurements that follow the identify exchange. */
  lemma ScriptSummary(q: seq<string>)
    requires Script(q).ending.Finished?
    ensures ScriptIdentify(Head(q)).Identified?
    ensures var m := RunPhase(Rest(q), HalfSeconds);
      var t := RunPhase(m.rest, NoWait);
      && m.start.Some? && t.start.Some?
      && Script(q).ending.report == Summarize(ScriptIdentify(Head(q)).id, m, t)
  {
    var id := ScriptIdentify(Head(q)).id;
    var m := RunPhase(Rest(q), HalfSeconds);
    var t := RunPhase(m.rest, NoWait);
    assert Measure(id, Rest(q)).ending == Finished(Summarize(id, m, t));
  }

  /**
   * "no attention response" is printed iff the `M0` reply announced a delay
   * and none of the next `2 * delay` lines (half-second reads) was non-empty.
   */
  lemma ScriptNoAttention(q: seq<string>)
    requires Script(q).ending.Finished?
    ensures var m := RunPhase(Rest(q), HalfSeconds);
      var after := Rest(Rest(q));
      && m.start.Some?
      && (Script(q).ending.report.noAttention <==>
           m.start.value.delay > 0
           && forall i :: 0 <= i < 2 * m.start.value.delay && i < |after| ==> after[i] == "")
  {
    ScriptSummary(q);
    var m := RunPhase(Rest(q), HalfSeconds);
    assert Script(q).ending.report.noAttention == (m.start.value.delay > 0 && !m.attended);
    PhaseAttendedIff(Rest(q), HalfSeconds);
  }

  /** The `M` reply "0001": no delay, one block. */
  lemma NoDelayOneBlock()
    ensures ParseMeasureStart("0001\r\n") == Some(MeasureStart(0, 1))
  {
    MeasureStartRoundTrip(0, 1, [], "\r\n");
    assert Pad3(0) + [] + [DigitChar(1)] + "\r\n" == "0001\r\n";
  }

  /** A line ending in CR LF strips back to its text. */
  lemma StripLine(x: string)
    requires x != [] && !IsSpace(x[|x| - 1])
    ensures Rstrip(x + "\r\n") == x
  {
    assert (x + "\r\n")[..|x| + 1] == x + "\r";
    assert (x + "\r")[..|x|] == x;
  }

  /** The moisture block of the scenario below: two matches, both in range. */
  lemma MoistureLine()
    ensures FindAll(Rstrip("+1.0+2.0\r\n")) == ["+1.0", "+2.0"]
  {
    var a, b := Decimal(false, "1", "0"), Decimal(false, "2", "0");
    assert Render(a) == "+1.0" && Render(b) == "+2.0";
    PairLine(a, b);
    assert "+1.0" + "+2.0" == "+1.0+2.0";
    assert "+1.0+2.0\r\n" == "+1.0+2.0" + "\r\n";
  }

  /** The temperature block of the scenario below: one match. */
  lemma TemperatureLine()
    ensures FindAll(Rstrip("+20.5\r\n")) == ["+20.5"]
  {
    var c := Decimal(false, "20", "5");
    assert Render(c) == "+20.5";
    SingleLine(c);
    assert "+20.5\r\n" == Render(c) + "\r\n";
  }

  /** A reply line holding two values back to back yields both. */
  lemma PairLine(a: Decimal, b: Decimal)
    requires WellFormed(a) && WellFormed(b)
    ensures FindAll(Rstrip(Render(a) + Render(b) + "\r\n")) == [Render(a), Render(b)]
  {
    var x := Render(a) + Render(b);
    assert Join([a, b]) == x by {
      assert Join([a, b]) == Render(a) + Join([b]);
      assert Join([b]) == Render(b) + Join([]);
    }
    assert x[|x| - 1] == b.fraction[|b.fraction| - 1];
    StripLine(x);
    ScanJoin([a, b]);
  }

  /** A reply line holding one value yields it. */
  lemma SingleLine(c: Decimal)
    requires WellFormed(c)
    ensures FindAll(Rstrip(Render(c) + "\r\n")) == [Render(c)]
  {
    var x := Render(c);
    assert Join([c]) == x by {
      assert Join([c]) == Render(c) + Join([]);
    }
    assert x[|x| - 1] == c.fraction[|c.fraction| - 1];
    StripLine(x);
    ScanJoin([c]);
  }

  lemma ScenarioVerdicts()
    ensures Classify("+1.0") == Accepted(1.0) && Classify("+2.0") == Accepted(2.0)
    ensures Classify("+20.5") == Accepted(20.5)
  {
    var a, b, c := Decimal(false, "1", "0"), Decimal(false, "2", "0"), Decimal(false, "20", "5");
    assert DigitsValue("20") == 20 by { assert "20"[..1] == "2"; }
    assert Render(a) == "+1.0" && Value(a) == 1.0;
    assert Render(b) == "+2.0" && Value(b) == 2.0;
    assert Render(c) == "+20.5" && Value(c) == 20.5;
    ClassifyRendered(a);
    ClassifyRendered(b);
    ClassifyRendered(c);
  }

  /** Every value of the scenario below is accepted. */
  lemma ScenarioAccepted()
    ensures AcceptedValues(["+1.0", "+2.0"]) == [1.0, 2.0]
    ensures AcceptedValues(["+20.5"]) == [20.5] && !AnyRejected(["+20.5"])
  {
    ScenarioVerdicts();
    AcceptedPair("+1.0", "+2.0");
    AcceptedOne("+20.5");
  }


  /** The moisture phase of the scenario below. */
  lemma ScenarioMoisture(q: seq<string>)
    requires q == ["0001\r\n", "+1.0+2.0\r\n", "0001\r\n", "+20.5\r\n"]
    ensures var m := RunPhase(q, HalfSeconds);
      m.start == Some(MeasureStart(0, 1)) && m.fetched == ["+1.0", "+2.0"]
      && m.rest == ["0001\r\n", "+20.5\r\n"]
  {
    NoDelayOneBlock();
    MoistureLine();
    var q1 := q[1..];
    RunPhaseStarted(q, HalfSeconds, MeasureStart(0, 1), q1);
    CollectStep(q1, 1, 0);
    assert Head(q1) == "+1.0+2.0\r\n";
    assert Drop(q1, 1) == q1[1..];
  }

  /** The temperature phase of the scenario below. */
  lemma ScenarioTemperature(q: seq<string>)
    requires q == ["0001\r\n", "+20.5\r\n"]
    ensures var t := RunPhase(q, NoWait);
      t.start == Some(MeasureStart(0, 1)) && t.fetched == ["+20.5"]
  {
    NoDelayOneBlock();
    TemperatureLine();
    var q2 := q[1..];
    RunPhaseStarted(q, NoWait, MeasureStart(0, 1), q2);
    CollectStep(q2, 1, 0);
  }

  /**
   * A probe that announces one moisture block and sends two values in it:
   * the report counts -1 missing moisture sensors and records the moisture
   * error, yet "failed to read all values" is not printed because the
   * temperature phase went through.
   */
  lemma MoistureErrorDropped(reply: string)
    requires ScriptIdentify(reply).Identified?
    ensures var r := Script([reply, "0001\r\n", "+1.0+2.0\r\n", "0001\r\n", "+20.5\r\n"]);
      && r.ending.Finished?
      && r.ending.report.moisture == [1.0, 2.0] && r.ending.report.moistureMissing == -1
      && r.ending.report.moistureError
      && r.ending.report.temperature == [20.5] && !r.ending.report.failed
  {
    var q := [reply, "0001\r\n", "+1.0+2.0\r\n", "0001\r\n", "+20.5\r\n"];
    assert Rest(q) == ["0001\r\n", "+1.0+2.0\r\n", "0001\r\n", "+20.5\r\n"];
    ScenarioMoisture(Rest(q));
    var m := RunPhase(Rest(q), HalfSeconds);
    ScenarioTemperature(m.rest);
    var t := RunPhase(m.rest, NoWait);
    ScenarioAccepted();
    var id := ScriptIdentify(reply).id;
    assert Script(q).ending == Measure(id, Rest(q)).ending == Finished(Summarize(id, m, t));
  }

  /** The whole script, run on `port`. */
  method Run(port: Port) returns (ending: Ending)
    modifies port
    ensures var r := Script(old(port.pending));
      ending == r.ending && port.written == old(port.written) + r.frames && port.pending == r.rest
  {
    ghost var q := port.pending;
    ghost var w := port.written;
    port.Write(Command(Address, "I"));
    var probeId := port.ReadLine();
    var identified := ScriptIdentify(probeId);
    if identified.Rejected? {
      return Exited(identified.error);
    }
    ending := RunMeasure(port, identified.id);
    AppendAssoc(w, [Command(Address, "I")], Measure(identified.id, Rest(q)).frames);
  }

  /** The measurements of the script, from sending `0M0!` to the report. */
  method RunMeasure(port: Port, id: Identification) returns (ending: Ending)
    modifies port
    ensures var r := Measure(id, old(port.pending));
      ending == r.ending && port.written == old(port.written) + r.frames && port.pending == r.rest
  {
    ghost var q := port.pending;
    ghost var w := port.written;
    ghost var m := RunPhase(q, HalfSeconds);
    var moistureStart, attended, moisture, moistureRejected := MeasurePhase(port, Command(Address, "M0"), DataPrefix(), HalfSeconds);
    ghost var f1 := PhaseFrames(Command(Address, "M0"), DataPrefix(), m);
    if moistureStart.None? {
      return Crashed;
    }
    var delay, numSensors := moistureStart.value.delay, moistureStart.value.count;
    var noAttention := delay > 0 && !attended;
    var error := moistureRejected;
    var moistureMissing := numSensors - |moisture|;
    if |moisture| != numSensors {
      error := true;
    }
    var moistureError := error;

    ghost var t := RunPhase(m.rest, NoWait);
    var temperatureStart, _, temperature, temperatureRejected := MeasurePhase(port, Command(Address, "M1"), DataPrefix(), NoWait);
    ghost var f2 := PhaseFrames(Command(Address, "M1"), DataPrefix(), t);
    AppendAssoc(w, f1, f2);
    assert Measure(id, q) == ScriptRun(Measure(id, q).ending, f1 + f2, t.rest);
    if temperatureStart.None? {
      return Crashed;
    }
    assert m.start == moistureStart && t.start == temperatureStart;
    numSensors := temperatureStart.value.count;
    error := false;
    if temperatureRejected {
      error := true;
    }
    var temperatureMissing := numSensors - |temperature|;
    if |temperature| != numSensors {
      error := true;
    }
    ending := Finished(Report(id, noAttention, moisture, moistureMissing, moistureError,
                              temperature, temperatureMissing, error));
    SummarizeIs(id, m, t, noAttention, moisture, moistureMissing, moistureError,
                temperature, temperatureMissing, error);
    assert Measure(id, q).ending == Finished(Summarize(id, m, t));
  }
}
