/**
 * The `Aquacheck` block: it opens one serial port per configured probe,
 * identifies the probe, and on every read cycle runs the moisture and
 * temperature exchange on each open port, keeps a three-valued health state
 * per probe and emits one record per probe whose values were all good.
 * Worker threads are run one after the other.
 */
module Block {
  import opened Wrappers
  import opened Text
  import opened Tokens
  import opened Protocol
  import opened Serial
  import opened Exchange

  // ------------------------------------------------------------- frames

  const IdentifyCommand: string := "0I!\r\n"
  const MoistureStart: string := "0M0!\r\n"
  const MoisturePrefix: string := "0D"
  const TemperatureStart: string := "0M1!\r\n"
  /** The temperature data frames are written with the letter `O`, not the digit zero. */
  const TemperaturePrefix: string := "OD"

  /** The identify and measurement frames are commands to address 0; the temperature data frames are not. */
  lemma BlockFrames(r: nat)
    ensures IdentifyCommand == Command(0, "I")
    ensures MoistureStart == Command(0, "M0") && TemperatureStart == Command(0, "M1")
    ensures ParseCommand(DataFrame(MoisturePrefix, r)) == Some((0, "D" + NatToString(r)))
    ensures ParseCommand(DataFrame(TemperaturePrefix, r)) == None
  {
    assert NatToString(0) == "0";
    assert NatToString(0) + "D" == MoisturePrefix;
    DataFrameIsCommand(0, r);
    LetterPrefixIsNoCommand(TemperaturePrefix, r);
  }

  /** The marker's second letter is a `q`. */
  lemma MarkerSecond(s: string, j: nat)
    ensures MarkerAt(s, j) ==> s[j + 1] == 'q'
  {
    if MarkerAt(s, j) {
      assert s[j + 1] == s[j..j + |Marker|][1];
    }
  }

  /** The model information in that reply holds no further marker. */
  lemma ExampleInfo(info: string)
    requires info == "ACHSDI043S012345"
    ensures forall j :: !MarkerAt(info, j)
    ensures |info| >= 10 && !IsSpace(info[|info| - 1])
    ensures info[6..9] == "043" && info[10..] == "012345"
  {
    assert forall k :: 0 <= k < |info| ==> info[k] != 'q';
    forall j: nat ensures !MarkerAt(info, j) {
      MarkerSecond(info, j);
    }
  }

  /** The identify reply of the first probe in the block's own test: version `043`, serial `012345`. */
  lemma IdentifyExample()
    ensures BlockIdentify("013" + Marker + "ACHSDI043S012345" + "\r\n") == BlockIdentity("043", "012345")
  {
    ExampleInfo("ACHSDI043S012345");
    BlockIdentifyWellFormed("013", "ACHSDI043S012345", "\r\n");
  }

  // ------------------------------------------------------ probe health

  /** `True`, `False` and `None` in `_probe_states`. */
  datatype Health = Ready | ProtocolError | InterfaceError

  /** `_probe_states.get(name)`: a name never recorded reads as `None`. */
  function Get(states: map<string, Health>, name: string): Health {
    if name in states then states[name] else InterfaceError
  }

  /** The entry a map holds for a name, if any. */
  function Find<V>(m: map<string, V>, name: string): Option<V> {
    if name in m then Some(m[name]) else None
  }

  /** `_set_probe_state`: the map is written only when the new state differs from the one read. */
  function SetState(states: map<string, Health>, name: string, h: Health): (r: map<string, Health>)
    ensures Get(r, name) == h
    ensures r == states <==> Get(states, name) == h
    ensures r.Keys == if Get(states, name) == h then states.Keys else states.Keys + {name}
    ensures forall n :: n != name ==> Find(r, n) == Find(states, n)
  {
    if Get(states, name) == h then states else states[name := h]
  }

  /** Recording a state twice is recording it once. */
  lemma SetStateIdempotent(states: map<string, Health>, name: string, h: Health)
    ensures SetState(SetState(states, name, h), name, h) == SetState(states, name, h)
  {
  }

  /** Recording `None` for a probe never seen before leaves the map as it was. */
  lemma SetUnknownInterfaceError(states: map<string, Health>, name: string)
    requires name !in states
    ensures SetState(states, name, InterfaceError) == states
  {
  }

  /** How many state-change log lines a run of recorded states produces. */
  function Changes(states: map<string, Health>, name: string, hs: seq<Health>): (c: nat)
    ensures c <= |hs|
    decreases |hs|
  {
    if hs == [] then 0
    else (if Get(states, name) != hs[0] then 1 else 0) + Changes(SetState(states, name, hs[0]), name, hs[1..])
  }

  /** The state last recorded after a run of states. */
  function Last(states: map<string, Health>, name: string, hs: seq<Health>): Health {
    if hs == [] then Get(states, name) else hs[|hs| - 1]
  }

  /** Recording the run leaves the last state of the run in the map. */
  lemma {:induction false} RecordRun(states: map<string, Health>, name: string, hs: seq<Health>)
    ensures Get(Replay(states, name, hs), name) == Last(states, name, hs)
    decreases |hs|
  {
    if hs != [] {
      RecordRun(SetState(states, name, hs[0]), name, hs[1..]);
    }
  }

  /** The map after recording every state of a run. */
  function Replay(states: map<string, Health>, name: string, hs: seq<Health>): map<string, Health>
    decreases |hs|
  {
    if hs == [] then states else Replay(SetState(states, name, hs[0]), name, hs[1..])
  }

  /** One more cycle adds one log line exactly when its state differs from the last one recorded. */
  lemma {:induction false} ChangesAppend(states: map<string, Health>, name: string, hs: seq<Health>, h: Health)
    ensures Changes(states, name, hs + [h])
      == Changes(states, name, hs) + (if Last(states, name, hs) != h then 1 else 0)
    decreases |hs|
  {
    if hs == [] {
      assert [h][1..] == [];
    } else {
      var states' := SetState(states, name, hs[0]);
      assert (hs + [h])[1..] == hs[1..] + [h];
      ChangesAppend(states', name, hs[1..], h);
      assert Last(states', name, hs[1..]) == Last(states, name, hs);
    }
  }

  /** Ready, then a protocol error, then ready again: two log lines, not three. */
  lemma ReadyErrorReady(states: map<string, Health>, name: string)
    requires Get(states, name) == Ready
    ensures Changes(states, name, [Ready, ProtocolError, Ready]) == 2
  {
    ChangesAppend(states, name, [], Ready);
    assert [Ready] == [] + [Ready];
    ChangesAppend(states, name, [Ready], ProtocolError);
    assert [Ready, ProtocolError] == [Ready] + [ProtocolError];
    ChangesAppend(states, name, [Ready, ProtocolError], Ready);
    assert [Ready, ProtocolError, Ready] == [Ready, ProtocolError] + [Ready];
  }

  /** `current_state`'s rendering of a state. */
  function Label(h: Health): string {
    match h
    case Ready => "Ready"
    case InterfaceError => "Interface Error"
    case ProtocolError => "Protocol Error"
  }

  /** Distinct states get distinct labels. */
  lemma LabelInjective(h: Health, h': Health)
    requires Label(h) == Label(h')
    ensures h == h'
  {
  }

  // ------------------------------------------------------- one session

  /** How `_read` ends: an exception from `int()`, a flagged cycle, or a stored reading. */
  datatype Outcome = Raised | Flagged | Measured(moisture: seq<real>, temperature: seq<real>)

  /** The outcome, the frames written and the replies left unread. */
  datatype Session = Session(outcome: Outcome, frames: seq<string>, rest: seq<string>)

  /** The moisture flag: a value was rejected, or the number accepted differs from the count announced. */
  predicate MoistureError(p: Phase)
    requires p.start.Some?
  {
    AnyRejected(p.fetched) || |AcceptedValues(p.fetched)| != p.start.value.count
  }

  /** The moisture phase is clean iff every match was kept and exactly as many as announced. */
  lemma MoistureErrorIff(p: Phase)
    requires p.start.Some?
    ensures !MoistureError(p) <==> |AcceptedValues(p.fetched)| == |p.fetched| == p.start.value.count
  {
    AllAcceptedIff(p.fetched);
  }

  /** The temperature flag: only a rejected value sets it; the count check assigns an unused local. */
  predicate TemperatureError(p: Phase) {
    AnyRejected(p.fetched)
  }

  /** The temperature flag is set iff some match was dropped, whatever the count announced. */
  lemma TemperatureErrorIff(p: Phase)
    ensures TemperatureError(p) <==> |AcceptedValues(p.fetched)| < |p.fetched|
  {
    AllAcceptedIff(p.fetched);
  }

  /**
   * How a session ends once the `M0` reply parsed, given both phases: a raise
   * exactly when the `M1` reply does not parse, and a reading only when every
   * value of both phases was kept, as many moisture values as announced.
   */
  function Judge(m: Phase, t: Phase): (o: Outcome)
    requires m.start.Some?
    ensures o.Raised? <==> t.start.None?
    ensures o.Measured? ==>
      && |o.moisture| == |m.fetched| == m.start.value.count
      && |o.temperature| == |t.fetched|
  {
    MoistureErrorIff(m);
    TemperatureErrorIff(t);
    if t.start.None? then Raised
    else if MoistureError(m) || TemperatureError(t) then Flagged
    else Measured(AcceptedValues(m.fetched), AcceptedValues(t.fetched))
  }

  /** `_read` on a port whose device will send the replies `q`. */
  function ReadSession(q: seq<string>): (s: Session)
    ensures |s.frames| >= 1 && s.frames[0] == MoistureStart
    ensures s.outcome.Measured? ==>
      (forall k :: 0 <= k < |s.outcome.moisture| ==> InRange(s.outcome.moisture[k]))
      && (forall k :: 0 <= k < |s.outcome.temperature| ==> InRange(s.outcome.temperature[k]))
  {
    var m := RunPhase(q, Seconds);
    var moistureFrames := PhaseFrames(MoistureStart, MoisturePrefix, m);
    if m.start.None? then Session(Raised, moistureFrames, m.rest)
    else
      var t := RunPhase(m.rest, NoWait);
      Session(Judge(m, t), moistureFrames + PhaseFrames(TemperatureStart, TemperaturePrefix, t), t.rest)
  }

  /**
   * A stored reading holds every value the probe sent, in reply order, none
   * of them rejected, and exactly as many moisture values as announced.
   */
  lemma SessionMeasured(q: seq<string>)
    requires ReadSession(q).outcome.Measured?
    ensures var m := RunPhase(q, Seconds);
      var t := RunPhase(m.rest, NoWait);
      var o := ReadSession(q).outcome;
      && m.start.Some? && t.start.Some?
      && |o.moisture| == m.start.value.count == |m.fetched|
      && |o.temperature| == |t.fetched|
      && (forall k :: 0 <= k < |m.fetched| ==> Classify(m.fetched[k]) == Accepted(o.moisture[k]))
      && (forall k :: 0 <= k < |t.fetched| ==> Classify(t.fetched[k]) == Accepted(o.temperature[k]))
  {
    var m := RunPhase(q, Seconds);
    var t := RunPhase(m.rest, NoWait);
    AllAcceptedIff(m.fetched);
    AllAcceptedIff(t.fetched);
    AllAcceptedValues(m.fetched);
    AllAcceptedValues(t.fetched);
  }

  /** When every match is accepted, the values are the matches' values, position by position. */
  lemma {:induction false} AllAcceptedValues(ts: seq<string>)
    requires !AnyRejected(ts)
    ensures |AcceptedValues(ts)| == |ts|
    ensures forall k :: 0 <= k < |ts| ==> Classify(ts[k]) == Accepted(AcceptedValues(ts)[k])
  {
    if ts != [] {
      var init := ts[..|ts| - 1];
      AllAcceptedValues(init);
      forall k | 0 <= k < |ts| ensures Classify(ts[k]) == Accepted(AcceptedValues(ts)[k]) {
        if k < |init| {
          assert ts[k] == init[k];
        }
      }
    }
  }

  /**
   * Once both `M` replies parse, the cycle is flagged iff some moisture value
   * is out of range, the number of moisture values accepted differs from the
   * count announced, or some temperature value is out of range. A short
   * temperature read alone does not flag it.
   */
  lemma SessionRejectedIff(q: seq<string>)
    requires var m := RunPhase(q, Seconds); m.start.Some? && RunPhase(m.rest, NoWait).start.Some?
    ensures var m := RunPhase(q, Seconds);
      var t := RunPhase(m.rest, NoWait);
      ReadSession(q).outcome.Flagged? <==>
        (exists k :: 0 <= k < |m.fetched| && Classify(m.fetched[k]).OutOfRange?)
        || |AcceptedValues(m.fetched)| != m.start.value.count
        || (exists k :: 0 <= k < |t.fetched| && Classify(t.fetched[k]).OutOfRange?)
  {
    var m := RunPhase(q, Seconds);
    var t := RunPhase(m.rest, NoWait);
    PhaseRejectedIff(q, Seconds);
    PhaseRejectedIff(m.rest, NoWait);
  }

  /** An `M0` reply that `int()` cannot read ends the session after its one frame. */
  lemma SessionRaisesEarly(q: seq<string>)
    requires RunPhase(q, Seconds).start.None?
    ensures ReadSession(q) == Session(Raised, [MoistureStart], Rest(q))
  {
    assert DataFrames(MoisturePrefix, 0) == [];
  }

  lemma FramesRegroup(a: string, b: string, d1: seq<string>, d2: seq<string>)
    ensures ([a] + d1) + ([b] + d2) == [a] + d1 + [b] + d2
  {
  }

  /**
   * The frames a session writes once the `M0` reply parsed: `0M0!`, then
   * `0D0!` ... below the moisture count, then `0M1!` and `OD0!` ... below the
   * temperature count.
   */
  lemma SessionFrames(q: seq<string>)
    requires RunPhase(q, Seconds).start.Some?
    ensures var m := RunPhase(q, Seconds);
      var t := RunPhase(m.rest, NoWait);
      && m.rounds <= m.start.value.count
      && (t.start.Some? ==> t.rounds <= t.start.value.count)
      && (t.start.None? ==> t.rounds == 0)
      && ReadSession(q).frames == [MoistureStart] + DataFrames(MoisturePrefix, m.rounds)
                                 + [TemperatureStart] + DataFrames(TemperaturePrefix, t.rounds)
  {
    var m := RunPhase(q, Seconds);
    var t := RunPhase(m.rest, NoWait);
    var f1 := PhaseFrames(MoistureStart, MoisturePrefix, m);
    var f2 := PhaseFrames(TemperatureStart, TemperaturePrefix, t);
    assert ReadSession(q).frames == f1 + f2;
    FramesRegroup(MoistureStart, TemperatureStart,
                  DataFrames(MoisturePrefix, m.rounds), DataFrames(TemperaturePrefix, t.rounds));
  }

  /** `_read` leaves the states and readings as the session's outcome says. */
  function StatesAfter(states: map<string, Health>, name: string, o: Outcome): map<string, Health> {
    match o
    case Raised => states
    case Flagged => SetState(states, name, ProtocolError)
    case Measured(_, _) => SetState(states, name, Ready)
  }

  function ReadingsAfter(readings: map<string, Reading>, name: string, o: Outcome): map<string, Reading> {
    match o
    case Measured(m, t) => readings[name := Reading(m, t)]
    case _ => readings
  }

  /** The entry `_read` leaves for its own probe, given the entry before. */
  function StateAfter(prev: Option<Health>, o: Outcome): Option<Health> {
    match o
    case Raised => prev
    case Flagged => Some(ProtocolError)
    case Measured(_, _) => Some(Ready)
  }

  function ReadingAfter(prev: Option<Reading>, o: Outcome): Option<Reading> {
    match o
    case Measured(m, t) => Some(Reading(m, t))
    case _ => prev
  }

  /** What `_read` leaves for its probe depends only on that probe's entries; the others stay. */
  lemma AfterAt(states: map<string, Health>, readings: map<string, Reading>, name: string, o: Outcome)
    ensures Find(StatesAfter(states, name, o), name) == StateAfter(Find(states, name), o)
    ensures Find(ReadingsAfter(readings, name, o), name) == ReadingAfter(Find(readings, name), o)
    ensures forall n :: n != name ==> Find(StatesAfter(states, name, o), n) == Find(states, n)
    ensures forall n :: n != name ==> Find(ReadingsAfter(readings, name, o), n) == Find(readings, n)
  {
  }

  // ---------------------------------------------------------- the block

  /** What the block keeps of a good cycle for one probe. */
  datatype Reading = Reading(moisture: seq<real>, temperature: seq<real>)

  /** One emitted signal: `{name, moisture_values, temperature_values}`. */
  datatype Record = Record(name: string, moisture: seq<real>, temperature: seq<real>)

  /** One entry of `configured_probes`. */
  datatype ProbeConfig = ProbeConfig(name: string, port: string)

  /** The signals carry exactly the buffered readings, one per probe, in no promised order. */
  ghost predicate Emits(signals: seq<Record>, readings: map<string, Reading>) {
    && (forall i :: 0 <= i < |signals| ==>
          signals[i].name in readings
          && readings[signals[i].name] == Reading(signals[i].moisture, signals[i].temperature))
    && (forall i, j :: 0 <= i < j < |signals| ==> signals[i].name != signals[j].name)
    && (forall n :: n in readings ==> Listed(signals, n))
  }

  /** Some signal is for probe `n`. */
  ghost predicate Listed(signals: seq<Record>, n: string) {
    exists i :: 0 <= i < |signals| && signals[i].name == n
  }

  /** Appending a signal lists its probe and keeps every probe listed before. */
  lemma ListedAppend(signals: seq<Record>, r: Record)
    ensures Listed(signals + [r], r.name)
    ensures forall n :: Listed(signals, n) ==> Listed(signals + [r], n)
  {
    assert (signals + [r])[|signals|] == r;
    forall n | Listed(signals, n) ensures Listed(signals + [r], n) {
      var i :| 0 <= i < |signals| && signals[i].name == n;
      assert (signals + [r])[i] == signals[i];
    }
  }

  /** No two configured probes share a name, and none is already known. */
  ghost predicate FreshNames(configured: seq<ProbeConfig>, states: map<string, Health>) {
    && (forall i, j :: 0 <= i < j < |configured| ==> configured[i].name != configured[j].name)
    && (forall i :: 0 <= i < |configured| ==> configured[i].name !in states)
  }

  /** The state `_open_port` leaves for a probe, given which device paths open. */
  ghost predicate Opened(c: ProbeConfig, devices: map<string, Port>, probes: map<string, Port>, states: map<string, Health>) {
    && Get(states, c.name) == (if c.port in devices then Ready else InterfaceError)
    && (c.port in devices ==> c.name in probes && probes[c.name] == devices[c.port])
  }

  /**
   * Every probe with an open port has a state, and no state is `None`:
   * `None` is only ever written for a probe that has none yet, which is no
   * change at all.
   */
  ghost predicate ValidMaps(probes: map<string, Port>, states: map<string, Health>) {
    probes.Keys == states.Keys
    && forall n :: n in states ==> states[n] != InterfaceError
  }

  /** Recording a good or flagged cycle for an open probe keeps the maps valid. */
  lemma SetStateValid(probes: map<string, Port>, states: map<string, Health>, name: string, h: Health)
    requires ValidMaps(probes, states) && name in probes && h != InterfaceError
    ensures ValidMaps(probes, SetState(states, name, h))
  {
  }

  /** Opening another probe leaves what an earlier open recorded. */
  lemma OpenedKept(c: ProbeConfig, devices: map<string, Port>,
                   probes0: map<string, Port>, states0: map<string, Health>,
                   probes: map<string, Port>, states: map<string, Health>, name: string)
    requires Opened(c, devices, probes0, states0) && c.name != name
    requires Find(probes, c.name) == Find(probes0, c.name) && Find(states, c.name) == Find(states0, c.name)
    ensures Opened(c, devices, probes, states)
  {
  }

  class Aquacheck {
    /** `probes`: the open port of every probe that identified. */
    var probes: map<string, Port>
    /** `_probe_states`. */
    var probeStates: map<string, Health>
    /** `_readings`: the buffer a read cycle fills. */
    var readings: map<string, Reading>
    /** `_active`: a read cycle is running. */
    var active: bool

    /** The block's own invariant, on its two maps. */
    ghost predicate Valid()
      reads this
    {
      ValidMaps(probes, probeStates)
    }

    /** Different probes use different port objects. */
    ghost predicate PortsDistinct()
      reads this
    {
      forall a, b :: a in probes && b in probes && a != b ==> probes[a] != probes[b]
    }

    /**
     * Probe `n`, whose port held the replies `q` and the frames `w` and whose
     * entries were `state0` and `reading0`, has been read: its port, state and
     * reading are as its session says.
     */
    ghost predicate Settled(n: string, q: seq<string>, w: seq<string>,
                            state0: Option<Health>, reading0: Option<Reading>)
      reads this, probes.Values
      requires n in probes
    {
      var s := ReadSession(q);
      && probes[n].pending == s.rest && probes[n].written == w + s.frames
      && Find(probeStates, n) == StateAfter(state0, s.outcome)
      && Find(readings, n) == ReadingAfter(reading0, s.outcome)
    }

    constructor ()
      ensures probes == map[] && probeStates == map[] && readings == map[] && !active
      ensures Valid()
    {
      probes, probeStates, readings, active := map[], map[], map[], false;
    }

    /** `_set_probe_state`; `changed` is whether a log line is written. */
    method SetProbeState(name: string, h: Health) returns (changed: bool)
      modifies this
      ensures probeStates == SetState(old(probeStates), name, h)
      ensures changed == (Get(old(probeStates), name) != h)
      ensures probes == old(probes) && readings == old(readings) && active == old(active)
    {
      var previous := Get(probeStates, name);
      changed := h != previous;
      if changed {
        probeStates := probeStates[name := h];
      }
    }

    /** `current_state`: every recorded probe with its state's label. */
    method CurrentState() returns (labels: map<string, string>)
      ensures labels.Keys == probeStates.Keys
      ensures forall n :: n in labels ==> labels[n] == Label(probeStates[n])
    {
      labels := map[];
      var todo := probeStates.Keys;
      while todo != {}
        invariant todo <= probeStates.Keys
        invariant labels.Keys == probeStates.Keys - todo
        invariant forall n :: n in labels ==> labels[n] == Label(probeStates[n])
        decreases |todo|
      {
        var n :| n in todo;
        labels := labels[n := Label(probeStates[n])];
        todo := todo - {n};
      }
    }

    /**
     * `_open_port`: `device` is the port `serial.Serial` opened on the probe's
     * device path, or null where opening raised. The identify reply cannot make
     * it fail.
     */
    method OpenPort(name: string, device: Port?) returns (id: Option<BlockIdentity>)
      modifies this, device
      ensures device == null ==>
        id.None? && probes == old(probes) && probeStates == SetState(old(probeStates), name, InterfaceError)
      ensures device != null ==>
        && id == Some(BlockIdentify(Head(old(device.pending))))
        && device.written == old(device.written) + [IdentifyCommand]
        && device.pending == Rest(old(device.pending))
        && probes == old(probes)[name := device]
        && probeStates == SetState(old(probeStates), name, Ready)
      ensures readings == old(readings) && active == old(active)
      ensures old(Valid()) && name !in old(probeStates) ==> Valid()
    {
      if device == null {
        var _ := SetProbeState(name, InterfaceError);
        return None;
      }
      device.Write(IdentifyCommand);
      var reply := device.ReadLine();
      id := Some(BlockIdentify(reply));
      probes := probes[name := device];
      var _ := SetProbeState(name, Ready);
    }

    /** One thread of `configure`: `_open_port` for one configured probe; no other probe changes. */
    method OpenConfigured(c: ProbeConfig, devices: map<string, Port>)
      modifies this, devices.Values
      ensures Opened(c, devices, probes, probeStates)
      ensures forall n :: n != c.name ==> Find(probes, n) == Find(old(probes), n)
      ensures forall n :: n != c.name ==> Find(probeStates, n) == Find(old(probeStates), n)
      ensures readings == old(readings) && active == old(active)
      ensures old(Valid()) && c.name !in old(probeStates) ==> Valid()
    {
      var device := if c.port in devices then devices[c.port] else null;
      var _ := OpenPort(c.name, device);
    }

    /** `configure`: open every configured probe, in order. */
    method Configure(configured: seq<ProbeConfig>, devices: map<string, Port>)
      modifies this, devices.Values
      ensures readings == old(readings) && active == old(active)
      ensures forall i :: 0 <= i < |configured| ==>
        (forall j :: i < j < |configured| ==> configured[j].name != configured[i].name) ==>
        Opened(configured[i], devices, probes, probeStates)
      ensures old(Valid()) && FreshNames(configured, old(probeStates)) ==> Valid()
    {
      ghost var newNames := Valid() && FreshNames(configured, probeStates);
      var k := 0;
      while k < |configured|
        invariant k <= |configured|
        invariant readings == old(readings) && active == old(active)
        invariant forall i :: 0 <= i < k ==>
          (forall j :: i < j < k ==> configured[j].name != configured[i].name) ==>
          Opened(configured[i], devices, probes, probeStates)
        invariant newNames ==> Valid() && forall j :: k <= j < |configured| ==> configured[j].name !in probeStates
      {
        var c := configured[k];
        ghost var probes0, states0 := probes, probeStates;
        OpenConfigured(c, devices);
        forall i | 0 <= i <= k && (forall j :: i < j <= k ==> configured[j].name != configured[i].name)
          ensures Opened(configured[i], devices, probes, probeStates)
        {
          if i < k {
            OpenedKept(configured[i], devices, probes0, states0, probes, probeStates, c.name);
          }
        }
        if newNames {
          forall j | k < j < |configured| ensures configured[j].name !in probeStates {
            assert configured[j].name != configured[k].name && configured[j].name !in states0;
            assert Find(probeStates, configured[j].name) == Find(states0, configured[j].name);
          }
        }
        k := k + 1;
      }
    }

    /**
     * The exchange part of `_read(name, port)`: both measurements and the
     * error flags. An `M` reply `int()` cannot read raises before any flag is
     * looked at.
     */
    static method RunSession(port: Port) returns (outcome: Outcome)
      modifies port
      ensures var s := ReadSession(old(port.pending));
        outcome == s.outcome && port.written == old(port.written) + s.frames && port.pending == s.rest
    {
      ghost var q := port.pending;
      ghost var w := port.written;
      ghost var m := RunPhase(q, Seconds);
      var moistureStart, _, moisture, moistureRejected := MeasurePhase(port, MoistureStart, MoisturePrefix, Seconds);
      ghost var w1 := port.written;
      ghost var f1 := PhaseFrames(MoistureStart, MoisturePrefix, m);
      if moistureStart.None? {
        return Raised;
      }
      var moistureError := moistureRejected;
      if |moisture| != moistureStart.value.count && !moistureError {
        moistureError := true;
      }
      ghost var t := RunPhase(m.rest, NoWait);
      var temperatureStart, _, temperature, temperatureRejected := MeasurePhase(port, TemperatureStart, TemperaturePrefix, NoWait);
      ghost var f2 := PhaseFrames(TemperatureStart, TemperaturePrefix, t);
      AppendAssoc(w, f1, f2);
      assert ReadSession(q) == Session(Judge(m, t), f1 + f2, t.rest);
      if temperatureStart.None? {
        return Raised;
      }
      var temperatureError := temperatureRejected;
      var error := false;
      if |temperature| != temperatureStart.value.count && !temperatureError {
        error := true;
      }
      if moistureError || temperatureError {
        return Flagged;
      }
      return Measured(moisture, temperature);
    }

    /**
     * `_read(name, port)`: run the session on the port, then record a
     * protocol error, or store the reading and record ready; an exception
     * records nothing.
     */
    method ReadProbe(name: string, port: Port)
      modifies this, port
      ensures var s := ReadSession(old(port.pending));
        && port.written == old(port.written) + s.frames && port.pending == s.rest
        && probeStates == StatesAfter(old(probeStates), name, s.outcome)
        && readings == ReadingsAfter(old(readings), name, s.outcome)
      ensures probes == old(probes) && active == old(active)
      ensures old(Valid()) && name in probes ==> Valid()
    {
      var outcome := RunSession(port);
      Store(name, outcome);
    }

    /** The bookkeeping at the end of `_read`, once the session ended with `outcome`. */
    method Store(name: string, outcome: Outcome)
      modifies this
      ensures probeStates == StatesAfter(old(probeStates), name, outcome)
      ensures readings == ReadingsAfter(old(readings), name, outcome)
      ensures probes == old(probes) && active == old(active)
      ensures old(Valid()) && name in probes ==> Valid()
    {
      match outcome {
        case Raised =>
        case Flagged =>
          if name in probes && Valid() {
            SetStateValid(probes, probeStates, name, ProtocolError);
          }
          var _ := SetProbeState(name, ProtocolError);
        case Measured(moisture, temperature) =>
          if name in probes && Valid() {
            SetStateValid(probes, probeStates, name, Ready);
          }
          readings := readings[name := Reading(moisture, temperature)];
          var _ := SetProbeState(name, Ready);
      }
    }

    /**
     * The first half of `_spawn_readers`: reopen every probe whose state is
     * `None`, through `self.probes[name]`, which raises for a probe that never
     * opened. A valid block has no such probe, so nothing happens.
     */
    method ReopenFailed(devices: map<string, Port>) returns (ok: bool)
      modifies this, devices.Values
      ensures readings == old(readings) && active == old(active)
      ensures old(Valid()) ==> ok && probes == old(probes) && probeStates == old(probeStates)
      ensures old(Valid()) ==> unchanged(devices.Values)
      ensures forall n :: n in probes ==> probes[n] in old(probes.Values) || probes[n] in devices.Values
    {
      var todo := set n | n in probeStates && probeStates[n] == InterfaceError;
      ok := true;
      while todo != {}
        invariant readings == old(readings) && active == old(active)
        invariant old(Valid()) ==> todo == {} && probes == old(probes) && probeStates == old(probeStates)
        invariant old(Valid()) ==> unchanged(devices.Values)
        invariant forall n :: n in probes ==> probes[n] in old(probes.Values) || probes[n] in devices.Values
        decreases |todo|
      {
        var n :| n in todo;
        if n !in probes {
          ok := false;
          return;
        }
        var path := probes[n].path;
        var device := if path in devices then devices[path] else null;
        var _ := OpenPort(n, device);
        todo := todo - {n};
      }
    }

    /** Probe `n` has not been read yet: its port, state and reading are as they were. */
    ghost predicate Untouched(n: string, q: seq<string>, w: seq<string>,
                              state0: Option<Health>, reading0: Option<Reading>)
      reads this, probes.Values
      requires n in probes
    {
      && probes[n].pending == q && probes[n].written == w
      && Find(probeStates, n) == state0
      && Find(readings, n) == reading0
    }

    /** The second half of `_spawn_readers`: read every open probe. */
    method ReadAll()
      modifies this, probes.Values
      ensures probes == old(probes) && active == old(active)
      ensures old(Valid()) ==> Valid()
      ensures PortsDistinct() ==> forall n :: n in probes ==>
        Settled(n, old(probes[n].pending), old(probes[n].written), old(Find(probeStates, n)), old(Find(readings, n)))
      ensures forall n :: n !in probes ==> Find(readings, n) == Find(old(readings), n)
    {
      ghost var distinct := PortsDistinct();
      var todo := probes.Keys;
      while todo != {}
        invariant todo <= probes.Keys
        invariant probes == old(probes) && active == old(active)
        invariant old(Valid()) ==> Valid()
        invariant distinct ==> forall n :: n in probes && n !in todo ==>
          Settled(n, old(probes[n].pending), old(probes[n].written), old(Find(probeStates, n)), old(Find(readings, n)))
        invariant distinct ==> forall n :: n in todo ==>
          Untouched(n, old(probes[n].pending), old(probes[n].written), old(Find(probeStates, n)), old(Find(readings, n)))
        invariant forall n :: n !in probes ==> Find(readings, n) == Find(old(readings), n)
        decreases |todo|
      {
        var n :| n in todo;
        label before:
        ReadOne(n, todo);
        if distinct {
          forall m | m in probes && m !in todo - {n}
            ensures Settled(m, old(probes[m].pending), old(probes[m].written), old(Find(probeStates, m)), old(Find(readings, m)))
          {
            var q, w, h, r := old(probes[m].pending), old(probes[m].written), old(Find(probeStates, m)), old(Find(readings, m));
            if m != n {
              assert probes[m] != probes[n];
              assert old@before(Settled(m, q, w, h, r));
            } else {
              assert old@before(Untouched(m, q, w, h, r));
            }
          }
          forall m | m in todo - {n}
            ensures Untouched(m, old(probes[m].pending), old(probes[m].written), old(Find(probeStates, m)), old(Find(readings, m)))
          {
            var q, w, h, r := old(probes[m].pending), old(probes[m].written), old(Find(probeStates, m)), old(Find(readings, m));
            assert probes[m] != probes[n];
            assert old@before(Untouched(m, q, w, h, r));
          }
        }
        todo := todo - {n};
      }
    }

    /** One step of `ReadAll`: reading probe `n` touches nothing that belongs to another probe. */
    method ReadOne(n: string, ghost todo: set<string>)
      requires n in todo && todo <= probes.Keys
      modifies this, probes[n]
      ensures probes == old(probes) && active == old(active)
      ensures old(Valid()) ==> Valid()
      ensures Settled(n, old(probes[n].pending), old(probes[n].written), old(Find(probeStates, n)), old(Find(readings, n)))
      ensures forall m :: m != n ==> Find(probeStates, m) == Find(old(probeStates), m)
      ensures forall m :: m != n ==> Find(readings, m) == Find(old(readings), m)
      ensures forall m :: m in probes && probes[m] != probes[n] ==>
        probes[m].pending == old(probes[m].pending) && probes[m].written == old(probes[m].written)
    {
      AfterAt(probeStates, readings, n, ReadSession(probes[n].pending).outcome);
      ReadProbe(n, probes[n]);
    }

    /** `_spawn_readers`, with the threads run one after the other. */
    method SpawnReaders(devices: map<string, Port>) returns (ok: bool)
      modifies this, devices.Values, probes.Values
      ensures active == old(active)
      ensures old(Valid()) ==> ok && Valid() && probes == old(probes)
      ensures old(Valid()) && PortsDistinct() ==> forall n :: n in probes ==>
        Settled(n, old(probes[n].pending), old(probes[n].written), old(Find(probeStates, n)), old(Find(readings, n)))
      ensures old(Valid()) ==> forall n :: n !in probes ==> Find(readings, n) == Find(old(readings), n)
    {
      ok := ReopenFailed(devices);
      if !ok {
        return;
      }
      assert old(Valid()) ==> forall n :: n in probes ==>
        probes[n].pending == old(probes[n].pending) && probes[n].written == old(probes[n].written);
      ReadAll();
    }

    /** The records of the buffered readings, one per probe. */
    method Records() returns (signals: seq<Record>)
      ensures Emits(signals, readings)
    {
      signals := [];
      var todo := readings.Keys;
      while todo != {}
        invariant todo <= readings.Keys
        invariant forall i :: 0 <= i < |signals| ==>
          signals[i].name in readings.Keys - todo
          && readings[signals[i].name] == Reading(signals[i].moisture, signals[i].temperature)
        invariant forall i, j :: 0 <= i < j < |signals| ==> signals[i].name != signals[j].name
        invariant forall n :: n in readings && n !in todo ==> Listed(signals, n)
        decreases |todo|
      {
        var n :| n in todo;
        var r := readings[n];
        ListedAppend(signals, Record(n, r.moisture, r.temperature));
        signals, todo := signals + [Record(n, r.moisture, r.temperature)], todo - {n};
      }
    }

    /**
     * `_read_and_notify`: mark the block busy, clear the buffer, read every
     * probe, and emit the records; `None` where an exception was caught
     * instead. The busy flag is clear on every exit.
     */
    method ReadAndNotify(devices: map<string, Port>) returns (signals: Option<seq<Record>>)
      modifies this, devices.Values, probes.Values
      ensures !active
      ensures signals.Some? ==> Emits(signals.value, readings)
      ensures old(Valid()) ==> signals.Some? && Valid() && probes == old(probes)
      ensures old(Valid()) ==> readings.Keys <= probes.Keys
      ensures old(Valid()) && PortsDistinct() ==> forall n :: n in probes ==>
        Settled(n, old(probes[n].pending), old(probes[n].written), old(Find(probeStates, n)), None)
    {
      active := true;
      readings := map[];
      var ok := SpawnReaders(devices);
      if ok {
        var records := Records();
        signals := Some(records);
      } else {
        signals := None;
      }
      active := false;
    }

    /** `read`: ignored while a cycle is running. */
    method Read(devices: map<string, Port>) returns (signals: Option<seq<Record>>)
      modifies this, devices.Values, probes.Values
      ensures old(active) ==> signals.None? && unchanged(this) && unchanged(devices.Values) && unchanged(probes.Values)
      ensures !old(active) ==> !active
      ensures signals.Some? ==> Emits(signals.value, readings)
      ensures !old(active) && old(Valid()) ==> signals.Some? && Valid() && probes == old(probes)
      ensures !old(active) && old(Valid()) ==> readings.Keys <= probes.Keys
      ensures !old(active) && old(Valid()) && PortsDistinct() ==> forall n :: n in probes ==>
        Settled(n, old(probes[n].pending), old(probes[n].written), old(Find(probeStates, n)), None)
    {
      if active {
        return None;
      }
      signals := ReadAndNotify(devices);
    }
  }
}
