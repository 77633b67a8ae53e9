# Aquacheck probe exchange, modelled in Dafny

This project models the serial exchange with Aquacheck soil probes, as two
programs in the repository carry it out:

- the `Aquacheck` block (`aquacheck_block.py`). It opens one serial port per
  configured probe and sends each probe the identify command `0I!`. On every
  read cycle it runs a moisture measurement (`0M0!`), waits for the
  "attention response", fetches the moisture values (`0D0!`, `0D1!`, ...),
  then runs a temperature measurement (`0M1!`) and fetches those values. It
  records a health state per probe (`True` / `False` / `None`, here `Ready` /
  `ProtocolError` / `InterfaceError`) and emits one record per probe that
  read cleanly;
- the stand-alone test script `probetest.py`, which runs the same exchange
  once against the probe at address 0 and reports what it got.

A serial port is a `Serial.Port` object. It holds the replies the device will
still send (`pending`; an empty line stands for a read that timed out) and the
frames written to it so far (`written`). Each exchange is a method over such a
port. Its contract ties the port's new state and the method's results to a
pure function of the replies it was given:

- `Exchange.RunPhase` specifies one measurement;
- `Block.ReadSession` specifies one `_read`;
- `ProbeTest.Script` specifies the whole script.

The lemmas then state what those functions promise: which frames go out,
which values are kept, when a cycle is flagged, and when the script gives up.

Modules, in dependency order:

- `Wrappers`: `Option`.
- `Text`: Python's `str.rstrip()`, clamped slicing, and `int()` on digit
  strings; also the decimal rendering of the block index inside `D` frames.
- `Serial`: the scripted port.
- `Tokens`: the pattern `[\+\-][0-9]+\.[0-9]+` as `re.findall` applies it,
  plus `float()` on a match and the range check `-5 < v < 120`.
- `Protocol`: command frames, the `AquaChck` marker search, both programs'
  identify parses, and the measurement-start reply `ddd...n`.
- `Exchange`: the attention wait and the collection loop, shared by both
  programs.
- `Block`: the `Aquacheck` class.
- `ProbeTest`: the script.

Sensor values are exact reals. `float(value)` on a match is modelled as the
decimal the match spells.

### Behaviour of the code worth knowing

- The block never fails an identification. `probe_id.split('AquaChck')[-1]`
  cannot raise, so the `except` branch at `aquacheck_block.py:122-130` is
  unreachable: a reply without the marker, or an empty one, still counts as
  a probe that opened (`Protocol.BlockIdentify` has no failing case). Only
  the script gives up on a bad identify reply (`probetest.py:24-29`).
- Identification happens once, in `_open_port`. A read cycle starts at
  `0M0!` (`aquacheck_block.py:144`).
- In the block, a temperature count mismatch never downgrades the cycle. It
  sets a local `error` (`aquacheck_block.py:240`) that nothing reads; only an
  invalid or out-of-range temperature value sets `temp_error`, which flags
  the cycle.
- The block's temperature data frames are `OD<r>!`, with the letter O
  (`aquacheck_block.py:209`). They are not commands to address 0 at all
  (`Block.BlockFrames`).
- The comment on `_probe_states` (`aquacheck_block.py:53-55`) reads `None` as
  "Port closed", but a probe whose port fails to open is never recorded:
  `_set_probe_state(name, None)` on a name with no state changes nothing,
  because `None` is already what `dict.get` returns. So the reopen path in
  `_spawn_readers` never runs for it, and on a valid block no state is ever
  `InterfaceError` (`Block.Aquacheck.ReopenFailed`). If the path did run, it
  would look the name up in `self.probes`, which has no entry for a probe
  that never opened.
- The `M1` delay is parsed but not waited on (`aquacheck_block.py:204`,
  "should be 0"): the block reads no attention response for temperature.
- A cycle whose `M` reply cannot be read by `int()` raises inside the reader
  thread. The probe's state and reading stay as they were; the cycle is not
  downgraded.
- The script resets `error` before the temperature loop
  (`probetest.py:98`). Its final "failed to read all values" therefore
  ignores every moisture error (`ProbeTest.ScriptFailedIff`,
  `ProbeTest.MoistureErrorDropped`).

## Model

| member | source | states |
|---|---|---|
| `Text.Rstrip` | aquacheck_block.py:146 | the result is a prefix of the line, ends in a non-whitespace character (or is empty), and only whitespace was removed |
| `Text.RstripAppendSpace` | aquacheck_block.py:146 | stripping ignores any trailing whitespace appended to a line, and stripping twice is stripping once |
| `Text.Slice` | aquacheck_block.py:131-132 | Python slicing clamps both bounds: the length is `min(hi, len) - lo` or 0, and each character is the one at `lo + k` |
| `Text.ParseNat` | aquacheck_block.py:147-148 | `int()` on a digit string succeeds iff the string is non-empty and all digits, and its value has no more digits than the string |
| `Text.ParseNatToString` | aquacheck_block.py:168 | the index written into a `D` frame reads back as the same number |
| `Text.NatToStringInjective` | aquacheck_block.py:168 | different block indices give different `D` frames |
| `Serial.Port.Write` | aquacheck_block.py:117 | `port.write` appends one frame to what the device received and leaves its pending replies alone |
| `Serial.Port.ReadLine` | aquacheck_block.py:118 | `port.readline` returns the next pending reply (an empty line when none is left) and consumes it |
| `Tokens.ParseToken` | aquacheck_block.py:176 | a parse succeeds only on a well-formed decimal that renders back to exactly the matched text |
| `Tokens.RenderParses` | aquacheck_block.py:176 | every well-formed decimal parses back from its rendering |
| `Tokens.MatchEnd` | aquacheck_block.py:173 | a match starting at `i` ends at least four characters after `i` (sign, digit, `.`, digit) and within the line |
| `Tokens.ScanFrom` | aquacheck_block.py:173 | the scan from position `i` finds at most a quarter as many matches as characters remain, since each match takes at least four |
| `Tokens.FindAll` | aquacheck_block.py:173-176 | `re.findall` on a reply: every string it returns is one `float()` accepts, and there are at most `len(reply) / 4` of them |
| `Tokens.NoSignNoValues` | aquacheck_block.py:173 | a line with no `+` or `-` yields no values |
| `Tokens.ScanJoin` | aquacheck_block.py:173 | decimals sent back to back are extracted one by one, in order |
| `Tokens.Classify` | aquacheck_block.py:175-191 | a match is invalid iff it does not parse; an accepted value lies strictly between -5 and 120; an out-of-range value lies outside; both are the value the match spells |
| `Tokens.AcceptedValues` | aquacheck_block.py:174-192 | the kept values are no more than the matches, and every one is in range |
| `Tokens.AcceptedAppend` | aquacheck_block.py:167-192 | kept values and the error flag accumulate across replies: those of a concatenation are the concatenation / disjunction |
| `Tokens.AllAcceptedIff` | aquacheck_block.py:174-192 | every match is kept iff no match set the error flag |
| `Tokens.AnyRejectedIff` | aquacheck_block.py:174-191 | the error flag is set iff some match was invalid or out of range |
| `Tokens.AcceptedOne` | aquacheck_block.py:174-192 | a single match is kept, with its value, iff it is accepted, and sets the error flag iff it is not |
| `Tokens.AcceptedPair` | aquacheck_block.py:174-192 | two accepted matches are both kept, in order |
| `Tokens.ExtractedNeverInvalid` | aquacheck_block.py:178-184 | no match of the pattern makes `float()` raise, so the `ValueError` branch never runs |
| `Tokens.ClassifyRendered` | aquacheck_block.py:176-177 | a rendered decimal is accepted with its value when in range and rejected with its value otherwise |
| `Tokens.RangeBoundariesRejected` | aquacheck_block.py:177 | the bounds `-5.0` and `+120.0` themselves are out of range |
| `Tokens.RangeBoundariesAccepted` | aquacheck_block.py:177 | `-4.999` and `+119.999` are accepted |
| `Protocol.CommandRoundTrip` | probetest.py:20-21 | a command frame `<address><verb>!\r\n` reads back as its address and verb |
| `Protocol.ParseCommandIff` | probetest.py:20-21 | a frame reads as a command iff it starts with a digit and ends in `!\r\n`, which rules out the block's `OD<r>!` frames |
| `Protocol.DataFrames` | aquacheck_block.py:167-168 | the `k` data frames are `<prefix>0!` ... `<prefix>k-1!`, in sending order |
| `Protocol.DataFrameIsCommand` | probetest.py:60 | a `<address>D<r>!` frame is the command `D<r>` to that address |
| `Protocol.LetterPrefixIsNoCommand` | aquacheck_block.py:209 | a data frame whose prefix starts with a letter is no command to any address |
| `Protocol.FindMarker` | probetest.py:25 | the first `AquaChck` at or after `i`, or none at all |
| `Protocol.AfterLastMarker` | aquacheck_block.py:121 | the text after the last `AquaChck`, which holds no marker, or the whole reply when there is none |
| `Protocol.AfterLastMarkerIs` | aquacheck_block.py:121 | when `b` holds no marker, `split('AquaChck')[-1]` of `a + AquaChck + b` is `b` |
| `Protocol.FirstMarkerBefore` | aquacheck_block.py:121 | in `a + AquaChck + b` the first marker is the one placed there or one ending inside `a`, and the text after it is `b` or the rest of `a` followed by `AquaChck + b` |
| `Protocol.BlockIdentify` | aquacheck_block.py:117-132 | the block's parse always succeeds; the version has at most 3 characters |
| `Protocol.BlockIdentifyWellFormed` | aquacheck_block.py:117-132 | a well-formed reply gives `info[6:9]` as version and `info[10:]` as serial, whatever precedes the marker |
| `Protocol.ScriptIdentify` | probetest.py:22-32 | the script gives up iff the stripped reply has no marker, with "no response" iff it is empty; otherwise model, version and serial are what follows the first marker, cut at 6 and 9 |
| `Protocol.ScriptIdentifyWellFormed` | probetest.py:22-32 | a reply `<padding>AquaChck<info><line end>`, with no `A` in the padding, yields `info[:6]`, `info[6:9]` and `info[9:]` |
| `Protocol.ParseMeasureStart` | aquacheck_block.py:145-148 | the `M` reply parses iff it is non-empty, its first three characters are digits and its last one is; the delay is below 1000 and the count below 10 |
| `Protocol.MeasureStartRoundTrip` | aquacheck_block.py:145-148 | a reply `ddd<anything>n<line end>` parses as delay `ddd` and count `n` |
| `Protocol.MeasureStartExample` | tests/test_aquacheck_block.py:28 | `0036` announces 6 sensors after 3 seconds |
| `Exchange.WaitReads` | aquacheck_block.py:155-160 | the wait reads at most its budget of lines |
| `Exchange.AttendedIff` | aquacheck_block.py:155-164 | the attention response is seen iff one of the first `budget` lines is non-empty |
| `Exchange.WaitStops` | aquacheck_block.py:155-160 | an answered wait stops right after the first non-empty line, having read only empty ones; an unanswered one uses its whole budget |
| `Exchange.BlankIff` | aquacheck_block.py:169-172 | a `D` reply ends the collection iff it holds nothing but whitespace, a timed-out read included |
| `Exchange.AwaitAttention` | aquacheck_block.py:155-164 | the block's wait reads exactly `WaitReads(q, delay)` lines and reports whether it was answered; nothing is written |
| `Exchange.AwaitAttentionCycles` | probetest.py:44-55 | the script's half-second wait reads exactly `WaitReads(q, 2 * delay)` lines and reports whether it was answered |
| `Exchange.Rounds` | aquacheck_block.py:167-172 | a collection sends at most as many `D` commands as sensors announced |
| `Exchange.RoundsStopAtEmpty` | aquacheck_block.py:167-172 | a collection sends at least one command when any is due, every reply before the last is non-empty, and it stops early only on an empty reply |
| `Exchange.FetchedParse` | aquacheck_block.py:167-184 | no value a collection extracts is invalid |
| `Exchange.ClassifyAll` | aquacheck_block.py:174-192 | the loop over one reply's matches keeps exactly the accepted values, in order, and sets the flag exactly when one is rejected |
| `Exchange.CollectRound` | aquacheck_block.py:168-192 | one round writes `<prefix><r>!`, consumes one reply, and stops iff that reply is empty after stripping |
| `Exchange.CollectValues` | aquacheck_block.py:165-192 | the collection loop keeps the accepted values of all fetched matches and writes exactly `Rounds` data frames |
| `Exchange.RunPhase` | aquacheck_block.py:144-192 | a measurement's `M` reply is the first line; an unreadable one ends it after that line; otherwise it sends at most as many `D` commands as announced, and the attention response counts only after a delay |
| `Exchange.AwaitReady` | aquacheck_block.py:149-164 | the wait after an `M` reply reads as the block's or the script's wait prescribes, and nothing for `M1` |
| `Exchange.WaitAndCollect` | aquacheck_block.py:149-192 | the wait followed by the collection, on the lines the wait leaves |
| `Exchange.MeasurePhase` | aquacheck_block.py:144-192 | one measurement on a port leaves it as `RunPhase` says: the parsed reply, the attention flag, the kept values, the error flag, the frames written and the lines left |
| `Exchange.PhaseRejectedIff` | aquacheck_block.py:174-191 | a measurement sets its error flag iff some fetched match is out of range |
| `Exchange.PhaseAttendedIff` | aquacheck_block.py:149-164 | once the `M` reply parses, the attention response is seen iff one of the next `budget` lines is non-empty |
| `Block.BlockFrames` | aquacheck_block.py:117-209 | `0I!`, `0M0!`, `0M1!` and `0D<r>!` are commands to address 0; `OD<r>!` is no command |
| `Block.IdentifyExample` | tests/test_aquacheck_block.py:27 | the block reads `013AquaChckACHSDI043S012345` as version `043`, serial `012345` |
| `Block.SetState` | aquacheck_block.py:250-253 | the name ends with the new state; the map changes iff the state differs; other names keep their entries; recording `None` for an unknown name adds nothing |
| `Block.SetStateIdempotent` | aquacheck_block.py:250-253 | recording the same state twice is recording it once |
| `Block.SetUnknownInterfaceError` | aquacheck_block.py:250-253 | recording `InterfaceError` for a probe with no state leaves the states unchanged |
| `Block.Changes` | aquacheck_block.py:252-259 | a run of recordings logs no more lines than it has recordings |
| `Block.RecordRun` | aquacheck_block.py:250-253 | after a run of recordings a probe holds the last one recorded |
| `Block.ChangesAppend` | aquacheck_block.py:252-259 | one more recording logs one more line iff it differs from the state before it |
| `Block.ReadyErrorReady` | aquacheck_block.py:252-259 | a ready probe that fails one cycle and recovers the next logs exactly two lines |
| `Block.LabelInjective` | aquacheck_block.py:71-77 | the three state labels differ |
| `Block.MoistureErrorIff` | aquacheck_block.py:174-199 | `moisture_error` stays clear iff every match was kept and exactly as many values as announced |
| `Block.TemperatureErrorIff` | aquacheck_block.py:215-233 | `temp_error` is set iff some match was dropped, whatever the count announced |
| `Block.Judge` | aquacheck_block.py:193-248 | once the `M0` reply parsed, the cycle raises iff the `M1` reply does not parse, and stores a reading only when every value of both phases was kept, as many moisture values as announced |
| `Block.ReadSession` | aquacheck_block.py:142-248 | `_read` always writes `0M0!` first, and a stored reading holds only in-range values |
| `Block.SessionMeasured` | aquacheck_block.py:165-248 | a stored reading holds exactly as many moisture values as announced, every match of both phases accepted, position by position |
| `Block.SessionRejectedIff` | aquacheck_block.py:193-243 | once both `M` replies parse, the cycle is flagged iff a moisture value is out of range, the moisture count differs, or a temperature value is out of range |
| `Block.SessionRaisesEarly` | aquacheck_block.py:144-148 | an unreadable `M0` reply ends the session after its one frame, and nothing is recorded |
| `Block.SessionFrames` | aquacheck_block.py:144-209 | a session writes `0M0!`, the moisture `D` frames, `0M1!` and the `OD` frames, no more of each than announced |
| `Block.AfterAt` | aquacheck_block.py:241-248 | what `_read` records touches only its own probe's entries |
| `Block.SetStateValid` | aquacheck_block.py:250-253 | recording `Ready` or `ProtocolError` for an open probe keeps the block valid |
| `Block.OpenedKept` | aquacheck_block.py:106-140 | opening another probe leaves an opened probe as it was |
| `Block.Aquacheck.constructor` | aquacheck_block.py:49-57 | a new block has no probes, states or readings and is idle |
| `Block.Aquacheck.SetProbeState` | aquacheck_block.py:250-259 | `_set_probe_state`: the states become `SetState(...)`, and a line is logged iff the state changed |
| `Block.Aquacheck.CurrentState` | aquacheck_block.py:68-78 | every recorded probe, and only those, is reported with its state's label |
| `Block.Aquacheck.OpenPort` | aquacheck_block.py:106-140 | a port that fails to open records `InterfaceError` (a no-op for a new name); an open one is sent `0I!`, consumes one reply, is stored and recorded `Ready` |
| `Block.Aquacheck.Configure` | aquacheck_block.py:59-66 | each configured probe not configured again later ends opened or not as its device path allows; fresh, distinct names keep the block valid |
| `Block.Aquacheck.OpenConfigured` | aquacheck_block.py:59-66 | opening one configured probe leaves it opened as its device allows and every other probe, state and reading as it was |
| `Block.Aquacheck.RunSession` | aquacheck_block.py:142-240 | the exchange of `_read` on a port: its outcome, the frames written and the replies left are those of `ReadSession` |
| `Block.Aquacheck.ReadProbe` | aquacheck_block.py:142-248 | `_read` records the session's outcome for its probe and stores the reading only when measured |
| `Block.Aquacheck.Store` | aquacheck_block.py:241-248 | the outcome of `_read` becomes the probe's state, and its reading is stored only when measured; no port changes |
| `Block.Aquacheck.ReopenFailed` | aquacheck_block.py:281-287 | on a valid block the reopen loop finds nothing and changes nothing |
| `Block.Aquacheck.ReadAll` | aquacheck_block.py:288-293 | every open probe ends as its own session says, starting from its own entries |
| `Block.Aquacheck.ReadOne` | aquacheck_block.py:289-290 | reading one probe settles it and touches no other probe's port, state or reading |
| `Block.Aquacheck.SpawnReaders` | aquacheck_block.py:280-293 | on a valid block every probe is read and the block stays valid |
| `Block.Aquacheck.Records` | aquacheck_block.py:266-273 | one record per buffered reading, names distinct, each carrying that reading |
| `Block.Aquacheck.ReadAndNotify` | aquacheck_block.py:261-278 | the busy flag is clear on exit; the records match the buffer one to one; on a valid block the cycle completes, and with distinct ports each probe ends as its session says, starting from an empty buffer |
| `Block.Aquacheck.Read` | aquacheck_block.py:80-85 | a read while busy changes nothing and emits nothing; otherwise it runs a cycle: the busy flag ends clear, the records match the buffer, and on a valid block the probes stay, the buffer holds only open probes, and with distinct ports each probe ends as its session says |
| `ProbeTest.Measure` | probetest.py:35-128 | the measurements start with `0M0!` and never exit the script |
| `ProbeTest.Summarize` | probetest.py:58-134 | the report's moisture error is clear iff every moisture value was kept and none is missing; "failed to read all values" iff a temperature value was dropped or the temperature count differs; a surplus of moisture values is an error; every reported value is in range |
| `ProbeTest.Script` | probetest.py:17-134 | the script always writes `0I!` first |
| `ProbeTest.ScriptExits` | probetest.py:22-29 | the script exits right after `0I!` iff the stripped reply has no marker, with "no response" iff it is empty |
| `ProbeTest.IdentifyExample` | probetest.py:25-32 | the script reads `013AquaChckACHSDI043S012345` as model `ACHSDI`, version `043`, serial `S012345` |
| `ProbeTest.ScriptAddressed` | probetest.py:20-101 | every frame the script writes is a well-formed command to address 0 |
| `ProbeTest.ScriptFrames` | probetest.py:36-101 | `0I!`, `0M0!`, the moisture `D` frames, `0M1!` and the temperature `D` frames, no more than announced, at most 21 frames |
| `ProbeTest.ScriptSummary` | probetest.py:17-134 | a script that runs to the end identified the probe, parsed both `M` replies, and reports the summary of its two measurements |
| `ProbeTest.ScriptFailedIff` | probetest.py:58-134 | "failed to read all values" iff a temperature value is out of range or the temperature count differs; the moisture error is recorded separately |
| `ProbeTest.ScriptNoAttention` | probetest.py:42-55 | "no attention response" iff a delay was announced and none of the next `2 * delay` lines is non-empty |
| `ProbeTest.MoistureErrorDropped` | probetest.py:84-98 | a probe that sends two moisture values for one sensor is reported with -1 missing sensors and a moisture error, yet not as failed |
| `ProbeTest.Run` | probetest.py:17-134 | the script on a port ends, writes and consumes exactly as `Script` says |
| `ProbeTest.RunMeasure` | probetest.py:35-128 | the measurements on a port end, write and consume exactly as `Measure` says |

## Left out

- Serial I/O is a scripted queue of reply lines. Baud rate, parity, byte
  decoding and the port parameters are not modelled. A read that times out
  is an empty line.
- `Block.Aquacheck.OpenPort`: the outcome of `serial.Serial(**params)` is a
  parameter (`device`, null where it raised); the devices that can open are
  the `devices` map given to `Configure` and `SpawnReaders`.
- Threads: `configure` opens ports, and `_spawn_readers` reads probes, in
  threads it then joins. They run one after the other here, in an
  unspecified order (each probe touches only its own entries).
- `Block.Aquacheck.ReadAll`: the per-probe result is stated only when no two
  probes share one port object (`PortsDistinct`); two names on one port
  would interleave one reply queue.
- `Block.Aquacheck.SpawnReaders`: states the result only for a valid block.
  On a block holding a stored `None` state, which only a repeated configured
  name can produce, it states only that a cycle ends.
- `Block.Aquacheck.ReadAndNotify`: as for `SpawnReaders`, and the signals
  are records, not `nio` `Signal` objects.
- `Block.Aquacheck.Configure`: what is written to each port, and the
  outcome for a name configured twice, are not stated.
- `Block.Aquacheck.ReopenFailed`: on a block that is not valid it states
  only where the ports come from, not which probes were reopened.
- The `nio` glue is left out: `start` (scheduling a repeated job), `stop`
  (cancelling jobs and closing ports), the command registration and the
  properties. `read_interval` is unused by the core.
- Log and `print` text is not modelled. Where a message matters, the model
  keeps the fact it reports (`changed` of `SetProbeState`; the fields of
  `ProbeTest.Report`).
- `int()` accepts more than digit strings (signs, surrounding spaces,
  underscores). Only digit strings parse here; other replies count as a
  raise.
- `float` rounding is left out: values are exact decimals.
- `port.reset_input_buffer()` at the end of the script is not modelled. The
  lines left unread are reported as `rest`.
- Probe addresses other than 0: both programs hard-code address 0.
- The range and count checks are Python `assert` statements
  (`aquacheck_block.py:177`, `194`, `218`, `235`; `probetest.py:72`, `85`,
  `112`, `125`). The model assumes assertions are enabled; under `python -O`
  they vanish and every value would be kept.
