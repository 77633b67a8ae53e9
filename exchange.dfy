/**
 * The two loops every measurement goes through, shared by the block and the
 * test script: waiting for the "attention response" after a delayed `M`
 * command, and issuing `D0`, `D1`, ... until the sensor count is reached or a
 * reply comes back empty. Each loop is a method over a `Port`, specified by a
 * function of the replies the port still holds.
 */
module Exchange {
  import opened Wrappers
  import opened Text
  import opened Tokens
  import opened Protocol
  import opened Serial

  // -------------------------------------------------- attention response

  /** How many lines a wait of at most `budget` reads consumes: it stops after the first non-empty one. */
  function WaitReads(q: seq<string>, budget: nat): (n: nat)
    ensures n <= budget
  {
    if budget == 0 then 0
    else if Head(q) != "" then 1
    else 1 + WaitReads(Rest(q), budget - 1)
  }

  /** Whether the wait saw a non-empty line (a bare `\r\n` counts). */
  predicate Attended(q: seq<string>, budget: nat) {
    budget > 0 && (Head(q) != "" || Attended(Rest(q), budget - 1))
  }

  /** The wait is answered iff one of the first `budget` lines is non-empty. */
  lemma {:induction false} AttendedIff(q: seq<string>, budget: nat)
    ensures Attended(q, budget) <==> exists i :: 0 <= i < budget && i < |q| && q[i] != ""
  {
    if budget > 0 && Head(q) == "" {
      var q' := Rest(q);
      AttendedIff(q', budget - 1);
      if q != [] && Attended(q', budget - 1) {
        var i :| 0 <= i < budget - 1 && i < |q'| && q'[i] != "";
        assert q[i + 1] == q'[i];
      }
      if exists i :: 0 <= i < budget && i < |q| && q[i] != "" {
        var i :| 0 <= i < budget && i < |q| && q[i] != "";
        assert i > 0 && q'[i - 1] == q[i];
      }
    } else if budget > 0 {
      assert q[0] != "";
    }
  }

  /**
   * An answered wait stops right after the first non-empty line, having read
   * only empty ones before it; an unanswered one uses its whole budget.
   */
  lemma {:induction false} WaitStops(q: seq<string>, budget: nat)
    ensures Attended(q, budget) ==>
      0 < WaitReads(q, budget) <= |q| && q[WaitReads(q, budget) - 1] != ""
    ensures forall i :: 0 <= i < WaitReads(q, budget) - 1 && i < |q| ==> q[i] == ""
    ensures !Attended(q, budget) ==> WaitReads(q, budget) == budget
  {
    if budget > 0 && Head(q) == "" {
      var q' := Rest(q);
      WaitStops(q', budget - 1);
      if q != [] {
        assert forall i :: 0 <= i < |q'| ==> q'[i] == q[i + 1];
      }
    }
  }

  /**
   * The block's wait (`while time_waited < delay`): one read per second of
   * delay, leaving the loop at the first non-empty line.
   */
  method AwaitAttention(port: Port, delay: nat) returns (attended: bool)
    modifies port
    ensures attended == Attended(old(port.pending), delay)
    ensures port.pending == Drop(old(port.pending), WaitReads(old(port.pending), delay))
    ensures port.written == old(port.written)
  {
    ghost var q := port.pending;
    attended := false;
    var waited := 0;
    while waited < delay
      invariant waited <= delay
      invariant port.pending == Drop(q, waited)
      invariant port.written == old(port.written)
      invariant WaitReads(q, delay) == waited + WaitReads(port.pending, delay - waited)
      invariant Attended(q, delay) == Attended(port.pending, delay - waited)
    {
      DropRest(q, waited, waited + 1);
      var line := port.ReadLine();
      if line != "" {
        attended := true;
        break;
      }
      waited := waited + 1;
    }
  }

  /**
   * The script's wait: half-second read timeouts, leaving the loop before a
   * read once `timeout_cycles * 0.5 >= delay`, i.e. after `2 * delay` reads.
   */
  method AwaitAttentionCycles(port: Port, delay: nat) returns (attended: bool)
    modifies port
    ensures attended == Attended(old(port.pending), 2 * delay)
    ensures port.pending == Drop(old(port.pending), WaitReads(old(port.pending), 2 * delay))
    ensures port.written == old(port.written)
  {
    ghost var q := port.pending;
    attended := false;
    var cycles := 0;
    if delay > 0 {
      while !attended
        invariant cycles <= 2 * delay
        invariant port.written == old(port.written)
        invariant !attended ==> port.pending == Drop(q, cycles)
        invariant !attended ==> WaitReads(q, 2 * delay) == cycles + WaitReads(port.pending, 2 * delay - cycles)
        invariant !attended ==> Attended(q, 2 * delay) == Attended(port.pending, 2 * delay - cycles)
        invariant attended ==> Attended(q, 2 * delay)
        invariant attended ==> port.pending == Drop(q, WaitReads(q, 2 * delay))
        decreases 2 * delay - cycles
      {
        if cycles >= 2 * delay {
          break;
        }
        DropRest(q, cycles, cycles + 1);
        var line := port.ReadLine();
        attended := line != "";
        cycles := cycles + 1;
      }
    }
  }

  // ------------------------------------------------------ data collection

  /** A reply that is empty once stripped ends a collection. */
  predicate Blank(line: string) {
    Rstrip(line) == []
  }

  /** A reply is blank iff it holds nothing but whitespace (a timed-out read is blank). */
  lemma BlankIff(line: string)
    ensures Blank(line) <==> forall k :: 0 <= k < |line| ==> IsSpace(line[k])
  {
    if Rstrip(line) != [] {
      var r := Rstrip(line);
      assert line[|r| - 1] == r[|r| - 1];
    }
  }

  /** How many `D` commands a collection of `n` blocks sends: it stops at the first empty reply. */
  function Rounds(q: seq<string>, n: nat): (k: nat)
    ensures k <= n
  {
    if n == 0 then 0
    else if Blank(Head(q)) then 1
    else 1 + Rounds(Rest(q), n - 1)
  }

  /** The value strings extracted from the replies of one collection, in reply order. */
  function Fetched(q: seq<string>, n: nat): seq<string> {
    if n == 0 || Blank(Head(q)) then []
    else FindAll(Rstrip(Head(q))) + Fetched(Rest(q), n - 1)
  }

  /**
   * A collection sends at least one command when any is due; every reply but
   * the last it reads is non-empty, and it stops early only on an empty one.
   */
  lemma {:induction false} RoundsStopAtEmpty(q: seq<string>, n: nat)
    ensures n > 0 ==> Rounds(q, n) >= 1
    ensures forall i :: 0 <= i < Rounds(q, n) - 1 ==> !Blank(Head(Drop(q, i)))
    ensures Rounds(q, n) < n ==> Blank(Head(Drop(q, Rounds(q, n) - 1)))
  {
    if n > 0 && !Blank(Head(q)) {
      var q' := Rest(q);
      RoundsStopAtEmpty(q', n - 1);
      assert Drop(q, 0) == q;
      forall i | 0 < i < Rounds(q, n) - 1 ensures !Blank(Head(Drop(q, i))) {
        DropAfterRest(q, i - 1);
      }
      if Rounds(q, n) < n {
        DropAfterRest(q, Rounds(q', n - 1) - 1);
      }
    }
  }

  /** Every value that a collection extracts is an exact decimal, so `float()` never fails on it. */
  lemma {:induction false} FetchedParse(q: seq<string>, n: nat)
    ensures forall k :: 0 <= k < |Fetched(q, n)| ==> !Classify(Fetched(q, n)[k]).Invalid?
  {
    if n > 0 && !Blank(Head(q)) {
      FetchedParse(Rest(q), n - 1);
    }
  }

  /** One round of a collection, unfolded. */
  lemma CollectStep(q: seq<string>, n: nat, n': nat)
    requires n == n' + 1
    ensures Blank(Head(q)) ==> Rounds(q, n) == 1 && Fetched(q, n) == []
    ensures !Blank(Head(q)) ==> Rounds(q, n) == 1 + Rounds(Rest(q), n')
    ensures !Blank(Head(q)) ==> Fetched(q, n) == FindAll(Rstrip(Head(q))) + Fetched(Rest(q), n')
  {
  }

  /**
   * After `r` of the `n` rounds a collection over `q` may run, `done` holds
   * the values fetched so far and the remaining replies account for the rest.
   */
  ghost predicate Collected(q: seq<string>, n: nat, r: nat, done: seq<string>) {
    r <= n
    && Rounds(q, n) == r + Rounds(Drop(q, r), n - r)
    && Fetched(q, n) == done + Fetched(Drop(q, r), n - r)
  }

  /** Round `r` either ends the collection on an empty reply or adds its reply's values. */
  lemma CollectedNext(q: seq<string>, n: nat, r: nat, r': nat, done: seq<string>)
    requires r' == r + 1 && r < n && Collected(q, n, r, done)
    ensures Blank(Head(Drop(q, r))) ==> Rounds(q, n) == r' && Fetched(q, n) == done
    ensures !Blank(Head(Drop(q, r))) ==> Collected(q, n, r', done + FindAll(Rstrip(Head(Drop(q, r)))))
  {
    var p := Drop(q, r);
    DropRest(q, r, r');
    if Blank(Head(p)) {
      CollectStep(p, n - r, n - r');
      assert done + [] == done;
    } else {
      CollectedGrow(q, n, r, r', done, p, Drop(q, r'));
    }
  }

  lemma CollectedGrow(q: seq<string>, n: nat, r: nat, r': nat, done: seq<string>, p: seq<string>, p': seq<string>)
    requires r' == r + 1 && r < n && Collected(q, n, r, done)
    requires p == Drop(q, r) && p' == Drop(q, r') && p' == Rest(p) && !Blank(Head(p))
    ensures Collected(q, n, r', done + FindAll(Rstrip(Head(p))))
  {
    var t := FindAll(Rstrip(Head(p)));
    CollectStep(p, n - r, n - r');
    RoundRegroup(Rounds(q, n), Rounds(p, n - r), Rounds(p', n - r'), r,
            Fetched(q, n), done, Fetched(p, n - r), t, Fetched(p', n - r'));
  }

  /** One more round moves one reply's count and values from what is left to what is done. */
  lemma RoundRegroup(all: nat, left: nat, left': nat, r: nat,
                fetched: seq<string>, done: seq<string>, rest: seq<string>, t: seq<string>, rest': seq<string>)
    requires all == r + left && left == 1 + left'
    requires fetched == done + rest && rest == t + rest'
    ensures all == (r + 1) + left' && fetched == (done + t) + rest'
  {
  }

  /** A collection that ran all its rounds fetched exactly what was gathered. */
  lemma CollectedEnd(q: seq<string>, n: nat, done: seq<string>)
    requires Collected(q, n, n, done)
    ensures Rounds(q, n) == n && Fetched(q, n) == done
  {
    assert Rounds(Drop(q, n), 0) == 0 && Fetched(Drop(q, n), 0) == [];
    assert done + [] == done;
  }

  /**
   * The inner loop over the values of one reply: each is converted and range
   * checked; accepted ones are kept in order, any other sets the flag.
   */
  method ClassifyAll(tokens: seq<string>) returns (accepted: seq<real>, rejected: bool)
    ensures accepted == AcceptedValues(tokens)
    ensures rejected == AnyRejected(tokens)
  {
    accepted, rejected := [], false;
    var j := 0;
    while j < |tokens|
      invariant j <= |tokens|
      invariant accepted == AcceptedValues(tokens[..j])
      invariant rejected == AnyRejected(tokens[..j])
    {
      assert tokens[..j + 1][..j] == tokens[..j];
      match Classify(tokens[j]) {
        case Accepted(v) =>
          accepted := accepted + [v];
        case Invalid =>
          rejected := true;
        case OutOfRange(_) =>
          rejected := true;
      }
      j := j + 1;
    }
    assert tokens[..j] == tokens;
  }

  lemma AppendAssoc(a: seq<string>, b: seq<string>, c: seq<string>)
    ensures a + (b + c) == (a + b) + c
  {
  }

  /** The frames written so far, plus the next data frame, are the frames of one more round. */
  lemma WrittenStep(w: seq<string>, prefix: string, r: nat, r': nat)
    requires r' == r + 1
    ensures (w + DataFrames(prefix, r)) + [DataFrame(prefix, r)] == w + DataFrames(prefix, r')
  {
  }

  /**
   * One pass of the collection loop's body: send `<prefix><r>!`, read and
   * strip the reply, and, unless it is empty, extract and classify its values.
   * `left` is the number of passes still due, counting this one, `left'` the
   * number due after it.
   */
  method CollectRound(port: Port, prefix: string, r: nat)
    returns (stop: bool, accepted: seq<real>, anyRejected: bool, ghost tokens: seq<string>)
    modifies port
    ensures port.written == old(port.written) + [DataFrame(prefix, r)]
    ensures port.pending == Rest(old(port.pending))
    ensures stop == Blank(Head(old(port.pending)))
    ensures tokens == if stop then [] else FindAll(Rstrip(Head(old(port.pending))))
    ensures accepted == AcceptedValues(tokens) && anyRejected == AnyRejected(tokens)
  {
    port.Write(DataFrame(prefix, r));
    var line := port.ReadLine();
    var reply := Rstrip(line);
    stop := reply == "";
    tokens := if stop then [] else FindAll(reply);
    if stop {
      accepted, anyRejected := [], false;
    } else {
      accepted, anyRejected := ClassifyAll(FindAll(reply));
    }
  }

  /**
   * One collection loop (`for r in range(num_sensors)`): send `<prefix><r>!`,
   * read a line, stop on an empty one, else extract its values, append the
   * accepted ones and remember whether any was rejected.
   */
  method CollectValues(port: Port, prefix: string, n: nat) returns (values: seq<real>, rejected: bool)
    modifies port
    ensures values == AcceptedValues(Fetched(old(port.pending), n))
    ensures rejected == AnyRejected(Fetched(old(port.pending), n))
    ensures port.written == old(port.written) + DataFrames(prefix, Rounds(old(port.pending), n))
    ensures port.pending == Drop(old(port.pending), Rounds(old(port.pending), n))
  {
    ghost var q := port.pending;
    ghost var w := port.written;
    ghost var done: seq<string> := [];
    ghost var stopped := false;
    values, rejected := [], false;
    var r := 0;
    while r < n
      invariant port.pending == Drop(q, r)
      invariant port.written == w + DataFrames(prefix, r)
      invariant Collected(q, n, r, done)
      invariant values == AcceptedValues(done) && rejected == AnyRejected(done)
    {
      var r' := r + 1;
      CollectedNext(q, n, r, r', done);
      DropRest(q, r, r');
      WrittenStep(w, prefix, r, r');
      var stop, accepted, anyRejected, tokens := CollectRound(port, prefix, r);
      if stop {
        r, stopped := r', true;
        break;
      }
      AcceptedAppend(done, tokens);
      values, rejected := values + accepted, rejected || anyRejected;
      done, r := done + tokens, r';
    }
    if !stopped {
      CollectedEnd(q, n, done);
    }
  }

  // ------------------------------------------------------- one measurement

  /** How long the code waits for the attention response after an `M` reply. */
  datatype Wait =
    | NoWait       // the `M1` phases: the delay is parsed and ignored
    | Seconds      // the block: one-second reads, at most `delay` of them
    | HalfSeconds  // the test script: half-second reads, at most `2 * delay`

  function Budget(w: Wait, delay: nat): nat {
    match w
    case NoWait => 0
    case Seconds => delay
    case HalfSeconds => 2 * delay
  }

  /**
   * What one measurement makes of the replies `q`: the parsed `M` reply (or
   * `None`, where `int()` raises), whether the attention response came, the
   * value strings fetched, how many `D` commands went out and what is left.
   */
  datatype Phase = Phase(start: Option<MeasureStart>, attended: bool, fetched: seq<string>, rounds: nat, rest: seq<string>)

  function RunPhase(q: seq<string>, w: Wait): (p: Phase)
    ensures p.start == ParseMeasureStart(Head(q))
    ensures p.start.None? ==> p.rounds == 0 && p.fetched == [] && p.rest == Rest(q)
    ensures p.start.Some? ==> p.rounds <= p.start.value.count
    ensures p.attended ==> p.start.Some? && p.start.value.delay > 0 && w != NoWait
  {
    match ParseMeasureStart(Head(q))
    case None => Phase(None, false, [], 0, Rest(q))
    case Some(ms) =>
      var budget := Budget(w, ms.delay);
      var q' := Drop(Rest(q), WaitReads(Rest(q), budget));
      var n := Rounds(q', ms.count);
      Phase(Some(ms), Attended(Rest(q), budget), Fetched(q', ms.count), n, Drop(q', n))
  }

  /** A measurement whose `M` reply parses, unfolded. */
  lemma RunPhaseStarted(q: seq<string>, w: Wait, ms: MeasureStart, q': seq<string>)
    requires ParseMeasureStart(Head(q)) == Some(ms)
    requires q' == Drop(Rest(q), WaitReads(Rest(q), Budget(w, ms.delay)))
    ensures RunPhase(q, w).attended == Attended(Rest(q), Budget(w, ms.delay))
    ensures RunPhase(q, w).fetched == Fetched(q', ms.count)
    ensures RunPhase(q, w).rounds == Rounds(q', ms.count)
    ensures RunPhase(q, w).rest == Drop(q', Rounds(q', ms.count))
  {
  }

  /** A measurement's error flag is raised iff one of its values is out of range: none is ever invalid. */
  lemma PhaseRejectedIff(q: seq<string>, w: Wait)
    ensures var p := RunPhase(q, w);
      AnyRejected(p.fetched) <==> exists k :: 0 <= k < |p.fetched| && Classify(p.fetched[k]).OutOfRange?
  {
    var p := RunPhase(q, w);
    if p.start.Some? {
      var ms := p.start.value;
      var q' := Drop(Rest(q), WaitReads(Rest(q), Budget(w, ms.delay)));
      RunPhaseStarted(q, w, ms, q');
      FetchedParse(q', ms.count);
    }
    AnyRejectedIff(p.fetched);
  }

  /** The attention response counts as received iff a line within the wait's budget is non-empty. */
  lemma PhaseAttendedIff(q: seq<string>, w: Wait)
    requires RunPhase(q, w).start.Some?
    ensures var p := RunPhase(q, w);
      var budget := Budget(w, p.start.value.delay);
      p.attended <==> exists i :: 0 <= i < budget && i < |Rest(q)| && Rest(q)[i] != ""
  {
    var ms := RunPhase(q, w).start.value;
    var q' := Drop(Rest(q), WaitReads(Rest(q), Budget(w, ms.delay)));
    RunPhaseStarted(q, w, ms, q');
    AttendedIff(Rest(q), Budget(w, ms.delay));
  }

  /** The frames one measurement writes: the `M` command, then `D0`, `D1`, ... */
  function PhaseFrames(command: string, prefix: string, p: Phase): seq<string> {
    [command] + DataFrames(prefix, p.rounds)
  }

  /** The wait that follows an `M` reply announcing `delay` seconds (`if delay:`). */
  method AwaitReady(port: Port, delay: nat, w: Wait) returns (attended: bool)
    modifies port
    ensures attended == Attended(old(port.pending), Budget(w, delay))
    ensures port.pending == Drop(old(port.pending), WaitReads(old(port.pending), Budget(w, delay)))
    ensures port.written == old(port.written)
  {
    attended := false;
    if delay > 0 {
      match w {
        case NoWait =>
        case Seconds =>
          attended := AwaitAttention(port, delay);
        case HalfSeconds =>
          attended := AwaitAttentionCycles(port, delay);
      }
    }
  }

  /** What follows a parsed `M` reply: the wait, then the collection. */
  method WaitAndCollect(port: Port, prefix: string, w: Wait, ms: MeasureStart)
    returns (attended: bool, values: seq<real>, rejected: bool)
    modifies port
    ensures var q := old(port.pending);
      var q' := Drop(q, WaitReads(q, Budget(w, ms.delay)));
      && attended == Attended(q, Budget(w, ms.delay))
      && values == AcceptedValues(Fetched(q', ms.count)) && rejected == AnyRejected(Fetched(q', ms.count))
      && port.pending == Drop(q', Rounds(q', ms.count))
      && port.written == old(port.written) + DataFrames(prefix, Rounds(q', ms.count))
  {
    attended := AwaitReady(port, ms.delay, w);
    values, rejected := CollectValues(port, prefix, ms.count);
  }

  /**
   * Send the `M` command, parse the reply, wait for the attention response
   * when a delay is announced, then collect the values. `start` is `None`
   * where the code raises on the reply; nothing further is sent then.
   */
  method MeasurePhase(port: Port, command: string, prefix: string, w: Wait)
    returns (start: Option<MeasureStart>, attended: bool, values: seq<real>, rejected: bool)
    modifies port
    ensures var p := RunPhase(old(port.pending), w);
      && start == p.start && attended == p.attended
      && values == AcceptedValues(p.fetched) && rejected == AnyRejected(p.fetched)
      && port.pending == p.rest
      && port.written == old(port.written) + PhaseFrames(command, prefix, p)
  {
    ghost var q := port.pending;
    ghost var w0 := port.written;
    port.Write(command);
    var line := port.ReadLine();
    start := ParseMeasureStart(line);
    if start.None? {
      attended, values, rejected := false, [], false;
      assert DataFrames(prefix, 0) == [];
      return;
    }
    var ms := start.value;
    ghost var q1 := port.pending;
    attended, values, rejected := WaitAndCollect(port, prefix, w, ms);
    ghost var q' := Drop(q1, WaitReads(q1, Budget(w, ms.delay)));
    RunPhaseStarted(q, w, ms, q');
    ghost var p := RunPhase(q, w);
    AppendAssoc(w0, [command], DataFrames(prefix, p.rounds));
    assert port.written == w0 + PhaseFrames(command, prefix, p);
  }
}
