/**
 * A serial port seen from the probe code: `write` appends a frame, `readline`
 * returns the next line the device sends. The device is a script of replies;
 * once it is used up every read returns the empty line, which is exactly what
 * a one-second read timeout looks like to the code.
 */
module Serial {

  /** The next line a read returns. */
  function Head(q: seq<string>): string {
    if q == [] then "" else q[0]
  }

  /** The replies still to come after one read. */
  function Rest(q: seq<string>): (r: seq<string>)
    ensures |r| == if q == [] then 0 else |q| - 1
  {
    if q == [] then [] else q[1..]
  }

  /** The replies still to come after `k` reads. */
  function Drop(q: seq<string>, k: nat): (r: seq<string>)
    ensures k <= |q| ==> r == q[k..]
    ensures k >= |q| ==> r == []
  {
    if k <= |q| then q[k..] else []
  }

  /** One more read after `k` reads leaves what `k + 1` reads leave. */
  lemma DropRest(q: seq<string>, k: nat, k': nat)
    requires k' == k + 1
    ensures Rest(Drop(q, k)) == Drop(q, k')
    ensures Head(Drop(q, k)) == if k < |q| then q[k] else ""
  {
  }

  /** Reading once and then `k` times is reading `k + 1` times. */
  lemma DropAfterRest(q: seq<string>, k: nat)
    ensures Drop(Rest(q), k) == Drop(q, k + 1)
  {
  }

  class Port {
    /** The device path the port was opened on (`port.name`). */
    const path: string
    /** Replies the device will send, one per `readline`. */
    var pending: seq<string>
    /** Frames written to the device so far, oldest first. */
    var written: seq<string>

    constructor (path: string, script: seq<string>)
      ensures this.path == path && pending == script && written == []
    {
      this.path := path;
      pending := script;
      written := [];
    }

    method Write(frame: string)
      modifies this
      ensures written == old(written) + [frame]
      ensures pending == old(pending)
    {
      written := written + [frame];
    }

    method ReadLine() returns (line: string)
      modifies this
      ensures line == Head(old(pending)) && pending == Rest(old(pending))
      ensures written == old(written)
    {
      line := Head(pending);
      pending := Rest(pending);
    }
  }
}
