/**
 * The instrument link (a VISA resource): text commands go out, text replies
 * and raw bytes come back. The link keeps a transcript of everything done on
 * it, so that the order of an exchange can be stated, and every raw read
 * records the timeout in force when it was issued. Replies and bytes the
 * instrument will send are queued in advance; a read that finds its queue too
 * short fails, as a timed-out read does.
 */
module Transport {
  import opened Wrappers

  /** One unsigned 8-bit value of a raw transfer. */
  type byte = b: int | 0 <= b < 256

  datatype Event =
    | Wrote(command: string)
    | Queried(command: string)
    | ReadLine
    | ReadRaw(count: nat, timeout: int)
    | Settled(ms: nat)

  /** Everything about a link that an exchange can observe or change. */
  datatype Wire = Wire(timeout: int, log: seq<Event>, replies: seq<string>, pending: seq<byte>)

  /** The link after `write(command)`. */
  function Written(w: Wire, command: string): Wire {
    w.(log := w.log + [Wrote(command)])
  }

  /** The link after the caller has waited `ms` milliseconds for the instrument. */
  function Settle(w: Wire, ms: nat): Wire {
    w.(log := w.log + [Settled(ms)])
  }

  /** `query(command)`: a command followed by one text reply, if one comes. */
  function Asked(w: Wire, command: string): (Option<string>, Wire) {
    var w' := w.(log := w.log + [Queried(command)]);
    if |w.replies| == 0 then (None, w')
    else (Some(w.replies[0]), w'.(replies := w.replies[1..]))
  }

  /** `read()`: one text reply, if one comes. */
  function LineRead(w: Wire): (Option<string>, Wire) {
    var w' := w.(log := w.log + [ReadLine]);
    if |w.replies| == 0 then (None, w')
    else (Some(w.replies[0]), w'.(replies := w.replies[1..]))
  }

  /**
   * `read_raw(n)`: exactly the next `n` bytes; when fewer are on their way
   * the read fails and what did arrive is lost.
   */
  function RawRead(w: Wire, n: nat): (Option<seq<byte>>, Wire) {
    var w' := w.(log := w.log + [ReadRaw(n, w.timeout)]);
    if n <= |w.pending| then (Some(w.pending[..n]), w'.(pending := w.pending[n..]))
    else (None, w'.(pending := []))
  }

  class Link {
    var timeout: int
    var log: seq<Event>
    var replies: seq<string>
    var pending: seq<byte>

    function State(): Wire
      reads this
    {
      Wire(timeout, log, replies, pending)
    }

    /** A link on which nothing has happened yet. */
    constructor (timeout: int, replies: seq<string>, pending: seq<byte>)
      ensures State() == Wire(timeout, [], replies, pending)
    {
      this.timeout := timeout;
      this.log := [];
      this.replies := replies;
      this.pending := pending;
    }

    method Write(command: string)
      modifies this
      ensures State() == Written(old(State()), command)
    {
      log := log + [Wrote(command)];
    }

    method Pause(ms: nat)
      modifies this
      ensures State() == Settle(old(State()), ms)
    {
      log := log + [Settled(ms)];
    }

    method Query(command: string) returns (reply: Option<string>)
      modifies this
      ensures (reply, State()) == Asked(old(State()), command)
    {
      log := log + [Queried(command)];
      if |replies| == 0 {
        reply := None;
      } else {
        reply := Some(replies[0]);
        replies := replies[1..];
      }
    }

    method Read() returns (reply: Option<string>)
      modifies this
      ensures (reply, State()) == LineRead(old(State()))
    {
      log := log + [ReadLine];
      if |replies| == 0 {
        reply := None;
      } else {
        reply := Some(replies[0]);
        replies := replies[1..];
      }
    }

    method ReadRawBytes(n: nat) returns (data: Option<seq<byte>>)
      modifies this
      ensures (data, State()) == RawRead(old(State()), n)
    {
      log := log + [ReadRaw(n, timeout)];
      if n <= |pending| {
        data := Some(pending[..n]);
        pending := pending[n..];
      } else {
        data := None;
        pending := [];
      }
    }
  }
}
