/**
 * `capture_waveform`: configure the waveform source, read the preamble,
 * request the data, read the block header and then exactly the payload it
 * declares, under a raised timeout that is put back however the reads end,
 * and calibrate the bytes.
 */
module Acquisition {
  import opened Wrappers
  import opened Numerals
  import opened Transport
  import opened Rigol
  import opened Preambles
  import opened BlockFormat
  import opened Calibration

  /** The timeout, in milliseconds, in force during the binary transfer. */
  const TransferTimeout := 30000

  /** What a capture returns: the time axis, the volts and the parsed preamble. */
  datatype Waveform = Waveform(time: seq<real>, volts: seq<real>, preamble: Preamble)

  datatype CaptureError =
    | NoReply
    | MalformedPreamble(field: FieldError)
    | InvalidHeader(header: HeaderError)
    | ShortRead(requested: nat)

  function SourceCommand(channel: string): string {
    ":WAV:SOUR " + channel
  }

  /** What happens on the link up to and including the preamble query. */
  function SetupEvents(channel: string): seq<Event> {
    [Wrote(SourceCommand(channel)), Settled(200), Wrote(":WAV:MODE NORM"), Settled(200),
     Wrote(":WAV:FORM BYTE"), Settled(200), Queried(":WAV:PRE?")]
  }

  /** The data request and the two raw reads of a transfer of `n` payload bytes. */
  function TransferEvents(n: nat): seq<Event> {
    [Wrote(":WAV:DATA?"), Settled(500), ReadRaw(HeaderSize, TransferTimeout), ReadRaw(n, TransferTimeout)]
  }

  /** The three configuration writes, each followed by a 200 ms wait. */
  function Configured(w: Wire, channel: string): Wire {
    var w1 := Settle(Written(w, SourceCommand(channel)), 200);
    var w2 := Settle(Written(w1, ":WAV:MODE NORM"), 200);
    Settle(Written(w2, ":WAV:FORM BYTE"), 200)
  }

  /** The header read, the header check and the payload read. */
  function BlockRead(w: Wire): (Result<seq<byte>, CaptureError>, Wire) {
    var (header, w1) := RawRead(w, HeaderSize);
    match header
    case None => (Failure(ShortRead(HeaderSize)), w1)
    case Some(h) =>
      match ParseBlockHeader(h)
      case Failure(e) => (Failure(InvalidHeader(e)), w1)
      case Success(n) =>
        var (payload, w2) := RawRead(w1, n);
        match payload
        case None => (Failure(ShortRead(n)), w2)
        case Some(p) => (Success(p), w2)
  }

  /** The waveform built from the payload bytes and the preamble's scale factors. */
  function Calibrated(payload: seq<byte>, pre: Preamble): Waveform {
    Waveform(TimeAxis(|payload|, pre.xIncrement, pre.xOrigin), Voltages(payload, pre.yIncrement), pre)
  }

  /**
   * The transfer once the preamble is in: the data request, then the block
   * read under the transfer timeout, which is put back afterwards.
   */
  function Transfer(w: Wire, pre: Preamble): (Result<Waveform, CaptureError>, Wire) {
    var w1 := Settle(Written(w, ":WAV:DATA?"), 500);
    var (block, w2) := BlockRead(w1.(timeout := TransferTimeout));
    var w3 := w2.(timeout := w1.timeout);
    match block
    case Failure(e) => (Failure(e), w3)
    case Success(payload) => (Success(Calibrated(payload, pre)), w3)
  }

  /** The whole exchange of a capture on channel `channel`, and the link it leaves. */
  function CaptureExchange(w: Wire, channel: string): (Result<Waveform, CaptureError>, Wire) {
    var (reply, w1) := Asked(Configured(w, channel), ":WAV:PRE?");
    match reply
    case None => (Failure(NoReply), w1)
    case Some(text) =>
      match ParsePreamble(text)
      case Failure(e) => (Failure(MalformedPreamble(e)), w1)
      case Success(pre) => Transfer(w1, pre)
  }

  /** `capture_waveform(osc, channel)`. */
  method CaptureWaveform(osc: Instrument, channel: string) returns (r: Result<Waveform, CaptureError>)
    modifies osc.inst
    ensures (r, osc.inst.State()) == CaptureExchange(old(osc.inst.State()), channel)
  {
    osc.Write(SourceCommand(channel));
    osc.inst.Pause(200);
    osc.Write(":WAV:MODE NORM");
    osc.inst.Pause(200);
    osc.Write(":WAV:FORM BYTE");
    osc.inst.Pause(200);

    var reply := osc.Query(":WAV:PRE?");
    if reply.None? {
      return Failure(NoReply);
    }
    var parsed := ParsePreamble(reply.value);
    if parsed.Failure? {
      return Failure(MalformedPreamble(parsed.error));
    }
    var pre := parsed.value;

    osc.Write(":WAV:DATA?");
    osc.inst.Pause(500);

    var originalTimeout := osc.inst.timeout;
    osc.inst.timeout := TransferTimeout;
    var block: Result<seq<byte>, CaptureError>;
    var header := osc.inst.ReadRawBytes(HeaderSize);
    if header.None? {
      block := Failure(ShortRead(HeaderSize));
    } else {
      var length := ParseBlockHeader(header.value);
      if length.Failure? {
        block := Failure(InvalidHeader(length.error));
      } else {
        var payload := osc.inst.ReadRawBytes(length.value);
        block := if payload.None? then Failure(ShortRead(length.value)) else Success(payload.value);
      }
    }
    // the `finally` clause: whatever the reads did, the timeout goes back
    osc.inst.timeout := originalTimeout;

    if block.Failure? {
      return Failure(block.error);
    }
    r := Success(Calibrated(block.value, pre));
  }

  /** The setup writes and the preamble query, as one step on the link. */
  lemma SetupStep(w: Wire, channel: string)
    ensures Asked(Configured(w, channel), ":WAV:PRE?") ==
              if |w.replies| == 0 then (None, w.(log := w.log + SetupEvents(channel)))
              else (Some(w.replies[0]), w.(log := w.log + SetupEvents(channel), replies := w.replies[1..]))
  {
    var c := Configured(w, channel);
    assert c.log == w.log + [Wrote(SourceCommand(channel)), Settled(200), Wrote(":WAV:MODE NORM"), Settled(200),
                             Wrote(":WAV:FORM BYTE"), Settled(200)];
    assert c == w.(log := c.log);
    assert c.log + [Queried(":WAV:PRE?")] == w.log + SetupEvents(channel);
  }

  /**
   * The block read succeeds exactly when the header bytes are all there and
   * valid and the payload they declare follows in full; it then consumes
   * those bytes and nothing more.
   */
  lemma BlockReadSpec(w: Wire)
    ensures BlockRead(w).0.Success? <==>
              (&& |w.pending| >= HeaderSize
               && ParseBlockHeader(w.pending[..HeaderSize]).Success?
               && HeaderSize + ParseBlockHeader(w.pending[..HeaderSize]).value <= |w.pending|)
    ensures BlockRead(w).0.Success? ==>
              var n := ParseBlockHeader(w.pending[..HeaderSize]).value;
              && BlockRead(w).0.value == w.pending[HeaderSize..HeaderSize + n]
              && BlockRead(w).1 == w.(log := w.log + [ReadRaw(HeaderSize, w.timeout), ReadRaw(n, w.timeout)],
                                      pending := w.pending[HeaderSize + n..])
  {
    if |w.pending| >= HeaderSize && ParseBlockHeader(w.pending[..HeaderSize]).Success? {
      var n := ParseBlockHeader(w.pending[..HeaderSize]).value;
      if HeaderSize + n <= |w.pending| {
        assert w.pending[HeaderSize..][..n] == w.pending[HeaderSize..HeaderSize + n];
        assert w.pending[HeaderSize..][n..] == w.pending[HeaderSize + n..];
      }
    }
  }

  /**
   * The transfer puts the timeout back, and succeeds exactly when the block
   * read does: it then adds the data request and the two raw reads, both
   * under the transfer timeout, to the transcript and calibrates the payload.
   */
  lemma TransferSpec(w: Wire, pre: Preamble)
    ensures Transfer(w, pre).1.timeout == w.timeout
    ensures Transfer(w, pre).1.replies == w.replies
    ensures w.log <= Transfer(w, pre).1.log
    ensures Transfer(w, pre).0.Success? <==>
              (&& |w.pending| >= HeaderSize
               && ParseBlockHeader(w.pending[..HeaderSize]).Success?
               && HeaderSize + ParseBlockHeader(w.pending[..HeaderSize]).value <= |w.pending|)
    ensures Transfer(w, pre).0.Success? ==>
              var n := ParseBlockHeader(w.pending[..HeaderSize]).value;
              && Transfer(w, pre).0.value == Calibrated(w.pending[HeaderSize..HeaderSize + n], pre)
              && Transfer(w, pre).1 == w.(log := w.log + TransferEvents(n), pending := w.pending[HeaderSize + n..])
  {
    var w1 := Settle(Written(w, ":WAV:DATA?"), 500);
    BlockReadSpec(w1.(timeout := TransferTimeout));
    if Transfer(w, pre).0.Success? {
      var n := ParseBlockHeader(w.pending[..HeaderSize]).value;
      assert w1.log + [ReadRaw(HeaderSize, TransferTimeout), ReadRaw(n, TransferTimeout)]
          == w.log + TransferEvents(n);
    }
  }

  /**
   * How the transfer fails: a short header, a rejected header or a short
   * payload. Each raw read it made ran under the transfer timeout, which is
   * put back; a short read loses whatever had arrived.
   */
  lemma TransferFailures(w: Wire, pre: Preamble)
    ensures |w.pending| < HeaderSize ==>
              Transfer(w, pre) ==
                (Failure(ShortRead(HeaderSize)),
                 w.(log := w.log + [Wrote(":WAV:DATA?"), Settled(500), ReadRaw(HeaderSize, TransferTimeout)],
                    pending := []))
    ensures |w.pending| >= HeaderSize && ParseBlockHeader(w.pending[..HeaderSize]).Failure? ==>
              Transfer(w, pre) ==
                (Failure(InvalidHeader(ParseBlockHeader(w.pending[..HeaderSize]).error)),
                 w.(log := w.log + [Wrote(":WAV:DATA?"), Settled(500), ReadRaw(HeaderSize, TransferTimeout)],
                    pending := w.pending[HeaderSize..]))
    ensures |w.pending| >= HeaderSize && ParseBlockHeader(w.pending[..HeaderSize]).Success? &&
            HeaderSize + ParseBlockHeader(w.pending[..HeaderSize]).value > |w.pending| ==>
              var n := ParseBlockHeader(w.pending[..HeaderSize]).value;
              Transfer(w, pre) == (Failure(ShortRead(n)), w.(log := w.log + TransferEvents(n), pending := []))
  {
    if |w.pending| < HeaderSize {
      TransferShortHeader(w, pre);
    } else if ParseBlockHeader(w.pending[..HeaderSize]).Failure? {
      TransferRejectedHeader(w, pre);
    } else if HeaderSize + ParseBlockHeader(w.pending[..HeaderSize]).value > |w.pending| {
      TransferShortPayload(w, pre);
    }
  }

  lemma TransferShortHeader(w: Wire, pre: Preamble)
    requires |w.pending| < HeaderSize
    ensures Transfer(w, pre) ==
              (Failure(ShortRead(HeaderSize)),
               w.(log := w.log + [Wrote(":WAV:DATA?"), Settled(500), ReadRaw(HeaderSize, TransferTimeout)],
                  pending := []))
  {
    var w1 := Settle(Written(w, ":WAV:DATA?"), 500);
    assert w1.log + [ReadRaw(HeaderSize, TransferTimeout)]
        == w.log + [Wrote(":WAV:DATA?"), Settled(500), ReadRaw(HeaderSize, TransferTimeout)];
  }

  lemma TransferRejectedHeader(w: Wire, pre: Preamble)
    requires |w.pending| >= HeaderSize && ParseBlockHeader(w.pending[..HeaderSize]).Failure?
    ensures Transfer(w, pre) ==
              (Failure(InvalidHeader(ParseBlockHeader(w.pending[..HeaderSize]).error)),
               w.(log := w.log + [Wrote(":WAV:DATA?"), Settled(500), ReadRaw(HeaderSize, TransferTimeout)],
                  pending := w.pending[HeaderSize..]))
  {
    var w1 := Settle(Written(w, ":WAV:DATA?"), 500);
    assert w1.log + [ReadRaw(HeaderSize, TransferTimeout)]
        == w.log + [Wrote(":WAV:DATA?"), Settled(500), ReadRaw(HeaderSize, TransferTimeout)];
  }

  lemma TransferShortPayload(w: Wire, pre: Preamble)
    requires |w.pending| >= HeaderSize && ParseBlockHeader(w.pending[..HeaderSize]).Success?
    requires HeaderSize + ParseBlockHeader(w.pending[..HeaderSize]).value > |w.pending|
    ensures var n := ParseBlockHeader(w.pending[..HeaderSize]).value;
      Transfer(w, pre) == (Failure(ShortRead(n)), w.(log := w.log + TransferEvents(n), pending := []))
  {
    var n := ParseBlockHeader(w.pending[..HeaderSize]).value;
    var w1 := Settle(Written(w, ":WAV:DATA?"), 500);
    var w2 := w1.(timeout := TransferTimeout, log := w1.log + [ReadRaw(HeaderSize, TransferTimeout)],
                  pending := w.pending[HeaderSize..]);
    assert RawRead(w1.(timeout := TransferTimeout), HeaderSize) == (Some(w.pending[..HeaderSize]), w2);
    assert BlockRead(w1.(timeout := TransferTimeout)) ==
             (Failure(ShortRead(n)), w2.(log := w2.log + [ReadRaw(n, TransferTimeout)], pending := []));
    assert w2.log + [ReadRaw(n, TransferTimeout)] == w.log + TransferEvents(n);
    assert w2.(log := w.log + TransferEvents(n), pending := [], timeout := w.timeout)
        == w.(log := w.log + TransferEvents(n), pending := []);
  }

  /** Every capture, however it ends, leaves the link's timeout as it found it. */
  lemma CaptureRestoresTimeout(w: Wire, channel: string)
    ensures CaptureExchange(w, channel).1.timeout == w.timeout
  {
  }

  /**
   * Every capture starts with the three configuration writes and the
   * preamble query, and uses at most one reply.
   */
  lemma CaptureStartsWithSetup(w: Wire, channel: string)
    ensures var w' := CaptureExchange(w, channel).1;
      && w.log + SetupEvents(channel) <= w'.log
      && w'.replies == (if |w.replies| == 0 then [] else w.replies[1..])
  {
    SetupStep(w, channel);
    if |w.replies| > 0 && ParsePreamble(w.replies[0]).Success? {
      var w1 := w.(log := w.log + SetupEvents(channel), replies := w.replies[1..]);
      TransferSpec(w1, ParsePreamble(w.replies[0]).value);
    }
  }

  /**
   * A preamble that does not parse stops the capture before `:WAV:DATA?`:
   * no data request, no read, and the timeout and the byte stream untouched.
   */
  lemma PreambleFailureStopsEarly(w: Wire, channel: string)
    requires |w.replies| > 0 && ParsePreamble(w.replies[0]).Failure?
    ensures CaptureExchange(w, channel) ==
              (Failure(MalformedPreamble(ParsePreamble(w.replies[0]).error)),
               w.(log := w.log + SetupEvents(channel), replies := w.replies[1..]))
  {
    SetupStep(w, channel);
  }

  /**
   * A header that does not start with `#` fails the capture after the one
   * header read: the payload is never requested.
   */
  lemma BadMarkerSkipsPayload(w: Wire, channel: string)
    requires |w.replies| > 0 && ParsePreamble(w.replies[0]).Success?
    requires |w.pending| >= HeaderSize && w.pending[0] != Marker
    ensures CaptureExchange(w, channel) ==
              (Failure(InvalidHeader(MissingMarker(w.pending[..HeaderSize]))),
               w.(log := w.log + SetupEvents(channel)
                    + [Wrote(":WAV:DATA?"), Settled(500), ReadRaw(HeaderSize, TransferTimeout)],
                  replies := w.replies[1..], pending := w.pending[HeaderSize..]))
  {
    SetupStep(w, channel);
    ParseBlockHeaderSpec(w.pending[..HeaderSize]);
    var w1 := w.(log := w.log + SetupEvents(channel), replies := w.replies[1..]);
    TransferRejectedHeader(w1, ParsePreamble(w.replies[0]).value);
  }

  /**
   * A capture that succeeds has gone through the whole exchange in order,
   * both raw reads under the transfer timeout, the second asking for exactly
   * the length the header declared; the arrays have one entry per payload
   * byte, however many points the preamble announced.
   */
  lemma CaptureSuccess(w: Wire, channel: string)
    requires CaptureExchange(w, channel).0.Success?
    ensures |w.replies| > 0 && ParsePreamble(w.replies[0]).Success?
    ensures |w.pending| >= HeaderSize && ParseBlockHeader(w.pending[..HeaderSize]).Success?
    ensures var n := ParseBlockHeader(w.pending[..HeaderSize]).value;
      var wave := CaptureExchange(w, channel).0.value;
      var w' := CaptureExchange(w, channel).1;
      && |w.pending| >= HeaderSize + n
      && w'.log == w.log + SetupEvents(channel) + TransferEvents(n)
      && w'.pending == w.pending[HeaderSize + n..]
      && w'.timeout == w.timeout
      && wave == Calibrated(w.pending[HeaderSize..HeaderSize + n], ParsePreamble(w.replies[0]).value)
      && |wave.time| == n && |wave.volts| == n
  {
    SetupStep(w, channel);
    var w1 := w.(log := w.log + SetupEvents(channel), replies := w.replies[1..]);
    TransferSpec(w1, ParsePreamble(w.replies[0]).value);
  }

  /**
   * What a successful capture returns: the preamble as parsed, one time per
   * volt, a time axis that starts at `x_origin` and advances by
   * `x_increment`, and volts that add up to zero.
   */
  lemma CapturedWaveform(w: Wire, channel: string)
    requires CaptureExchange(w, channel).0.Success?
    ensures var wave := CaptureExchange(w, channel).0.value;
      && |w.replies| > 0 && ParsePreamble(w.replies[0]) == Success(wave.preamble)
      && |wave.time| == |wave.volts|
      && (|wave.time| > 0 ==> wave.time[0] == wave.preamble.xOrigin)
      && (forall i :: 0 <= i < |wave.time| - 1 ==> wave.time[i + 1] - wave.time[i] == wave.preamble.xIncrement)
      && SumReals(wave.volts) == 0.0
  {
    CaptureSuccess(w, channel);
    var n := ParseBlockHeader(w.pending[..HeaderSize]).value;
    var payload := w.pending[HeaderSize..HeaderSize + n];
    var pre := ParsePreamble(w.replies[0]).value;
    var wave := CaptureExchange(w, channel).0.value;
    assert wave.time == TimeAxis(n, pre.xIncrement, pre.xOrigin);
    assert wave.volts == Voltages(payload, pre.yIncrement);
    VoltagesSumToZero(payload, pre.yIncrement);
    TimeAxisSpec(n, pre.xIncrement, pre.xOrigin);
  }

  /**
   * The exchange against an oscilloscope that answers as documented: its
   * preamble, an 11-byte header and the payload. The capture returns that
   * payload calibrated and leaves whatever followed it.
   */
  lemma CaptureOfWellFormedStream(w: Wire, channel: string, payload: seq<byte>, rest: seq<byte>)
    requires |w.replies| > 0 && ParsePreamble(w.replies[0]).Success?
    requires |payload| < Pow10(9)
    requires w.pending == OscilloscopeHeader(|payload|) + payload + rest
    ensures CaptureExchange(w, channel) ==
              (Success(Calibrated(payload, ParsePreamble(w.replies[0]).value)),
               w.(log := w.log + SetupEvents(channel) + TransferEvents(|payload|),
                  replies := w.replies[1..], pending := rest))
  {
    var h := OscilloscopeHeader(|payload|);
    HeaderRoundTrip(9, |payload|, []);
    assert h + [] == h;
    assert w.pending[..HeaderSize] == h;
    assert w.pending[HeaderSize..HeaderSize + |payload|] == payload;
    assert w.pending[HeaderSize + |payload|..] == rest;
    SetupStep(w, channel);
    var w1 := w.(log := w.log + SetupEvents(channel), replies := w.replies[1..]);
    TransferSpec(w1, ParsePreamble(w.replies[0]).value);
  }

  /**
   * The header is always read as 11 bytes. An instrument that declared
   * fewer than nine length digits would lose the first `9 - d` payload bytes
   * to the header read, and the payload read would start that far into the
   * data.
   */
  lemma ShortDigitCountMisreads(w: Wire, channel: string, d: nat, length: nat, data: seq<byte>)
    requires 1 <= d < 9 && length < Pow10(d)
    requires |w.replies| > 0 && ParsePreamble(w.replies[0]).Success?
    requires w.pending == BlockHeader(d, length) + data && |data| >= 9 - d
    ensures CaptureExchange(w, channel).0 ==
              if 9 - d + length <= |data|
              then Success(Calibrated(data[9 - d..9 - d + length], ParsePreamble(w.replies[0]).value))
              else Failure(ShortRead(length))
  {
    var w1 := w.(log := w.log + SetupEvents(channel), replies := w.replies[1..]);
    var pre := ParsePreamble(w.replies[0]).value;
    assert CaptureExchange(w, channel) == Transfer(w1, pre) by {
      SetupStep(w, channel);
    }
    ShortDigitTransfer(w1, pre, d, length, data);
  }

  lemma ShortDigitTransfer(w: Wire, pre: Preamble, d: nat, length: nat, data: seq<byte>)
    requires 1 <= d < 9 && length < Pow10(d)
    requires w.pending == BlockHeader(d, length) + data && |data| >= 9 - d
    ensures Transfer(w, pre).0 ==
              if 9 - d + length <= |data| then Success(Calibrated(data[9 - d..9 - d + length], pre))
              else Failure(ShortRead(length))
  {
    ShortHeaderRead(w.pending, d, length, data);
    if 9 - d + length <= |data| {
      TransferSpec(w, pre);
    } else {
      TransferShortPayload(w, pre);
    }
  }

  /** The 11-byte read of a header with `d` digits takes `9 - d` bytes of what follows. */
  lemma ShortHeaderRead(stream: seq<byte>, d: nat, length: nat, data: seq<byte>)
    requires 1 <= d < 9 && length < Pow10(d)
    requires stream == BlockHeader(d, length) + data && |data| >= 9 - d
    ensures |stream| >= HeaderSize && ParseBlockHeader(stream[..HeaderSize]) == Success(length)
    ensures 9 - d + length <= |data| ==>
              HeaderSize + length <= |stream| && stream[HeaderSize..HeaderSize + length] == data[9 - d..9 - d + length]
    ensures 9 - d + length > |data| ==> HeaderSize + length > |stream|
  {
    var h := BlockHeader(d, length);
    assert |h| == 2 + d && |stream| == 2 + d + |data|;
    assert stream[..HeaderSize] == h + data[..9 - d];
    HeaderRoundTrip(d, length, data[..9 - d]);
    if 9 - d + length <= |data| {
      var got, want := stream[HeaderSize..HeaderSize + length], data[9 - d..9 - d + length];
      assert |got| == |want|;
      forall k | 0 <= k < length
        ensures got[k] == want[k]
      {
        assert got[k] == stream[HeaderSize + k] == data[9 - d + k];
      }
    }
  }
}
