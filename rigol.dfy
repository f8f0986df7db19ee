/**
 * A Rigol instrument on a link: how it identifies itself, how its
 * identification string is classified, the command sequence that starts a
 * waveform on the generator, and which instruments detection keeps.
 */
module Rigol {
  import opened Wrappers
  import opened Text
  import opened Transport

  /** The timeout, in milliseconds, a freshly opened instrument gets. */
  const DefaultTimeout := 5000

  /** What `get_idn` returns for a reply: the reply stripped, or "Unknown" when the read failed. */
  function IdnText(reply: Option<string>): string {
    match reply
    case None => "Unknown"
    case Some(text) => Strip(text)
  }

  /** The `*IDN?` exchange of `get_idn`: a write, a 100 ms wait, a read. */
  function IdnExchange(w: Wire): (string, Wire) {
    var (reply, w') := LineRead(Settle(Written(w, "*IDN?"), 100));
    (IdnText(reply), w')
  }

  /**
   * `classify_instrument`: the upper-cased identification decides; a RIGOL
   * string naming a DG model is a generator before anything else is looked at.
   */
  function Classify(idn: string): string {
    var u := Upper(idn);
    if Contains(u, "RIGOL") && Contains(u, "DG") then "generator"
    else if Contains(u, "RIGOL") && (Contains(u, "DS") || Contains(u, "MSO")) then "oscilloscope"
    else "unknown"
  }

  /** The three outcomes of `Classify` and exactly when each one is chosen. */
  lemma ClassifyOutcomes(idn: string)
    ensures Classify(idn) in {"generator", "oscilloscope", "unknown"}
    ensures (Classify(idn) == "generator") <==> (Contains(Upper(idn), "RIGOL") && Contains(Upper(idn), "DG"))
    ensures (Classify(idn) == "oscilloscope")
      <==> (Contains(Upper(idn), "RIGOL") && !Contains(Upper(idn), "DG")
            && (Contains(Upper(idn), "DS") || Contains(Upper(idn), "MSO")))
    ensures (Classify(idn) == "unknown")
      <==> (!Contains(Upper(idn), "RIGOL")
            || (!Contains(Upper(idn), "DG") && !Contains(Upper(idn), "DS") && !Contains(Upper(idn), "MSO")))
  {
  }

  /** How the identification string is capitalised never changes its class. */
  lemma ClassifyIgnoresCase(idn: string)
    ensures Classify(Lower(idn)) == Classify(idn)
    ensures Classify(Upper(idn)) == Classify(idn)
  {
    UpperForgetsCase(idn);
  }

  /** A text that contains `sub` contains its first character. */
  lemma ContainsFirstChar(s: string, sub: string)
    requires Contains(s, sub) && |sub| > 0
    ensures sub[0] in s
  {
    ContainsIffOccurs(s, sub);
    var i :| OccursAt(s, sub, i);
    assert s[i..i + |sub|][0] == s[i];
  }

  /** An instrument that did not answer `*IDN?` is classified unknown. */
  lemma SilentInstrumentIsUnknown()
    ensures IdnText(None) == "Unknown"
    ensures Classify(IdnText(None)) == "unknown"
  {
    var u := Upper("Unknown");
    assert u == "UNKNOWN";
    if Contains(u, "RIGOL") {
      ContainsFirstChar(u, "RIGOL");
    }
  }

  /** A generator's identification. */
  lemma GeneratorExample()
    ensures Classify("RIGOL DG1022Z") == "generator"
  {
    var g := "RIGOL DG1022Z";
    assert Upper(g) == g;
    assert StartsWith(g, "RIGOL");
    assert OccursAt(g, "DG", 6);
    ContainsIffOccurs(g, "DG");
  }

  /** An oscilloscope's identification, written in mixed case. */
  lemma OscilloscopeExample()
    ensures Classify("Rigol MSO5074") == "oscilloscope"
  {
    var o := Upper("Rigol MSO5074");
    assert o == "RIGOL MSO5074";
    assert StartsWith(o, "RIGOL");
    assert OccursAt(o, "MSO", 6);
    ContainsIffOccurs(o, "MSO");
    if Contains(o, "DG") {
      ContainsFirstChar(o, "DG");
    }
  }

  /** The four commands `generate_waveform` sends; the numbers come already formatted. */
  function WaveformCommands(channel: string, waveformType: string, frequency: string,
                            amplitude: string, offset: string, phase: string): seq<string>
  {
    var args := frequency + ", " + amplitude + ", " + offset + " ";
    if channel == "CH1" then
      ["VOLT:UNIT VPP", "APPL:" + waveformType + " " + args, "PHAS " + phase + " ", "OUTP1 ON"]
    else
      ["VOLT:UNIT:" + channel + " VPP", "APPL:" + waveformType + ":" + channel + " " + args,
       "PHAS:" + channel + " " + phase + " ", "OUTP:CH2 ON "]
  }

  /** Writes of `commands` in order, with a wait of `ms` between consecutive ones. */
  function Spaced(commands: seq<string>, ms: nat): seq<Event> {
    if |commands| == 0 then []
    else if |commands| == 1 then [Wrote(commands[0])]
    else [Wrote(commands[0]), Settled(ms)] + Spaced(commands[1..], ms)
  }

  lemma SpacedFour(a: string, b: string, c: string, d: string, ms: nat)
    ensures Spaced([a, b, c, d], ms) == [Wrote(a), Settled(ms), Wrote(b), Settled(ms), Wrote(c), Settled(ms), Wrote(d)]
  {
    assert Spaced([d], ms) == [Wrote(d)];
    assert [c, d][1..] == [d];
    assert Spaced([c, d], ms) == [Wrote(c), Settled(ms), Wrote(d)];
    assert [b, c, d][1..] == [c, d];
    assert Spaced([b, c, d], ms) == [Wrote(b), Settled(ms)] + [Wrote(c), Settled(ms), Wrote(d)];
    assert [a, b, c, d][1..] == [b, c, d];
  }

  /** The commands written in a transcript, in order. */
  function CommandsOf(events: seq<Event>): seq<string> {
    if |events| == 0 then []
    else (if events[0].Wrote? then [events[0].command] else []) + CommandsOf(events[1..])
  }

  /**
   * Spacing the writes out in time sends exactly the given commands, in
   * order: the even positions hold the writes and each gap between two
   * writes holds exactly one wait of `ms`.
   */
  lemma {:induction false} SpacedSendsCommands(commands: seq<string>, ms: nat)
    ensures CommandsOf(Spaced(commands, ms)) == commands
    ensures |Spaced(commands, ms)| == if |commands| == 0 then 0 else 2 * |commands| - 1
    ensures forall k :: 0 <= k < |commands| ==> Spaced(commands, ms)[2 * k] == Wrote(commands[k])
    ensures forall k :: 0 <= k < |commands| - 1 ==> Spaced(commands, ms)[2 * k + 1] == Settled(ms)
  {
    if |commands| > 1 {
      SpacedSendsCommands(commands[1..], ms);
      var all := Spaced(commands, ms);
      var rest := Spaced(commands[1..], ms);
      assert all == [Wrote(commands[0]), Settled(ms)] + rest;
      assert all[1..] == [Settled(ms)] + rest;
      assert ([Settled(ms)] + rest)[1..] == rest;
      forall k | 1 <= k < |commands|
        ensures all[2 * k] == Wrote(commands[k])
      {
        assert all[2 * k] == rest[2 * (k - 1)];
        assert commands[1..][k - 1] == commands[k];
      }
      forall k | 1 <= k < |commands| - 1
        ensures all[2 * k + 1] == Settled(ms)
      {
        assert all[2 * k + 1] == rest[2 * (k - 1) + 1];
      }
    }
  }

  /**
   * Channel CH1 uses the unqualified commands and switches on output 1; any
   * other channel qualifies the first three commands with its name and
   * always switches on output CH2.
   */
  lemma WaveformCommandsByChannel(channel: string, waveformType: string, frequency: string,
                                  amplitude: string, offset: string, phase: string)
    ensures var cs := WaveformCommands(channel, waveformType, frequency, amplitude, offset, phase);
      && |cs| == 4
      && StartsWith(cs[0], "VOLT:UNIT") && StartsWith(cs[1], "APPL:" + waveformType)
      && StartsWith(cs[2], "PHAS")
      && (channel == "CH1" ==>
            && cs[0] == "VOLT:UNIT VPP"
            && cs[1] == "APPL:" + waveformType + " " + frequency + ", " + amplitude + ", " + offset + " "
            && cs[2] == "PHAS " + phase + " " && cs[3] == "OUTP1 ON")
      && (channel != "CH1" ==>
            cs[3] == "OUTP:CH2 ON " && forall k :: 0 <= k < 3 ==> Contains(cs[k], ":" + channel))
      && Contains(cs[1], frequency + ", " + amplitude + ", " + offset + " ")
  {
    var args := frequency + ", " + amplitude + ", " + offset + " ";
    if channel == "CH1" {
      PlainCommands(waveformType, args, phase);
    } else {
      QualifiedCommands(channel, waveformType, args, phase);
    }
  }

  /** The commands for CH1: the prefixes, and the arguments `APPL` carries. */
  lemma PlainCommands(waveformType: string, args: string, phase: string)
    ensures && StartsWith("VOLT:UNIT VPP", "VOLT:UNIT")
            && StartsWith("APPL:" + waveformType + " " + args, "APPL:" + waveformType)
            && Contains("APPL:" + waveformType + " " + args, args)
            && StartsWith("PHAS " + phase + " ", "PHAS")
  {
    var appl := "APPL:" + waveformType + " " + args;
    assert StartsWith("VOLT:UNIT VPP", "VOLT:UNIT") by {
      assert "VOLT:UNIT VPP"[..|"VOLT:UNIT"|] == "VOLT:UNIT";
    }
    assert StartsWith(appl, "APPL:" + waveformType) by {
      assert appl[..|"APPL:" + waveformType|] == "APPL:" + waveformType;
    }
    assert StartsWith("PHAS " + phase + " ", "PHAS") by {
      assert ("PHAS " + phase + " ")[..|"PHAS"|] == "PHAS";
    }
    assert Contains(args, args) by { assert StartsWith(args, args); }
    ContainsInfix("APPL:" + waveformType + " ", args, [], args);
    assert appl == "APPL:" + waveformType + " " + args + [];
  }

  /**
   * The commands for any other channel: the same prefixes, each of the first
   * three naming the channel, and the arguments carried by `APPL`.
   */
  lemma QualifiedCommands(channel: string, waveformType: string, args: string, phase: string)
    ensures var volt, appl, phas := "VOLT:UNIT:" + channel + " VPP", "APPL:" + waveformType + ":" + channel + " " + args,
                                    "PHAS:" + channel + " " + phase + " ";
      && StartsWith(volt, "VOLT:UNIT") && StartsWith(appl, "APPL:" + waveformType) && StartsWith(phas, "PHAS")
      && Contains(volt, ":" + channel) && Contains(appl, ":" + channel) && Contains(phas, ":" + channel)
      && Contains(appl, args)
  {
    var tag := ":" + channel;
    var volt, appl, phas := "VOLT:UNIT:" + channel + " VPP", "APPL:" + waveformType + ":" + channel + " " + args,
                            "PHAS:" + channel + " " + phase + " ";
    assert StartsWith(volt, "VOLT:UNIT") by { assert volt[..|"VOLT:UNIT"|] == "VOLT:UNIT"; }
    assert StartsWith(appl, "APPL:" + waveformType) by {
      assert appl[..|"APPL:" + waveformType|] == "APPL:" + waveformType;
    }
    assert StartsWith(phas, "PHAS") by { assert phas[..|"PHAS"|] == "PHAS"; }
    assert Contains(tag, tag) by { assert StartsWith(tag, tag); }
    assert Contains(args, args) by { assert StartsWith(args, args); }
    assert Contains(volt, tag) by {
      ContainsInfix("VOLT:UNIT", tag, " VPP", tag);
      assert volt == "VOLT:UNIT" + tag + " VPP";
    }
    assert Contains(appl, tag) by {
      ContainsInfix("APPL:" + waveformType, tag, " " + args, tag);
      assert appl == "APPL:" + waveformType + tag + (" " + args);
    }
    assert Contains(appl, args) by {
      ContainsInfix("APPL:" + waveformType + ":" + channel + " ", args, [], args);
      assert appl == "APPL:" + waveformType + ":" + channel + " " + args + [];
    }
    assert Contains(phas, tag) by {
      ContainsInfix("PHAS", tag, " " + phase + " ", tag);
      assert phas == "PHAS" + tag + (" " + phase + " ");
    }
  }

  /** A `RigolInstrument`: its link, its identification and its class. */
  class Instrument {
    const inst: Link
    var idn: string
    var instrumentType: string

    /** Opening an instrument: timeout 5000 ms, then the `*IDN?` exchange and the classification. */
    constructor (link: Link)
      modifies link
      ensures inst == link
      ensures (idn, link.State()) == IdnExchange(old(link.State()).(timeout := DefaultTimeout))
      ensures instrumentType == Classify(idn)
    {
      inst := link;
      new;
      link.timeout := DefaultTimeout;
      idn := GetIdn();
      instrumentType := Classify(idn);
    }

    method GetIdn() returns (id: string)
      modifies inst
      ensures (id, inst.State()) == IdnExchange(old(inst.State()))
    {
      inst.Write("*IDN?");
      inst.Pause(100);
      var reply := inst.Read();
      id := IdnText(reply);
    }

    method Write(command: string)
      modifies inst
      ensures inst.State() == Written(old(inst.State()), command)
    {
      inst.Write(command);
    }

    method Query(command: string) returns (reply: Option<string>)
      modifies inst
      ensures (reply, inst.State()) == Asked(old(inst.State()), command)
    {
      reply := inst.Query(command);
    }

    /**
     * `generate_waveform`: the four commands for the channel, 50 ms apart.
     * The duty cycle is accepted and takes no part.
     */
    method GenerateWaveform(channel: string, waveformType: string, frequency: string, amplitude: string,
                            offset: string, phase: string, dutyCycle: string)
      modifies inst
      ensures inst.State() == old(inst.State()).(log := old(inst.log)
                + Spaced(WaveformCommands(channel, waveformType, frequency, amplitude, offset, phase), 50))
    {
      var cs := WaveformCommands(channel, waveformType, frequency, amplitude, offset, phase);
      SpacedFour(cs[0], cs[1], cs[2], cs[3], 50);
      Write(cs[0]);
      inst.Pause(50);
      Write(cs[1]);
      inst.Pause(50);
      Write(cs[2]);
      inst.Pause(50);
      Write(cs[3]);
    }
  }

  /** A resource as detection sees it: its VISA name and the reply it gives to `*IDN?`. */
  datatype Device = Device(resource: string, reply: Option<string>)

  function KindOf(d: Device): string {
    Classify(IdnText(d.reply))
  }

  /** The resources whose name contains "USB", in their listed order. */
  function UsbOnly(resources: seq<Device>): seq<Device> {
    if |resources| == 0 then []
    else (if Contains(resources[0].resource, "USB") then [resources[0]] else []) + UsbOnly(resources[1..])
  }

  /** Exactly the USB resources are kept. */
  lemma {:induction false} UsbOnlyMembers(resources: seq<Device>)
    ensures forall d :: d in UsbOnly(resources) <==> d in resources && Contains(d.resource, "USB")
  {
    if |resources| > 0 {
      UsbOnlyMembers(resources[1..]);
      assert resources == [resources[0]] + resources[1..];
    }
  }

  /** The filter keeps the listed order: it distributes over concatenation. */
  lemma {:induction false} UsbOnlyAppend(a: seq<Device>, b: seq<Device>)
    ensures UsbOnly(a + b) == UsbOnly(a) + UsbOnly(b)
  {
    if |a| > 0 {
      assert (a + b)[1..] == a[1..] + b;
      UsbOnlyAppend(a[1..], b);
    } else {
      assert a + b == b;
    }
  }

  /** The last item of the list that `kindOf` classifies as `kind`. */
  function LastOfKind<D>(items: seq<D>, kindOf: D -> string, kind: string): Option<D> {
    if |items| == 0 then None
    else if kindOf(items[|items| - 1]) == kind then Some(items[|items| - 1])
    else LastOfKind(items[..|items| - 1], kindOf, kind)
  }

  /** Extending the list by one item. */
  lemma LastOfKindStep<D>(items: seq<D>, x: D, kindOf: D -> string, kind: string)
    ensures LastOfKind(items + [x], kindOf, kind)
            == if kindOf(x) == kind then Some(x) else LastOfKind(items, kindOf, kind)
  {
    assert (items + [x])[..|items|] == items;
  }

  /** Item `i` is of `kind` and no later item is. */
  predicate IsLastOfKind<D>(items: seq<D>, kindOf: D -> string, kind: string, i: int) {
    0 <= i < |items| && kindOf(items[i]) == kind
    && forall j :: i < j < |items| ==> kindOf(items[j]) != kind
  }

  /**
   * `LastOfKind` finds nothing exactly when no item is of the kind, and
   * otherwise an item of the kind after which none follows.
   */
  lemma {:induction false} LastOfKindSpec<D>(items: seq<D>, kindOf: D -> string, kind: string)
    ensures LastOfKind(items, kindOf, kind).None? <==> forall i :: 0 <= i < |items| ==> kindOf(items[i]) != kind
    ensures LastOfKind(items, kindOf, kind).Some? ==>
              exists i :: IsLastOfKind(items, kindOf, kind, i) && items[i] == LastOfKind(items, kindOf, kind).value
  {
    if |items| > 0 {
      var n := |items| - 1;
      var init := items[..n];
      LastOfKindSpec(init, kindOf, kind);
      assert forall i :: 0 <= i < n ==> init[i] == items[i];
      if kindOf(items[n]) == kind {
        assert IsLastOfKind(items, kindOf, kind, n);
      } else if LastOfKind(init, kindOf, kind).Some? {
        var i :| IsLastOfKind(init, kindOf, kind, i) && init[i] == LastOfKind(init, kindOf, kind).value;
        assert IsLastOfKind(items, kindOf, kind, i);
      }
    }
  }

  /**
   * What detection can return for a kind: nothing exactly when no USB
   * resource is of that kind, and otherwise a USB resource of that kind.
   */
  lemma DetectionOutcome(resources: seq<Device>, kind: string)
    ensures (LastOfKind(UsbOnly(resources), KindOf, kind).None?)
      <==> (forall d :: d in resources && Contains(d.resource, "USB") ==> KindOf(d) != kind)
    ensures LastOfKind(UsbOnly(resources), KindOf, kind).Some? ==>
              var d := LastOfKind(UsbOnly(resources), KindOf, kind).value;
              d in resources && Contains(d.resource, "USB") && KindOf(d) == kind
  {
    var devices := UsbOnly(resources);
    UsbOnlyMembers(resources);
    LastOfKindSpec(devices, KindOf, kind);
    assert forall d :: d in devices <==> exists i :: 0 <= i < |devices| && devices[i] == d;
  }

  /**
   * The selection loop of `detect_rigol_instruments`: every generator
   * replaces the one kept so far and so does every oscilloscope; anything
   * else is passed over.
   */
  method SelectInstruments<D>(devices: seq<D>, kindOf: D -> string)
    returns (generator: Option<D>, oscilloscope: Option<D>)
    ensures generator == LastOfKind(devices, kindOf, "generator")
    ensures oscilloscope == LastOfKind(devices, kindOf, "oscilloscope")
  {
    generator, oscilloscope := None, None;
    for i := 0 to |devices|
      invariant generator == LastOfKind(devices[..i], kindOf, "generator")
      invariant oscilloscope == LastOfKind(devices[..i], kindOf, "oscilloscope")
    {
      assert devices[..i + 1] == devices[..i] + [devices[i]];
      LastOfKindStep(devices[..i], devices[i], kindOf, "generator");
      LastOfKindStep(devices[..i], devices[i], kindOf, "oscilloscope");
      var kind := kindOf(devices[i]);
      if kind == "generator" {
        generator := Some(devices[i]);
      } else if kind == "oscilloscope" {
        oscilloscope := Some(devices[i]);
      }
    }
    assert devices[..|devices|] == devices;
  }

  /** `detect_rigol_instruments`: the selection run over the USB resources only. */
  method DetectInstruments(resources: seq<Device>) returns (generator: Option<Device>, oscilloscope: Option<Device>)
    ensures generator == LastOfKind(UsbOnly(resources), KindOf, "generator")
    ensures oscilloscope == LastOfKind(UsbOnly(resources), KindOf, "oscilloscope")
  {
    var devices := UsbOnly(resources);
    generator, oscilloscope := SelectInstruments(devices, KindOf);
  }
}
