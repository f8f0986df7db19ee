# Rigol bench instruments: capture, persistence, classification and detection

This project models the core of a small Python toolkit that drives Rigol
bench instruments over VISA. It has three parts.

- **Instruments** (`RigolInstrument`). Opening an instrument sets a 5000 ms
  timeout and asks for its identification with `*IDN?`. The instrument is
  then classified as a generator, an oscilloscope or unknown. On the
  generator, `generate_waveform` sends a fixed four-command sequence that
  depends on the channel. `detect_rigol_instruments` keeps the last
  generator and the last oscilloscope among the USB resources.
- **Capture** (`capture_waveform`). This configures the oscilloscope's
  waveform source and reads the comma-separated preamble. It then requests
  the data and reads an 11-byte IEEE 488.2 definite-length block header.
  Next it reads exactly the number of payload bytes the header declares,
  under a 30 s timeout that is put back afterwards. Finally it calibrates
  the bytes into a time axis and mean-centred volts.
- **Persistence** (`save_waveform_capture` / `load_waveform_capture`). A
  capture is stored as two artifacts that share one base path: the arrays
  (`.npz`) and a sidecar record (`.json`). The record holds the preamble,
  the metadata, the sample count and the time and voltage ranges.

The instrument link is `Transport.Link`. It is a class whose fields are the
timeout, a transcript of every write, query, read and wait, the queued text
replies, and the queued raw bytes. Each link operation is proved equal to a
step function on a `Wire` value. The imperative operations are
`Rigol.Instrument`'s methods, `Acquisition.CaptureWaveform` and
`Persistence.FileStore`'s methods. Each of them is proved equal to a
function on the old state (`Rigol.IdnExchange`,
`Acquisition.CaptureExchange`, `Persistence.Saved`,
`Persistence.Loaded`). The properties are lemmas about those functions.
Waits (`time.sleep`) become `Settled` events in the transcript. Numbers are
exact: integers are unbounded, and calibration is over `real`.

Modules, in dependency order:

- `Wrappers`: `Option` and `Result`;
- `Text`: Python's `in`, `upper`, `strip`, `split` and `join` on strings;
- `Numerals`: `int()` and `float()` on numeric text;
- `Transport`: the link;
- `Rigol`: the instrument, classification, waveform commands and detection;
- `Preambles`, `BlockFormat`, `Calibration` and `Acquisition`: the capture;
- `Persistence`: paths, the store, save and load.

## Model

| member | source | states |
|---|---|---|
| Rigol.Instrument.constructor | Rigol/RIGOL.py:7-13 | sets the link timeout to 5000 ms, then runs the `*IDN?` exchange on it; `idn` is its result and `instrumentType` is that string's class |
| Rigol.Instrument.GetIdn | Rigol/RIGOL.py:15-23 | writes `*IDN?`, waits 100 ms and reads once; returns the stripped reply, or "Unknown" when the read fails |
| Rigol.SilentInstrumentIsUnknown | Rigol/RIGOL.py:20-35 | an instrument whose read failed is named "Unknown" and classified "unknown" |
| Rigol.ClassifyOutcomes | Rigol/RIGOL.py:28-35 | the class is one of the three strings; each is chosen exactly when its case-insensitive substring condition holds, generator before oscilloscope |
| Rigol.ClassifyIgnoresCase | Rigol/RIGOL.py:29 | upper- or lower-casing the identification never changes its class |
| Rigol.GeneratorExample | Rigol/RIGOL.py:30-31 | a "RIGOL DG…" identification is a generator |
| Rigol.OscilloscopeExample | Rigol/RIGOL.py:32-33 | a mixed-case "Rigol MSO…" identification is an oscilloscope |
| Rigol.Instrument.Write | Rigol/RIGOL.py:37-38 | appends exactly one write of the command to the link and changes nothing else |
| Rigol.Instrument.Query | Rigol/RIGOL.py:40-41 | one query on the link; consumes and returns the next reply if there is one |
| Rigol.Instrument.GenerateWaveform | Rigol/RIGOL.py:54-77 | the link's transcript grows by the channel's four commands, 50 ms apart, and by nothing else; the duty cycle takes no part |
| Rigol.WaveformCommandsByChannel | Rigol/RIGOL.py:56-77 | CH1 gets exactly `VOLT:UNIT VPP`, `APPL:type frequency, amplitude, offset `, `PHAS phase ` and `OUTP1 ON`; any other channel gets the first three qualified by `:channel` and always `OUTP:CH2 ON `; the `APPL` command carries `frequency, amplitude, offset ` |
| Rigol.SpacedSendsCommands | Rigol/RIGOL.py:58-77 | writes spaced by waits send exactly the given commands in order at the even positions, with exactly one wait of the given length between each pair |
| Rigol.UsbOnlyMembers | Rigol/RIGOL.py:90 | the resource filter keeps exactly the resources whose name contains "USB" |
| Rigol.UsbOnlyAppend | Rigol/RIGOL.py:90 | the filter keeps the listed order (it distributes over concatenation) |
| Rigol.LastOfKindSpec | Rigol/RIGOL.py:100-110 | selection finds nothing exactly when no item is of the kind, and otherwise an item of the kind with none of that kind after it |
| Rigol.SelectInstruments | Rigol/RIGOL.py:96-111 | the loop's generator and oscilloscope are the last of each kind among the devices (last one wins) |
| Rigol.DetectInstruments | Rigol/RIGOL.py:89-111 | detection is the selection run over the USB resources only |
| Rigol.DetectionOutcome | Rigol/RIGOL.py:89-111 | detection returns nothing for a kind exactly when no USB resource is of it; otherwise it returns a USB resource of that kind |
| Text.ContainsIffOccurs | Rigol/RIGOL.py:30-32 | Python's substring test holds exactly when the substring occurs at some position |
| Text.StripSpec | Rigol/RIGOL.py:19 | `strip()` removes leading and trailing whitespace only, and leaves the ends non-blank |
| Text.StripIdempotent | Rigol/RIGOL.py:19 | stripping twice is stripping once |
| Text.SplitJoin | Rigol/DS1104ZPLUS.py:18 | splitting the comma-joined fields gives back the fields, when none of them holds a comma |
| Text.JoinSplit | Rigol/DS1104ZPLUS.py:18 | joining the split parts gives back the reply |
| Text.Split | Rigol/DS1104ZPLUS.py:18 | a reply splits into one more field than it has commas, and no field holds a comma |
| Text.SplitAppend | Rigol/DS1104ZPLUS.py:18 | comma-free text added at the end of a reply extends its last field and leaves the others as they were |
| Text.StripTrailingSpace | Rigol/DS1104ZPLUS.py:20-25 | white space added at the end of a field is removed again by stripping |
| Numerals.PaddedValue | Rigol/DS1104ZPLUS.py:47-49 | a length that fits in `d` digits reads back from its zero-padded `d`-digit form |
| Numerals.ParseRealOfInteger | Rigol/DS1104ZPLUS.py:20-25 | whatever `int()` accepts, `float()` accepts with the same value |
| Numerals.ScientificValue | Rigol/DS1104ZPLUS.py:21-24 | a scale factor written as `whole.fraction` with `e`, a sign and a padded exponent (`1.000000e-02`) reads back as its digits' value times ten to that exponent, for either sign |
| Preambles.ParsePreambleSpec | Rigol/DS1104ZPLUS.py:17-25 | the preamble parses exactly when fields 2, 4, 5, 7, 8 and 9 are present and numeric once the white space around them is removed, as `int()` and `float()` remove it; each value then comes from its own field |
| Preambles.TrailingSpaceIgnored | Rigol/DS1104ZPLUS.py:17-25 | a reply with white space at its end, such as a line terminator after field 9, parses exactly as the reply without it |
| Preambles.ShortReplyRejected | Rigol/DS1104ZPLUS.py:18-25 | a reply with fewer than ten fields is rejected |
| Preambles.PreambleFromFields | Rigol/DS1104ZPLUS.py:18-25 | reading back the fields the instrument sent gives their values, read without surrounding white space; the other fields are ignored |
| BlockFormat.HeaderRoundTrip | Rigol/DS1104ZPLUS.py:40-49 | every length that fits in the declared digit count reads back from its header, whatever follows it |
| BlockFormat.ParseBlockHeaderSpec | Rigol/DS1104ZPLUS.py:43-49 | a header is accepted exactly when it starts with `#` and a digit `d >= 1`, followed by `d` digits (or as many as there are); the length is their decimal value; the marker error occurs exactly when `#` is missing |
| BlockFormat.ZeroDigitCountRejected | Rigol/DS1104ZPLUS.py:47-49 | digit count 0 leaves an empty length field, which is rejected |
| BlockFormat.HeaderLengthBound | Rigol/DS1104ZPLUS.py:41-49 | from an 11-byte header the declared length is below 10^9 |
| Calibration.VoltagesSumToZero | Rigol/DS1104ZPLUS.py:58-59 | one volt per byte, and the volts add up to zero |
| Calibration.ShiftInvariant | Rigol/DS1104ZPLUS.py:56-59 | shifting every byte by the same amount leaves the volts unchanged (centring on the mean, not on `y_reference`) |
| Calibration.FlatTraceIsZero | Rigol/DS1104ZPLUS.py:59 | a constant trace reads as zero volts everywhere |
| Calibration.TimeAxisSpec | Rigol/DS1104ZPLUS.py:62 | the time axis has one entry per sample, starts at `x_origin`, steps by `x_increment`, and rises strictly when `x_increment > 0` |
| Acquisition.CaptureWaveform | Rigol/DS1104ZPLUS.py:5-77 | the capture's result and the link it leaves are those of the capture exchange, with the timeout restored on every path |
| Acquisition.SetupStep | Rigol/DS1104ZPLUS.py:9-17 | three writes, each followed by 200 ms, then the `:WAV:PRE?` query, which consumes one reply if there is one |
| Acquisition.CaptureRestoresTimeout | Rigol/DS1104ZPLUS.py:35-36 | every capture, however it ends, leaves the link timeout as it found it (`finally` at lines 76-77) |
| Acquisition.CaptureStartsWithSetup | Rigol/DS1104ZPLUS.py:9-17 | every capture's transcript starts with the three configuration writes and the preamble query, and at most one reply is used |
| Acquisition.PreambleFailureStopsEarly | Rigol/DS1104ZPLUS.py:17-31 | a preamble that does not parse fails the capture before `:WAV:DATA?`: no data request and no raw read; timeout and byte stream untouched |
| Acquisition.BadMarkerSkipsPayload | Rigol/DS1104ZPLUS.py:41-44 | a header without `#` fails after the single 11-byte read; no payload read is issued |
| Acquisition.BlockReadSpec | Rigol/DS1104ZPLUS.py:41-54 | the block read succeeds exactly when the 11 header bytes are there and valid and the declared payload follows in full; it consumes exactly those bytes |
| Acquisition.TransferSpec | Rigol/DS1104ZPLUS.py:31-77 | the transfer restores the timeout; on success both raw reads run under 30000 ms, the second for the declared length, and the payload is calibrated |
| Acquisition.TransferFailures | Rigol/DS1104ZPLUS.py:41-54 | a short header, a rejected header and a short payload each fail with their own error and leave the exact link: every raw read made ran under 30000 ms, the timeout is back, a short read loses what had arrived, and a rejected header leaves the bytes after it unread |
| Acquisition.CaptureSuccess | Rigol/DS1104ZPLUS.py:9-74 | a successful capture went through the whole exchange in order, read exactly the declared length under 30000 ms, and returns one sample per payload byte, not per announced point |
| Acquisition.CapturedWaveform | Rigol/DS1104ZPLUS.py:58-74 | a successful capture returns the preamble as parsed, equal-length arrays, a time axis from `x_origin` in steps of `x_increment`, and volts summing to zero |
| Acquisition.CaptureOfWellFormedStream | Rigol/DS1104ZPLUS.py:5-77 | against an instrument that sends a valid preamble, a 9-digit header and its payload, the capture returns that payload calibrated and leaves exactly the bytes that followed |
| Acquisition.ShortDigitCountMisreads | Rigol/DS1104ZPLUS.py:40-54 | a header with fewer than 9 length digits makes the fixed 11-byte read take `9 - d` payload bytes, so the payload read starts that far into the data |
| Persistence.FileStore.Save | Rigol/DS1104ZPLUS.py:85-136 | writes the arrays at the `.npz` path and the record at the `.json` path, and reports both; a path without a name writes nothing |
| Persistence.FileStore.Load | Rigol/DS1104ZPLUS.py:139-182 | reads both artifacts if both exist, otherwise not found; changes nothing |
| Persistence.SaveThenLoad | Rigol/DS1104ZPLUS.py:104-182 | loading from the path just saved returns the arrays, preamble and metadata as saved (missing metadata as empty), the count of volts and both ranges |
| Persistence.SaveWritesTwoArtifacts | Rigol/DS1104ZPLUS.py:104-126 | a save fails only for a path without a name, and then writes nothing; otherwise it adds two distinct paths and leaves every other path alone |
| Persistence.LoadNeedsBoth | Rigol/DS1104ZPLUS.py:156-163 | a load fails as not found exactly when one of the two artifacts is missing |
| Persistence.ArtifactPathsSpec | Rigol/DS1104ZPLUS.py:107-110 | artifact paths exist exactly for paths with a name; they are one base plus `.npz` and plus `.json`, and they differ |
| Persistence.ArtifactPathsFromArtifact | Rigol/DS1104ZPLUS.py:144 | deriving the paths again from either artifact path gives the same pair |
| Persistence.LoadFromArtifact | Rigol/DS1104ZPLUS.py:144-163 | loading from the `.npz` or the `.json` path a save reported is loading from the saved path |
| Persistence.WrittenPathsStripTwice | Rigol/DS1104ZPLUS.py:108-110 | as written, a save at `a.b.c` goes to `a.npz`/`a.json`; the intended derivation gives `a.b.npz`/`a.b.json` |
| Persistence.WrittenPathsMissReturnedFile | Rigol/DS1104ZPLUS.py:108-110 | as written, a save at `a.b.c.d` reports `a.b.npz`, and loading from it looks for `a.npz` |
| Persistence.RangeSpec | Rigol/DS1104ZPLUS.py:124-125 | a recorded range is `(0, 0)` for an empty array; otherwise it is the array's least and greatest value |
| Persistence.CenteredRangeHoldsZero | Rigol/DS1104ZPLUS.py:125 | volts that add up to zero, including none at all, record a voltage range that contains zero |
| Persistence.CaptureSidecar | Rigol/DS1104ZPLUS.py:120-125 | the record of any capture, empty or not, counts one sample per payload byte and has a voltage range around zero |
| Persistence.CaptureTimeRange | Rigol/DS1104ZPLUS.py:124 | with a positive sample interval, the saved time range runs from `x_origin` to the last sample's time |

## Findings

| source | as written | input that shows it | evidently intended | confidence | as-written member | corrected member |
|---|---|---|---|---|---|---|
| Rigol/DS1104ZPLUS.py:108-110 and 157-160 | `base.with_suffix('.npz')` strips another extension from a base that still has one, so two extensions are removed | save at `a.b.c.d`: the files go to `a.b.npz`/`a.b.json`, and loading from the reported `a.b.npz` looks for `a.npz`/`a.json` (not found) | strip the last extension once, then append `.npz`/`.json` ("Remove extension if present, we'll add our own"), so either reported path loads the capture | not executed; follows from `pathlib`'s documented `with_suffix` | Persistence.WrittenPathsMissReturnedFile | Persistence.ArtifactPathsFromArtifact |

`Persistence.WrittenArtifactPaths` is the derivation as written. `Persistence.ArtifactPaths` is the corrected one, and save and load use it. The two agree on every path whose name has at most one extension.

## Left out

- Acquisition.CaptureWaveform: `read_raw(n)` is modelled as reading exactly the next `n` bytes, or failing and losing what arrived. pyvisa's chunking and termination handling are not modelled.
- Transport.Link: opening and closing VISA resources, the resource manager, the `utf-8` encoding setting, and the concurrency of a real bus are not modelled. Write failures are not modelled: writes always succeed.
- Waits (`time.sleep`) are recorded as `Settled` events. No clock is modelled.
- Calibration is over exact reals. IEEE-754 rounding is not modelled, nor is NumPy's NaN for the mean of an empty array (the model returns no volts for no bytes). The `uint8` to float conversion is exact here.
- Numerals.ParseReal: covers an optional sign, digits with an optional point, and an optional exponent. Underscores, `inf`/`nan` and non-ASCII digits are not accepted. White space around a preamble field is removed before parsing (`Preambles.Stripped`), as `float()` ignores it.
- Numerals.ParseInt: likewise, underscores and non-ASCII digits are not accepted. White space is removed only around preamble fields.
- BlockFormat.ParseBlockHeader: the length field must be plain ASCII digits. `int()` also accepts white space, a sign, underscores such as `000_001_200`, and non-ASCII decimal digits after the UTF-8 decode; the model rejects them.
- Text.Upper and Text.Strip: ASCII case mapping and ASCII whitespace only; Unicode case folding is not modelled.
- Rigol.Instrument: `verbose`/`print` output, `__str__`, `close`, `getter_idn` and `read` are left out. They print or hand back state and state nothing new.
- Console output is not modelled anywhere: the prints of `detect_rigol_instruments` (Rigol/RIGOL.py:93-110), of `capture_waveform` (Rigol/DS1104ZPLUS.py:27-28, 51, 73) and of `save_waveform_capture` (Rigol/DS1104ZPLUS.py:131-134) change no state the model observes.
- Rigol.Instrument.GenerateWaveform: the numeric arguments are taken as already-formatted text. Python's `str()` of numbers is not modelled.
- Rigol.DetectInstruments: each resource is given with the reply it gives to `*IDN?`. Opening each resource (and leaving it open) is not modelled.
- Persistence: the NPZ compression and the JSON encoding are not modelled. Artifacts are stored as values, so JSON's turning tuples into lists and keys into strings is not visible.
- Persistence.Metadata: metadata values are text only (`map<string, string>`). The source accepts any JSON-serialisable value, such as numbers for `gain` and `frequency`; the model treats them as already written out as text.
- Persistence.FileStore.Save: `mkdir` of the parent directory is not modelled. Paths are plain strings, without `pathlib`'s normalisation (repeated or trailing `/`, `.` components).
- Persistence.WithSuffix: the check that the new suffix starts with a dot is not modelled. Only the constant suffixes `""`, `.npz` and `.json` are used.
- Persistence.FileStore.Load: a sidecar missing a key (`KeyError`) cannot arise, because records are values that always carry every field. An artifact of the wrong kind is reported as unreadable.
- Plotting, and the rest of the repository outside these two files, are not part of this model.
