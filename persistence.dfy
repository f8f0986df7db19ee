/**
 * `save_waveform_capture` and `load_waveform_capture` against a file store
 * modelled as a map from path to what was written there. A capture is
 * stored as two artifacts that share one base path: the arrays (`.npz`)
 * and a sidecar record (`.json`) with the preamble, the metadata, the
 * sample count and the two ranges.
 */
module Persistence {
  import opened Wrappers
  import opened Preambles
  import opened Transport
  import opened Calibration
  import opened Acquisition

  // ---------------------------------------------------------------------
  // Paths, as `pathlib` derives them
  // ---------------------------------------------------------------------

  datatype PathError = EmptyName(path: string)

  /** `str.rfind(c)`: the position of the last `c`, if any. */
  function LastIndexOf(s: string, c: char): (r: Option<nat>)
    ensures r.Some? ==> r.value < |s|
  {
    if |s| == 0 then None
    else if s[|s| - 1] == c then Some(|s| - 1)
    else LastIndexOf(s[..|s| - 1], c)
  }

  /** What `rfind` finds: a `c` with none after it, or no `c` at all. */
  lemma {:induction false} LastIndexOfSpec(s: string, c: char)
    ensures LastIndexOf(s, c).Some? ==>
              var i := LastIndexOf(s, c).value;
              s[i] == c && c !in s[i + 1..]
    ensures LastIndexOf(s, c).None? ==> c !in s
  {
    if |s| > 0 && s[|s| - 1] != c {
      var s' := s[..|s| - 1];
      LastIndexOfSpec(s', c);
      assert s == s' + [s[|s| - 1]];
      if LastIndexOf(s', c).Some? {
        var i := LastIndexOf(s', c).value;
        assert s[i + 1..] == s'[i + 1..] + [s[|s| - 1]];
      }
    }
  }

  /** `PurePath.name`: what follows the last `/`. */
  function Name(p: string): (n: string)
    ensures |n| <= |p|
  {
    match LastIndexOf(p, '/')
    case None => p
    case Some(i) => p[i + 1..]
  }

  /** The name is the end of the path, holds no `/`, and is all of it or follows a `/`. */
  lemma NameSpec(p: string)
    ensures var n := Name(p);
      && p[|p| - |n|..] == n
      && '/' !in n
      && (|n| < |p| ==> p[|p| - |n| - 1] == '/')
  {
    LastIndexOfSpec(p, '/');
  }

  /** `PurePath.suffix`: from the last `.` of the name, unless it leads or ends it. */
  function Suffix(name: string): (x: string)
    ensures |x| <= |name|
  {
    match LastIndexOf(name, '.')
    case None => ""
    case Some(i) => if 0 < i < |name| - 1 then name[i..] else ""
  }

  /** A suffix is a dot and more at the end of the name, not all of it, with no other dot. */
  lemma SuffixSpec(name: string)
    ensures var x := Suffix(name);
      x == "" || (&& 0 < |name| - |x| && 1 < |x| && name[|name| - |x|..] == x
                  && x[0] == '.' && '.' !in x[1..])
  {
    LastIndexOfSpec(name, '.');
    match LastIndexOf(name, '.') {
      case None =>
      case Some(i) =>
        if 0 < i < |name| - 1 {
          assert name[i..][1..] == name[i + 1..];
        }
    }
  }

  /** `PurePath.with_suffix(x)`: replace the name's suffix; a path without a name is refused. */
  function WithSuffix(p: string, x: string): Result<string, PathError> {
    var name := Name(p);
    if name == "" then Failure(EmptyName(p))
    else Success(p[..|p| - |Suffix(name)|] + x)
  }

  /**
   * The two artifact paths of a capture saved at `p`, as the functions
   * build them: `base = p.with_suffix('')`, then `base.with_suffix('.npz')`
   * and `base.with_suffix('.json')`. The second `with_suffix` strips a
   * second extension from names that had two.
   */
  function WrittenArtifactPaths(p: string): Result<(string, string), PathError> {
    var base :- WithSuffix(p, "");
    var npz :- WithSuffix(base, ".npz");
    var json :- WithSuffix(base, ".json");
    Success((npz, json))
  }

  /** The artifact paths as intended: strip the last extension, then append each suffix. */
  function ArtifactPaths(p: string): Result<(string, string), PathError> {
    var base :- WithSuffix(p, "");
    Success((base + ".npz", base + ".json"))
  }

  /** Cutting a path after its last `/` leaves that `/` the last one. */
  lemma LastIndexOfPrefix(s: string, c: char, k: nat)
    requires k <= |s| && c !in s[k..]
    ensures LastIndexOf(s[..k], c) == LastIndexOf(s, c)
    decreases |s| - k
  {
    if k < |s| {
      assert s[k + 1..] == s[k..][1..];
      assert s[k] == s[k..][0];
      LastIndexOfPrefix(s, c, k + 1);
      var t := s[..k + 1];
      assert t[..|t| - 1] == s[..k] && t[|t| - 1] == s[k];
    } else {
      assert s[..k] == s;
    }
  }

  /** Appending text without `c` leaves the last `c` where it was. */
  lemma LastIndexOfAppend(s: string, t: string, c: char)
    requires c !in t
    ensures LastIndexOf(s + t, c) == LastIndexOf(s, c)
  {
    assert (s + t)[|s|..] == t;
    assert (s + t)[..|s|] == s;
    LastIndexOfPrefix(s + t, c, |s|);
  }

  /** The name of `p[..k]`, when the cut falls inside the name. */
  lemma NameOfPrefix(p: string, k: nat)
    requires |p| - |Name(p)| <= k <= |p|
    ensures Name(p[..k]) == Name(p)[..k - (|p| - |Name(p)|)]
  {
    var j := |p| - |Name(p)|;
    NameSpec(p);
    LastIndexOfSpec(p, '/');
    assert '/' !in p[k..] by {
      assert p[k..] == Name(p)[k - j..];
    }
    LastIndexOfPrefix(p, '/', k);
  }

  /** Stripping the suffix of a named path keeps a name, and that name has no suffix left to strip. */
  lemma StripKeepsName(p: string)
    requires Name(p) != ""
    ensures var b := WithSuffix(p, "").value;
      Name(b) != "" && |Name(b)| + |Suffix(Name(p))| == |Name(p)|
  {
    var n := Name(p);
    var k := |p| - |Suffix(n)|;
    SuffixSpec(n);
    assert p[..k] + "" == p[..k];
    NameOfPrefix(p, k);
  }

  /** A suffix with one dot, at its start, and no separator: `.npz` and `.json` are such. */
  predicate PlainSuffix(x: string) {
    |x| >= 2 && x[0] == '.' && '.' !in x[1..] && '/' !in x
  }

  lemma CaptureSuffixesArePlain()
    ensures PlainSuffix(".npz") && PlainSuffix(".json")
  {
    assert ".npz"[1..] == "npz";
    assert ".json"[1..] == "json";
  }

  /** Text without `/` appended to a path extends its name. */
  lemma NameAppended(b: string, x: string)
    requires '/' !in x
    ensures Name(b + x) == Name(b) + x
  {
    LastIndexOfAppend(b, x, '/');
    match LastIndexOf(b, '/') {
      case None =>
      case Some(i) =>
        assert (b + x)[i + 1..] == b[i + 1..] + x;
    }
  }

  /** A plain suffix appended to a non-empty name is that name's suffix. */
  lemma SuffixAppended(n: string, x: string)
    requires n != "" && PlainSuffix(x)
    ensures Suffix(n + x) == x
  {
    assert (n + ".") + x[1..] == n + x;
    LastIndexOfAppend(n + ".", x[1..], '.');
    assert LastIndexOf(n + ".", '.') == Some(|n|);
    assert (n + x)[|n|..] == x;
  }

  /** Appending a plain suffix, then stripping the suffix, gives back the base. */
  lemma StripAppended(b: string, x: string)
    requires Name(b) != "" && PlainSuffix(x)
    ensures WithSuffix(b + x, "") == Success(b)
  {
    NameAppended(b, x);
    SuffixAppended(Name(b), x);
    assert (b + x)[..|b|] + "" == b;
  }

  /** Artifact paths exist exactly for paths with a name; the two differ only in their suffix. */
  lemma ArtifactPathsSpec(p: string)
    ensures ArtifactPaths(p).Success? <==> Name(p) != ""
    ensures ArtifactPaths(p).Success? ==>
              var (npz, json) := ArtifactPaths(p).value;
              var b := WithSuffix(p, "").value;
              npz == b + ".npz" && json == b + ".json" && npz != json
  {
    if Name(p) != "" {
      var b := WithSuffix(p, "").value;
      assert (b + ".npz")[|b| + 1] == 'n';
      assert (b + ".json")[|b| + 1] == 'j';
    }
  }

  /**
   * Handing back either artifact path finds the same pair: the `.npz` or the
   * `.json` file can be given to the loader in place of the original path.
   */
  lemma ArtifactPathsFromArtifact(p: string)
    requires ArtifactPaths(p).Success?
    ensures ArtifactPaths(ArtifactPaths(p).value.0) == ArtifactPaths(p)
    ensures ArtifactPaths(ArtifactPaths(p).value.1) == ArtifactPaths(p)
  {
    var b := WithSuffix(p, "").value;
    StripKeepsName(p);
    CaptureSuffixesArePlain();
    StripAppended(b, ".npz");
    StripAppended(b, ".json");
  }

  /** The paths as written, once the first strip has produced `base`. */
  lemma WrittenFromBase(p: string, base: string)
    requires WithSuffix(p, "") == Success(base) && Name(base) != ""
    ensures var stem := base[..|base| - |Suffix(Name(base))|];
      WrittenArtifactPaths(p) == Success((stem + ".npz", stem + ".json"))
  {
  }

  /** One dot-separated piece of a file name. */
  predicate Segment(s: string) {
    s != "" && '.' !in s && '/' !in s
  }

  /** Stripping the suffix of `x.y`, for a segment `y` and an `x` without `/`. */
  lemma StripLast(x: string, y: string)
    requires x != "" && '/' !in x && Segment(y)
    ensures Name(x + "." + y) == x + "." + y
    ensures Suffix(x + "." + y) == "." + y
    ensures forall e :: WithSuffix(x + "." + y, e) == Success(x + e)
  {
    var p := x + "." + y;
    assert p[|x|] == '.' && p[|x| + 1..] == y && p[..|x|] == x;
    assert p[|x|..] == "." + y;
    StripsTo(p, |x|, x);
  }

  lemma NpzIsSegment()
    ensures Segment("npz")
  {
    assert "npz" == ['n', 'p', 'z'];
  }

  /**
   * As written, a save at `a.b.c` goes to `a.npz` and `a.json` (for any
   * `a` without a separator), not to
   * `a.b.npz` and `a.b.json`: two extensions are stripped. The intended
   * derivation strips one.
   */
  lemma WrittenPathsStripTwice(a: string, b: string, c: string)
    requires a != "" && '/' !in a && Segment(b) && Segment(c)
    ensures WrittenArtifactPaths(a + "." + b + "." + c) == Success((a + ".npz", a + ".json"))
    ensures ArtifactPaths(a + "." + b + "." + c) == Success((a + "." + b + ".npz", a + "." + b + ".json"))
  {
    var base := a + "." + b;
    StripLast(base, c);
    assert base + "" == base;
    StripLast(a, b);
    WrittenFromBase(a + "." + b + "." + c, base);
  }

  /**
   * So, as written, the `.npz` path a save at `a.b.c.d` reports is
   * `a.b.npz`, and loading from it looks for `a.npz`: the saved capture
   * cannot be loaded by the name the save returned.
   */
  lemma WrittenPathsMissReturnedFile(a: string, b: string, c: string, d: string)
    requires Segment(a) && Segment(b) && Segment(c) && Segment(d)
    ensures WrittenArtifactPaths(a + "." + b + "." + c + "." + d) == Success((a + "." + b + ".npz", a + "." + b + ".json"))
    ensures WrittenArtifactPaths(a + "." + b + ".npz") == Success((a + ".npz", a + ".json"))
    ensures a + "." + b + ".npz" != a + ".npz"
  {
    NpzIsSegment();
    var ab := a + "." + b;
    assert '/' !in ab;
    WrittenPathsStripTwice(ab, c, d);
    assert ab + "." + "npz" == ab + ".npz";
    WrittenPathsStripTwice(a, b, "npz");
    assert |ab + ".npz"| != |a + ".npz"|;
  }

  /** Stripping the suffix of a name without `/` whose last `.` is at `i`. */
  lemma StripsTo(p: string, i: nat, base: string)
    requires '/' !in p && 0 < i < |p| - 1 && p[i] == '.' && '.' !in p[i + 1..] && base == p[..i]
    ensures Name(p) == p && Suffix(p) == p[i..]
    ensures forall x :: WithSuffix(p, x) == Success(base + x)
  {
    assert p[0..] == p && p[..0] == [];
    LastIndexOfPrefix(p, '/', 0);
    LastIndexOfPrefix(p, '.', i + 1);
    var t := p[..i + 1];
    assert t[|t| - 1] == '.';
  }

  // ---------------------------------------------------------------------
  // The two artifacts and the store
  // ---------------------------------------------------------------------

  /** User metadata, such as the channel or the gain, keyed by name. */
  type Metadata = map<string, string>

  /** The `.json` record. */
  datatype Sidecar = Sidecar(
    preamble: Preamble,
    metadata: Metadata,
    numSamples: nat,
    timeRange: (real, real),
    voltageRange: (real, real))

  /** What a path of the store holds: the `.npz` arrays or a `.json` record. */
  datatype Artifact = Arrays(time: seq<real>, volts: seq<real>) | Record(sidecar: Sidecar)

  /** What `load_waveform_capture` returns. */
  datatype Capture = Capture(
    time: seq<real>,
    volts: seq<real>,
    preamble: Preamble,
    metadata: Metadata,
    numSamples: nat,
    voltageRange: (real, real),
    timeRange: (real, real))

  datatype StoreError =
    | BadPath(cause: PathError)
    | NotFound(npzPath: string, jsonPath: string)
    | Unreadable(path: string)

  /** `np.min`. */
  function SeqMin(s: seq<real>): (m: real)
    requires |s| > 0
    ensures m in s && forall i :: 0 <= i < |s| ==> m <= s[i]
  {
    if |s| == 1 then s[0]
    else
      var m := SeqMin(s[1..]);
      assert forall i :: 1 <= i < |s| ==> s[i] == s[1..][i - 1];
      if s[0] <= m then s[0] else m
  }

  /** `np.max`. */
  function SeqMax(s: seq<real>): (m: real)
    requires |s| > 0
    ensures m in s && forall i :: 0 <= i < |s| ==> s[i] <= m
  {
    if |s| == 1 then s[0]
    else
      var m := SeqMax(s[1..]);
      assert forall i :: 1 <= i < |s| ==> s[i] == s[1..][i - 1];
      if m <= s[0] then s[0] else m
  }

  /** The recorded range of an array: its least and greatest value, `(0, 0)` when it is empty. */
  function Range(s: seq<real>): (real, real) {
    if |s| > 0 then (SeqMin(s), SeqMax(s)) else (0.0, 0.0)
  }

  /** The record a save writes: a missing metadata dict is stored as empty. */
  function SidecarOf(time: seq<real>, volts: seq<real>, preamble: Preamble, metadata: Option<Metadata>): Sidecar {
    Sidecar(preamble, metadata.GetOr(map[]), |volts|, Range(time), Range(volts))
  }

  /** `save_waveform_capture`: the two paths it reports and the store it leaves. */
  function Saved(files: map<string, Artifact>, p: string, time: seq<real>, volts: seq<real>,
                 preamble: Preamble, metadata: Option<Metadata>)
    : (Result<(string, string), StoreError>, map<string, Artifact>)
  {
    match ArtifactPaths(p)
    case Failure(e) => (Failure(BadPath(e)), files)
    case Success((npz, json)) =>
      (Success((npz, json)),
       files[npz := Arrays(time, volts)][json := Record(SidecarOf(time, volts, preamble, metadata))])
  }

  /**
   * `load_waveform_capture`: both artifacts must be there; the arrays are
   * read first, then the record.
   */
  function Loaded(files: map<string, Artifact>, p: string): Result<Capture, StoreError> {
    match ArtifactPaths(p)
    case Failure(e) => Failure(BadPath(e))
    case Success((npz, json)) =>
      if npz !in files || json !in files then Failure(NotFound(npz, json))
      else if !files[npz].Arrays? then Failure(Unreadable(npz))
      else if !files[json].Record? then Failure(Unreadable(json))
      else
        var r := files[json].sidecar;
        Success(Capture(files[npz].time, files[npz].volts, r.preamble, r.metadata,
                        r.numSamples, r.voltageRange, r.timeRange))
  }

  /** The file system, as far as saving and loading captures sees it. */
  class FileStore {
    var files: map<string, Artifact>

    constructor (files: map<string, Artifact>)
      ensures this.files == files
    {
      this.files := files;
    }

    method Save(p: string, time: seq<real>, volts: seq<real>, preamble: Preamble, metadata: Option<Metadata>)
      returns (r: Result<(string, string), StoreError>)
      modifies this
      ensures (r, files) == Saved(old(files), p, time, volts, preamble, metadata)
    {
      var paths := ArtifactPaths(p);
      if paths.Failure? {
        return Failure(BadPath(paths.error));
      }
      var (npz, json) := paths.value;
      files := files[npz := Arrays(time, volts)];
      files := files[json := Record(SidecarOf(time, volts, preamble, metadata))];
      r := Success((npz, json));
    }

    method Load(p: string) returns (r: Result<Capture, StoreError>)
      ensures r == Loaded(files, p)
    {
      var paths := ArtifactPaths(p);
      if paths.Failure? {
        return Failure(BadPath(paths.error));
      }
      var (npz, json) := paths.value;
      if npz !in files || json !in files {
        return Failure(NotFound(npz, json));
      }
      var data := files[npz];
      if !data.Arrays? {
        return Failure(Unreadable(npz));
      }
      var record := files[json];
      if !record.Record? {
        return Failure(Unreadable(json));
      }
      var sc := record.sidecar;
      r := Success(Capture(data.time, data.volts, sc.preamble, sc.metadata, sc.numSamples, sc.voltageRange, sc.timeRange));
    }
  }

  /**
   * A save at a path with a name followed by a load from the same path gives
   * back the arrays, the preamble and the metadata as saved, the count of
   * volts, and the two ranges.
   */
  lemma SaveThenLoad(files: map<string, Artifact>, p: string, time: seq<real>, volts: seq<real>,
                     preamble: Preamble, metadata: Option<Metadata>)
    requires Name(p) != ""
    ensures Loaded(Saved(files, p, time, volts, preamble, metadata).1, p) ==
              Success(Capture(time, volts, preamble, metadata.GetOr(map[]), |volts|, Range(volts), Range(time)))
  {
    ArtifactPathsSpec(p);
  }

  /**
   * A save fails only for a path without a name, and then writes nothing;
   * otherwise it writes the two artifact paths and leaves every other path
   * as it was.
   */
  lemma SaveWritesTwoArtifacts(files: map<string, Artifact>, p: string, time: seq<real>, volts: seq<real>,
                               preamble: Preamble, metadata: Option<Metadata>)
    ensures var (r, files') := Saved(files, p, time, volts, preamble, metadata);
      && (r.Failure? <==> Name(p) == "")
      && (r.Failure? ==> files' == files)
      && (r.Success? ==>
            var (npz, json) := r.value;
            && npz != json
            && files'.Keys == files.Keys + {npz, json}
            && files'[npz] == Arrays(time, volts)
            && (forall k :: k in files && k != npz && k != json ==> files'[k] == files[k]))
  {
    ArtifactPathsSpec(p);
  }

  /**
   * A load from a path with a name fails as not found exactly when one of
   * the two artifacts is missing.
   */
  lemma LoadNeedsBoth(files: map<string, Artifact>, p: string)
    requires Name(p) != ""
    ensures var (npz, json) := ArtifactPaths(p).value;
      (Loaded(files, p) == Failure(NotFound(npz, json))) <==> (npz !in files || json !in files)
  {
    ArtifactPathsSpec(p);
  }

  /** Loading from either artifact path a save reported is loading from the saved path. */
  lemma LoadFromArtifact(files: map<string, Artifact>, p: string)
    requires Name(p) != ""
    ensures Loaded(files, ArtifactPaths(p).value.0) == Loaded(files, p)
    ensures Loaded(files, ArtifactPaths(p).value.1) == Loaded(files, p)
  {
    ArtifactPathsSpec(p);
    ArtifactPathsFromArtifact(p);
  }

  /**
   * The recorded range of a non-empty array holds its least and greatest
   * values; an empty array records `(0, 0)`.
   */
  lemma RangeSpec(s: seq<real>)
    ensures |s| == 0 ==> Range(s) == (0.0, 0.0)
    ensures |s| > 0 ==>
              && Range(s).0 in s && Range(s).1 in s
              && (forall i :: 0 <= i < |s| ==> Range(s).0 <= s[i] <= Range(s).1)
  {
  }

  /** If every value is above `lo`, so is the average: the sum exceeds `|s| * lo`. */
  lemma {:induction false} SumAbove(s: seq<real>, lo: real)
    requires forall i :: 0 <= i < |s| ==> lo < s[i]
    ensures |s| > 0 ==> SumReals(s) > |s| as real * lo
  {
    if |s| > 0 {
      var s' := s[..|s| - 1];
      SumAbove(s', lo);
      if |s'| == 0 {
        assert SumReals(s) == s[0];
      }
    }
  }

  /** If every value is below `hi`, the sum is under `|s| * hi`. */
  lemma {:induction false} SumBelow(s: seq<real>, hi: real)
    requires forall i :: 0 <= i < |s| ==> s[i] < hi
    ensures |s| > 0 ==> SumReals(s) < |s| as real * hi
  {
    if |s| > 0 {
      var s' := s[..|s| - 1];
      SumBelow(s', hi);
      if |s'| == 0 {
        assert SumReals(s) == s[0];
      }
    }
  }

  /**
   * Volts that add up to zero, as a capture's do, record a voltage range
   * that contains zero.
   */
  lemma CenteredRangeHoldsZero(volts: seq<real>)
    requires SumReals(volts) == 0.0
    ensures Range(volts).0 <= 0.0 <= Range(volts).1
  {
    if |volts| > 0 {
      var (lo, hi) := Range(volts);
      if lo > 0.0 {
        SumAbove(volts, 0.0);
      }
      if hi < 0.0 {
        SumBelow(volts, 0.0);
      }
    }
  }

  /**
   * An increasing time axis, as a capture's is when the sample interval is
   * positive, records its first and last time as its range.
   */
  lemma IncreasingRange(time: seq<real>)
    requires |time| > 0
    requires forall i, j :: 0 <= i < j < |time| ==> time[i] < time[j]
    ensures Range(time) == (time[0], time[|time| - 1])
  {
  }

  /**
   * The record saved for a calibrated capture: one sample per payload byte
   * and a voltage range around zero.
   */
  lemma CaptureSidecar(payload: seq<byte>, pre: Preamble, metadata: Option<Metadata>)
    ensures var wave := Calibrated(payload, pre);
      var record := SidecarOf(wave.time, wave.volts, wave.preamble, metadata);
      && record.numSamples == |payload|
      && record.voltageRange.0 <= 0.0 <= record.voltageRange.1
  {
    var volts := Voltages(payload, pre.yIncrement);
    VoltagesSumToZero(payload, pre.yIncrement);
    CenteredRangeHoldsZero(volts);
  }

  /**
   * For a positive sample interval, the time range saved for a capture runs
   * from `x_origin` to the time of the last sample.
   */
  lemma CaptureTimeRange(n: nat, xIncrement: real, xOrigin: real)
    requires n > 0 && xIncrement > 0.0
    ensures Range(TimeAxis(n, xIncrement, xOrigin)) == (xOrigin, (n - 1) as real * xIncrement + xOrigin)
  {
    var t := TimeAxis(n, xIncrement, xOrigin);
    TimeAxisSpec(n, xIncrement, xOrigin);
    IncreasingRange(t);
    assert t[n - 1] == (n - 1) as real * xIncrement + xOrigin;
  }
}
