/**
 * The waveform preamble (`:WAV:PRE?` reply): comma-separated fields read at
 * fixed positions. Field 2 is the point count, 4 and 5 the time step and
 * origin, 7 and 8 the voltage step and origin, 9 the reference code.
 */
module Preambles {
  import opened Wrappers
  import opened Text
  import opened Numerals

  datatype Preamble = Preamble(
    points: int,
    xIncrement: real,
    xOrigin: real,
    yIncrement: real,
    yOrigin: real,
    yReference: int)

  /** A field that is not there (`IndexError`) or does not read as a number (`ValueError`). */
  datatype FieldError = FieldMissing(index: nat) | FieldNotNumeric(index: nat)

  /**
   * Each field without the white space around it: Python's `int()` and
   * `float()` ignore it, such as the line terminator after the last field.
   */
  function Stripped(fields: seq<string>): (r: seq<string>)
    ensures |r| == |fields| && forall k :: 0 <= k < |r| ==> r[k] == Strip(fields[k])
  {
    seq(|fields|, k requires 0 <= k < |fields| => Strip(fields[k]))
  }

  /** `int(fields[index])`, for fields already stripped. */
  function IntField(fields: seq<string>, index: nat): Result<int, FieldError> {
    if index >= |fields| then Failure(FieldMissing(index))
    else match ParseInt(fields[index])
      case None => Failure(FieldNotNumeric(index))
      case Some(v) => Success(v)
  }

  /** `float(fields[index])`, for fields already stripped. */
  function RealField(fields: seq<string>, index: nat): Result<real, FieldError> {
    if index >= |fields| then Failure(FieldMissing(index))
    else match ParseReal(fields[index])
      case None => Failure(FieldNotNumeric(index))
      case Some(v) => Success(v)
  }

  /** The fields in the order the capture reads them, stopping at the first that fails. */
  function ParsePreamble(reply: string): Result<Preamble, FieldError> {
    ParseFields(Stripped(Split(reply, ',')))
  }

  function ParseFields(fields: seq<string>): Result<Preamble, FieldError> {
    var points :- IntField(fields, 2);
    var xIncrement :- RealField(fields, 4);
    var xOrigin :- RealField(fields, 5);
    var yIncrement :- RealField(fields, 7);
    var yOrigin :- RealField(fields, 8);
    var yReference :- IntField(fields, 9);
    Success(Preamble(points, xIncrement, xOrigin, yIncrement, yOrigin, yReference))
  }

  /** Every field the preamble needs is present and numeric. */
  predicate WellFormed(fields: seq<string>) {
    |fields| >= 10
    && ParseInt(fields[2]).Some? && ParseReal(fields[4]).Some? && ParseReal(fields[5]).Some?
    && ParseReal(fields[7]).Some? && ParseReal(fields[8]).Some? && ParseInt(fields[9]).Some?
  }

  /**
   * A reply parses exactly when its stripped fields are well formed, and then
   * every value comes from its own field.
   */
  lemma ParsePreambleSpec(reply: string)
    ensures var f := Stripped(Split(reply, ','));
      && (ParsePreamble(reply).Success? <==> WellFormed(f))
      && (ParsePreamble(reply).Success? ==>
            ParsePreamble(reply).value == Preamble(
              ParseInt(f[2]).value, ParseReal(f[4]).value, ParseReal(f[5]).value,
              ParseReal(f[7]).value, ParseReal(f[8]).value, ParseInt(f[9]).value))
  {
    ParseFieldsSpec(Stripped(Split(reply, ',')));
  }

  lemma ParseFieldsSpec(f: seq<string>)
    ensures ParseFields(f).Success? <==> WellFormed(f)
    ensures ParseFields(f).Success? ==>
              ParseFields(f).value == Preamble(
                ParseInt(f[2]).value, ParseReal(f[4]).value, ParseReal(f[5]).value,
                ParseReal(f[7]).value, ParseReal(f[8]).value, ParseInt(f[9]).value)
  {
  }

  /**
   * White space at the end of a reply, such as its line terminator, does not
   * change what it parses to: it only ends up around the last field.
   */
  lemma TrailingSpaceIgnored(reply: string, c: char)
    requires IsSpace(c)
    ensures ParsePreamble(reply + [c]) == ParsePreamble(reply)
  {
    var p := Split(reply, ',');
    var n := |p|;
    SplitAppend(reply, ',', [c]);
    var q := Split(reply + [c], ',');
    assert q == p[..n - 1] + [p[n - 1] + [c]];
    StripTrailingSpace(p[n - 1], c);
    assert Stripped(q) == Stripped(p) by {
      forall k | 0 <= k < n
        ensures Stripped(q)[k] == Stripped(p)[k]
      {
        if k < n - 1 {
          assert q[k] == p[k];
        }
      }
    }
  }

  /** A reply with fewer than ten fields is rejected, whatever they hold. */
  lemma ShortReplyRejected(reply: string)
    requires Count(reply, ',') < 9
    ensures ParsePreamble(reply).Failure?
  {
    ParsePreambleSpec(reply);
  }

  /**
   * Reading a preamble back from the fields the instrument sends: the values
   * are those of fields 2, 4, 5, 7, 8 and 9, read without the white space
   * around them, and the other fields are ignored.
   */
  lemma {:induction false} PreambleFromFields(fields: seq<string>)
    requires WellFormed(Stripped(fields))
    requires forall k :: 0 <= k < |fields| ==> ',' !in fields[k]
    ensures var f := Stripped(fields);
      ParsePreamble(Join(fields, ',')) == Success(Preamble(
        ParseInt(f[2]).value, ParseReal(f[4]).value, ParseReal(f[5]).value,
        ParseReal(f[7]).value, ParseReal(f[8]).value, ParseInt(f[9]).value))
  {
    SplitJoin(fields, ',');
    ParsePreambleSpec(Join(fields, ','));
  }
}
