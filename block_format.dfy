/**
 * The header of a definite length arbitrary block (IEEE 488.2, section
 * 8.7.9): `#`, one digit `d`, then `d` decimal digits giving the number of
 * payload bytes that follow. The capture reads the header as one fixed
 * 11-byte chunk, enough for the nine length digits the oscilloscope sends.
 */
module BlockFormat {
  import opened Wrappers
  import opened Numerals
  import opened Transport

  /** The number of bytes the capture reads as the header. */
  const HeaderSize: nat := 11

  /** The block marker `#`. */
  const Marker: byte := 35

  datatype HeaderError = MissingMarker(header: seq<byte>) | BadLength(header: seq<byte>)

  /** `bytes.decode()` for ASCII bytes. */
  function AsText(bs: seq<byte>): string {
    seq(|bs|, i requires 0 <= i < |bs| => bs[i] as char)
  }

  /** The bytes of an ASCII string. */
  function AsBytes(s: string): seq<byte>
    requires forall i :: 0 <= i < |s| ==> s[i] as int < 256
  {
    seq(|s|, i requires 0 <= i < |s| => s[i] as int as byte)
  }

  function Min(a: int, b: int): int {
    if a < b then a else b
  }

  /**
   * The payload length a header declares. `header[2:2+d]` is sliced as
   * Python slices, so it is cut short by a header that ends first.
   */
  function ParseBlockHeader(header: seq<byte>): Result<nat, HeaderError> {
    if |header| < 1 || header[0] != Marker then Failure(MissingMarker(header))
    else if |header| < 2 || !IsDigit(header[1] as char) then Failure(BadLength(header))
    else
      var digits := DigitValue(header[1] as char);
      match ParseNat(AsText(header[2..Min(2 + digits, |header|)]))
      case None => Failure(BadLength(header))
      case Some(n) => Success(n)
  }

  /** The header for a payload of `length` bytes, with `digits` length digits. */
  function BlockHeader(digits: nat, length: nat): (h: seq<byte>)
    requires 1 <= digits <= 9
    ensures |h| == 2 + digits
  {
    [Marker, 48 + digits] + AsBytes(Padded(length, digits))
  }

  /** The header the oscilloscope sends: nine length digits, eleven bytes in all. */
  function OscilloscopeHeader(length: nat): (h: seq<byte>)
    ensures |h| == HeaderSize
  {
    BlockHeader(9, length)
  }

  /**
   * Every length that fits in the declared digits is read back from its
   * header, whatever bytes follow it.
   */
  lemma HeaderRoundTrip(digits: nat, length: nat, rest: seq<byte>)
    requires 1 <= digits <= 9 && length < Pow10(digits)
    ensures ParseBlockHeader(BlockHeader(digits, length) + rest) == Success(length)
  {
    var h := BlockHeader(digits, length) + rest;
    var p := Padded(length, digits);
    assert h[1] as char == DigitChar(digits);
    assert h[2..2 + digits] == AsBytes(p);
    assert AsText(AsBytes(p)) == p;
    PaddedValue(length, digits);
  }

  /**
   * A header is accepted exactly when it starts with `#` and a digit `d` of
   * at least 1, and the next `d` bytes (as many as there are) are all
   * digits; the length is their decimal value.
   */
  lemma ParseBlockHeaderSpec(header: seq<byte>)
    ensures ParseBlockHeader(header).Success? <==>
              |header| >= 3 && header[0] == Marker && IsDigit(header[1] as char)
              && DigitValue(header[1] as char) >= 1
              && AllDigits(AsText(header[2..Min(2 + DigitValue(header[1] as char), |header|)]))
    ensures ParseBlockHeader(header).Success? ==>
              ParseBlockHeader(header).value
              == DigitsValue(AsText(header[2..Min(2 + DigitValue(header[1] as char), |header|)]))
    ensures (ParseBlockHeader(header) == Failure(MissingMarker(header))) <==> (|header| == 0 || header[0] != Marker)
  {
  }

  /** A digit count of zero leaves an empty length field, which does not parse. */
  lemma ZeroDigitCountRejected(header: seq<byte>)
    requires |header| >= 2 && header[0] == Marker && header[1] == 48
    ensures ParseBlockHeader(header) == Failure(BadLength(header))
  {
    assert header[2..Min(2, |header|)] == [];
  }

  /** From an 11-byte header the declared length is below 10^9. */
  lemma HeaderLengthBound(header: seq<byte>)
    requires |header| == HeaderSize && ParseBlockHeader(header).Success?
    ensures ParseBlockHeader(header).value < Pow10(9)
  {
    var d := DigitValue(header[1] as char);
    var field := AsText(header[2..Min(2 + d, |header|)]);
    assert |field| <= 9;
    PowMonotone(|field|, 9);
  }

  lemma {:induction false} PowMonotone(a: nat, b: nat)
    requires a <= b
    ensures Pow10(a) <= Pow10(b)
  {
    if a < b {
      PowMonotone(a, b - 1);
    }
  }
}
