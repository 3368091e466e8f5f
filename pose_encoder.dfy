/**
 * The custom start-position pose codec: x and y in metres (within 1.8288 m of
 * the field centre) and the heading in degrees (within 180 degrees) are each
 * quantised to 12-bit units, packed into bytes and written as the first six
 * characters of their base64 text.
 */
module PoseEncoder {
  import opened Wrappers
  import Base64

  type byte = bv8

  const PositionRange: real := 3.6576
  const PositionOffset: real := 1.8288
  const AngleRange: real := 360.0
  const AngleOffset: real := 180.0
  const BitsPerValue: int := 12
  const MaxValue: int := 4096
  const EncodedLength: int := 6

  const OutOfRangeError: string := "Pose values out of range"
  const LengthError: string := "Invalid pose encoding: must be 6 characters"
  /** What `atob` throws on text outside the base64 alphabet. */
  const InvalidCharacterError: string := "InvalidCharacterError"

  /** Three 12-bit values, held in 16-bit words as the JavaScript bit operators see them. */
  datatype Units = Units(x: bv16, y: bv16, theta: bv16)

  datatype Pose = Pose(x: real, y: real, theta: real)

  predicate ValidUnits(u: Units) {
    u.x < 4096 && u.y < 4096 && u.theta < 4096
  }

  function Abs(v: real): real { if v < 0.0 then -v else v }

  /** JavaScript `Math.round`: the nearest integer, halves rounded up. */
  function JsRound(v: real): (n: int)
    ensures v - 0.5 < n as real <= v + 0.5
  {
    (v + 0.5).Floor
  }

  /** Units before clamping: `Math.round((v + offset) * (MAX_VALUE / range))`. */
  function RawUnits(v: real, range: real, offset: real): int
    requires range != 0.0
  {
    JsRound((v + offset) * (MaxValue as real / range))
  }

  /** `Math.max(0, Math.min(MAX_VALUE - 1, u))`. */
  function Clamp(u: int): (c: int)
    ensures 0 <= c < MaxValue
    ensures 0 <= u < MaxValue ==> c == u
    ensures u < 0 ==> c == 0
    ensures u >= MaxValue ==> c == MaxValue - 1
  {
    if u < 0 then 0 else if u > MaxValue - 1 then MaxValue - 1 else u
  }

  function Quantise(v: real, range: real, offset: real): (u: int)
    requires range != 0.0
    ensures 0 <= u < MaxValue
  {
    Clamp(RawUnits(v, range, offset))
  }

  /** A unit back in real units: `u * range / MAX_VALUE - offset`. */
  function Dequantise(u: int, range: real, offset: real): real {
    u as real * range / MaxValue as real - offset
  }

  predicate InRange(x: real, y: real, theta: real) {
    Abs(x) <= PositionOffset && Abs(y) <= PositionOffset && Abs(theta) <= AngleOffset
  }

  function QuantisePose(x: real, y: real, theta: real): (u: Units)
    ensures ValidUnits(u)
  {
    Units(Quantise(x, PositionRange, PositionOffset) as bv16, Quantise(y, PositionRange, PositionOffset) as bv16,
          Quantise(theta, AngleRange, AngleOffset) as bv16)
  }

  // Bit packing

  /** The six bytes `encodePose` fills: x in bytes 0-1, y in bytes 1-2, heading in bytes 3-4. */
  function PoseBytes(u: Units): (b: seq<byte>)
    requires ValidUnits(u)
    ensures |b| == 6
  {
    var x, y, t := u.x, u.y, u.theta;
    [((x >> 4) & 0xFF) as byte, (((x & 0x0F) << 4) | ((y >> 8) & 0x0F)) as byte, (y & 0xFF) as byte,
     ((t >> 4) & 0xFF) as byte, ((t & 0x0F) << 4) as byte, 0]
  }

  /** A `Uint8Array` element; past the end it is `undefined`, which the bit operators read as 0. */
  function ByteAt(b: seq<byte>, i: nat): byte {
    if i < |b| then b[i] else 0
  }

  /** The masks and shifts of `decodePose`. */
  function UnpackUnits(b: seq<byte>): (u: Units)
    ensures ValidUnits(u)
  {
    var b0, b1, b2, b3, b4 := ByteAt(b, 0) as bv16, ByteAt(b, 1) as bv16, ByteAt(b, 2) as bv16,
                              ByteAt(b, 3) as bv16, ByteAt(b, 4) as bv16;
    Units(((b0 & 0xFF) << 4) | ((b1 >> 4) & 0x0F),
          ((b1 & 0x0F) << 8) | (b2 & 0xFF),
          ((b3 & 0xFF) << 4) | ((b4 >> 4) & 0x0F))
  }

  lemma PackBits(x: bv16, y: bv16, t: bv16)
    requires x < 4096 && y < 4096 && t < 4096
    ensures var b0, b1, b2, b3, b4 := ((x >> 4) & 0xFF) as bv8, (((x & 0x0F) << 4) | ((y >> 8) & 0x0F)) as bv8,
                                      (y & 0xFF) as bv8, ((t >> 4) & 0xFF) as bv8, ((t & 0x0F) << 4) as bv8;
      && (((b0 as bv16) & 0xFF) << 4) | (((b1 as bv16) >> 4) & 0x0F) == x
      && (((b1 as bv16) & 0x0F) << 8) | ((b2 as bv16) & 0xFF) == y
      && (((b3 as bv16) & 0xFF) << 4) | (((b4 as bv16) >> 4) & 0x0F) == t
      && (((b3 as bv16) & 0xFF) << 4) == t & 0xFF0
      && b4 & 0x0F == 0
  {
  }

  /** Unpacking the packed bytes gives the three units back; byte 4's low nibble and byte 5 are 0. */
  lemma PackUnpack(u: Units)
    requires ValidUnits(u)
    ensures UnpackUnits(PoseBytes(u)) == u
    ensures PoseBytes(u)[4] & 0x0F == 0 && PoseBytes(u)[5] == 0
  {
    PackBits(u.x, u.y, u.theta);
  }

  /** Unpacking only the first four bytes loses the heading's low nibble, and nothing else. */
  lemma PackUnpackFour(u: Units)
    requires ValidUnits(u)
    ensures UnpackUnits(PoseBytes(u)[..4]) == Units(u.x, u.y, u.theta & 0xFF0)
  {
    PackBits(u.x, u.y, u.theta);
  }

  /** `new Uint8Array(6)` filled byte by byte. */
  method PackPose(u: Units) returns (bytes: array<byte>)
    requires ValidUnits(u)
    ensures fresh(bytes) && bytes[..] == PoseBytes(u)
  {
    var x, y, t := u.x, u.y, u.theta;
    var b0, b1, b2 := ((x >> 4) & 0xFF) as byte, (((x & 0x0F) << 4) | ((y >> 8) & 0x0F)) as byte, (y & 0xFF) as byte;
    var b3, b4 := ((t >> 4) & 0xFF) as byte, ((t & 0x0F) << 4) as byte;
    bytes := new byte[6](_ => 0);
    bytes[0] := b0;
    bytes[1] := b1;
    bytes[2] := b2;
    bytes[3] := b3;
    bytes[4] := b4;
    SixBytes(bytes[..], [b0, b1, b2, b3, b4, 0]);
  }

  lemma SixBytes(a: seq<byte>, b: seq<byte>)
    requires |a| == 6 && |b| == 6
    requires a[0] == b[0] && a[1] == b[1] && a[2] == b[2] && a[3] == b[3] && a[4] == b[4] && a[5] == b[5]
    ensures a == b
  {
  }

  // Encoding and decoding

  /** What `encodePose` returns or throws. */
  function PoseToken(x: real, y: real, theta: real): Result<string, string> {
    if Abs(x) > PositionOffset || Abs(y) > PositionOffset || Abs(theta) > AngleOffset then
      Failure(OutOfRangeError)
    else
      Success(Base64.Btoa(PoseBytes(QuantisePose(x, y, theta)))[..EncodedLength])
  }

  /** `encodePose`. */
  method EncodePose(x: real, y: real, theta: real) returns (r: Result<string, string>)
    ensures r.Failure? <==> !InRange(x, y, theta)
    ensures r.Failure? ==> r.error == OutOfRangeError
    ensures r.Success? ==> IsValidPoseEncoding(r.value)
    ensures r.Success? ==> DecodePose(r.value).Success?
    ensures r == PoseToken(x, y, theta)
  {
    if Abs(x) > PositionOffset || Abs(y) > PositionOffset || Abs(theta) > AngleOffset {
      return Failure(OutOfRangeError);
    }
    var u := QuantisePose(x, y, theta);
    var bytes := PackPose(u);
    var text := Base64.Btoa(bytes[..]);
    r := Success(text[..EncodedLength]);
    PoseTokenDecodes(x, y, theta);
  }

  /** `decodePose`, as written: the text is padded with `==` before `atob`. */
  function DecodePose(s: string): (r: Result<Pose, string>)
    ensures r == Failure(LengthError) <==> |s| != EncodedLength
    ensures r.Success? ==> InRange(r.value.x, r.value.y, r.value.theta)
  {
    if |s| != EncodedLength then Failure(LengthError)
    else
      match Base64.Atob(s + "==")
      case None => Failure(InvalidCharacterError)
      case Some(bytes) =>
        var u := UnpackUnits(bytes);
        Success(DequantisePose(u))
  }

  /** `decodePose` with the pad that lets `atob` return byte 4: `AA` instead of `==`. */
  function DecodePoseFixed(s: string): (r: Result<Pose, string>)
    ensures r == Failure(LengthError) <==> |s| != EncodedLength
    ensures r.Success? ==> InRange(r.value.x, r.value.y, r.value.theta)
  {
    if |s| != EncodedLength then Failure(LengthError)
    else
      match Base64.Atob(s + "AA")
      case None => Failure(InvalidCharacterError)
      case Some(bytes) =>
        var u := UnpackUnits(bytes);
        Success(DequantisePose(u))
  }

  function DequantisePose(u: Units): (p: Pose)
    requires ValidUnits(u)
    ensures InRange(p.x, p.y, p.theta)
  {
    Pose(Dequantise(u.x as int, PositionRange, PositionOffset), Dequantise(u.y as int, PositionRange, PositionOffset),
         Dequantise(u.theta as int, AngleRange, AngleOffset))
  }

  /** `isValidPoseEncoding`: non-empty, six characters, all from the base64 alphabet. */
  predicate IsValidPoseEncoding(s: string)
    ensures IsValidPoseEncoding(s) ==> Base64.Atob(s + "==").Some? && Base64.Atob(s + "AA").Some?
  {
    if s != [] && |s| == EncodedLength && Base64.IsBase64String(s) then
      SixCharactersDecode(s);
      true
    else false
  }

  /** Six base64 characters, padded either way, are accepted by `atob`. */
  lemma SixCharactersDecode(s: string)
    requires |s| == EncodedLength && Base64.IsBase64String(s)
    ensures Base64.Atob(s + "==").Some? && Base64.Atob(s + "AA").Some?
  {
    var t := s[..4];
    assert Base64.IsBase64String(t) by {
      forall i | 0 <= i < 4 ensures Base64.IsBase64Char(t[i]) {
        assert t[i] == s[i];
      }
    }
    assert Base64.IsBase64Char(s[4]) && Base64.IsBase64Char(s[5]);
    assert s == t + [s[4], s[5]];
    Base64.AtobPaddedQuantum(t, s[4], s[5]);
    Base64.AtobZeroPaddedQuantum(t, s[4], s[5]);
  }

  /** The six characters `encodePose` keeps from the eight-character `btoa` text of six bytes. */
  lemma TokenText(b: seq<byte>)
    requires |b| == 6
    ensures Base64.Btoa(b)[..6] == Base64.EncodeTriple(b[0], b[1], b[2]) + Base64.EncodeTriple(b[3], b[4], b[5])[..2]
  {
    assert b[3..] == [b[3], b[4], b[5]];
    assert b[3..][3..] == [];
    var e := Base64.EncodeTriple(b[0], b[1], b[2]) + Base64.EncodeTriple(b[3], b[4], b[5]);
    assert Base64.EncodeUnpadded(b) == e;
    assert Base64.Btoa(b) == e;
  }

  /** The six-character token text of six bytes, and its two prefix characters of the second triple. */
  lemma TokenShape(b: seq<byte>)
    requires |b| == 6
    ensures var t, c4, c5 := Base64.EncodeTriple(b[0], b[1], b[2]), Base64.CharOf(b[3] >> 2),
                             Base64.CharOf(((b[3] & 0x03) << 4) | (b[4] >> 4));
      Base64.Btoa(b)[..6] == t + [c4, c5] && Base64.IsBase64String(t + [c4, c5])
  {
    TokenText(b);
    var e := Base64.EncodeTriple(b[3], b[4], b[5]);
    assert e[..2] == [Base64.CharOf(b[3] >> 2), Base64.CharOf(((b[3] & 0x03) << 4) | (b[4] >> 4))];
  }

  /** An in-range pose gives six characters of valid pose text. */
  lemma PoseTokenValid(x: real, y: real, theta: real)
    requires InRange(x, y, theta)
    ensures PoseToken(x, y, theta).Success? && IsValidPoseEncoding(PoseToken(x, y, theta).value)
  {
    TokenShape(PoseBytes(QuantisePose(x, y, theta)));
  }

  lemma SplitSix<T>(b: seq<T>)
    requires |b| == 6
    ensures b[..4] == [b[0], b[1], b[2]] + [b[3]]
    ensures b == [b[0], b[1], b[2]] + [b[3], b[4], b[5]]
  {
  }

  /** With `==` appended, `atob` of the token returns only the first four bytes. */
  lemma TokenAtobPadded(b: seq<byte>)
    requires |b| == 6
    ensures Base64.Atob(Base64.Btoa(b)[..6] + "==") == Some(b[..4])
  {
    TokenShape(b);
    var t := Base64.EncodeTriple(b[0], b[1], b[2]);
    var c4, c5 := Base64.CharOf(b[3] >> 2), Base64.CharOf(((b[3] & 0x03) << 4) | (b[4] >> 4));
    Base64.TripleRoundTrip(b[0], b[1], b[2]);
    Base64.AtobPaddedQuantum(t, c4, c5);
    Base64.DuoOfTriplePrefix(b[3], b[4]);
    SplitSix(b);
  }

  /** With `AA` appended, `atob` of the token returns all six bytes when byte 4's low nibble and byte 5 are 0. */
  lemma TokenAtobZeroPadded(b: seq<byte>)
    requires |b| == 6 && b[4] & 0x0F == 0 && b[5] == 0
    ensures Base64.Atob(Base64.Btoa(b)[..6] + "AA") == Some(b)
  {
    TokenShape(b);
    var t := Base64.EncodeTriple(b[0], b[1], b[2]);
    var c4, c5 := Base64.CharOf(b[3] >> 2), Base64.CharOf(((b[3] & 0x03) << 4) | (b[4] >> 4));
    Base64.AtobZeroPaddedQuantum(t, c4, c5);
    ZeroPaddedQuanta(b);
  }

  /** The two quanta of the `AA`-padded token decode to the six bytes. */
  lemma ZeroPaddedQuanta(b: seq<byte>)
    requires |b| == 6 && b[4] & 0x0F == 0 && b[5] == 0
    ensures var t := Base64.EncodeTriple(b[0], b[1], b[2]);
      Base64.DecodeQuad(t[0], t[1], t[2], t[3])
        + Base64.DecodeQuad(Base64.CharOf(b[3] >> 2), Base64.CharOf(((b[3] & 0x03) << 4) | (b[4] >> 4)), 'A', 'A')
      == b
  {
    Base64.TripleRoundTrip(b[0], b[1], b[2]);
    Base64.QuadOfTriplePrefix(b[3], b[4]);
    HighNibble(b[4]);
    SplitSix(b);
  }

  lemma HighNibble(v: byte)
    requires v & 0x0F == 0
    ensures v & 0xF0 == v
  {
  }

  /** Every token `encodePose` returns is accepted by the validator and by both decoders. */
  lemma PoseTokenDecodes(x: real, y: real, theta: real)
    requires InRange(x, y, theta)
    ensures PoseToken(x, y, theta).Success?
    ensures var s, u := PoseToken(x, y, theta).value, QuantisePose(x, y, theta);
      && IsValidPoseEncoding(s)
      && DecodePose(s) == Success(DequantisePose(u.(theta := u.theta & 0xFF0)))
      && DecodePoseFixed(s) == Success(DequantisePose(u))
  {
    var u := QuantisePose(x, y, theta);
    var b := PoseBytes(u);
    TokenShape(b);
    TokenAtobPadded(b);
    PackUnpackFour(u);
    PackUnpack(u);
    TokenAtobZeroPadded(b);
  }

  /** `decodePose` rejects every text whose length is not 6. */
  lemma DecodeRejectsLength(s: string)
    requires |s| != EncodedLength
    ensures DecodePose(s) == Failure(LengthError) && DecodePoseFixed(s) == Failure(LengthError)
  {
  }

  /** The validator accepts exactly the texts that are six alphabet characters, and `decodePose` accepts them all. */
  lemma ValidEncodingDecodes(s: string)
    requires IsValidPoseEncoding(s)
    ensures DecodePose(s).Success? && DecodePoseFixed(s).Success?
  {
  }

  /** The pose (0, 0, 1 degree) quantises to the field centre and heading unit 2059. */
  lemma OneDegreeUnits()
    ensures QuantisePose(0.0, 0.0, 1.0) == Units(2048, 2048, 2059)
  {
    assert RawUnits(0.0, PositionRange, PositionOffset) == 2048;
    assert RawUnits(1.0, AngleRange, AngleOffset) == 2059;
  }

  /** Found while proving the round trip: a heading of 1 degree decodes as 0 degrees, not its 12-bit value. */
  lemma HeadingNibbleLost()
    ensures PoseToken(0.0, 0.0, 1.0).Success?
    ensures DecodePose(PoseToken(0.0, 0.0, 1.0).value) == Success(Pose(0.0, 0.0, 0.0))
    ensures DecodePoseFixed(PoseToken(0.0, 0.0, 1.0).value) == Success(Pose(0.0, 0.0, 2059.0 * 360.0 / 4096.0 - 180.0))
  {
    OneDegreeUnits();
    PoseTokenDecodes(0.0, 0.0, 1.0);
    var u: Units := Units(2048, 2048, 2059);
    assert u.(theta := u.theta & 0xFF0) == Units(2048, 2048, 2048);
    assert DequantisePose(Units(2048, 2048, 2048)) == Pose(0.0, 0.0, 0.0);
    assert DequantisePose(u) == Pose(0.0, 0.0, 2059.0 * 360.0 / 4096.0 - 180.0);
  }

  // Quantisation

  /** In range, the raw units lie in 0..4096, so clamping only ever turns 4096 into 4095. */
  lemma RawUnitsInRange(v: real, range: real, offset: real)
    requires range > 0.0 && offset * 2.0 == range && Abs(v) <= offset
    ensures 0 <= RawUnits(v, range, offset) <= MaxValue
  {
    var w := (v + offset) * (MaxValue as real / range);
    assert 0.0 <= v + offset <= range;
    assert (v + offset) * (MaxValue as real / range) <= range * (MaxValue as real / range);
    assert range * (MaxValue as real / range) == MaxValue as real;
  }

  /** x = +1.8288 m rounds to 4096 units and is clamped to 4095. */
  lemma TopOfRangeClamped()
    ensures RawUnits(PositionOffset, PositionRange, PositionOffset) == MaxValue
    ensures Quantise(PositionOffset, PositionRange, PositionOffset) == MaxValue - 1
  {
  }

  /** An unclamped unit dequantises to within half a step (range / 8192) of the value. */
  lemma QuantisationError(v: real, range: real, offset: real)
    requires range > 0.0
    requires 0 <= RawUnits(v, range, offset) < MaxValue
    ensures Abs(Dequantise(Quantise(v, range, offset), range, offset) - v) <= range / 8192.0
  {
    var w := (v + offset) * (MaxValue as real / range);
    var u := RawUnits(v, range, offset);
    assert Quantise(v, range, offset) == u;
    var d := u as real - w;
    assert -0.5 <= d <= 0.5;
    assert w * range == (v + offset) * MaxValue as real;
    assert Dequantise(u, range, offset) - v == (u as real * range - w * range) / MaxValue as real;
    assert u as real * range - w * range == d * range;
    HalfBound(d, range);
  }

  lemma HalfBound(d: real, range: real)
    requires range > 0.0 && -0.5 <= d <= 0.5
    ensures Abs(d * range / 4096.0) <= range / 8192.0
  {
    if d >= 0.0 {
      assert d * range <= 0.5 * range;
    } else {
      assert -d * range <= 0.5 * range;
    }
  }

  // Snap to resolution

  /**
   * `roundToResolution`: quantise, clamp and dequantise (the final rounding to
   * six decimals is a floating-point cleanup and not part of this model).
   */
  function RoundToResolution(value: real, range: real, offset: real): (r: real)
    requires range > 0.0
    ensures exists k :: 0 <= k < MaxValue && r == Dequantise(k, range, offset)
  {
    var k := Quantise(value, range, offset);
    assert 0 <= k < MaxValue;
    Dequantise(k, range, offset)
  }

  /** The result is one of the 4096 grid points `k * range / 4096 - offset`. */
  lemma RoundToResolutionOnGrid(value: real, range: real, offset: real)
    requires range > 0.0
    ensures exists k :: 0 <= k < MaxValue && RoundToResolution(value, range, offset) == Dequantise(k, range, offset)
  {
    var k := Quantise(value, range, offset);
    assert 0 <= k < MaxValue && RoundToResolution(value, range, offset) == Dequantise(k, range, offset);
  }

  /** A grid point quantises to its own index. */
  lemma QuantiseGridPoint(k: int, range: real, offset: real)
    requires range > 0.0 && 0 <= k < MaxValue
    ensures Quantise(Dequantise(k, range, offset), range, offset) == k
  {
    var g := Dequantise(k, range, offset);
    assert g + offset == k as real * range / MaxValue as real;
    assert (k as real * range / MaxValue as real) * (MaxValue as real / range) == k as real;
    assert JsRound(k as real) == k;
  }

  /** Snapping twice is snapping once. */
  lemma RoundToResolutionIdempotent(value: real, range: real, offset: real)
    requires range > 0.0
    ensures RoundToResolution(RoundToResolution(value, range, offset), range, offset) == RoundToResolution(value, range, offset)
  {
    QuantiseGridPoint(Quantise(value, range, offset), range, offset);
  }

  // Resolution table and unit conversions

  datatype Resolution = Resolution(xMeters: real, yMeters: real, xInches: real, yInches: real,
                                   thetaDegrees: real, bitsPerValue: int, totalBits: int, encodedLength: int)

  /** `getPoseResolution`. */
  function GetPoseResolution(): (r: Resolution)
    ensures r.xMeters == r.yMeters == Dequantise(1, PositionRange, PositionOffset) - Dequantise(0, PositionRange, PositionOffset)
    ensures r.thetaDegrees == Dequantise(1, AngleRange, AngleOffset) - Dequantise(0, AngleRange, AngleOffset) == 0.087890625
    ensures r.xInches == r.yInches == MetersToInches(r.xMeters)
    ensures r.totalBits == 3 * BitsPerValue <= 6 * r.encodedLength
  {
    Resolution(PositionRange / MaxValue as real, PositionRange / MaxValue as real,
               (PositionRange / MaxValue as real) * 39.3701, (PositionRange / MaxValue as real) * 39.3701,
               AngleRange / MaxValue as real, BitsPerValue, BitsPerValue * 3, EncodedLength)
  }

  /** `inchesToMeters`. */
  function InchesToMeters(inches: real): (m: real)
    ensures inches == 72.0 ==> m == PositionOffset
    ensures inches == 144.0 ==> m == PositionRange
  {
    inches * 0.0254
  }

  /** `metersToInches`. */
  function MetersToInches(meters: real): (i: real)
    ensures meters == PositionOffset ==> 71.99 < i < 72.01
  {
    meters * 39.3701
  }

  /** 39.3701 is 1/0.0254 to five decimals only: a round trip is off by less than one part per million. */
  lemma LengthConversionsNearInverse(v: real)
    ensures Abs(MetersToInches(InchesToMeters(v)) - v) <= Abs(v) / 1000000.0
    ensures Abs(InchesToMeters(MetersToInches(v)) - v) <= Abs(v) / 1000000.0
  {
    assert MetersToInches(InchesToMeters(v)) == v * (0.0254 * 39.3701);
    assert InchesToMeters(MetersToInches(v)) == v * (0.0254 * 39.3701);
    assert 0.0254 * 39.3701 == 1.00000054;
  }

  /** `degreesToRadians`, with `Math.PI` as a parameter. */
  function DegreesToRadians(degrees: real, pi: real): (r: real)
    requires pi > 0.0
    ensures (r > 0.0 <==> degrees > 0.0) && (r == 0.0 <==> degrees == 0.0)
    ensures degrees == 180.0 ==> r == pi
  {
    degrees * (pi / 180.0)
  }

  /** `radiansToDegrees`, with `Math.PI` as a parameter. */
  function RadiansToDegrees(radians: real, pi: real): (r: real)
    requires pi > 0.0
    ensures (r > 0.0 <==> radians > 0.0) && (r == 0.0 <==> radians == 0.0)
    ensures radians == pi ==> r == 180.0
  {
    radians * (180.0 / pi)
  }

  /** Over the reals the two angle conversions are exact inverses. */
  lemma AngleConversionsInverse(degrees: real, pi: real)
    requires pi > 0.0
    ensures RadiansToDegrees(DegreesToRadians(degrees, pi), pi) == degrees
    ensures DegreesToRadians(180.0, pi) == pi
  {
    assert (pi / 180.0) * (180.0 / pi) == 1.0;
  }
}
