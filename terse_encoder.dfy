/**
 * The web app's terse match encoder: a match becomes
 * `{matchNumber}{R|B}S{id | 0 pose}{W<sec> | A<id>}*`, the text a QR code of
 * version 4 (100 characters) carries to the robot.
 */
module TerseEncoder {
  import opened Wrappers
  import opened Strings
  import opened AppTypes
  import PoseEncoder
  import Base64

  /** The most characters a version 4 QR code holds in this format. */
  const QrV4Capacity: int := 100

  /** `match.alliance[0].toUpperCase()` on an empty alliance. */
  const AllianceTypeError: string := "TypeError: match.alliance[0] is undefined"

  /** `ACTION_TO_ID`. */
  const ActionToId: map<string, int> := map[
    "near_launch" := 1, "far_launch" := 2, "spike_1" := 3, "spike_2" := 4, "spike_3" := 5,
    "near_park" := 6, "far_park" := 7, "dump" := 8, "corner" := 9, "drive_to" := 10]

  /** `ACTION_TO_ID[actionType] || 99` over the object's own keys: a catalogue id 1..10, or 99 for any other type. */
  function ActionId(actionType: string): (id: int)
    ensures id == 99 <==> actionType !in ActionToId
    ensures 1 <= id <= 10 || id == 99
  {
    if actionType in ActionToId then ActionToId[actionType] else 99
  }

  /** Distinct catalogue types have distinct ids. */
  lemma ActionIdInjective(a: string, b: string)
    requires a in ActionToId && b in ActionToId && a != b
    ensures ActionId(a) != ActionId(b)
  {
  }

  // Start position

  /**
   * `getPositionId`: 1 for a missing or empty type or one not starting with
   * `S`; otherwise `parseInt` of the rest, with NaN read as 1.
   */
  function GetPositionId(positionType: Option<string>): (id: int)
    ensures id != 1 ==> positionType.Some? && |positionType.value| > 1 && positionType.value[0] == 'S'
  {
    match positionType
    case None => 1
    case Some(t) =>
      if t == [] || t[0] != 'S' then 1
      else
        match ParseIntJs(t[1..])
        case None => 1
        case Some(n) => n
  }

  /** The keys the app creates, `S{n}`, give back `n`. */
  lemma GetPositionIdOfKey(n: nat)
    ensures GetPositionId(Some("S" + NatToString(n))) == n
  {
    var t := "S" + NatToString(n);
    assert t[1..] == NatToString(n);
    ParseIntJsOfDigits(NatToString(n));
  }

  /** A missing type and the legacy keys `front` and `back` all encode as start position 1. */
  lemma GetPositionIdDefaults()
    ensures GetPositionId(None) == 1 && GetPositionId(Some("")) == 1
    ensures GetPositionId(Some("front")) == 1 && GetPositionId(Some("back")) == 1
  {
  }

  function PositionIdOf(sp: Option<StartPosition>): int {
    GetPositionId(if sp.Some? then sp.value.positionType else None)
  }

  /** `encodeStartPosition` as written: a pose `encodePose` rejects falls back to the text `AAAAAA`. */
  function StartTokenAsWritten(sp: Option<StartPosition>): (t: string)
    ensures |t| >= 2 && t[0] == 'S'
    ensures PositionIdOf(sp) == 0 <==> t[1] == '0'
    ensures PositionIdOf(sp) == 0 ==> |t| == 8
  {
    var posId := PositionIdOf(sp);
    if posId == 0 then
      ValidFallbacks();
      PoseTextOrValid(sp.value, FallbackPoseText);
      "S0" + PoseTextOr(sp.value, FallbackPoseText)
    else
      var n := IntToString(posId);
      assert n[0] != '0';
      "S" + n
  }

  /** The pose text of a custom start position, or `fallback` when `encodePose` throws. */
  function PoseTextOr(p: StartPosition, fallback: string): string {
    match PoseEncoder.PoseToken(p.x.GetOr(0.0), p.y.GetOr(0.0), p.theta.GetOr(0.0))
    case Success(pose) => pose
    case Failure(_) => fallback
  }

  /** Valid pose text comes out whenever the fallback is valid pose text. */
  lemma PoseTextOrValid(p: StartPosition, fallback: string)
    requires PoseEncoder.IsValidPoseEncoding(fallback)
    ensures PoseEncoder.IsValidPoseEncoding(PoseTextOr(p, fallback))
  {
    var x, y, th := p.x.GetOr(0.0), p.y.GetOr(0.0), p.theta.GetOr(0.0);
    if PoseEncoder.InRange(x, y, th) {
      PoseEncoder.PoseTokenValid(x, y, th);
    }
  }

  /** The pose text `encodeStartPosition` writes when `encodePose` throws. */
  const FallbackPoseText: string := "AAAAAA"

  /** The pose text of the origin (0 m, 0 m, 0 degrees), which the fallback is documented to be. */
  const OriginPoseText: string := "gAgAgA"

  /**
   * `encodeStartPosition` with the fallback its comment describes: a pose
   * `encodePose` rejects is replaced by the origin.
   */
  function StartToken(sp: Option<StartPosition>): string {
    var posId := PositionIdOf(sp);
    if posId == 0 then "S0" + PoseTextOr(sp.value, OriginPoseText)
    else "S" + IntToString(posId)
  }

  /** A non-zero position id is written as `S` and its decimal digits. */
  lemma StartTokenPreset(sp: Option<StartPosition>)
    requires PositionIdOf(sp) != 0
    ensures StartToken(sp) == StartTokenAsWritten(sp) == "S" + IntToString(PositionIdOf(sp))
  {
  }

  /** Position id 0 is `S0` and exactly six characters of valid pose text, whatever the pose. */
  lemma StartTokenCustom(sp: Option<StartPosition>)
    requires PositionIdOf(sp) == 0
    ensures var t := StartToken(sp); |t| == 8 && t[..2] == "S0" && PoseEncoder.IsValidPoseEncoding(t[2..])
    ensures var t := StartTokenAsWritten(sp); |t| == 8 && t[..2] == "S0" && PoseEncoder.IsValidPoseEncoding(t[2..])
  {
    ValidFallbacks();
    PoseTextOrValid(sp.value, OriginPoseText);
    PoseTextOrValid(sp.value, FallbackPoseText);
    CustomText(PoseTextOr(sp.value, OriginPoseText));
    CustomText(PoseTextOr(sp.value, FallbackPoseText));
  }

  lemma ValidFallbacks()
    ensures PoseEncoder.IsValidPoseEncoding(OriginPoseText) && PoseEncoder.IsValidPoseEncoding(FallbackPoseText)
  {
    assert forall i | 0 <= i < 6 :: Base64.IsBase64Char(OriginPoseText[i]);
    assert forall i | 0 <= i < 6 :: Base64.IsBase64Char(FallbackPoseText[i]);
  }

  lemma CustomText(pose: string)
    requires PoseEncoder.IsValidPoseEncoding(pose)
    ensures var t := "S0" + pose; |t| == 8 && t[..2] == "S0" && PoseEncoder.IsValidPoseEncoding(t[2..])
  {
    assert ("S0" + pose)[2..] == pose;
  }

  /** The fallback as written decodes to a corner of the field facing -180 degrees, not to the origin. */
  lemma FallbackIsNotOrigin()
    ensures PoseEncoder.DecodePoseFixed(FallbackPoseText) == Success(PoseEncoder.Pose(-1.8288, -1.8288, -180.0))
    ensures PoseEncoder.DecodePose(FallbackPoseText) == Success(PoseEncoder.Pose(-1.8288, -1.8288, -180.0))
  {
    FallbackUnits();
    ZeroBytesUnpack();
    CornerPose();
  }

  lemma ZeroBytesUnpack()
    ensures PoseEncoder.UnpackUnits([0, 0, 0, 0]) == PoseEncoder.Units(0, 0, 0)
    ensures PoseEncoder.UnpackUnits([0, 0, 0, 0, 0, 0]) == PoseEncoder.Units(0, 0, 0)
  {
  }

  lemma CornerPose()
    ensures PoseEncoder.DequantisePose(PoseEncoder.Units(0, 0, 0)) == PoseEncoder.Pose(-1.8288, -1.8288, -180.0)
  {
  }

  lemma FallbackUnits()
    ensures Base64.Atob(FallbackPoseText + "==") == Some([0, 0, 0, 0])
    ensures Base64.Atob(FallbackPoseText + "AA") == Some([0, 0, 0, 0, 0, 0])
  {
    FallbackPadded();
    FallbackZeroPadded();
  }

  lemma FallbackQuad()
    ensures FallbackPoseText == "AAAA" + ['A', 'A'] && Base64.IsBase64String("AAAA")
    ensures "AAAA"[0] == "AAAA"[1] == "AAAA"[2] == "AAAA"[3] == 'A'
  {
    assert forall i | 0 <= i < 4 :: Base64.IsBase64Char("AAAA"[i]);
  }

  lemma FallbackPadded()
    ensures Base64.Atob(FallbackPoseText + "==") == Some([0, 0, 0, 0])
  {
    FallbackQuad();
    Base64.AtobPaddedQuantum("AAAA", 'A', 'A');
    ZeroQuanta();
    var z: seq<Base64.byte> := [0, 0, 0];
    assert z + [0] == [0, 0, 0, 0];
  }

  lemma FallbackZeroPadded()
    ensures Base64.Atob(FallbackPoseText + "AA") == Some([0, 0, 0, 0, 0, 0])
  {
    FallbackQuad();
    Base64.AtobZeroPaddedQuantum("AAAA", 'A', 'A');
    ZeroQuanta();
    var z: seq<Base64.byte> := [0, 0, 0];
    assert z + z == [0, 0, 0, 0, 0, 0];
  }

  lemma ZeroQuanta()
    ensures Base64.DecodeQuad('A', 'A', 'A', 'A') == [0, 0, 0]
    ensures Base64.DecodeDuo('A', 'A') == [0]
  {
    assert Base64.ValueOf('A') == 0;
  }

  /** The corrected fallback is the encoding of the origin, and it decodes to the origin. */
  lemma OriginFallback()
    ensures PoseEncoder.PoseToken(0.0, 0.0, 0.0) == Success(OriginPoseText)
    ensures PoseEncoder.DecodePoseFixed(OriginPoseText) == Success(PoseEncoder.Pose(0.0, 0.0, 0.0))
  {
    OriginUnits();
    PoseEncoder.PoseTokenDecodes(0.0, 0.0, 0.0);
    OriginText();
  }

  lemma OriginUnits()
    ensures PoseEncoder.QuantisePose(0.0, 0.0, 0.0) == PoseEncoder.Units(2048, 2048, 2048)
    ensures PoseEncoder.PoseBytes(PoseEncoder.Units(2048, 2048, 2048)) == [0x80, 0x08, 0x00, 0x80, 0x00, 0x00]
  {
    OriginQuantised();
    OriginBytes();
  }

  lemma OriginQuantised()
    ensures PoseEncoder.QuantisePose(0.0, 0.0, 0.0) == PoseEncoder.Units(2048, 2048, 2048)
  {
    assert PoseEncoder.RawUnits(0.0, PoseEncoder.PositionRange, PoseEncoder.PositionOffset) == 2048;
    assert PoseEncoder.RawUnits(0.0, PoseEncoder.AngleRange, PoseEncoder.AngleOffset) == 2048;
  }

  lemma OriginBytes()
    ensures PoseEncoder.PoseBytes(PoseEncoder.Units(2048, 2048, 2048)) == [0x80, 0x08, 0x00, 0x80, 0x00, 0x00]
  {
    var x: bv16 := 2048;
    assert ((x >> 4) & 0xFF) as Base64.byte == 0x80;
    assert (((x & 0x0F) << 4) | ((x >> 8) & 0x0F)) as Base64.byte == 0x08;
    assert (x & 0xFF) as Base64.byte == 0;
    assert ((x & 0x0F) << 4) as Base64.byte == 0;
  }

  lemma OriginText()
    ensures Base64.Btoa([0x80, 0x08, 0x00, 0x80, 0x00, 0x00])[..6] == OriginPoseText
  {
    var b: seq<Base64.byte> := [0x80, 0x08, 0x00, 0x80, 0x00, 0x00];
    PoseEncoder.TokenShape(b);
    assert Base64.CharOf(32) == 'g' && Base64.CharOf(0) == 'A';
    assert Base64.EncodeTriple(0x80, 0x08, 0x00) == "gAgA";
  }

  // Actions

  /**
   * `action.config?.waitTime || 1000`: a missing wait time, 0 or the empty
   * text counts as 1000 ms; any other value is kept, and text is then
   * coerced to a number by the division. `None` stands for NaN.
   */
  function WaitMilliseconds(config: Option<Config>): (ms: Option<real>)
    ensures config.None? ==> ms == Some(1000.0)
    ensures ms.None? ==> config.Some? && "waitTime" in config.value && config.value["waitTime"].Text?
    ensures ms == Some(0.0) ==> config.Some? && "waitTime" in config.value && config.value["waitTime"].Text?
  {
    if config.Some? && "waitTime" in config.value && config.value["waitTime"] != Num(0.0)
       && config.value["waitTime"] != Text("")
    then
      match config.value["waitTime"]
      case Num(n) => Some(n)
      case Text(t) => NumberOfTextJs(t)
    else Some(1000.0)
  }

  /** The whole seconds a wait is written with: `Math.round(ms / 1000)`, halves rounded up; `None` is NaN. */
  function WaitSeconds(config: Option<Config>): Option<int> {
    match WaitMilliseconds(config)
    case None => None
    case Some(ms) => Some(PoseEncoder.JsRound(ms / 1000.0))
  }

  /** The text of the seconds in a `W` token: the number, or `NaN`. */
  function WaitText(config: Option<Config>): string {
    match WaitSeconds(config)
    case None => "NaN"
    case Some(sec) => IntToString(sec)
  }

  /** One action's token: `W` and the wait in seconds, or `A` and the catalogue id. */
  function ActionToken(a: Action): string {
    if a.actionType == "wait" then "W" + WaitText(a.config)
    else "A" + IntToString(ActionId(a.actionType))
  }

  /** The tokens of an action sequence, in order. */
  function ActionTokens(actions: seq<Action>): string
    decreases |actions|
  {
    if actions == [] then []
    else ActionTokens(actions[..|actions| - 1]) + ActionToken(actions[|actions| - 1])
  }

  lemma ActionTokensSnoc(actions: seq<Action>, i: nat)
    requires i < |actions|
    ensures ActionTokens(actions[..i + 1]) == ActionTokens(actions[..i]) + ActionToken(actions[i])
  {
    assert actions[..i + 1][..i] == actions[..i];
  }

  lemma ConcatAssoc<T>(a: seq<T>, b: seq<T>, c: seq<T>)
    ensures (a + b) + c == a + (b + c)
  {
  }

  predicate IsMarker(c: char) { c == 'W' || c == 'A' }

  function MarkerCount(s: string): nat
    decreases |s|
  {
    if s == [] then 0 else MarkerCount(s[..|s| - 1]) + (if IsMarker(s[|s| - 1]) then 1 else 0)
  }

  lemma {:induction false} MarkerCountAppend(a: string, b: string)
    ensures MarkerCount(a + b) == MarkerCount(a) + MarkerCount(b)
    decreases |b|
  {
    if b != [] {
      assert (a + b)[..|a + b| - 1] == a + b[..|b| - 1];
      MarkerCountAppend(a, b[..|b| - 1]);
    } else {
      assert a + b == a;
    }
  }

  lemma MarkerCountOfNumber(i: int)
    ensures MarkerCount(IntToString(i)) == 0
  {
    var s := IntToString(i);
    forall k | 0 <= k < |s| ensures !IsMarker(s[k]) {
      if i < 0 { assert s[k] == '-' || s[k] == NatToString(-i)[k - 1]; }
    }
    NoMarkers(s);
  }

  lemma {:induction false} NoMarkers(s: string)
    requires forall k :: 0 <= k < |s| ==> !IsMarker(s[k])
    ensures MarkerCount(s) == 0
    decreases |s|
  {
    if s != [] {
      NoMarkers(s[..|s| - 1]);
    }
  }

  lemma WaitTextHasNoMarker(config: Option<Config>)
    ensures |WaitText(config)| > 0 && MarkerCount(WaitText(config)) == 0
  {
    match WaitSeconds(config)
    case None =>
      NoMarkers("NaN");
    case Some(sec) =>
      MarkerCountOfNumber(sec);
  }

  /** Every action token holds exactly one `W` or `A`, at its start. */
  lemma ActionTokenOneMarker(a: Action)
    ensures |ActionToken(a)| >= 2 && IsMarker(ActionToken(a)[0])
    ensures MarkerCount(ActionToken(a)) == 1
  {
    var t := ActionToken(a);
    var n := if a.actionType == "wait" then WaitText(a.config) else IntToString(ActionId(a.actionType));
    assert t == [t[0]] + n;
    if a.actionType == "wait" {
      WaitTextHasNoMarker(a.config);
    } else {
      MarkerCountOfNumber(ActionId(a.actionType));
    }
    MarkerCountAppend([t[0]], n);
    assert MarkerCount([t[0]]) == MarkerCount([]) + 1;
  }

  /** The tokens of a concatenation are the concatenation of the tokens. */
  lemma {:induction false} ActionTokensAppend(a: seq<Action>, b: seq<Action>)
    ensures ActionTokens(a + b) == ActionTokens(a) + ActionTokens(b)
    decreases |b|
  {
    if b != [] {
      var init, last := b[..|b| - 1], b[|b| - 1];
      ActionTokensAppend(a, init);
      SnocSplit(a, b);
      ActionTokensLast(a + b, a + init, last);
      ActionTokensLast(b, init, last);
      ConcatAssoc(ActionTokens(a), ActionTokens(init), ActionToken(last));
    } else {
      assert a + b == a;
    }
  }

  lemma SnocSplit<T>(a: seq<T>, b: seq<T>)
    requires b != []
    ensures (a + b)[..|a + b| - 1] == a + b[..|b| - 1] && (a + b)[|a + b| - 1] == b[|b| - 1]
  {
  }

  /** One unfolding of `ActionTokens` on a sequence split into its prefix and last action. */
  lemma ActionTokensLast(s: seq<Action>, init: seq<Action>, last: Action)
    requires s != [] && s[..|s| - 1] == init && s[|s| - 1] == last
    ensures ActionTokens(s) == ActionTokens(init) + ActionToken(last)
  {
  }

  /** No action is dropped: the token text holds one marker per action. */
  lemma {:induction false} ActionTokensMarkers(actions: seq<Action>)
    ensures MarkerCount(ActionTokens(actions)) == |actions|
    decreases |actions|
  {
    if actions != [] {
      var init := actions[..|actions| - 1];
      ActionTokensMarkers(init);
      ActionTokenOneMarker(actions[|actions| - 1]);
      MarkerCountAppend(ActionTokens(init), ActionToken(actions[|actions| - 1]));
    }
  }

  /** A wait with no wait time, a wait time of 0 or an empty text is written `W1`. */
  lemma DefaultWaitIsOneSecond(a: Action)
    requires a.actionType == "wait"
    requires a.config.None? || "waitTime" !in a.config.value
      || a.config.value["waitTime"] == Num(0.0) || a.config.value["waitTime"] == Text("")
    ensures ActionToken(a) == "W1"
  {
    assert WaitSeconds(a.config) == Some(1);
  }

  /** A wait of whole seconds is written with exactly those seconds; 1500 ms rounds up to 2. */
  lemma WaitOfWholeSeconds(a: Action, sec: int)
    requires a.actionType == "wait" && sec != 0
    requires a.config.Some? && "waitTime" in a.config.value && a.config.value["waitTime"] == Num(sec as real * 1000.0)
    ensures ActionToken(a) == "W" + IntToString(sec)
    ensures WaitSeconds(Some(map["waitTime" := Num(1500.0)])) == Some(2)
  {
    WholeSeconds(a.config, sec);
    HalfSecondRoundsUp();
  }

  lemma WholeSeconds(config: Option<Config>, sec: int)
    requires sec != 0
    requires config.Some? && "waitTime" in config.value && config.value["waitTime"] == Num(sec as real * 1000.0)
    ensures WaitSeconds(config) == Some(sec)
  {
    var ms := WaitMilliseconds(config).value;
    assert ms == sec as real * 1000.0;
    assert ms / 1000.0 == sec as real;
    assert PoseEncoder.JsRound(sec as real) == sec;
  }

  lemma HalfSecondRoundsUp()
    ensures WaitSeconds(Some(map["waitTime" := Num(1500.0)])) == Some(2)
  {
    var c := map["waitTime" := Num(1500.0)];
    assert WaitMilliseconds(Some(c)) == Some(1500.0);
  }

  /**
   * A wait time held as digit text is read as a number: `"2000"` is written
   * `W2` and `"0"` is written `W0`, while text that is not a number is
   * written `WNaN`.
   */
  lemma TextWaitTimes()
    ensures WaitText(Some(map["waitTime" := Text("2000")])) == "2"
    ensures WaitText(Some(map["waitTime" := Text("0")])) == "0"
    ensures WaitText(Some(map["waitTime" := Text("abc")])) == "NaN"
  {
    TwoSecondText();
    ZeroText();
    TextWait("abc");
    NotANumber();
  }

  lemma TwoSecondText()
    ensures WaitText(Some(map["waitTime" := Text("2000")])) == "2"
  {
    TwoThousandDigits();
    DigitTextWait(2000);
    assert 2000 as real / 1000.0 == 2.0;
    assert PoseEncoder.JsRound(2.0) == 2;
    assert IntToString(2) == "2";
  }

  lemma TwoThousandDigits()
    ensures NatToString(2000) == "2000"
  {
    assert NatToString(2) == "2";
    assert NatToString(20) == "20";
    assert NatToString(200) == "200";
  }

  lemma ZeroText()
    ensures WaitText(Some(map["waitTime" := Text("0")])) == "0"
  {
    DigitTextWait(0);
    assert NatToString(0) == "0";
    assert PoseEncoder.JsRound(0.0) == 0;
  }

  lemma TextWait(t: string)
    requires t != ""
    ensures WaitMilliseconds(Some(map["waitTime" := Text(t)])) == NumberOfTextJs(t)
  {
  }

  lemma DigitTextWait(v: nat)
    ensures WaitSeconds(Some(map["waitTime" := Text(NatToString(v))])) == Some(PoseEncoder.JsRound(v as real / 1000.0))
  {
    TextWait(NatToString(v));
    DigitTextNumber(v);
  }

  lemma DigitTextNumber(v: nat)
    ensures NumberOfTextJs(NatToString(v)) == Some(v as real)
  {
    var t := NatToString(v);
    assert IsDigit(t[0]) && IsDigit(t[|t| - 1]);
    TrimOfUnpadded(t);
  }

  lemma NotANumber()
    ensures NumberOfTextJs("abc") == None
  {
    LetterTextNotANumber("abc");
  }

  /** Text that starts with a letter and does not end in white space is NaN. */
  lemma LetterTextNotANumber(s: string)
    requires s != [] && 'a' <= s[0] <= 'z' && !IsJsWhitespace(s[|s| - 1])
    ensures NumberOfTextJs(s) == None
  {
    TrimOfUnpadded(s);
    assert !IsDigit(s[0]);
  }

  // The whole match

  /** The match number, the alliance letter and the start token as `encodeStartPosition` writes it. */
  function Header(m: Match): string
    requires m.alliance != []
  {
    IntToString(m.matchNumber) + [UpperChar(m.alliance[0])] + StartTokenAsWritten(m.startPosition)
  }

  /** What `encodeMatchToTerse` returns or throws. */
  function Terse(m: Match): Result<string, string> {
    if m.alliance == [] then Failure(AllianceTypeError)
    else Success(Header(m) + ActionTokens(m.actions))
  }

  /** The header with the corrected start token, whose fallback is the origin. */
  function CorrectedHeader(m: Match): string
    requires m.alliance != []
  {
    IntToString(m.matchNumber) + [UpperChar(m.alliance[0])] + StartToken(m.startPosition)
  }

  /** `encodeMatchToTerse` with the corrected fallback for an unencodable custom pose. */
  function CorrectedTerse(m: Match): Result<string, string> {
    if m.alliance == [] then Failure(AllianceTypeError)
    else Success(CorrectedHeader(m) + ActionTokens(m.actions))
  }

  /**
   * The corrected encoder fails exactly when the one as written does, gives
   * text of the same length, and differs from it only for a custom start
   * position whose pose `encodePose` rejects.
   */
  lemma CorrectedTerseAgrees(m: Match)
    ensures CorrectedTerse(m).Success? <==> Terse(m).Success?
    ensures CorrectedTerse(m).Success? ==> |CorrectedTerse(m).value| == |Terse(m).value|
    ensures CorrectedTerse(m) != Terse(m) ==>
      && PositionIdOf(m.startPosition) == 0
      && var p := m.startPosition.value;
        PoseEncoder.PoseToken(p.x.GetOr(0.0), p.y.GetOr(0.0), p.theta.GetOr(0.0)).Failure?
  {
    if m.alliance != [] {
      if PositionIdOf(m.startPosition) == 0 {
        StartTokenCustom(m.startPosition);
      } else {
        StartTokenPreset(m.startPosition);
      }
    }
  }

  /** `encodeMatchToTerse`: the text is accumulated token by token. */
  method EncodeMatchToTerse(m: Match) returns (r: Result<string, string>)
    ensures r == Terse(m)
    ensures r.Failure? <==> m.alliance == []
  {
    var terse := IntToString(m.matchNumber);
    if m.alliance == [] {
      return Failure(AllianceTypeError);
    }
    terse := terse + [UpperChar(m.alliance[0])];
    terse := terse + StartTokenAsWritten(m.startPosition);
    ghost var header := terse;
    assert header == Header(m);
    var i := 0;
    assert m.actions[..0] == [];
    while i < |m.actions|
      invariant 0 <= i <= |m.actions|
      invariant terse == header + ActionTokens(m.actions[..i])
    {
      ActionTokensSnoc(m.actions, i);
      ConcatAssoc(header, ActionTokens(m.actions[..i]), ActionToken(m.actions[i]));
      terse := terse + ActionToken(m.actions[i]);
      i := i + 1;
    }
    assert m.actions[..i] == m.actions;
    r := Success(terse);
  }

  /** A custom start 5 m off the field is written with `AAAAAA` as written, and with the origin once corrected. */
  lemma UnencodableStartWritten()
    ensures var m := Match("m", 1, "", "red", Some(StartPosition(Some("S0"), Some(5.0), Some(0.0), Some(0.0))), []);
      Terse(m) == Success("1RS0" + FallbackPoseText) && CorrectedTerse(m) == Success("1RS0" + OriginPoseText)
  {
    var sp := StartPosition(Some("S0"), Some(5.0), Some(0.0), Some(0.0));
    OffFieldTokens(sp);
    FirstRedMatch(Match("m", 1, "", "red", Some(sp), []));
    assert "1R" + ("S0" + FallbackPoseText) == "1RS0" + FallbackPoseText;
    assert "1R" + ("S0" + OriginPoseText) == "1RS0" + OriginPoseText;
  }

  lemma FirstRedMatch(m: Match)
    requires m.matchNumber == 1 && m.alliance == "red" && m.actions == []
    ensures Terse(m) == Success("1R" + StartTokenAsWritten(m.startPosition))
    ensures CorrectedTerse(m) == Success("1R" + StartToken(m.startPosition))
  {
    assert IntToString(1) == "1";
    assert UpperChar(m.alliance[0]) == 'R';
    assert ActionTokens(m.actions) == [];
    assert Header(m) + [] == "1R" + StartTokenAsWritten(m.startPosition);
    assert CorrectedHeader(m) + [] == "1R" + StartToken(m.startPosition);
  }

  /** The start tokens of a custom start 5 m off the field. */
  lemma OffFieldTokens(sp: StartPosition)
    requires sp == StartPosition(Some("S0"), Some(5.0), Some(0.0), Some(0.0))
    ensures StartTokenAsWritten(Some(sp)) == "S0" + FallbackPoseText && StartToken(Some(sp)) == "S0" + OriginPoseText
  {
    CustomKey();
    UnencodableTokens(sp);
  }

  /** A custom start whose pose `encodePose` rejects gets the fallback text. */
  lemma UnencodableTokens(sp: StartPosition)
    requires PositionIdOf(Some(sp)) == 0
    requires !PoseEncoder.InRange(sp.x.GetOr(0.0), sp.y.GetOr(0.0), sp.theta.GetOr(0.0))
    ensures StartTokenAsWritten(Some(sp)) == "S0" + FallbackPoseText
    ensures StartToken(Some(sp)) == "S0" + OriginPoseText
  {
  }

  lemma CustomKey()
    ensures GetPositionId(Some("S0")) == 0
  {
    ParseIntJsOfDigits("0");
    assert "S0"[1..] == "0";
  }

  /** Adding an action to a match appends exactly its token to the text. */
  lemma TerseOfAppendedAction(m: Match, a: Action)
    requires m.alliance != []
    ensures Terse(m.(actions := m.actions + [a])) == Success(Terse(m).value + ActionToken(a))
  {
    var acts := m.actions + [a];
    ActionTokensSnoc(acts, |m.actions|);
    assert acts[..|m.actions| + 1] == acts;
    assert acts[..|m.actions|] == m.actions;
    var m' := m.(actions := acts);
    assert Header(m') == Header(m);
    ConcatAssoc(Header(m), ActionTokens(m.actions), ActionToken(a));
  }

  /** The text starts with the match number, the alliance letter and `S`. */
  lemma TerseHeader(m: Match)
    requires m.alliance != [] && m.matchNumber >= 0
    ensures var t, n := Terse(m).value, NatToString(m.matchNumber);
      && t[..|n|] == n && t[|n|] == UpperChar(m.alliance[0]) && t[|n| + 1] == 'S'
  {
    var n := NatToString(m.matchNumber);
    var st := StartTokenAsWritten(m.startPosition);
    StartTokenLeadsWithS(m.startPosition);
    assert IntToString(m.matchNumber) == n;
    assert Terse(m).value == n + [UpperChar(m.alliance[0])] + st + ActionTokens(m.actions);
    LayoutOfHeader(n, UpperChar(m.alliance[0]), st, ActionTokens(m.actions));
  }

  /** Every start token begins with `S`, with either fallback. */
  lemma StartTokenLeadsWithS(sp: Option<StartPosition>)
    ensures |StartTokenAsWritten(sp)| > 0 && StartTokenAsWritten(sp)[0] == 'S'
    ensures |StartToken(sp)| > 0 && StartToken(sp)[0] == 'S'
  {
    if PositionIdOf(sp) == 0 {
      assert StartTokenAsWritten(sp) == "S0" + PoseTextOr(sp.value, FallbackPoseText);
      assert StartToken(sp) == "S0" + PoseTextOr(sp.value, OriginPoseText);
    } else {
      assert StartTokenAsWritten(sp) == "S" + IntToString(PositionIdOf(sp));
      assert StartToken(sp) == "S" + IntToString(PositionIdOf(sp));
    }
  }

  /** Where the pieces of a header land in the text. */
  lemma LayoutOfHeader(n: string, c: char, st: string, rest: string)
    requires |st| > 0
    ensures (n + [c] + st + rest)[..|n|] == n
    ensures (n + [c] + st + rest)[|n|] == c && (n + [c] + st + rest)[|n| + 1] == st[0]
  {
    var t := n + [c] + st + rest;
    assert t == n + ([c] + st + rest);
  }

  /** `getTerseSize`. */
  function GetTerseSize(m: Match): (r: Result<int, string>)
    ensures r.Success? <==> Terse(m).Success?
    ensures r.Success? ==> r.value == |Terse(m).value|
  {
    var t :- Terse(m);
    Success(|t|)
  }

  datatype TerseInfo = TerseInfo(terse: string, size: int, fitsInQRv4: bool)

  /** `getTerseInfo`: the text, its length, and whether it fits the 100-character budget. */
  function GetTerseInfo(m: Match): (r: Result<TerseInfo, string>)
    ensures r.Success? <==> Terse(m).Success?
    ensures r.Success? ==> Success(r.value.terse) == Terse(m) && GetTerseSize(m) == Success(r.value.size)
    ensures r.Success? ==> (r.value.fitsInQRv4 <==> |r.value.terse| <= QrV4Capacity)
  {
    var t :- Terse(m);
    Success(TerseInfo(t, |t|, |t| <= QrV4Capacity))
  }
}
