# FTC AutoConfig, modelled in Dafny

FTC AutoConfig lets a robotics team plan a match's autonomous routine in a web app. The
plan covers the match number, the alliance colour, a start position and a list of actions
picked from a catalogue. The app packs the plan into a short "terse" text for a QR code: a
match number, `R` or `B`, a start token `S<id>` (with `S0` followed by a six-character
base64 pose for a custom start), and one token per action (`W<seconds>` for a wait,
`A<id>` otherwise). The robot code, in Java, decodes that text, reads a JSON match file
and lets the driver pick a match with the gamepad before the match starts.

This project models the verifiable core of both sides:

- the pose packer: 12-bit quantisation of x, y and heading, packing into bytes, a base64
  codec written out per RFC 4648 section 4, the validator and the snap to the pose grid
  (`pose_encoder.dfy`, `base64.dfy`);
- the web app's terse encoder and the Java terse codec, including the Java decoder's
  cursor-driven scan (`terse_encoder.dfy`, `terse_match_codec.dfy`);
- the Java match-file parser and the gamepad selection state machine
  (`auto_config_parser.dfy`, `selectable_config_auto_op_mode.dfy`, with the records in
  `match_data.dfy`);
- the web app's state: the match list, the wizard, drag-and-drop reordering, the start
  positions, the action catalogue, presets, the template dialog and the theme preference
  (one module per hook);
- the small rules in the components: the next `S{n}` key and the index offset of the start
  position dialog, label validation, the add forms, the numeric input filter, the
  clamp-and-snap decision on blur, and the "already added" test of the action picker.

Code that changes state in the source is a Dafny `class` whose methods say the whole new
state. Each class is specified by functions on values, and the properties are lemmas about
those functions. Loops in the source, such as the Java decoder's scan, `findNextLetter`, the
encoders' token loops and the match filter, are `while` loops with invariants. Shared
helpers live in `wrappers.dfy` (Option and Result), `strings.dfy` (digits, ECMAScript
`trim`, ASCII case), `lists.dfy` (filter, removal, insertion, swap) and `app_types.dfy`
(the web app's records). Every file is given to Dafny together.

Randomness and clocks are parameters: `crypto.randomUUID()` becomes a fresh id and
`Date.now()` becomes `now`. Browser storage is a field that holds what was last written.
`parseFloat` is a parameter that is `None` for `NaN`. Gson's JSON tree is a record of
optional fields.

## Model

| member | source | states |
|---|---|---|
| PoseEncoder.JsRound | src/utils/poseEncoder.js:35-37 | `Math.round` gives the integer within half of the value, halves going up |
| PoseEncoder.Clamp | src/utils/poseEncoder.js:40-42 | the clamp result lies in 0..4095; it keeps a value already in range, sends a negative one to 0 and one of 4096 or more to 4095 |
| PoseEncoder.Quantise | src/utils/poseEncoder.js:35-42 | a quantised coordinate is always a 12-bit unit count |
| PoseEncoder.QuantisePose | src/utils/poseEncoder.js:33-42 | all three units of a pose are 12-bit values |
| PoseEncoder.RawUnitsInRange | src/utils/poseEncoder.js:29-37 | for an in-range value the unclamped units lie in 0..4096, so the clamp only ever turns 4096 into 4095 |
| PoseEncoder.TopOfRangeClamped | src/utils/poseEncoder.js:35-40 | x = +1.8288 m rounds to 4096 units and is clamped to 4095 |
| PoseEncoder.OneDegreeUnits | src/utils/poseEncoder.js:35-42 | the pose (0, 0, 1 degree) quantises to units (2048, 2048, 2059) |
| PoseEncoder.QuantisationError | src/utils/poseEncoder.js:35-95 | an unclamped coordinate comes back within half a step (range / 8192) of its value |
| PoseEncoder.PoseBytes | src/utils/poseEncoder.js:46-58 | packing gives exactly six bytes (their contents are fixed by PackUnpack) |
| PoseEncoder.UnpackUnits | src/utils/poseEncoder.js:84-90 | the masks and shifts of the decoder always give three 12-bit units |
| PoseEncoder.PackUnpack | src/utils/poseEncoder.js:49-90 | unpacking the six packed bytes gives the three units back; byte 4's low nibble and byte 5 are zero |
| PoseEncoder.PackUnpackFour | src/utils/poseEncoder.js:79-90 | unpacking only the first four packed bytes gives x and y back and the heading with its low nibble cleared |
| PoseEncoder.PackPose | src/utils/poseEncoder.js:46-58 | the `Uint8Array` filled byte by byte holds exactly the packed bytes |
| PoseEncoder.TokenText | src/utils/poseEncoder.js:61-64 | the six characters kept from `btoa` are the first quantum's four and two more characters of the second |
| PoseEncoder.TokenAtobPadded | src/utils/poseEncoder.js:78-81 | with `==` appended, `atob` of an encoded pose returns only four of the six bytes |
| PoseEncoder.TokenAtobZeroPadded | src/utils/poseEncoder.js:78-81 | with `AA` appended, `atob` of an encoded pose returns all six bytes |
| PoseEncoder.EncodePose | src/utils/poseEncoder.js:27-65 | it throws exactly when a coordinate is out of range, with the range error; otherwise the result is valid pose text that the decoder accepts |
| PoseEncoder.PoseTokenValid | src/utils/poseEncoder.js:27-64 | an in-range pose always encodes to six valid base64 characters |
| PoseEncoder.PoseTokenDecodes | src/utils/poseEncoder.js:27-102 | an encoded pose passes the validator; the corrected decoder returns the quantised pose; the decoder as written returns it with the heading's low nibble lost |
| PoseEncoder.DecodeRejectsLength | src/utils/poseEncoder.js:74-76 | every text whose length is not 6 is refused with the length error |
| PoseEncoder.DecodePose | src/utils/poseEncoder.js:72-95 | the length error comes exactly for a text whose length is not 6; a decoded pose always lies within ±1.8288 m and ±180 degrees |
| PoseEncoder.DecodePoseFixed | src/utils/poseEncoder.js:72-95 | with `AA` as the pad instead of `==`: the same length error, and the decoded pose within the same bounds |
| PoseEncoder.ValidEncodingDecodes | src/utils/poseEncoder.js:126-131 | every text the validator accepts is decoded without an error |
| PoseEncoder.IsValidPoseEncoding | src/utils/poseEncoder.js:126-131 | any text it accepts is accepted by `atob` under either pad |
| PoseEncoder.HeadingNibbleLost | src/utils/poseEncoder.js:79-90 | the pose (0, 0, 1 degree) decodes as written to heading 0 degrees, and with the corrected pad to the heading of unit 2059 |
| PoseEncoder.RoundToResolutionOnGrid | src/utils/poseEncoder.js:141-148 | `roundToResolution` always lands on one of the 4096 grid points |
| PoseEncoder.RoundToResolution | src/utils/poseEncoder.js:141-148 | the result is one of the 4096 grid points `k * range / 4096 - offset` |
| PoseEncoder.QuantiseGridPoint | src/utils/poseEncoder.js:141-145 | a grid point quantises back to its own index |
| PoseEncoder.RoundToResolutionIdempotent | src/utils/poseEncoder.js:141-148 | snapping a value twice gives the same result as snapping it once |
| PoseEncoder.GetPoseResolution | src/utils/poseEncoder.js:108-119 | the reported resolutions are exactly one grid step of each axis (0.087890625 degrees for the heading); the inch figures are the metre step converted; 36 bits fit in the 6 characters |
| PoseEncoder.InchesToMeters | src/utils/poseEncoder.js:156-158 | 72 inches is the half-range 1.8288 m and 144 inches the full range |
| PoseEncoder.MetersToInches | src/utils/poseEncoder.js:165-167 | the half-range 1.8288 m is 72 inches to within 0.01 |
| PoseEncoder.LengthConversionsNearInverse | src/utils/poseEncoder.js:156-167 | inches to metres and back, either way round, is off by at most one part per million |
| PoseEncoder.AngleConversionsInverse | src/utils/poseEncoder.js:174-185 | the degree and radian conversions are exact inverses, and 180 degrees is pi |
| PoseEncoder.DegreesToRadians | src/utils/poseEncoder.js:174-176 | the angle keeps its sign and its zero, and 180 degrees is pi |
| PoseEncoder.RadiansToDegrees | src/utils/poseEncoder.js:183-185 | the angle keeps its sign and its zero, and pi is 180 degrees |
| Base64.Btoa | src/utils/poseEncoder.js:61 | `btoa` of n bytes has 4 * ceil(n / 3) characters |
| Base64.UnpaddedRoundTrip | src/utils/poseEncoder.js:61 | decoding the unpadded encoding of any byte string gives that byte string back |
| Base64.AtobBtoa | src/utils/poseEncoder.js:61-80 | `atob(btoa(b))` is `b` for every byte string |
| Base64.AtobClean | src/utils/poseEncoder.js:80 | `atob` of whitespace-free text whose unpadded form is valid base64 decodes that form |
| Base64.Atob | src/utils/poseEncoder.js:80 | a result has at most three bytes per four characters; text of whole quanta of base64 characters decodes to three bytes per quantum |
| Base64.AtobPaddedQuantum | src/utils/poseEncoder.js:79-80 | four characters, two more, then `==`: `atob` reads the final pair as one byte |
| Base64.AtobZeroPaddedQuantum | src/utils/poseEncoder.js:79-80 | four characters, two more, then `AA`: `atob` reads two full quanta |
| Strings.TrimEmptyIffBlank | src/hooks/usePresets.js:16 | `!s.trim()` holds exactly when every character is ECMAScript white space or a line terminator |
| Strings.TrimStart | src/components/common/InlineAddForm.jsx:46 | `trim` drops exactly the leading white space: the rest is a suffix that starts with a non-space |
| Strings.TrimEnd | src/components/common/InlineAddForm.jsx:46 | `trim` drops exactly the trailing white space: the rest is a prefix that ends with a non-space |
| Strings.ToLower | src/components/common/InlineAddForm.jsx:54 | `toLowerCase` maps each character in place and keeps the length |
| Strings.NatToString | src/utils/terseEncoder.js:84 | the decimal text of a number is non-empty digits, with no leading zero, whose value is that number |
| Strings.ParseIntJsOfDigits | src/utils/terseEncoder.js:40 | `parseInt` of a digit run is its decimal value |
| Strings.ParseIntJsOfNegativeDigits | src/utils/terseEncoder.js:40 | `parseInt` of a minus sign and a digit run is the negated value |
| Strings.ParseIntJsOfIntToString | src/utils/terseEncoder.js:40 | `parseInt(String(n))` is `n` for every integer |
| TerseEncoder.ActionId | src/utils/terseEncoder.js:17-28 | a catalogue type gets its id in 1..10, and any other type that is not a member inherited from `Object.prototype` gets 99 (line 102) |
| TerseEncoder.ActionIdInjective | src/utils/terseEncoder.js:17-28 | distinct catalogue types have distinct ids |
| TerseEncoder.GetPositionId | src/utils/terseEncoder.js:35-46 | any position other than 1 comes only from a type that is `S` followed by at least one character |
| TerseEncoder.GetPositionIdOfKey | src/utils/terseEncoder.js:35-46 | a key `S{n}` that the app creates gives back `n` |
| TerseEncoder.GetPositionIdDefaults | src/utils/terseEncoder.js:35-46 | a missing type, an empty one and the keys `front` and `back` all give position 1 |
| TerseEncoder.StartTokenAsWritten | src/utils/terseEncoder.js:53-73 | the token starts with `S`; its second character is `0` exactly for position 0, and then the token has eight characters |
| TerseEncoder.PoseTextOrValid | src/utils/terseEncoder.js:62-68 | a custom position always yields valid pose text when the fallback is valid pose text |
| TerseEncoder.StartTokenPreset | src/utils/terseEncoder.js:53-73 | a non-zero position id is written `S` and its decimal digits |
| TerseEncoder.StartTokenCustom | src/utils/terseEncoder.js:57-69 | position id 0 gives `S0` followed by exactly six characters of valid pose text, whatever the pose, both as written and with the corrected fallback |
| TerseEncoder.FallbackIsNotOrigin | src/utils/terseEncoder.js:67 | the fallback `AAAAAA` decodes to (-1.8288, -1.8288, -180), not to the origin its comment names |
| TerseEncoder.OriginFallback | src/utils/terseEncoder.js:67 | the corrected fallback is the encoding of (0, 0, 0) and decodes back to it |
| TerseEncoder.StartTokenLeadsWithS | src/utils/terseEncoder.js:53-73 | every start token begins with `S`, both as written and with the corrected fallback |
| TerseEncoder.WaitMilliseconds | src/utils/terseEncoder.js:97 | `waitTime || 1000` is 1000 ms without a config; a numeric wait time never yields 0; only a text wait time, coerced to a number, can yield 0 or NaN |
| TerseEncoder.TextWaitTimes | src/utils/terseEncoder.js:97-99 | a text wait time is kept by `||` and coerced by the division: `"2000"` is written `W2`, `"0"` is written `W0` and `"abc"` is written `WNaN` |
| TerseEncoder.DefaultWaitIsOneSecond | src/utils/terseEncoder.js:95-99 | a wait with no wait time, a wait time of 0 or an empty text is written `W1` |
| TerseEncoder.WaitOfWholeSeconds | src/utils/terseEncoder.js:95-99 | a wait of whole seconds is written with exactly those seconds, and 1500 ms rounds up to `W2` |
| TerseEncoder.ActionTokenOneMarker | src/utils/terseEncoder.js:94-105 | every action token starts with `W` or `A` and holds exactly one of them |
| TerseEncoder.ActionTokensAppend | src/utils/terseEncoder.js:94-105 | the tokens of a concatenation of actions are the concatenation of their tokens |
| TerseEncoder.ActionTokensMarkers | src/utils/terseEncoder.js:93-106 | no action is dropped: the text holds one marker per action |
| TerseEncoder.EncodeMatchToTerse | src/utils/terseEncoder.js:80-109 | the text built token by token is the match's terse text as written, with `AAAAAA` for a custom pose that cannot be encoded; it throws exactly when the alliance is empty |
| TerseEncoder.CorrectedTerseAgrees | src/utils/terseEncoder.js:57-69 | the encoder with the corrected fallback fails exactly when the one as written does, writes text of the same length, and differs from it only for a custom pose that `encodePose` rejects |
| TerseEncoder.UnencodableStartWritten | src/utils/terseEncoder.js:67 | match 1, red, with a custom start at x = 5 m is written `1RS0AAAAAA`, and `1RS0gAgAgA` with the corrected fallback |
| TerseEncoder.TerseOfAppendedAction | src/utils/terseEncoder.js:93-106 | adding an action to a match appends exactly that action's token to its text |
| TerseEncoder.TerseHeader | src/utils/terseEncoder.js:81-90 | the text starts with the match number's digits, the upper-cased alliance letter and `S` |
| TerseEncoder.GetTerseSize | src/utils/terseEncoder.js:116-118 | the size is the length of the terse text; it fails exactly when encoding fails |
| TerseEncoder.GetTerseInfo | src/utils/terseEncoder.js:125-131 | the info holds the text and its size; `fitsInQRv4` holds exactly when the text has at most 100 characters |
| TerseMatchCodec.GetActionId | examples/java/TerseMatchCodec.java:179-193 | an id in 1..10 names its catalogue type; exactly the other types get 99 |
| TerseMatchCodec.DecodeActionFromId | examples/java/TerseMatchCodec.java:198-248 | an id in 1..10 gives its catalogue type and label; any other id gives `unknown` / `Unknown`; there is never a config |
| TerseMatchCodec.EncodeStartPosition | examples/java/TerseMatchCodec.java:147-157 | the id is one of 1, 2, 3, 4, 9, and 1 for a type that is not one of the five known ones, whatever its case |
| TerseMatchCodec.DecodeStartPosition | examples/java/TerseMatchCodec.java:162-173 | the type is one of the five known ones, and `front` for an unknown id |
| TerseMatchCodec.NextLetter | examples/java/TerseMatchCodec.java:253-260 | the result is the first index from `start` on that holds a non-digit, else the length; everything skipped is a digit |
| TerseMatchCodec.FindNextLetter | examples/java/TerseMatchCodec.java:253-260 | the index loop returns the position that NextLetter specifies |
| TerseMatchCodec.ParseInt | examples/java/TerseMatchCodec.java:88 | `Integer.parseInt` of a digit run either throws `NumberFormatException` for that text or returns a non-negative 32-bit value |
| TerseMatchCodec.ParseIntOfNatToString | examples/java/TerseMatchCodec.java:40-88 | a number appended by `StringBuilder` and then parsed comes back unchanged |
| TerseMatchCodec.WaitSecondsRounds | examples/java/TerseMatchCodec.java:58-59 | the integer rounding used for waits is `Math.round` of the exact quotient ms / 1000 |
| TerseMatchCodec.ColorLetter | examples/java/TerseMatchCodec.java:44-45 | it throws exactly for a null or empty colour; otherwise the letter is R or B, and R exactly when the lower-cased colour starts with `r` |
| TerseMatchCodec.Encoding | examples/java/TerseMatchCodec.java:36-71 | on match data with a non-null start type and non-null actions, `encode` throws exactly when there is an alliance whose colour is null or empty |
| TerseMatchCodec.Encode | examples/java/TerseMatchCodec.java:36-71 | the `StringBuilder` text is the match's encoding |
| TerseMatchCodec.AppendActionTokens | examples/java/TerseMatchCodec.java:54-66 | the action loop appends one token per action, in order |
| TerseMatchCodec.ActionTokensSnoc | examples/java/TerseMatchCodec.java:55-65 | the tokens of a list extended by one action end with that action's token |
| TerseMatchCodec.DecodeActionsAt | examples/java/TerseMatchCodec.java:110-138 | one step of the action scan: a character other than W or A is skipped; W or A reads a digit run |
| TerseMatchCodec.StartAt | examples/java/TerseMatchCodec.java:99-105 | the start section never moves the cursor back or past the end |
| TerseMatchCodec.DecodingFrom | examples/java/TerseMatchCodec.java:78-141 | once the number, colour and start are read, the decoded match is built around the action section |
| TerseMatchCodec.Decode | examples/java/TerseMatchCodec.java:78-105 | `decode` returns or throws what Decoding specifies |
| TerseMatchCodec.DecodeActionLoop | examples/java/TerseMatchCodec.java:108-138 | the cursor loop collects exactly the actions of the action section, or throws as it does |
| TerseMatchCodec.ActionCatalogRoundTrip | examples/java/TerseMatchCodec.java:179-248 | each catalogue type survives `getActionId` and then `decodeActionFromId`; any other type comes back `unknown` |
| TerseMatchCodec.ActionIdRoundTrip | examples/java/TerseMatchCodec.java:179-248 | each id 1..10 survives `decodeActionFromId` and then `getActionId`; any other id comes back 99 |
| TerseMatchCodec.StartPositionRoundTrip | examples/java/TerseMatchCodec.java:147-173 | a known start type, in any case, comes back lower-cased; any other type comes back `front` |
| TerseMatchCodec.StartIdRoundTrip | examples/java/TerseMatchCodec.java:147-173 | a known start id comes back unchanged; any other id comes back as 1 |
| TerseMatchCodec.DecodedActions | examples/java/TerseMatchCodec.java:114-137 | the decoded list has one action per original action, each mapped in place |
| TerseMatchCodec.TokensOfActions | examples/java/TerseMatchCodec.java:55-65 | the action text of a list is the text of its tokens, and it decodes as they do |
| TerseMatchCodec.TokensTextSpells | examples/java/TerseMatchCodec.java:110-138 | a token text that runs to the end of the string can be read token by token: a marker, its digits, then the next marker or the end |
| TerseMatchCodec.DecodeSpelled | examples/java/TerseMatchCodec.java:110-138 | tokens spelled out like that decode to the tokens' actions |
| TerseMatchCodec.DecodeTokens | examples/java/TerseMatchCodec.java:110-138 | the action text of an encodable list, running to the end, decodes to the decoded list |
| TerseMatchCodec.DecodeNumberPrefix | examples/java/TerseMatchCodec.java:87-88 | a match number at the start of the text, followed by a non-digit or the end, is read back |
| TerseMatchCodec.DecodeStartText | examples/java/TerseMatchCodec.java:99-105 | the start token, followed by a marker or the end, is read back |
| TerseMatchCodec.DecodeFullText | examples/java/TerseMatchCodec.java:78-141 | decode after encode, for a match with an autonomous part |
| TerseMatchCodec.DecodeColorOnly | examples/java/TerseMatchCodec.java:78-141 | decode after encode, for a match with an alliance but no autonomous part |
| TerseMatchCodec.DecodeNumberOnly | examples/java/TerseMatchCodec.java:78-141 | a bare number decodes to a match with a blank alliance, no colour, no start position and no actions |
| TerseMatchCodec.DecodeEncode | examples/java/TerseMatchCodec.java:36-141 | `decode(encode(m))` gives the number back, the colour letter's colour, the start position mapped through its id and every action mapped through its token, in order |
| TerseMatchCodec.WaitSurvivesIff | examples/java/TerseMatchCodec.java:58-59 | a 32-bit wait survives the round trip exactly when it is a whole number of seconds |
| TerseMatchCodec.RoundTripKeeps | examples/java/TerseMatchCodec.java:36-141 | the round trip keeps the number; the colour is red exactly when it starts with `r` in any case; the start type is kept when it is one of the five known ones, else it becomes `front` |
| TerseMatchCodec.RoundTripKeepsActions | examples/java/TerseMatchCodec.java:55-137 | the round trip keeps the length of the action list; the action at each index keeps its type when that is `wait` or in the catalogue, else it becomes `unknown`; a wait time is kept exactly when it is whole seconds |
| TerseMatchCodec.NegativeNumberNotDecoded | examples/java/TerseMatchCodec.java:40-88 | a negative match number is written with a `-` that `decode` refuses |
| TerseMatchCodec.SkipsOtherCharacters | examples/java/TerseMatchCodec.java:110-138 | characters other than W and A in the action section are skipped |
| TerseMatchCodec.DecodeEmptyFails | examples/java/TerseMatchCodec.java:87-88 | an empty text throws, since it has no match number |
| TerseMatchCodec.DecodeStartWithoutDigitsFails | examples/java/TerseMatchCodec.java:99-102 | a start marker without digits throws |
| TerseMatchCodec.DecodeTrailingMarkerFails | examples/java/TerseMatchCodec.java:129-132 | a trailing action marker without digits throws |
| TerseMatchCodec.WebPoseTextNotDecoded | examples/java/TerseMatchCodec.java:99-138 | the web app's custom start `S0` plus a pose is read as `S0` (`front`), and the pose letters then make `decode` throw |
| TerseMatchCodec.LongWaitWraps | examples/java/TerseMatchCodec.java:117-118 | a wait of 2147483500 ms is written `W2147484` and comes back as a negative time, because the multiplication wraps to 32 bits |
| TerseMatchCodec.EncodeConfig | examples/java/TerseMatchCodec.java:265-273 | an absent or empty match list, or an empty first wrapper, gives the empty text; on wrappers that are not `null`, a throw comes only from encoding the first match |
| TerseMatchCodec.DecodeConfig | examples/java/TerseMatchCodec.java:278-288 | version 1.0.0 and one wrapper holding the decoded match; a decoding exception propagates |
| TerseMatchCodec.ConfigRoundTrip | examples/java/TerseMatchCodec.java:265-288 | a configuration whose first match is encodable comes back as that match alone, round-tripped |
| TerseMatchCodec.EmptyConfigNotDecoded | examples/java/TerseMatchCodec.java:265-288 | the empty text produced for a configuration without matches is refused by `decodeConfig` |
| MatchData.Wrap32 | examples/java/TerseMatchCodec.java:118 | Java `int` arithmetic lands in the 32-bit range and leaves a value that is already in range alone |
| MatchData.Wrap32Congruent | examples/java/TerseMatchCodec.java:118 | a wrapped product differs from the exact one by a multiple of 2^32 |
| AutoConfigParser.RootWrappers | examples/java/AutoConfigParser.java:79-93 | a `matches` key gives its list (null when its value is null); failing that, a `match` key gives a one-wrapper list; with neither key, the missing-field error is raised |
| AutoConfigParser.ParseRoot | examples/java/AutoConfigParser.java:66-100 | it throws exactly for an unsupported version or for missing match keys, with the version message when the version is the cause; otherwise the version is `1.0.0` or `legacy` and the list is the root's wrappers |
| AutoConfigParser.MatchesTakesPrecedence | examples/java/AutoConfigParser.java:81-93 | when `matches` is present, the `match` key is never read |
| AutoConfigParser.LegacySingleMatch | examples/java/AutoConfigParser.java:85-97 | a file with no version and only `match` parses to version `legacy` and a list holding that one match |
| AutoConfigParser.SupportedVersionKept | examples/java/AutoConfigParser.java:68-96 | the version `1.0.0` is accepted and kept |
| AutoConfigParser.VersionCheckedFirst | examples/java/AutoConfigParser.java:68-76 | an unsupported version is reported with its exact message even when both match keys are missing; `1.0` is not `1.0.0` |
| AutoConfigParser.IsVersionSupported | examples/java/AutoConfigParser.java:107-111 | exactly the text `1.0.0` is supported |
| AutoConfigParser.IndexOfNumber | examples/java/AutoConfigParser.java:124-128 | the index found is the first wrapper holding a match with that number, or the length when no wrapper does |
| AutoConfigParser.GetMatchByNumber | examples/java/AutoConfigParser.java:119-131 | the scan returns a match with the requested number, namely the first one; it returns null exactly when no wrapper holds such a match (or there is no configuration or list) |
| AutoConfigParser.AllianceMatches | examples/java/AutoConfigParser.java:145-150 | the stream keeps only matches whose alliance colour equals the colour, ignoring case, and adds none |
| AutoConfigParser.GetMatchesByAlliance | examples/java/AutoConfigParser.java:139-151 | no configuration or list gives the empty list; every match returned is of that alliance |
| AutoConfigParser.AllianceMatchesMembers | examples/java/AutoConfigParser.java:145-150 | a match is returned exactly when some wrapper holds it and it is of that alliance |
| AutoConfigParser.AllianceMatchesAppend | examples/java/AutoConfigParser.java:145-150 | the filter keeps list order: filtering a concatenation concatenates the results |
| AutoConfigParser.AllianceFilterExamples | examples/java/AutoConfigParser.java:147-149 | a `Red` match is found for `red`; a null entry and a match without an alliance are skipped; `blue` finds nothing |
| SelectionOpMode.PlayableMatches | examples/java/SelectableConfigAutoOpMode.java:172-178 | only matches with an alliance and an autonomous part are listed, and none is added |
| SelectionOpMode.PlayableMatchesMembers | examples/java/SelectableConfigAutoOpMode.java:172-178 | a match is listed exactly when some wrapper holds it and it is playable |
| SelectionOpMode.PlayableMatchesAppend | examples/java/SelectableConfigAutoOpMode.java:172-178 | the list keeps the file's order: filtering a concatenation concatenates the results |
| SelectionOpMode.Pressed | examples/java/SelectableConfigAutoOpMode.java:221-225 | a button press counts only on the frame where the button goes down |
| SelectionOpMode.Navigate | examples/java/SelectableConfigAutoOpMode.java:235-245 | a valid index stays valid, and with no press it stays where it was |
| SelectionOpMode.NavigateInRange | examples/java/SelectableConfigAutoOpMode.java:235-245 | navigation keeps a valid index valid: up is one step back modulo the size, down one step forward, up wins over down, no press leaves it |
| SelectionOpMode.NavigateWraps | examples/java/SelectableConfigAutoOpMode.java:235-245 | up from the top goes to the bottom entry; down from the bottom goes to the top |
| SelectionOpMode.NavigateUpDown | examples/java/SelectableConfigAutoOpMode.java:235-245 | up then down, or down then up, returns to the same entry |
| SelectionOpMode.WindowContainsSelection | examples/java/SelectableConfigAutoOpMode.java:288-291 | the list window always shows the selected entry and at most five entries, and exactly five when there are enough below |
| SelectionOpMode.RedIsNotBlue | examples/java/SelectableConfigAutoOpMode.java:486-499 | no colour is both red and blue, in any letter case |
| SelectionOpMode.SelectableConfigAutoOpMode.constructor | examples/java/SelectableConfigAutoOpMode.java:67-79 | the field initialisers: no configuration, an empty list, index 0, nothing confirmed or selected, no button held |
| SelectionOpMode.SelectableConfigAutoOpMode.LoadMatchData | examples/java/SelectableConfigAutoOpMode.java:155-214 | a thrown error changes nothing; otherwise the configuration is kept, the list is rebuilt when the file has entries, and the result is true exactly when the rebuilt list is not empty |
| SelectionOpMode.SelectableConfigAutoOpMode.ReadButtons | examples/java/SelectableConfigAutoOpMode.java:221-232 | the presses are this frame's rising edges, and the previous-button flags then hold this frame's states |
| SelectionOpMode.SelectableConfigAutoOpMode.MoveSelection | examples/java/SelectableConfigAutoOpMode.java:235-245 | the index moves as d-pad navigation says |
| SelectionOpMode.SelectableConfigAutoOpMode.ReloadOnPress | examples/java/SelectableConfigAutoOpMode.java:248-260 | Y reloads; a successful reload restarts at index 0; a failed one leaves the index |
| SelectionOpMode.SelectableConfigAutoOpMode.RespondToPress | examples/java/SelectableConfigAutoOpMode.java:263-276 | back shows the highlighted match and returns before A is looked at; A confirms and selects it; an index outside the list raises `IndexOutOfBoundsException` |
| SelectionOpMode.SelectableConfigAutoOpMode.HandleMatchSelection | examples/java/SelectableConfigAutoOpMode.java:219-277 | one frame: the button flags, the navigation, the reload on Y and then back or A, with every listed and selected match playable afterwards |
| SelectionOpMode.SelectableConfigAutoOpMode.IsRedAlliance | examples/java/SelectableConfigAutoOpMode.java:486-489 | red holds only with a selected match, and that match is then not blue |
| SelectionOpMode.SelectableConfigAutoOpMode.IsBlueAlliance | examples/java/SelectableConfigAutoOpMode.java:496-499 | blue holds only with a selected match, and that match is then not red |
| SelectionOpMode.SelectableConfigAutoOpMode.AllianceTestsExclusive | examples/java/SelectableConfigAutoOpMode.java:486-499 | `isRedAlliance` and `isBlueAlliance` never both hold, and neither holds before a match is selected |
| SelectionOpMode.EmptyReloadLeavesStaleIndex | examples/java/SelectableConfigAutoOpMode.java:172-188 | a reload that finds entries but no playable one empties the list, while the index stays where it was |
| ActionUtils.GetActionDisplayLabel | src/utils/actionUtils.js:1-14 | a start with position type `front` or `back` shows the fixed text; a custom one shows its three coordinates, 0 where missing; any other action shows its own label |
| ActionUtils.OtherActionsShowTheirLabel | src/utils/actionUtils.js:2-13 | an action that is not a start shows its label, whatever its config |
| ActionUtils.RenderingOnlyForCustom | src/utils/actionUtils.js:6-11 | only a custom start depends on how numbers are rendered |
| ActionUtils.CustomStartWithoutPose | src/utils/actionUtils.js:6-10 | a custom start with no coordinates shows all three as 0 |
| ActionUtils.ReorderTargetUnchecked | src/utils/actionUtils.js:16-23 | the guard looks at the target only to reject `-1` |
| ActionUtils.ReorderRefusals | src/utils/actionUtils.js:16-23 | a reorder is refused exactly for a `-1` or for a source that is not an element of the list |
| ActionUtils.IsValidReorder | src/utils/actionUtils.js:16-23 | a valid reorder has its source inside the list and a target other than -1; a -1 on either side is refused |
| ActionUtils.CreateNewAction | src/utils/actionUtils.js:25-40 | the new entry takes the fresh id and the catalogue entry's id (as its type), label and config type; it has a config, `{ waitTime: 0 }`, exactly when the entry has `hasConfig` and type `wait` |
| ActionUtils.DefaultWaitGetsNoConfig | src/utils/actionUtils.js:25-31 | the catalogue's own `config` is never copied: the default wait entry gets none |
| ActionUtils.CreatedEntriesDifferOnlyInId | src/utils/actionUtils.js:25-40 | two entries made from the same catalogue entry differ only in their id |
| DragAndDrop.SpliceStart | src/hooks/useDragAndDrop.js:39 | where `splice(start, 0, item)` inserts: a start within the list is kept, one past the end becomes the end, a negative one counts from the end and stops at 0 |
| DragAndDrop.Landing | src/hooks/useDragAndDrop.js:37-39 | the dragged item always lands at an index of the list |
| DragAndDrop.Reorder | src/hooks/useDragAndDrop.js:35-40 | the reordered list has the same length |
| DragAndDrop.ReorderPermutation | src/hooks/useDragAndDrop.js:35-40 | a reorder is a permutation of the list |
| DragAndDrop.ReorderLanding | src/hooks/useDragAndDrop.js:37-39 | for a target inside the list or just past it, the item lands at `to - 1` when dragged forward, else at `to` |
| DragAndDrop.ReorderKeepsOthers | src/hooks/useDragAndDrop.js:35-40 | taking the moved item out again gives the list without it: every other item keeps its relative order |
| DragAndDrop.DropAtEndIsLast | src/hooks/useDragAndDrop.js:50-57 | dropping at the list length makes the dragged item the last one, with the rest in order before it |
| DragAndDrop.DropInPlace | src/hooks/useDragAndDrop.js:35-39 | dropping an item onto itself or its right-hand neighbour changes nothing |
| DragAndDrop.ReleaseTarget | src/hooks/useDragAndDrop.js:105 | no hover target (`-1`) means the end of the list; otherwise the hover index |
| DragAndDrop.HoverOver | src/hooks/useDragAndDrop.js:87-95 | no element under the touch leaves the hover index alone; an action item gives its index; any other element gives the list length |
| DragAndDrop.Dropped | src/hooks/useDragAndDrop.js:34-41 | a valid reorder is applied and anything else leaves the list; either way the result is a permutation |
| DragAndDrop.DragState.constructor | src/hooks/useDragAndDrop.js:4-12 | the initial state: no drag index or hover index, the origin, and no touch, pointer or listener active |
| DragAndDrop.DragState.Finish | src/hooks/useDragAndDrop.js:34-44 | the list after the reorder, and the drag reset |
| DragAndDrop.DragState.DragStart | src/hooks/useDragAndDrop.js:17-22 | the drag index and position are set to those of the event |
| DragAndDrop.DragState.DragOver | src/hooks/useDragAndDrop.js:24-28 | the hover index and position are set to those of the event |
| DragAndDrop.DragState.Drop | src/hooks/useDragAndDrop.js:30-45 | the drop source is the drag index, else the index in the drag data; the list is reordered onto the entry and the drag is reset |
| DragAndDrop.DragState.DropAtEnd | src/hooks/useDragAndDrop.js:47-62 | a valid source becomes the last entry, the others keep their order, and the drag is reset |
| DragAndDrop.DragState.TouchStart | src/hooks/useDragAndDrop.js:65-80 | a missing entry, a start entry and a park entry change nothing; otherwise the touch is active, both indices are the entry's, the position is that of the first touch, and the listeners hold the indices of this render |
| DragAndDrop.DragState.TouchMove | src/hooks/useDragAndDrop.js:82-99 | only an active touch with a touch point moves: the position follows it and the hover index follows the element under it |
| DragAndDrop.DragState.TouchEnd | src/hooks/useDragAndDrop.js:101-120 | with the live indices, an active touch drops the dragged entry onto the hover target (the end when there is none), and the drag and listeners are reset |
| DragAndDrop.DragState.TouchEndAsWritten | src/hooks/useDragAndDrop.js:101-120 | as registered, the release drops from the drag and hover index of the render that saw the touch start |
| DragAndDrop.DragState.PointerDown | src/hooks/useDragAndDrop.js:123-139 | a mouse, a missing entry, a start entry and a park entry change nothing; otherwise a pending drag of that pointer starts at that entry |
| DragAndDrop.DragState.PointerMove | src/hooks/useDragAndDrop.js:141-174 | another pointer changes nothing; a pending drag becomes active only at 8 pixels from its start; an active drag follows the pointer and the element under it |
| DragAndDrop.DragState.PointerUp | src/hooks/useDragAndDrop.js:176-222 | another pointer changes nothing; a pending drag is cancelled without a reorder; with the live indices, an active drag drops onto the hover target and resets |
| DragAndDrop.DragState.PointerUpAsWritten | src/hooks/useDragAndDrop.js:176-222 | as registered, an active drag drops from the drag and hover index of the pointer-down render |
| DragAndDrop.DropFromNoDragKeepsList | src/hooks/useDragAndDrop.js:104-106 | a release whose source is the `-1` of "no drag" never reorders |
| DragAndDrop.TouchDragToEndAsWritten | src/hooks/useDragAndDrop.js:101-113 | dragging the first of two entries to the empty area below them leaves the list as it was, with the handlers as registered |
| DragAndDrop.TouchDragToEnd | src/hooks/useDragAndDrop.js:101-113 | the same drag reading the live indices swaps the two entries |
| WizardActions.RemoveActionById | src/hooks/useWizardActions.js:22-25 | no action with the id is left, and exactly the other actions stay |
| WizardActions.RemoveUnknownAction | src/hooks/useWizardActions.js:22-25 | removing an id that no action has changes nothing |
| WizardActions.MoveAction | src/hooks/useWizardActions.js:27-37 | the first action with the id swaps with its neighbour (the previous one for `up`, the next for anything else) when both exist, else nothing changes; the result is a permutation |
| WizardActions.MoveUpThenDown | src/hooks/useWizardActions.js:27-37 | moving an action up and then down again restores the list |
| WizardActions.MoveAtEndsIsNoOp | src/hooks/useWizardActions.js:30-32 | the first action cannot move up and the last cannot move down |
| WizardActions.SetConfigKey | src/hooks/useWizardActions.js:42 | only `config[key]` changes, to the value; the other keys and fields stay; a missing config spreads as `{}` |
| WizardActions.UpdateActionConfig | src/hooks/useWizardActions.js:39-46 | the list keeps its length; only the actions with that id get the key set, the others stay |
| WizardActions.SetConfigKeyTwice | src/hooks/useWizardActions.js:42 | setting a key twice is setting it to the second value |
| WizardActions.UpdateConfigTwice | src/hooks/useWizardActions.js:39-46 | a second update of the same key wins over the first |
| WizardActions.SetPoseField | src/hooks/useWizardActions.js:54-57 | the chosen field becomes the parsed number (0 for `NaN`); the other fields and the type are kept; a missing start position spreads as `{}` |
| WizardActions.CanGoNext | src/hooks/useWizardActions.js:59-68 | without a current match it is false; step 0 needs a positive number and an alliance; step 1 refuses only an empty start type; later steps are always allowed |
| WizardActions.NewMatchCanGoNext | src/hooks/useWizardActions.js:59-68 | a match from `addMatch` with a positive number can leave the first two steps |
| WizardActions.Wizard.constructor | src/hooks/useWizardActions.js:4-6 | the wizard starts at step 0 with no expanded group |
| WizardActions.Wizard.UpdateCurrentMatch | src/hooks/useWizardActions.js:10-14 | updates go to the current match, and are ignored without a current id |
| WizardActions.Wizard.AddAction | src/hooks/useWizardActions.js:16-20 | it throws exactly without a current match; otherwise that match's actions get one new entry for the catalogue entry at the end |
| WizardActions.Wizard.RemoveAction | src/hooks/useWizardActions.js:22-25 | it throws exactly without a current match; otherwise the actions lose every entry with the id |
| WizardActions.Wizard.MoveActionOf | src/hooks/useWizardActions.js:27-37 | it throws exactly without a current match; an unknown id or a move past either end leaves the matches untouched; otherwise the two actions swap |
| WizardActions.Wizard.UpdateActionConfigOf | src/hooks/useWizardActions.js:39-46 | it throws exactly without a current match; otherwise the config key of the actions with the id is set |
| WizardActions.Wizard.ClearAll | src/hooks/useWizardActions.js:48-52 | a confirmed clear empties the current match's actions; a cancelled one changes nothing |
| WizardActions.Wizard.UpdateStartPositionField | src/hooks/useWizardActions.js:54-57 | it throws exactly without a current match; otherwise one field of its start position becomes the parsed number |
| WizardActions.Wizard.CanGoNextNow | src/hooks/useWizardActions.js:59-68 | the test for the current step and match |
| WizardActions.Wizard.HandleNext | src/hooks/useWizardActions.js:70-74 | one step on, but not past step 3 |
| WizardActions.Wizard.HandlePrev | src/hooks/useWizardActions.js:76-80 | one step back, but not before step 0 |
| Matches.Merge | src/hooks/useMatches.js:51 | each field present in the update overrides the match's own, the others and the id are kept |
| Matches.MergeIdempotent | src/hooks/useMatches.js:51 | merging an update twice is merging it once; the empty update changes nothing |
| Matches.Ids | src/hooks/useMatches.js:56 | the ids of the matches, in list order |
| Matches.FindById | src/hooks/useMatches.js:56 | `None` exactly when no match has the id; otherwise the first match with that id |
| Matches.UpdateAll | src/hooks/useMatches.js:49-53 | the list keeps its length; exactly the matches with the id are merged with the update |
| Matches.UpdateKeepsIds | src/hooks/useMatches.js:49-53 | an update never changes the ids of the list |
| Matches.UpdateUnknownId | src/hooks/useMatches.js:49-53 | updating an id no match has leaves the list as it was |
| Matches.CurrentAfterDeleteAsWritten | src/hooks/useMatches.js:44-46 | the hook picks the first id of the list before the deletion when it held more than one match, else none |
| Matches.DeleteFirstLeavesDeletedCurrent | src/hooks/useMatches.js:42-47 | deleting the current match when it is the first of two or more leaves its id current although no match has it any more |
| Matches.CurrentAfterDelete | src/hooks/useMatches.js:44-46 | the intended choice: none exactly when nothing is left, otherwise an id that finds the first remaining match |
| Matches.ExportAll | src/hooks/useMatches.js:72-83 | one exported entry per match, in order, without its id |
| Matches.Imported | src/hooks/useMatches.js:87-90 | an imported entry carries the given id and exports back to the entry |
| Matches.ImportAll | src/hooks/useMatches.js:85-91 | one match per entry, with the given fresh ids in order, each exporting back to its entry |
| Matches.ExportImportRoundTrip | src/hooks/useMatches.js:72-96 | importing an export under the old ids restores the matches; exporting an import gives the entries back |
| Matches.MatchStore.constructor | src/hooks/useMatches.js:6-18 | the stored list, no current match |
| Matches.MatchStore.GetCurrentMatch | src/hooks/useMatches.js:55-57 | nothing without a current id; with one, the first match that has it, so a match is returned exactly when some match has the current id |
| Matches.MatchStore.AddMatch | src/hooks/useMatches.js:28-40 | one default match is appended, numbered one past the old length, and it becomes current |
| Matches.MatchStore.DeleteMatch | src/hooks/useMatches.js:42-47 | exactly the matches with another id stay; deleting the current match makes the first remaining one current; otherwise the current id is kept |
| Matches.MatchStore.UpdateMatch | src/hooks/useMatches.js:49-53 | the list becomes the update of the matches with the id and of no other |
| Matches.MatchStore.DuplicateMatch | src/hooks/useMatches.js:59-70 | an unknown id changes nothing; otherwise a copy of the first match with it is appended with the fresh id and the next number |
| Matches.MatchStore.ExportAllMatches | src/hooks/useMatches.js:72-83 | the matches in order, each without its id |
| Matches.MatchStore.ImportMatches | src/hooks/useMatches.js:85-96 | without a `matches` array nothing changes; otherwise the list becomes the entries with fresh ids, and the first becomes current when there is one |
| StartPositions.MergeEntry | src/hooks/useStartPositions.js:32 | the properties of both entries, the update's value winning where both have one |
| StartPositions.InitialStartPositions | src/hooks/useStartPositions.js:11-17 | the stored list, or the two defaults `front` and `back` when nothing valid is stored |
| StartPositions.UpdateAt | src/hooks/useStartPositions.js:29-35 | inside the list only the entry at the index changes, to the merge; one past the end appends the update; any other index changes nothing |
| StartPositions.DeleteAddedRestores | src/hooks/useStartPositions.js:25-39 | deleting the entry just added restores the list |
| StartPositions.UpdateWithOwnProperties | src/hooks/useStartPositions.js:29-35 | updating an entry with its own properties changes nothing |
| StartPositions.StartPositionList.constructor | src/hooks/useStartPositions.js:11-17 | the list starts as the stored list or the defaults |
| StartPositions.StartPositionList.AddStartPosition | src/hooks/useStartPositions.js:25-27 | the entry is appended |
| StartPositions.StartPositionList.UpdateStartPosition | src/hooks/useStartPositions.js:29-35 | the list becomes the update at the index |
| StartPositions.StartPositionList.DeleteStartPosition | src/hooks/useStartPositions.js:37-39 | exactly the entry at the index is removed, one fewer entry; an index outside the list changes nothing |
| ActionGroups.InitialActionGroups | src/hooks/useActionGroups.js:44-58 | there is never a `start` group; the defaults when nothing valid is stored; otherwise every other stored group is kept as it was |
| ActionGroups.MergeAction | src/hooks/useActionGroups.js:90 | each field present in the update overrides; the config type and the config are kept |
| ActionGroups.AddCustomGroup | src/hooks/useActionGroups.js:64-67 | nothing for an empty key; otherwise the key holds an empty group with the tools icon, labelled with the label or else the key, and the other groups stay |
| ActionGroups.RenameGroup | src/hooks/useActionGroups.js:69-71 | only the group's label changes, a missing group becoming a label-only group; the other groups stay |
| ActionGroups.DeleteGroup | src/hooks/useActionGroups.js:73-79 | exactly that key is gone, the other groups stay |
| ActionGroups.AddActionToGroup | src/hooks/useActionGroups.js:81-83 | the group's list (empty when missing) gains the action last, its label and icon stay, a missing group becomes an actions-only group; the other groups stay |
| ActionGroups.AddToNewCustomGroup | src/hooks/useActionGroups.js:64-83 | an action added to a new custom group is its whole list |
| ActionGroups.DeleteAddedGroup | src/hooks/useActionGroups.js:64-79 | deleting a group just created under a new key restores the dictionary |
| ActionGroups.UpdateActionInGroup | src/hooks/useActionGroups.js:85-93 | it throws exactly when the group exists without an actions list; a missing group changes nothing; otherwise only the action at the index is merged with the update |
| ActionGroups.DeleteActionInGroup | src/hooks/useActionGroups.js:95-102 | it throws exactly when the group exists without an actions list; a missing group changes nothing; otherwise the action at the index is removed from its list |
| ActionGroups.DeleteActionKeepsRest | src/hooks/useActionGroups.js:95-102 | deleting an action keeps every key, every other group and the group's label and icon |
| ActionGroups.RenamedMissingGroupThrows | src/hooks/useActionGroups.js:69-102 | after renaming a missing key, updating or deleting an action in it throws |
| ActionGroups.ActionGroupStore.constructor | src/hooks/useActionGroups.js:44-58 | the catalogue starts as the migrated stored dictionary or the defaults |
| ActionGroups.ActionGroupStore.AddCustom | src/hooks/useActionGroups.js:64-67 | the catalogue gets the custom group |
| ActionGroups.ActionGroupStore.Rename | src/hooks/useActionGroups.js:69-71 | the catalogue gets the new label |
| ActionGroups.ActionGroupStore.Delete | src/hooks/useActionGroups.js:73-79 | the catalogue loses the group |
| ActionGroups.ActionGroupStore.AddAction | src/hooks/useActionGroups.js:81-83 | the catalogue gets the action appended |
| ActionGroups.ActionGroupStore.UpdateAction | src/hooks/useActionGroups.js:85-93 | reports the `TypeError` exactly when the update throws, and then changes nothing; otherwise the catalogue is updated |
| ActionGroups.ActionGroupStore.DeleteAction | src/hooks/useActionGroups.js:95-102 | reports the `TypeError` exactly when the deletion throws, and then changes nothing; otherwise the action is removed |
| Presets.Saved | src/hooks/usePresets.js:15-22 | refused exactly when the name is all whitespace; otherwise the old list with the new preset last, stamped with the time and keeping the name as typed |
| Presets.Deleted | src/hooks/usePresets.js:24-26 | every preset left is an old one with another id, and every old preset with another id is left |
| Presets.Persisted | src/hooks/usePresets.js:9-13 | storage holds the list whenever it is not empty, and keeps what it had when it is empty |
| Presets.Loaded | src/hooks/usePresets.js:5-7 | the stored list, or none |
| Presets.DeleteSavedRestores | src/hooks/usePresets.js:15-26 | deleting a preset just saved under a time no other preset has gives the old list back |
| Presets.DeletingLastPresetComesBack | src/hooks/usePresets.js:9-13 | deleting the only preset empties the list but not storage, so the next load brings it back |
| Presets.PresetStore.constructor | src/hooks/usePresets.js:5-13 | the list is what storage holds, and storage then mirrors it |
| Presets.PresetStore.SavePreset | src/hooks/usePresets.js:15-22 | true exactly when the name is not blank; then the preset is appended and stored, otherwise nothing changes |
| Presets.PresetStore.DeletePreset | src/hooks/usePresets.js:24-26 | the presets with the id are dropped, and storage follows unless the list became empty |
| TemplateModal.TemplateDialog.constructor | src/hooks/useTemplateModal.js:4-6 | both dialogs closed, no name typed |
| TemplateModal.TemplateDialog.HandleSaveTemplate | src/hooks/useTemplateModal.js:8-17 | a blank name gives the alert and changes nothing; any other name is saved as a preset, after which the name is cleared and the dialog closed; the load dialog is untouched |
| TemplateModal.TemplateDialog.CloseSaveTemplate | src/hooks/useTemplateModal.js:19-22 | the save dialog is closed and the name cleared |
| ThemePreference.GetStoredPreference | src/hooks/useThemePreference.js:8-19 | always a valid preference: the stored one when it is valid in a browser, otherwise `system` |
| ThemePreference.ResolveTheme | src/hooks/useThemePreference.js:28-36 | a preference other than `system` is kept; `system` gives dark exactly when the query matches, light otherwise or without a query |
| ThemePreference.ResolvedIsConcrete | src/hooks/useThemePreference.js:28-36 | a valid preference resolves to light or dark |
| ThemePreference.StoredFor | src/hooks/useThemePreference.js:74-88 | nothing is stored exactly for `system`; any other preference is stored as is |
| ThemePreference.ReloadRestoresPreference | src/hooks/useThemePreference.js:8-19 | a valid preference that was stored is read back on the next load |
| ThemePreference.ThemeState.constructor | src/hooks/useThemePreference.js:38-43 | the stored preference, its resolved theme and, in a browser, the storage the effect leaves |
| ThemePreference.ThemeState.SetPreference | src/hooks/useThemePreference.js:45-88 | the preference changes; in a browser the theme is resolved again and storage mirrors the choice; outside one nothing else changes |
| ThemePreference.ThemeState.MediaChange | src/hooks/useThemePreference.js:64-68 | a media change moves the theme only while the preference is `system`, and the theme then follows the query |
| ActionPicker.OfferedGroups | src/components/ActionPicker.jsx:11 | every group but `start`, and every such group of the catalogue |
| ActionPicker.RepeatableNeverDisabled | src/components/ActionPicker.jsx:45 | an entry with id `W` is never disabled |
| ActionPicker.IsAlreadyAdded | src/components/ActionPicker.jsx:45 | the entry `W` and any entry over an empty list are never disabled; a disabled entry's id is the type of some action in the list |
| ActionPicker.AddedEntryIsDisabled | src/components/ActionPicker.jsx:45-51 | once an entry has been added to the list it is disabled exactly when its id is not `W` |
| ActionPicker.UnusedEntryEnabled | src/components/ActionPicker.jsx:45-51 | an entry whose id no action has as its type stays enabled |
| ActionPicker.NextExpanded | src/components/ActionPicker.jsx:13-17 | a click expands the group exactly when it was not expanded, and collapses everything when it was |
| ActionPicker.ClickTwice | src/components/ActionPicker.jsx:13-17 | two clicks on a collapsed header leave it collapsed |
| AddItemForm.SubmittedLabel | src/components/common/AddItemForm.jsx:30 | the trimmed label, or the trimmed id when the label is blank |
| AddItemForm.SubmitDecision | src/components/common/AddItemForm.jsx:25-38 | nothing exactly for a blank id; otherwise the trimmed id and label, as two arguments or one object as the flag selects |
| AddItemForm.AcceptedFieldsNotBlank | src/components/common/AddItemForm.jsx:25-34 | an accepted submission never carries an empty id or label |
| AddItemForm.RefusedIffBlankId | src/components/common/AddItemForm.jsx:26 | a form is refused exactly when its id holds only whitespace |
| AddItemForm.ShapesAgree | src/components/common/AddItemForm.jsx:28-34 | both shapes carry the same id and label |
| AddItemForm.Form.constructor | src/components/common/AddItemForm.jsx:22-23 | both fields start empty |
| AddItemForm.Form.Submit | src/components/common/AddItemForm.jsx:25-38 | hands on the decision; both fields are cleared exactly when it is accepted |
| AddItemForm.Form.KeyPress | src/components/common/AddItemForm.jsx:40-44 | Enter submits; any other key hands on nothing and changes nothing |
| InlineAddForm.ValidationError | src/components/common/InlineAddForm.jsx:43-62 | the empty-label error for a blank label, the duplicate error for a label that matches an existing one, and no error exactly otherwise |
| InlineAddForm.SameLabelIsDuplicate | src/components/common/InlineAddForm.jsx:53-58 | a label equal to an existing one up to surrounding whitespace and ASCII case is refused as a duplicate |
| InlineAddForm.SubmittedLabelIsUnique | src/components/common/InlineAddForm.jsx:43-70 | no error exactly when the label is not blank and not a duplicate, so no existing label matches a label without error |
| InlineAddForm.InlineForm.constructor | src/components/common/InlineAddForm.jsx:24-25 | an empty label and no error |
| InlineAddForm.InlineForm.Open | src/components/common/InlineAddForm.jsx:29-40 | opening sets the default label and clears the error |
| InlineAddForm.InlineForm.Validate | src/components/common/InlineAddForm.jsx:43-62 | on a shown form the error becomes the verdict on the label; a hidden form keeps it |
| InlineAddForm.InlineForm.Edit | src/components/common/InlineAddForm.jsx:106 | the label becomes the typed text, then the validation runs |
| InlineAddForm.InlineForm.Submit | src/components/common/InlineAddForm.jsx:64-70 | the trimmed label is handed on exactly when there is no error and the label is not blank |
| InlineAddForm.InlineForm.Cancel | src/components/common/InlineAddForm.jsx:72-76 | the label and the error are cleared |
| InlineAddForm.InlineForm.KeyDown | src/components/common/InlineAddForm.jsx:78-84 | Enter submits when it can and otherwise does nothing; Escape cancels; other keys do nothing |
| ManageStartPositions.KeyNumber | src/components/ManageStartPositionsModal.jsx:24-26 | the decimal number of an `S{n}` key, and 0 for an entry without such a key |
| ManageStartPositions.MaxKeyNumber | src/components/ManageStartPositionsModal.jsx:23-28 | an upper bound of every key number that is 0 or the number of some entry |
| ManageStartPositions.NextKeyNumber | src/components/ManageStartPositionsModal.jsx:23-29 | at least 1, above every key number, and one past an existing number unless it is 1 |
| ManageStartPositions.UnnumberedEntryIgnored | src/components/ManageStartPositionsModal.jsx:23-29 | an entry without a numbered key, `S0` included, does not move the next number |
| ManageStartPositions.AddingProposedKeyAdvances | src/components/ManageStartPositionsModal.jsx:23-30 | adding a position keyed with the proposed number moves the proposal on by one |
| ManageStartPositions.DisplayList | src/components/ManageStartPositionsModal.jsx:15-18 | the custom `S0` row first, then the configured positions in order |
| ManageStartPositions.ActualIndex | src/components/ManageStartPositionsModal.jsx:81-82 | -1 for a row keyed `S0`, otherwise its index in the configured list |
| ManageStartPositions.Controls | src/components/ManageStartPositionsModal.jsx:105-130 | a row is read-only exactly when it is keyed `S0`; an editable row acts on its index in the configured list |
| ManageStartPositions.CustomRowIsReadOnly | src/components/ManageStartPositionsModal.jsx:15-18 | the reserved first row can be neither edited nor deleted |
| ManageStartPositions.RowsMapToTheirEntries | src/components/ManageStartPositionsModal.jsx:80-130 | every other row edits the label of, and deletes, its own configured position |
| ManageStartPositions.ConfiguredS0IsReadOnly | src/components/ManageStartPositionsModal.jsx:81-82 | a configured position keyed `S0` is shown read-only too, without a delete button |
| ManageStartPositions.AddDialog.constructor | src/components/ManageStartPositionsModal.jsx:11-12 | the dialog starts closed with no label |
| ManageStartPositions.AddDialog.HandleAdd | src/components/ManageStartPositionsModal.jsx:20-31 | the dialog opens, proposing the label for the next key number |
| ManageStartPositions.AddDialog.ConfirmAdd | src/components/ManageStartPositionsModal.jsx:33-39 | a label that is not blank is handed on trimmed, nothing otherwise; the dialog always closes and clears |
| ManageStartPositions.AddDialog.CancelAdd | src/components/ManageStartPositionsModal.jsx:41-44 | the dialog closes and clears |
| StartPositionStep.Unsigned | src/components/steps/Step4StartPosition.jsx:147 | the text is the optional leading minus followed by the result |
| StartPositionStep.AfterWhole | src/components/steps/Step4StartPosition.jsx:147 | the unsigned text is its leading digits followed by the result |
| StartPositionStep.EditPatternSound | src/components/steps/Step4StartPosition.jsx:147 | every text the filter accepts is an optional minus, digits, an optional point and digits |
| StartPositionStep.EditPatternComplete | src/components/steps/Step4StartPosition.jsx:147 | every text made of those pieces is accepted, the empty text and a lone minus among them |
| StartPositionStep.SecondPointRejected | src/components/steps/Step4StartPosition.jsx:147 | a second decimal point is refused |
| StartPositionStep.SecondMinusRejected | src/components/steps/Step4StartPosition.jsx:147 | a second minus is refused |
| StartPositionStep.TrailingMinusRejected | src/components/steps/Step4StartPosition.jsx:147 | a minus after digits is refused |
| StartPositionStep.LetterRejected | src/components/steps/Step4StartPosition.jsx:147 | a letter, as in an exponent, is refused |
| StartPositionStep.FieldChange | src/components/steps/Step4StartPosition.jsx:145-151 | an accepted text becomes the field's editing value; a refused one changes nothing; the other fields keep theirs |
| StartPositionStep.RuleOf | src/components/steps/Step4StartPosition.jsx:102-133 | each field has a positive bound and a quantisation range of twice the bound |
| StartPositionStep.ClampToBound | src/components/steps/Step4StartPosition.jsx:104 | the result lies within the bound, equals a value already inside it, and differs from the value by exactly how far it lies outside |
| StartPositionStep.SnapWithinBound | src/utils/poseEncoder.js:141-146 | a value clamped and snapped to the pose grid stays within the bound |
| StartPositionStep.DecimalRound | src/components/steps/Step4StartPosition.jsx:118 | rounding to a number of decimals moves the value by at most half a unit of the last place |
| StartPositionStep.BlurDecision | src/components/steps/Step4StartPosition.jsx:85-133 | `NaN` stores 0 silently; otherwise the value in metres (or degrees) is clamped and snapped; the clamp message exactly when the value lies beyond the bound by more than the tolerance; otherwise the rounding message exactly when the snap moved it by more than the tolerance |
| StartPositionStep.BlurValueNearBound | src/components/steps/Step4StartPosition.jsx:102-133 | the stored value lies within the bound, up to the decimals kept |
| StartPositionStep.HeadingIgnoresUnits | src/components/steps/Step4StartPosition.jsx:94-96 | the heading is decided the same whatever the length unit |
| StartPositionStep.InchesDecidedAsMetres | src/components/steps/Step4StartPosition.jsx:94-96 | an x or y typed in inches is stored, and reported or not, as the same length typed in metres |
| StartPositionStep.GridValueIsSilent | src/components/steps/Step4StartPosition.jsx:98-133 | a value on the grid and within the bound is stored without a message |
| StartPositionStep.FieldEdgeIsRounded | src/components/steps/Step4StartPosition.jsx:102-118 | 72 inches is not clamped but rounded to the top grid point 1.827907 m, with the rounding message |
| StartPositionStep.DisplayValue | src/components/steps/Step4StartPosition.jsx:154-182 | the editing value while there is one; `0` for a missing, `NaN` or zero value; otherwise the value in the display unit at the decimals of the field |
| StartPositionStep.PoseEditor.constructor | src/components/steps/Step4StartPosition.jsx:15-20 | no field is being edited and no message is shown |
| StartPositionStep.PoseEditor.Display | src/components/steps/Step4StartPosition.jsx:154-182 | a field being edited shows what was typed; any other field shows its stored value, whatever the other fields' editing state |
| StartPositionStep.PoseEditor.Change | src/components/steps/Step4StartPosition.jsx:145-151 | the editing values follow the filter |
| StartPositionStep.PoseEditor.Blur | src/components/steps/Step4StartPosition.jsx:77-143 | the field stops being edited, the decided value is handed on, and a message, when there is one, replaces the shown one |
| StartPositionStep.PoseEditor.MessageTimeout | src/components/steps/Step4StartPosition.jsx:141 | the message is cleared |

## Left out

- Rendering, styling and layout of every component, and the components that only render or delegate.
- Browser storage and file I/O: reading and writing `localStorage`, JSON parsing of stored values, Blob downloads (`exportConfig`, the manage dialog's export and close buttons), Gson's `parseFile`, and the Java file system. A stored value is a parameter that is `None` when nothing valid is stored.
- Floating-point behaviour: coordinates are `real`. IEEE rounding, the six-decimal cleanup inside `roundToResolution`, and the inch and metre constants not being exact inverses are not modelled. `Math.PI` is a positive parameter of the angle conversions.
- `toFixed` inside a value, as used on blur, is exact decimal rounding with halves away from zero. `toFixed` used for display (`getDisplayValue`, `handleFieldFocus`, `getStartPositionLabel`) is the value together with its number of decimals (`StartPositionStep.Shown`); the text itself is not modelled.
- `handleFieldFocus` and `getStartPositionLabel` of the start-position step: display text only.
- `parseFloat` and `Number` leniency (exponents, leading white space, trailing text): their result is a parameter.
- Strings.ToLower: maps only the ASCII letters; `toLowerCase` also folds other Unicode letters.
- JavaScript object key order, and properties that the source never reads.
- TerseEncoder.ActionId: `ACTION_TO_ID` is a plain object, so a type that names a member inherited from `Object.prototype` is found by the lookup and is truthy. For `toString` or `constructor` JavaScript writes `A` followed by the function's source text (such as `Afunction Object() { [native code] }`), and for `__proto__` it writes `A[object Object]`. The model treats only the ten catalogue types as present and writes `A99` for these names.
- The Java `float` in `Math.round(ms / 1000.0f)`: the wait is rounded as exact arithmetic. For very large wait times a `float` loses precision, and that is not captured.
- A `null` action type in the Java codec, which throws `NullPointerException` in `getActionId`: the modelled type is always a string.
- TerseMatchCodec.EncodeStartPosition: a start position whose `type` is `null`, which Gson leaves when the key is missing and on which `pos.type.toLowerCase()` throws a `NullPointerException`, is not representable: the modelled type is always a string.
- TerseMatchCodec.Encoding: the `NullPointerException`s of a `null` start type and of a `null` element of `auto.actions` (read at `action.type`) are not representable, so the model throws only for a null or empty alliance colour.
- TerseMatchCodec.EncodeConfig: a `null` first element of the match list, on which `wrapper.match` throws a `NullPointerException`, is not representable: every element is a wrapper.
- Java `Action.getConfigInt`: abstracted as an optional integer `waitTime`, with the default applied by the caller.
- AutoConfigParser.GetMatchByNumber: a `null` element of the Java match list, on which `getMatchByNumber` throws a `NullPointerException`, is not modelled: every element is a wrapper, whose match may be `null`.
- AutoConfigParser.GetMatchesByAlliance: a `null` element of the match list, on which `wrapper -> wrapper.match` throws a `NullPointerException`, is not representable; every element is a wrapper.
- SelectionOpMode.SelectableConfigAutoOpMode.LoadMatchData: a `null` element of the match list throws a `NullPointerException` at `config.matches.get(i).match`; the catch then returns false with `config` already replaced and `availableMatches` partly rebuilt. That path is not representable, since every element is a wrapper.
- AutoConfigParser.ParseRoot: a `version` that is JSON `null`, an object or an array, on which `getAsString` throws, is not representable: the version is a string or absent.
- TerseEncoder.WaitMilliseconds: a text wait time is coerced to a number only when it is blank or an optionally signed run of decimal digits; text with a fraction, an exponent, a hex prefix or `Infinity`, which JavaScript reads as a number, is read as NaN here. The app itself stores numbers (`parseInt(waitTime) || 0` in `App.jsx`, `waitTime: 0` in `createNewAction`), so text arrives only from edited files.
- TerseMatchCodec.NextLetter: only the ASCII digits are skipped; Java's `Character.isDigit` also skips every other Unicode decimal digit, so a text such as `5\u0663RS1` is read by Java as match 53 and here as match 5.
- TerseMatchCodec.ParseInt: only ASCII digit runs are read; `Integer.parseInt` also accepts other Unicode decimal digits.
- Strings.UpperChar: maps only the ASCII letters; `toUpperCase` on the alliance letter also maps other Unicode letters.
- Strings.EqualsIgnoreCase: compares ASCII letters without case; Java's `equalsIgnoreCase` also folds other Unicode letters.
- Telemetry, `sleep`, `waitForStart`, `runOpMode`, `showMatchDetails` and every telemetry text of the selection op mode; the frame loop is a method that handles one frame.
- The Java decoder's loop and the encoder's token loop are separate methods (`TerseMatchCodec.DecodeActionLoop`, `TerseMatchCodec.AppendActionTokens`), and `handleMatchSelection` is split into its phases, so each proof stays small; together they do what the single Java methods do.
- The drag threshold `Math.hypot(dx, dy) >= 8` is compared as squares, `dx*dx + dy*dy >= 64`.
- The DOM lookup under a touch point (`document.elementFromPoint` and `closest`) is a parameter that says which kind of element, if any, is there. Pointer capture, `preventDefault` and the window listeners' registration and removal are not modelled.
- StartPositions.UpdateAt: an index two or more past the end of the list, for which JavaScript leaves a hole in the array, is modelled as no change.
- ActionGroups.UpdateActionInGroup: an index outside the group's list, for which JavaScript writes past the end or under a negative key, is modelled as no change.
- Matches.MatchStore.UpdateMatch: an update that itself carries an `id` is not modelled. The update is a record without an id.
- Matches.MatchStore.ImportMatches: a `config` that is `null` or `undefined` throws a `TypeError` in the source; the model takes a present configuration whose `matches` may be missing.
- Matches.MatchStore.DeleteMatch: uses the corrected choice of the next current match (see Findings); the choice as written is `Matches.CurrentAfterDeleteAsWritten`.
- The theme's `document.documentElement` class and `data-theme` attribute, and the listener bookkeeping: only `resolvedTheme` is modelled.
- The three-second timer that clears the start-position step's message is a method of its own (`MessageTimeout`). The inline form's focus-and-select timer is not modelled.
- The `isSystem` flag of the start-position dialog's `S0` row: the rows are maps of strings, and the flag is never read.
- The `+ 1` and `- 1` step messages of the wizard navigation, which are display only.
- The plain setters returned by the hooks (`setCurrentMatchId`, `setShowLoadTemplate`, `setTemplateName` and the like).
- The label-edit path of the start-position dialog, which is `updateStartPosition` with a `label` property; it is covered by `ManageStartPositions.RowsMapToTheirEntries` and no further.
- `getSelectedMatch`, `getStartPosition` and `getActions` of the selection op mode: plain getters of fields the model exposes.
- The web app's `S0` pose token has no decoder on the web side. The Java decoder's reading of it is modelled as written (`TerseMatchCodec.WebPoseTextNotDecoded`).

## Findings

| source | as written | input that shows it | evidently intended | confidence | as-written member | corrected member |
|---|---|---|---|---|---|---|
| src/utils/poseEncoder.js:79-80 | `decodePose` appends `==` to the six characters, so `atob` returns four bytes and `bytes[4]` is `undefined`; the heading's low nibble is lost | the pose (0, 0, 1 degree), units (2048, 2048, 2059), decodes to heading 0 degrees | the six packed bytes come back and the heading is recovered; appending `AA` does this | not executed | PoseEncoder.HeadingNibbleLost | PoseEncoder.PoseTokenDecodes |
| src/utils/terseEncoder.js:67 | the fallback for a pose that cannot be encoded is `AAAAAA`, which is units (0, 0, 0), the corner (-1.8288, -1.8288, -180) | a custom start with x = 5 m gives `1RS0AAAAAA` for match 1, red (`TerseEncoder.UnencodableStartWritten`), which decodes to that corner | a neutral pose: the origin's own token, as `TerseEncoder.CorrectedTerse` writes it | not executed | TerseEncoder.FallbackIsNotOrigin | TerseEncoder.OriginFallback |
| src/hooks/useDragAndDrop.js:101-113 | the window listeners for the touch release are the closures of the render that started the touch, so they read `dragIndex` as -1 and never reorder | the list [a, b]; touch start on entry 0, move over an empty area, release | the entry dragged to the end becomes the last one, [b, a] | not executed | DragAndDrop.TouchDragToEndAsWritten | DragAndDrop.TouchDragToEnd |
| src/hooks/useMatches.js:44-46 | deleting the current match picks `matches[0].id` of the list before the deletion | two matches, the first current; deleting it leaves its own id current | the first match that is left becomes current | not executed | Matches.DeleteFirstLeavesDeletedCurrent | Matches.CurrentAfterDelete |
