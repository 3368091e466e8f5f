/**
 * The robot-side reader of exported match data: the schema-version and
 * root-shape rules applied to a parsed JSON object, and the lookups of a
 * match by its number and of the matches of one alliance.
 */
module AutoConfigParser {
  import opened Wrappers
  import opened Strings
  import opened MatchData

  const SupportedVersion: string := "1.0.0"

  /** The version a file without a `version` key is given. */
  const LegacyVersion: string := "legacy"

  const MissingMatchesError: string := "Invalid JSON: missing 'matches' or 'match' field"

  function UnsupportedVersionError(version: string): string {
    "Unsupported schema version: " + version + ". Expected: " + SupportedVersion
  }

  /** A key of the JSON root: missing, present with `null`, or present with a value. */
  datatype Field<T> = Absent | Null | Present(value: T)

  /**
   * The parts of the JSON root the parser reads: the `version` string, the
   * `matches` array and the legacy single `match` object, each as Gson
   * converts it.
   */
  datatype JsonRoot = JsonRoot(version: Option<string>, matches: Field<seq<MatchWrapper>>, single: Field<Match>)

  /** `isVersionSupported`: only the exact version text is accepted. */
  predicate IsVersionSupported(version: string)
    ensures IsVersionSupported(version) <==> version == "1.0.0"
  {
    version == SupportedVersion
  }

  /** The match list of the root: `matches` if the key is there, else `match` wrapped alone. */
  function RootWrappers(root: JsonRoot): (r: Result<Option<seq<MatchWrapper>>, string>)
    ensures r.Failure? <==> root.matches.Absent? && root.single.Absent?
    ensures r.Failure? ==> r.error == MissingMatchesError
    ensures root.matches.Present? ==> r == Success(Some(root.matches.value))
    ensures root.matches.Null? ==> r == Success(None)
    ensures root.matches.Absent? && root.single.Present? ==> r == Success(Some([MatchWrapper(Some(root.single.value))]))
    ensures root.matches.Absent? && root.single.Null? ==> r == Success(Some([MatchWrapper(None)]))
  {
    match root.matches
    case Present(wrappers) => Success(Some(wrappers))
    case Null => Success(None)
    case Absent =>
      match root.single
      case Present(m) => Success(Some([MatchWrapper(Some(m))]))
      case Null => Success(Some([MatchWrapper(None)]))
      case Absent => Failure(MissingMatchesError)
  }

  /** `parseRoot`: the configuration, or the message of the `IllegalArgumentException` it throws. */
  function ParseRoot(root: JsonRoot): (r: Result<MatchDataConfig, string>)
    ensures r.Failure? <==>
      (root.version.Some? && !IsVersionSupported(root.version.value)) || (root.matches.Absent? && root.single.Absent?)
    ensures root.version.Some? && !IsVersionSupported(root.version.value) ==>
      r == Failure(UnsupportedVersionError(root.version.value))
    ensures r.Success? ==> r.value.version == Some(if root.version.Some? then SupportedVersion else LegacyVersion)
    ensures r.Success? ==> Success(r.value.matches) == RootWrappers(root)
  {
    if root.version.Some? && !IsVersionSupported(root.version.value) then
      Failure(UnsupportedVersionError(root.version.value))
    else
      var wrappers :- RootWrappers(root);
      Success(MatchDataConfig(Some(root.version.GetOr(LegacyVersion)), wrappers))
  }

  /** A `matches` key wins over a `match` key: the latter is then not read at all. */
  lemma MatchesTakesPrecedence(root: JsonRoot, other: Field<Match>)
    requires !root.matches.Absent?
    ensures ParseRoot(root.(single := other)) == ParseRoot(root)
  {
  }

  /** A legacy file with only `match` parses to a one-element list holding that match. */
  lemma LegacySingleMatch(m: Match)
    ensures ParseRoot(JsonRoot(None, Absent, Present(m)))
            == Success(MatchDataConfig(Some(LegacyVersion), Some([MatchWrapper(Some(m))])))
  {
  }

  /** An accepted version is kept as it was given. */
  lemma SupportedVersionKept(root: JsonRoot)
    requires root.version == Some("1.0.0") && !(root.matches.Absent? && root.single.Absent?)
    ensures ParseRoot(root).Success? && ParseRoot(root).value.version == Some("1.0.0")
  {
  }

  /** The version is checked first: an unsupported version is reported even when both match keys are missing. */
  lemma VersionCheckedFirst()
    ensures ParseRoot(JsonRoot(Some("2.0.0"), Absent, Absent))
            == Failure("Unsupported schema version: 2.0.0. Expected: 1.0.0")
    ensures ParseRoot(JsonRoot(Some("1.0"), Present([]), Absent)).Failure?
  {
    assert "2.0.0"[0] != SupportedVersion[0];
    assert UnsupportedVersionError("2.0.0") == "Unsupported schema version: 2.0.0. Expected: 1.0.0";
    assert |"1.0"| != |SupportedVersion|;
  }

  // Lookup by number

  /** A wrapper holding a match with this number. */
  predicate Numbered(w: MatchWrapper, number: int) {
    w.wrapped.Some? && w.wrapped.value.number == number
  }

  /** The index of the first wrapper holding a match with this number, or the length if none does. */
  function IndexOfNumber(wrappers: seq<MatchWrapper>, number: int): (k: nat)
    ensures k <= |wrappers|
    ensures k < |wrappers| ==> Numbered(wrappers[k], number)
    ensures forall j :: 0 <= j < k ==> !Numbered(wrappers[j], number)
  {
    if wrappers == [] then 0
    else if Numbered(wrappers[0], number) then 0
    else
      var k := 1 + IndexOfNumber(wrappers[1..], number);
      assert forall j :: 1 <= j < k ==> wrappers[j] == wrappers[1..][j - 1];
      k
  }

  /** What `getMatchByNumber` returns, `None` standing for `null`. */
  function MatchByNumber(config: Option<MatchDataConfig>, number: int): Option<Match> {
    if config.None? || config.value.matches.None? then None
    else
      var wrappers := config.value.matches.value;
      var k := IndexOfNumber(wrappers, number);
      if k < |wrappers| then wrappers[k].wrapped else None
  }

  /**
   * `getMatchByNumber`: the scan with early return. The match returned is the
   * first one with that number, and nothing is returned only when no wrapper
   * holds such a match.
   */
  method GetMatchByNumber(config: Option<MatchDataConfig>, number: int) returns (r: Option<Match>)
    ensures r == MatchByNumber(config, number)
    ensures r.Some? ==> r.value.number == number
    ensures config.Some? && config.value.matches.Some? ==>
      var wrappers := config.value.matches.value;
      && (r.None? <==> forall j :: 0 <= j < |wrappers| ==> !Numbered(wrappers[j], number))
      && (r.Some? ==> exists k :: 0 <= k < |wrappers| && wrappers[k].wrapped == r
                               && forall j :: 0 <= j < k ==> !Numbered(wrappers[j], number))
  {
    if config.None? || config.value.matches.None? {
      return None;
    }
    var wrappers := config.value.matches.value;
    var i := 0;
    while i < |wrappers|
      invariant 0 <= i <= |wrappers|
      invariant forall j :: 0 <= j < i ==> !Numbered(wrappers[j], number)
    {
      if wrappers[i].wrapped.Some? && wrappers[i].wrapped.value.number == number {
        assert IndexOfNumber(wrappers, number) == i;
        return wrappers[i].wrapped;
      }
      i := i + 1;
    }
    assert IndexOfNumber(wrappers, number) == |wrappers|;
    return None;
  }

  // Lookup by alliance

  /** The stream filter: a match whose alliance colour equals `color`, ignoring case. */
  predicate OfAlliance(m: Option<Match>, color: string) {
    && m.Some? && m.value.alliance.Some? && m.value.alliance.value.color.Some?
    && EqualsIgnoreCase(color, m.value.alliance.value.color.value)
  }

  /** `map(wrapper -> wrapper.match).filter(...)`, in the order of the list. */
  function AllianceMatches(wrappers: seq<MatchWrapper>, color: string): (r: seq<Match>)
    ensures |r| <= |wrappers|
    ensures forall i :: 0 <= i < |r| ==> OfAlliance(Some(r[i]), color)
  {
    if wrappers == [] then []
    else
      var m := wrappers[0].wrapped;
      (if OfAlliance(m, color) then [m.value] else []) + AllianceMatches(wrappers[1..], color)
  }

  /** `getMatchesByAlliance`; a missing configuration or list gives the empty list. */
  function GetMatchesByAlliance(config: Option<MatchDataConfig>, color: string): (r: seq<Match>)
    ensures config.None? || config.value.matches.None? ==> r == []
    ensures forall i :: 0 <= i < |r| ==> OfAlliance(Some(r[i]), color)
  {
    if config.None? || config.value.matches.None? then []
    else AllianceMatches(config.value.matches.value, color)
  }

  /** A match is in the result exactly when some wrapper holds it and it is of that alliance. */
  lemma {:induction false} AllianceMatchesMembers(wrappers: seq<MatchWrapper>, color: string, m: Match)
    ensures m in AllianceMatches(wrappers, color) <==>
      OfAlliance(Some(m), color) && exists k :: 0 <= k < |wrappers| && wrappers[k].wrapped == Some(m)
    decreases |wrappers|
  {
    if wrappers != [] {
      AllianceMatchesMembers(wrappers[1..], color, m);
      if exists k :: 1 <= k < |wrappers| && wrappers[k].wrapped == Some(m) {
        var k :| 1 <= k < |wrappers| && wrappers[k].wrapped == Some(m);
        assert wrappers[1..][k - 1].wrapped == Some(m);
      }
      if exists k :: 0 <= k < |wrappers[1..]| && wrappers[1..][k].wrapped == Some(m) {
        var k :| 0 <= k < |wrappers[1..]| && wrappers[1..][k].wrapped == Some(m);
        assert wrappers[k + 1].wrapped == Some(m);
      }
    }
  }

  /** The filter keeps the order of the list: filtering a concatenation concatenates the results. */
  lemma {:induction false} AllianceMatchesAppend(a: seq<MatchWrapper>, b: seq<MatchWrapper>, color: string)
    ensures AllianceMatches(a + b, color) == AllianceMatches(a, color) + AllianceMatches(b, color)
    decreases |a|
  {
    if a == [] {
      assert a + b == b;
    } else {
      assert (a + b)[0] == a[0];
      assert (a + b)[1..] == a[1..] + b;
      AllianceMatchesAppend(a[1..], b, color);
    }
  }

  /** A match of another colour, one without an alliance and a null entry are all left out. */
  lemma AllianceFilterExamples(m: Match, n: Match)
    requires m.alliance == Some(Alliance(Some("Red"), 1, None)) && n.alliance == None
    ensures AllianceMatches([MatchWrapper(Some(m)), MatchWrapper(None), MatchWrapper(Some(n))], "red") == [m]
    ensures AllianceMatches([MatchWrapper(Some(m))], "blue") == []
  {
    assert EqualsIgnoreCase("red", "Red") by {
      assert ToLower("Red") == "red";
    }
    assert !EqualsIgnoreCase("blue", "Red") by {
      assert |ToLower("blue")| != |ToLower("Red")|;
    }
    var ws := [MatchWrapper(Some(m)), MatchWrapper(None), MatchWrapper(Some(n))];
    assert ws[1..][1..][1..] == [];
    assert AllianceMatches(ws[1..][1..], "red") == [];
    assert AllianceMatches(ws[1..], "red") == [];
    assert OfAlliance(ws[0].wrapped, "red");
  }
}
