/**
 * The match list of the web app (`useMatches`): the list of matches and the
 * id of the current one, the operations that replace them, and the export
 * and import of the whole list. `freshId` parameters stand for
 * `crypto.randomUUID()`.
 */
module Matches {
  import opened Wrappers
  import opened AppTypes
  import opened Lists

  /**
   * An `updates` object spread over a match: each present field overrides
   * the match's own. `startPosition` is `Some(None)` for an update to `null`.
   */
  datatype MatchUpdate = MatchUpdate(matchNumber: Option<int>, partnerTeam: Option<string>, alliance: Option<string>,
                                     startPosition: Option<Option<StartPosition>>, actions: Option<seq<Action>>)

  const NoUpdate: MatchUpdate := MatchUpdate(None, None, None, None, None)

  /** The update `{ actions }`. */
  function ActionsUpdate(actions: seq<Action>): MatchUpdate {
    NoUpdate.(actions := Some(actions))
  }

  /** The update `{ startPosition }`. */
  function StartPositionUpdate(p: StartPosition): MatchUpdate {
    NoUpdate.(startPosition := Some(Some(p)))
  }

  /** `{ ...match, ...updates }`. */
  function Merge(m: Match, u: MatchUpdate): (r: Match)
    ensures r.id == m.id
    ensures r.matchNumber == u.matchNumber.GetOr(m.matchNumber)
    ensures r.partnerTeam == u.partnerTeam.GetOr(m.partnerTeam)
    ensures r.alliance == u.alliance.GetOr(m.alliance)
    ensures r.startPosition == u.startPosition.GetOr(m.startPosition)
    ensures r.actions == u.actions.GetOr(m.actions)
  {
    Match(m.id, u.matchNumber.GetOr(m.matchNumber), u.partnerTeam.GetOr(m.partnerTeam), u.alliance.GetOr(m.alliance),
          u.startPosition.GetOr(m.startPosition), u.actions.GetOr(m.actions))
  }

  /** Merging the same update twice is merging it once; the empty update changes nothing. */
  lemma MergeIdempotent(m: Match, u: MatchUpdate)
    ensures Merge(Merge(m, u), u) == Merge(m, u)
    ensures Merge(m, NoUpdate) == m
  {
  }

  /** `id` of each match, in order. */
  function Ids(ms: seq<Match>): (r: seq<string>)
    ensures |r| == |ms| && forall i :: 0 <= i < |ms| ==> r[i] == ms[i].id
  {
    seq(|ms|, i requires 0 <= i < |ms| => ms[i].id)
  }

  /** `m => m.id === id`. */
  function HasId(id: string): Match -> bool {
    (m: Match) => m.id == id
  }

  /** `m => m.id !== id`. */
  function LacksId(id: string): Match -> bool {
    (m: Match) => m.id != id
  }

  /** A new match: the next number, no partner, red, the legacy front start and no actions. */
  function NewMatch(id: string, number: int): Match {
    Match(id, number, "", "red", Some(LegacyFront), [])
  }

  /** `matches.find(m => m.id === id)`. */
  function FindById(ms: seq<Match>, id: string): (r: Option<Match>)
    ensures r.None? <==> forall i :: 0 <= i < |ms| ==> ms[i].id != id
    ensures r.Some? ==> exists k :: 0 <= k < |ms| && ms[k] == r.value && forall j :: 0 <= j < k ==> ms[j].id != id
    ensures r.Some? ==> r.value.id == id
  {
    var k := FirstIndex(ms, HasId(id));
    if k < |ms| then Some(ms[k]) else None
  }

  /** `prev.map(match => match.id === id ? { ...match, ...updates } : match)`. */
  function UpdateAll(ms: seq<Match>, id: string, u: MatchUpdate): (r: seq<Match>)
    ensures |r| == |ms|
    ensures forall i :: 0 <= i < |ms| ==> r[i] == if ms[i].id == id then Merge(ms[i], u) else ms[i]
  {
    seq(|ms|, i requires 0 <= i < |ms| => if ms[i].id == id then Merge(ms[i], u) else ms[i])
  }

  /** An update keeps every id, so the list still holds the same matches by id. */
  lemma UpdateKeepsIds(ms: seq<Match>, id: string, u: MatchUpdate)
    ensures Ids(UpdateAll(ms, id, u)) == Ids(ms)
  {
  }

  /** An update of an id that no match has leaves the list as it was. */
  lemma UpdateUnknownId(ms: seq<Match>, id: string, u: MatchUpdate)
    requires forall i :: 0 <= i < |ms| ==> ms[i].id != id
    ensures UpdateAll(ms, id, u) == ms
  {
  }

  /**
   * The current id after deleting `id` while it is current, as written:
   * `matches[0].id` of the list before the deletion when it held more than
   * one match, else `null`.
   */
  function CurrentAfterDeleteAsWritten(ms: seq<Match>, id: string): (r: Option<string>)
    ensures |ms| > 1 ==> r == Some(ms[0].id)
    ensures |ms| <= 1 ==> r == None
  {
    if |ms| > 1 then Some(ms[0].id) else None
  }

  /** Deleting the first of two or more matches while it is current leaves the deleted id current. */
  lemma DeleteFirstLeavesDeletedCurrent(ms: seq<Match>)
    requires |ms| > 1
    ensures var id := ms[0].id;
      CurrentAfterDeleteAsWritten(ms, id) == Some(id) && FindById(Filter(ms, LacksId(id)), id).None?
  {
    var id := ms[0].id;
    var rest := Filter(ms, LacksId(id));
    forall i | 0 <= i < |rest|
      ensures rest[i].id != id
    {
      assert LacksId(id)(rest[i]);
    }
  }

  /** The current id after a deletion: the first match that is left, or `null` when none is. */
  function CurrentAfterDelete(remaining: seq<Match>): (r: Option<string>)
    ensures r.None? <==> remaining == []
    ensures r.Some? ==> FindById(remaining, r.value) == Some(remaining[0])
  {
    if remaining == [] then None else Some(remaining[0].id)
  }

  /** `exportAllMatches`'s entries: a match without its id. */
  datatype ExportedMatch = ExportedMatch(matchNumber: int, partnerTeam: string, alliance: string,
                                         startPosition: Option<StartPosition>, actions: seq<Action>)

  function Exported(m: Match): ExportedMatch {
    ExportedMatch(m.matchNumber, m.partnerTeam, m.alliance, m.startPosition, m.actions)
  }

  /** `matches.map(({ id, ...match }) => ...)`. */
  function ExportAll(ms: seq<Match>): (r: seq<ExportedMatch>)
    ensures |r| == |ms| && forall i :: 0 <= i < |ms| ==> r[i] == Exported(ms[i])
  {
    seq(|ms|, i requires 0 <= i < |ms| => Exported(ms[i]))
  }

  /** `{ ...match, id }`: an exported entry given an id. */
  function Imported(e: ExportedMatch, id: string): (m: Match)
    ensures Exported(m) == e && m.id == id
  {
    Match(id, e.matchNumber, e.partnerTeam, e.alliance, e.startPosition, e.actions)
  }

  /** `config.matches.map(match => ({ ...match, id: crypto.randomUUID() }))`, one fresh id per entry. */
  function ImportAll(es: seq<ExportedMatch>, ids: seq<string>): (r: seq<Match>)
    requires |ids| == |es|
    ensures |r| == |es| && Ids(r) == ids
    ensures forall i :: 0 <= i < |es| ==> Exported(r[i]) == es[i]
  {
    seq(|es|, i requires 0 <= i < |es| => Imported(es[i], ids[i]))
  }

  /** Exporting and importing with the old ids restores the list; exporting an import gives the entries back. */
  lemma ExportImportRoundTrip(ms: seq<Match>, es: seq<ExportedMatch>, ids: seq<string>)
    requires |ids| == |es|
    ensures ImportAll(ExportAll(ms), Ids(ms)) == ms
    ensures ExportAll(ImportAll(es, ids)) == es
  {
    var r := ImportAll(ExportAll(ms), Ids(ms));
    assert forall i :: 0 <= i < |ms| ==> r[i] == ms[i];
  }

  /** The argument of `importMatches`: `matches` is `None` when it is missing or not an array. */
  datatype ImportConfig = ImportConfig(matches: Option<seq<ExportedMatch>>)

  /** The state of `useMatches`. */
  class MatchStore {
    var matches: seq<Match>
    var currentMatchId: Option<string>

    /** The hook's first render: the stored list (empty when nothing is stored) and no current match. */
    constructor (stored: seq<Match>)
      ensures matches == stored && currentMatchId == None
    {
      matches := stored;
      currentMatchId := None;
    }

    /** `getCurrentMatch`. */
    function GetCurrentMatch(): (r: Option<Match>)
      reads this
      ensures currentMatchId.None? ==> r.None?
      ensures currentMatchId.Some? ==> r == FindById(matches, currentMatchId.value)
      ensures r.Some? <==> currentMatchId.Some? && exists i :: 0 <= i < |matches| && matches[i].id == currentMatchId.value
      ensures r.Some? ==> r.value in matches && Some(r.value.id) == currentMatchId
    {
      if currentMatchId.None? then None else FindById(matches, currentMatchId.value)
    }

    /** `addMatch`: append a default match numbered one past the list's length and make it current. */
    method AddMatch(freshId: string) returns (id: string)
      modifies this
      ensures matches == old(matches) + [NewMatch(freshId, |old(matches)| + 1)]
      ensures currentMatchId == Some(freshId) && id == freshId
    {
      matches := matches + [NewMatch(freshId, |matches| + 1)];
      currentMatchId := Some(freshId);
      id := freshId;
    }

    /**
     * `deleteMatch`: drop every match with that id; when it was current, the
     * first remaining match becomes current (see `CurrentAfterDeleteAsWritten`
     * for the choice the hook makes).
     */
    method DeleteMatch(id: string)
      modifies this
      ensures matches == Filter(old(matches), LacksId(id))
      ensures old(currentMatchId) == Some(id) ==> currentMatchId == CurrentAfterDelete(matches)
      ensures old(currentMatchId) != Some(id) ==> currentMatchId == old(currentMatchId)
      ensures forall m :: m in matches <==> m in old(matches) && m.id != id
    {
      forall m {
        FilterMembers(matches, LacksId(id), m);
      }
      matches := Filter(matches, LacksId(id));
      if currentMatchId == Some(id) {
        currentMatchId := CurrentAfterDelete(matches);
      }
    }

    /** `updateMatch`: merge `u` into the matches with that id, and into no other. */
    method UpdateMatch(id: string, u: MatchUpdate)
      modifies this`matches
      ensures matches == UpdateAll(old(matches), id, u)
    {
      matches := UpdateAll(matches, id, u);
    }

    /** `duplicateMatch`: append a copy of the first match with that id, with a fresh id and the next number. */
    method DuplicateMatch(id: string, freshId: string) returns (r: Option<string>)
      modifies this`matches
      ensures FindById(old(matches), id).None? ==> r.None? && matches == old(matches)
      ensures FindById(old(matches), id).Some? ==>
        && r == Some(freshId)
        && matches == old(matches) + [FindById(old(matches), id).value.(id := freshId, matchNumber := |old(matches)| + 1)]
    {
      var source := FindById(matches, id);
      if source.None? {
        return None;
      }
      matches := matches + [source.value.(id := freshId, matchNumber := |matches| + 1)];
      return Some(freshId);
    }

    /** `exportAllMatches`: the list in order, without ids. */
    function ExportAllMatches(): (r: seq<ExportedMatch>)
      reads this
      ensures |r| == |matches| && forall i :: 0 <= i < |matches| ==> r[i] == Exported(matches[i])
    {
      ExportAll(matches)
    }

    /** `importMatches`: replace the list when `matches` is an array, the first import becoming current. */
    method ImportMatches(config: ImportConfig, freshIds: seq<string>)
      requires config.matches.Some? ==> |freshIds| == |config.matches.value|
      modifies this
      ensures config.matches.None? ==> matches == old(matches) && currentMatchId == old(currentMatchId)
      ensures config.matches.Some? ==> matches == ImportAll(config.matches.value, freshIds)
      ensures config.matches.Some? && freshIds != [] ==> currentMatchId == Some(freshIds[0])
      ensures config.matches.Some? && freshIds == [] ==> currentMatchId == old(currentMatchId)
    {
      if config.matches.Some? {
        matches := ImportAll(config.matches.value, freshIds);
        if |matches| > 0 {
          currentMatchId := Some(matches[0].id);
        }
      }
    }
  }
}
