/**
 * The fields of the robot-side match-data records (`MatchDataConfig` and its
 * nested `Match`, `MatchWrapper`, `Alliance`, `Autonomous`, `StartPosition`
 * and `Action`) that the parser, the terse codec and the selection op mode
 * read or write. A Java reference that the code tests against `null` is an
 * `Option`.
 */
module MatchData {
  import opened Wrappers

  const Int32Min: int := -0x8000_0000
  const Int32Max: int := 0x7FFF_FFFF

  predicate IsInt32(n: int) { Int32Min <= n <= Int32Max }

  /** Java `int` arithmetic: the result reduced into the 32-bit two's-complement range. */
  function Wrap32(n: int): (r: int)
    ensures IsInt32(r)
    ensures IsInt32(n) ==> r == n
  {
    var m := (n - Int32Min) % 0x1_0000_0000;
    m + Int32Min
  }

  /** The wrapped value differs from the exact one by a multiple of 2^32. */
  lemma Wrap32Congruent(n: int)
    ensures (Wrap32(n) - n) % 0x1_0000_0000 == 0
  {
  }

  /** An action; `waitTime` is its `config` entry read by `getConfigInt("waitTime", ...)`. */
  datatype Action = Action(actionType: string, labelText: string, waitTime: Option<int>)

  datatype StartPosition = StartPosition(positionType: string)

  datatype Autonomous = Autonomous(startPosition: Option<StartPosition>, actions: Option<seq<Action>>)

  datatype Alliance = Alliance(color: Option<string>, teamNumber: int, auto: Option<Autonomous>)

  datatype Match = Match(number: int, alliance: Option<Alliance>)

  datatype MatchWrapper = MatchWrapper(wrapped: Option<Match>)

  datatype MatchDataConfig = MatchDataConfig(version: Option<string>, matches: Option<seq<MatchWrapper>>)
}
