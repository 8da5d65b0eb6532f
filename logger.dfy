/**
 * The logger: a current level and the four named levels `error` < `warn` < `info` < `debug`.
 * A message passes when its level's rank is at most the current one. Emitted messages are
 * kept in order, standing for the console calls.
 */
module Logging {
  import opened Wrappers
  import opened Strings

  /** The level names in rank order; a name's rank is its index. */
  const LevelNames: seq<string> := ["error", "warn", "info", "debug"]

  /** `LEVELS[name]`: the rank of a known level name. */
  function Rank(name: string): (r: Option<nat>)
    ensures r.Some? <==> name in LevelNames
    ensures r.Some? ==> r.value < |LevelNames| && LevelNames[r.value] == name
  {
    if name == "error" then Some(0)
    else if name == "warn" then Some(1)
    else if name == "info" then Some(2)
    else if name == "debug" then Some(3)
    else None
  }

  /** `LEVEL_NAMES.find(name => LEVELS[name] === level)`. */
  function NameOf(level: int): (r: Option<string>)
    ensures r.Some? <==> 0 <= level < |LevelNames|
    ensures r.Some? ==> Rank(r.value) == Some(level)
  {
    if 0 <= level < |LevelNames| then Some(LevelNames[level]) else None
  }

  /** Whether a message at `levelName` (in any case) passes at the given level. */
  function Allows(level: int, levelName: string): (r: bool)
    ensures r <==> Rank(ToLower(levelName)).Some? && Rank(ToLower(levelName)).value <= level
  {
    match Rank(ToLower(levelName))
    case Some(value) => value <= level
    case None => false
  }

  /** Raising the level never silences a message that passed before. */
  lemma AllowsMonotone(low: int, high: int, levelName: string)
    requires low <= high
    ensures Allows(low, levelName) ==> Allows(high, levelName)
  {
  }

  /** Errors pass at every level; debug messages pass only at `debug`. */
  lemma ErrorsAlwaysPass(level: int)
    requires 0 <= level < |LevelNames|
    ensures Allows(level, "error")
    ensures Allows(level, "debug") <==> level == 3
  {
    assert ToLower("error") == "error";
    assert ToLower("debug") == "debug";
  }

  /** A message handed to the console: the level it was logged at and its arguments. */
  datatype LogLine = LogLine(levelName: string, args: seq<string>)

  class Logger {
    var level: int
    var emitted: seq<LogLine>

    /** The level is always one of the named ranks. */
    predicate Valid()
      reads this
    {
      0 <= level < |LevelNames|
    }

    /** A new logger starts at `info` and has emitted nothing. */
    constructor()
      ensures Valid()
      ensures level == 2 && GetLevel() == Some("info")
      ensures emitted == []
    {
      level := 2;
      emitted := [];
    }

    /**
     * `setLevel(levelName)`: a known name, in any case, becomes the level; no name, an empty
     * one or an unknown one changes nothing.
     */
    method SetLevel(levelName: Option<string>)
      requires Valid()
      modifies this
      ensures Valid()
      ensures emitted == old(emitted)
      ensures (levelName.None? || levelName.value == "" || Rank(ToLower(levelName.value)).None?) ==> level == old(level)
      ensures levelName.Some? && Rank(ToLower(levelName.value)).Some? ==>
        level == Rank(ToLower(levelName.value)).value && GetLevel() == Some(ToLower(levelName.value))
    {
      if levelName.None? || levelName.value == "" {
        return;
      }
      var normalized := ToLower(levelName.value);
      var rank := Rank(normalized);
      if rank.Some? {
        level := rank.value;
      }
    }

    /** `getLevel()`: the name of the current level. */
    function GetLevel(): (r: Option<string>)
      reads this
      ensures Valid() ==> r.Some? && Rank(r.value) == Some(level)
    {
      NameOf(level)
    }

    /** `shouldLog(levelName)`. */
    function ShouldLog(levelName: string): (r: bool)
      reads this
      ensures r <==> Rank(ToLower(levelName)).Some? && Rank(ToLower(levelName)).value <= level
    {
      Allows(level, levelName)
    }

    /** `log(levelName, ...args)`: the message is emitted exactly when it should be logged. */
    method Log(levelName: string, args: seq<string>)
      modifies this
      ensures level == old(level)
      ensures old(ShouldLog(levelName)) ==> emitted == old(emitted) + [LogLine(levelName, args)]
      ensures !old(ShouldLog(levelName)) ==> emitted == old(emitted)
    {
      if !ShouldLog(levelName) {
        return;
      }
      emitted := emitted + [LogLine(levelName, args)];
    }
  }
}
