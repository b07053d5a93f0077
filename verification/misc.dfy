/** The logger action: it logs its stored message at its stored level. */
module Misc {
  import opened Wrappers
  import opened Strings
  import opened Entities

  /** The stored value of each level choice. */
  function LevelName(level: Level): string {
    match level
    case DEBUG => "DEBUG"
    case INFO => "INFO"
    case WARNING => "WARNING"
    case ERROR => "ERROR"
    case CRITICAL => "CRITICAL"
  }

  /** The level choice a stored value denotes, if it is one of the five. */
  function ParseLevel(s: string): (r: Option<Level>)
    ensures r.Some? ==> LevelName(r.value) == s
  {
    if s == "DEBUG" then Some(DEBUG)
    else if s == "INFO" then Some(INFO)
    else if s == "WARNING" then Some(WARNING)
    else if s == "ERROR" then Some(ERROR)
    else if s == "CRITICAL" then Some(CRITICAL)
    else None
  }

  /** The level choices are exactly the five names, and each parses back. */
  lemma LevelChoicesRoundTrip(level: Level, s: string)
    ensures ParseLevel(LevelName(level)) == Some(level)
    ensures ParseLevel(s).Some? <==> s in {"DEBUG", "INFO", "WARNING", "ERROR", "CRITICAL"}
  {
  }

  /** The name of the logger method `run_action()` calls: the level,
      lower-cased. */
  function LoggerMethod(level: Level): (name: string)
    ensures name == Lower(LevelName(level))
  {
    match level
    case DEBUG => "debug"
    case INFO => "info"
    case WARNING => "warning"
    case ERROR => "error"
    case CRITICAL => "critical"
  }

  /** The level at which the logger method of that name records: one for
      each of the five level methods. */
  function MethodLevel(name: string): (r: Option<Level>)
    ensures r.Some? ==> LoggerMethod(r.value) == name
  {
    if name == "debug" then Some(DEBUG)
    else if name == "info" then Some(INFO)
    else if name == "warning" then Some(WARNING)
    else if name == "error" then Some(ERROR)
    else if name == "critical" then Some(CRITICAL)
    else None
  }

  /** The method `run_action()` looks up for a level records at that level. */
  lemma LoggerMethodRecordsItsLevel(level: Level)
    ensures MethodLevel(LoggerMethod(level)) == Some(level)
  {
  }

  /** `LoggerAction.run_action()`: the logger method named after the level
      adds one record, at the action's level and with its message, to the
      log; earlier records stay. The logger is taken to be enabled for
      every level. */
  function RunLogger(level: Level, message: string, log: seq<LogRecord>): (r: seq<LogRecord>)
    ensures |r| == |log| + 1 && r[..|log|] == log
    ensures r[|log|].level == level && r[|log|].message == message
  {
    LoggerMethodRecordsItsLevel(level);
    match MethodLevel(LoggerMethod(level))
    case Some(recorded) => log + [LogRecord(recorded, message)]
    case None => assert false; log
  }

  function Min(a: int, b: int): int {
    if a < b then a else b
  }

  /** `str()` of a logger action: the level and the message cut to its first
      20 characters. */
  function LoggerStr(level: Level, message: string): (s: string)
    ensures Contains(s, LevelName(level))
    ensures Contains(s, message[..Min(20, |message|)])
    ensures |s| == 18 + |LevelName(level)| + Min(20, |message|)
    ensures IsPrefix("Logger action (", s)
  {
    var cut := message[..Min(20, |message|)];
    var s := "Logger action (" + LevelName(level) + ": " + cut + ")";
    assert OccursAt(s, LevelName(level), 15);
    assert OccursAt(s, cut, 17 + |LevelName(level)|);
    s
  }
}
