/** The time window of a log query, and the sources build logs are read from. */
module LogWindow {
  import opened Wrappers

  /** Nanoseconds; seven days is also the retention period. */
  const LOGS_OLDEST_LIMIT: int := 7 * 24 * 3600 * 1_000_000_000

  datatype Direction = Forward | Backward

  datatype Window = Window(start: int, end: int)

  function LogQueryWindow(now: int, cursor: Option<int>, direction: Direction): Window {
    var oldest := now - LOGS_OLDEST_LIMIT;
    var wanted :=
      if cursor.None? then Window(oldest, now)
      else if direction == Forward then Window(cursor.value, cursor.value + LOGS_OLDEST_LIMIT)
      else Window(cursor.value - LOGS_OLDEST_LIMIT, cursor.value);
    var start := if wanted.start < oldest then oldest else wanted.start;
    var end := if wanted.end < oldest then oldest else wanted.end;
    Window(if start > end then end else start, end)
  }

  /** The entries a cursor asks for: up to seven days from it, in the direction of reading; without one, all up to now. */
  predicate Asked(now: int, cursor: Option<int>, direction: Direction, time: int) {
    match cursor
    case None => time <= now
    case Some(c) =>
      match direction
      case Forward => c <= time <= c + LOGS_OLDEST_LIMIT
      case Backward => c - LOGS_OLDEST_LIMIT <= time <= c
  }

  /** Among the entries still retained, the window holds exactly those that are asked for. */
  lemma WindowIsExact(now: int, cursor: Option<int>, direction: Direction, time: int)
    requires now - LOGS_OLDEST_LIMIT < time <= now
    ensures var w := LogQueryWindow(now, cursor, direction);
            w.start <= time <= w.end <==> Asked(now, cursor, direction, time)
  {
  }

  /** The same at full length: seven days are 604800 seconds. */
  lemma WindowWithoutCursor(now: int, direction: Direction)
    ensures LogQueryWindow(now, None, direction) == Window(now - 604800 * 1_000_000_000, now)
  {
  }

  /** The window is in order, inside retention, and at most seven days long. */
  lemma WindowIsBounded(now: int, cursor: Option<int>, direction: Direction)
    ensures var w := LogQueryWindow(now, cursor, direction);
            now - LOGS_OLDEST_LIMIT <= w.start <= w.end && w.end - w.start <= LOGS_OLDEST_LIMIT
  {
  }

  /** Two calls with one cursor: neither end moves back, nor further than the time between them. */
  lemma WindowFollowsTheClock(now: int, later: int, cursor: Option<int>, direction: Direction)
    requires now <= later
    ensures var w, v := LogQueryWindow(now, cursor, direction), LogQueryWindow(later, cursor, direction);
            w.start <= v.start <= w.start + (later - now) && w.end <= v.end <= w.end + (later - now)
  {
  }

  /**
   The two calls one build-log request makes see the same window exactly if the cursor
   is forward and still within retention at the second call, or backward and not yet
   passed by it. Without a cursor they never do.
   */
  lemma WindowsCoincide(now: int, later: int, cursor: Option<int>, direction: Direction)
    requires now < later
    ensures LogQueryWindow(now, cursor, direction) == LogQueryWindow(later, cursor, direction)
            <==> cursor.Some? && cursor.value >= if direction == Forward then later - LOGS_OLDEST_LIMIT else later
  {
  }

  // ---------------------------------------------------------------- sources

  datatype LogEntry = LogEntry(timestamp: int, message: string)
  datatype Source = Temporary | Persistent

  predicate Wants(source: Option<Source>, kind: Source) {
    source.None? || source.value == kind
  }

  /**
   The first source that answers: the builder of the build if it is wanted and known,
   then the persistent store. If none answers the caller gets no entries and no error.
   A fetch is None when it fails.
   */
  method GetBuildLogs(
      builders: map<string, Option<seq<LogEntry>>>,
      nodeId: Option<string>,
      source: Option<Source>,
      persistent: Option<seq<LogEntry>>) returns (entries: seq<LogEntry>)
    ensures var temporary := if source != Some(Persistent) && nodeId.Some? && nodeId.value in builders then builders[nodeId.value] else None;
            var stored := if source != Some(Temporary) then persistent else None;
            entries == if temporary.Some? then temporary.value else if stored.Some? then stored.value else []
  {
    var sources := [];
    if nodeId.Some? && Wants(source, Temporary) {
      if nodeId.value in builders {
        sources := sources + [builders[nodeId.value]];
      }
    }
    if Wants(source, Persistent) {
      sources := sources + [persistent];
    }
    assert Wants(source, Persistent) ==> sources[|sources| - 1] == persistent;
    assert nodeId.Some? && Wants(source, Temporary) && nodeId.value in builders ==> sources[0] == builders[nodeId.value];
    for i := 0 to |sources|
      invariant forall j :: 0 <= j < i ==> sources[j].None?
    {
      if sources[i].None? { continue; }
      return sources[i].value;
    }
    return [];
  }
}
