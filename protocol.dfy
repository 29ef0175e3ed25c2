/** The command vocabulary: what the server answers to one trimmed message,
    and the text of the `/stats` reply. */
module Protocol {
  import Decimal

  const TIME_COMMAND: string := "/time"
  const STATS_COMMAND: string := "/stats"
  const SHUTDOWN_COMMAND: string := "/shutdown"

  const TOTAL_LABEL: string := "Total clients: "
  const CURRENT_LABEL: string := " current clients: "

  /** The reply text, and whether the message asked the server to shut down. */
  datatype Reply = Reply(text: string, shutdownRequested: bool)

  /** `processMessage`, with the clock reading and the stats text given as
      parameters (they are only consulted for `/time` and `/stats`). */
  function Process(message: string, clock: string, stats: string): (r: Reply)
    ensures r.text == "" || r.text == message || r.text == clock || r.text == stats
    ensures r.shutdownRequested ==> r.text == ""
  {
    if message == [] then
      Reply("", false)
    else if message[0] == '/' then
      if message == TIME_COMMAND then Reply(clock, false)
      else if message == STATS_COMMAND then Reply(stats, false)
      else if message == SHUTDOWN_COMMAND then Reply("", true)
      else Reply("", false)
    else
      Reply(message, false)
  }

  predicate IsCommand(message: string) {
    message in {TIME_COMMAND, STATS_COMMAND, SHUTDOWN_COMMAND}
  }

  lemma ProcessEmpty(clock: string, stats: string)
    ensures Process("", clock, stats) == Reply("", false)
  {
  }

  /** Every message that does not start with '/' is echoed as it is. */
  lemma ProcessEcho(message: string, clock: string, stats: string)
    requires message != [] && message[0] != '/'
    ensures Process(message, clock, stats) == Reply(message, false)
  {
  }

  /** Only whole-message matches are commands; anything else after '/' gets an empty reply. */
  lemma ProcessUnknown(message: string, clock: string, stats: string)
    requires message != [] && message[0] == '/' && !IsCommand(message)
    ensures Process(message, clock, stats) == Reply("", false)
  {
  }

  lemma ProcessCommands(clock: string, stats: string)
    ensures Process(TIME_COMMAND, clock, stats) == Reply(clock, false)
    ensures Process(STATS_COMMAND, clock, stats) == Reply(stats, false)
    ensures Process(SHUTDOWN_COMMAND, clock, stats) == Reply("", true)
    ensures Process("/time ", clock, stats) == Reply("", false)
    ensures Process("/Stats", clock, stats) == Reply("", false)
  {
    assert "/time " != TIME_COMMAND by { assert |"/time "| != |TIME_COMMAND|; }
    assert "/Stats" != STATS_COMMAND by { assert "/Stats"[1] != STATS_COMMAND[1]; }
  }

  /** Shutdown is asked for by exactly one message, and its reply is empty. */
  lemma ProcessShutdownIff(message: string, clock: string, stats: string)
    ensures Process(message, clock, stats).shutdownRequested <==> message == SHUTDOWN_COMMAND
    ensures Process(message, clock, stats).shutdownRequested ==> Process(message, clock, stats).text == ""
  {
  }

  /** A reply is empty, the message itself, the clock or the stats, and never
      more than that. */
  lemma ProcessReplyOrigin(message: string, clock: string, stats: string)
    ensures var t := Process(message, clock, stats).text;
      t == "" || (t == message && message[0] != '/') ||
      (t == clock && message == TIME_COMMAND) || (t == stats && message == STATS_COMMAND)
  {
  }

  /** `getStats`: both counters in decimal. */
  function Stats(total: nat, current: nat): (r: string)
    ensures TOTAL_LABEL <= r
  {
    TOTAL_LABEL + Decimal.ToString(total) + CURRENT_LABEL + Decimal.ToString(current)
  }

  /** Length of the run of digits at the start of `s`. */
  function DigitRun(s: string): (k: nat)
    ensures k <= |s|
    ensures Decimal.AllDigits(s[..k])
    ensures k < |s| ==> !Decimal.IsDigit(s[k])
  {
    if s == [] || !Decimal.IsDigit(s[0]) then 0
    else
      var k := 1 + DigitRun(s[1..]);
      assert s[..k] == [s[0]] + s[1..][..k - 1];
      k
  }

  datatype Option<T> = None | Some(value: T)

  /** How a client reads the `/stats` reply back: the two counters, or None for
      any text `getStats` cannot have produced. */
  function ParseStats(s: string): Option<(nat, nat)> {
    if !(TOTAL_LABEL <= s) then None
    else
      var rest := s[|TOTAL_LABEL|..];
      var k := DigitRun(rest);
      var first, tail := rest[..k], rest[k..];
      if !Decimal.Canonical(first) || !(CURRENT_LABEL <= tail) then None
      else
        var second := tail[|CURRENT_LABEL|..];
        if !Decimal.Canonical(second) then None
        else Some((Decimal.Value(first), Decimal.Value(second)))
  }

  lemma {:induction false} DigitRunOfDigits(digits: string, after: string)
    requires Decimal.AllDigits(digits)
    requires after != [] && !Decimal.IsDigit(after[0])
    ensures DigitRun(digits + after) == |digits|
  {
    if digits != [] {
      assert (digits + after)[1..] == digits[1..] + after;
      DigitRunOfDigits(digits[1..], after);
    }
  }

  /** The stats text names both counters: reading it back gives exactly the
      pair it was made from. */
  lemma StatsRoundTrip(total: nat, current: nat)
    ensures ParseStats(Stats(total, current)) == Some((total, current))
  {
    var t, c := Decimal.ToString(total), Decimal.ToString(current);
    var s := Stats(total, current);
    assert s == TOTAL_LABEL + (t + CURRENT_LABEL + c);
    var rest := s[|TOTAL_LABEL|..];
    assert rest == t + (CURRENT_LABEL + c);
    DigitRunOfDigits(t, CURRENT_LABEL + c);
    assert rest[..|t|] == t;
    assert rest[|t|..] == CURRENT_LABEL + c;
    assert (CURRENT_LABEL + c)[|CURRENT_LABEL|..] == c;
  }

  /** Only stats texts read back: a text that parses is the stats text of the
      pair it parses to. */
  lemma ParseStatsSound(s: string, total: nat, current: nat)
    requires ParseStats(s) == Some((total, current))
    ensures s == Stats(total, current)
  {
    var rest := s[|TOTAL_LABEL|..];
    var k := DigitRun(rest);
    var first, tail := rest[..k], rest[k..];
    var second := tail[|CURRENT_LABEL|..];
    assert Decimal.Canonical(first) && Decimal.Value(first) == total;
    assert Decimal.Canonical(second) && Decimal.Value(second) == current;
    Decimal.ToStringOfValue(first);
    Decimal.ToStringOfValue(second);
    Reassemble(s, TOTAL_LABEL, k, CURRENT_LABEL);
  }

  /** Text cut at a leading label, at position k of what follows it, and at a
      second label, is the concatenation of its four pieces. */
  lemma Reassemble(s: string, lead: string, k: nat, middle: string)
    requires lead <= s && k <= |s| - |lead| && middle <= s[|lead|..][k..]
    ensures s == lead + s[|lead|..][..k] + middle + s[|lead|..][k..][|middle|..]
  {
    var rest := s[|lead|..];
    var tail := rest[k..];
    assert tail == middle + tail[|middle|..];
    assert rest == rest[..k] + tail;
    assert s == lead + rest;
  }

  lemma StatsInverse(s: string, total: nat, current: nat)
    ensures ParseStats(s) == Some((total, current)) <==> s == Stats(total, current)
  {
    if ParseStats(s) == Some((total, current)) {
      ParseStatsSound(s, total, current);
    }
    if s == Stats(total, current) {
      StatsRoundTrip(total, current);
    }
  }
}
