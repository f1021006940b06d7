/** The normalisation of a feed's scheduling policy. */
module SchedulingPolicy {
  import opened Decimal

  // The four declared policies; protobuf enums are open, so any other number can arrive.
  datatype Policy = DEFAULT | PERIODIC | DAILY | NONE | Undeclared(number: int)

  const GTFS_REALTIME: string := "GTFS_REALTIME"

  datatype Config = Config(
    id: string,
    feedType: string,
    parser: string,
    requiredForInstall: Option<bool>,
    policy: Policy,
    periodicUpdatePeriodMs: Option<int>,
    updatePeriodS: Option<real>,
    dailyUpdateTime: string,
    dailyUpdateTimezone: string)

  // time.LoadLocation: which timezone names the operating system knows.
  type Zones = string -> bool

  // ---------------------------------------------------------- parsing the time

  predicate IsSpace(c: char) {
    || '\t' <= c <= '\r' || c == ' ' || c == '\U{85}' || c == '\U{A0}' || c == '\U{1680}'
    || '\U{2000}' <= c <= '\U{200A}' || c == '\U{2028}' || c == '\U{2029}' || c == '\U{202F}'
    || c == '\U{205F}' || c == '\U{3000}'
  }

  function TrimLeft(s: string): string {
    if s != [] && IsSpace(s[0]) then TrimLeft(s[1..]) else s
  }

  function TrimRight(s: string): string {
    if s != [] && IsSpace(s[|s| - 1]) then TrimRight(s[..|s| - 1]) else s
  }

  function TrimSpace(s: string): string {
    TrimRight(TrimLeft(s))
  }

  // The code points that are white space.
  const WHITE: set<int> := {
    9, 10, 11, 12, 13, 32, 133, 160, 5760, 8192, 8193, 8194, 8195, 8196, 8197, 8198, 8199, 8200, 8201, 8202,
    8232, 8233, 8239, 8287, 12288}

  predicate AllWhite(s: string) {
    forall i :: 0 <= i < |s| ==> s[i] as int in WHITE
  }

  // r is what is left of s without the white space around it.
  predicate IsCore(s: string, a: string, r: string, b: string) {
    && s == a + r + b && AllWhite(a) && AllWhite(b)
    && (r != [] ==> r[0] as int !in WHITE && r[|r| - 1] as int !in WHITE)
  }

  lemma SpaceIsWhite(c: char)
    ensures IsSpace(c) <==> c as int in WHITE
  {
  }

  lemma {:induction false} TrimLeftMeaning(s: string) returns (a: string)
    ensures s == a + TrimLeft(s) && AllWhite(a)
    ensures TrimLeft(s) != [] ==> TrimLeft(s)[0] as int !in WHITE
  {
    a := [];
    if s != [] {
      SpaceIsWhite(s[0]);
      if IsSpace(s[0]) {
        var rest := TrimLeftMeaning(s[1..]);
        a := [s[0]] + rest;
        assert s == [s[0]] + s[1..];
      }
    }
  }

  lemma {:induction false} TrimRightMeaning(s: string) returns (b: string)
    ensures s == TrimRight(s) + b && AllWhite(b)
    ensures TrimRight(s) != [] ==> TrimRight(s)[|TrimRight(s)| - 1] as int !in WHITE && TrimRight(s)[0] == s[0]
  {
    b := [];
    if s != [] {
      SpaceIsWhite(s[|s| - 1]);
      if IsSpace(s[|s| - 1]) {
        var front := TrimRightMeaning(s[..|s| - 1]);
        b := front + [s[|s| - 1]];
        assert s == s[..|s| - 1] + [s[|s| - 1]];
      }
    }
  }

  lemma {:induction false} TrimLeftOfCore(a: string, r: string)
    requires AllWhite(a) && (r != [] ==> r[0] as int !in WHITE)
    ensures TrimLeft(a + r) == r
  {
    if a == [] {
      assert a + r == r;
      if r != [] {
        SpaceIsWhite(r[0]);
      }
    } else {
      SpaceIsWhite(a[0]);
      assert (a + r)[1..] == a[1..] + r;
      TrimLeftOfCore(a[1..], r);
    }
  }

  lemma {:induction false} TrimRightOfCore(r: string, b: string)
    requires AllWhite(b) && (r != [] ==> r[|r| - 1] as int !in WHITE)
    ensures TrimRight(r + b) == r
  {
    if b == [] {
      assert r + b == r;
      if r != [] {
        SpaceIsWhite(r[|r| - 1]);
      }
    } else {
      SpaceIsWhite(b[|b| - 1]);
      assert (r + b)[..|r + b| - 1] == r + b[..|b| - 1];
      TrimRightOfCore(r, b[..|b| - 1]);
    }
  }

  lemma {:induction false} TrimWhite(s: string)
    requires AllWhite(s)
    ensures TrimLeft(s) == []
  {
    TrimLeftOfCore(s, []);
    assert s + [] == s;
  }

  lemma TrimLeavesCore(s: string) returns (a: string, b: string)
    ensures IsCore(s, a, TrimSpace(s), b)
  {
    a := TrimLeftMeaning(s);
    b := TrimRightMeaning(TrimLeft(s));
  }

  lemma CoreIsTrimmed(s: string, a: string, r: string, b: string)
    requires IsCore(s, a, r, b)
    ensures TrimSpace(s) == r
  {
    if r == [] {
      assert s == a + b;
      TrimWhite(s);
    } else {
      assert s == a + (r + b) && (r + b)[0] == r[0];
      TrimLeftOfCore(a, r + b);
      TrimRightOfCore(r, b);
    }
  }

  /** Trimming takes all white space off both ends and nothing else. */
  lemma TrimMeaning(s: string, r: string)
    ensures TrimSpace(s) == r <==> exists a, b :: IsCore(s, a, r, b)
  {
    var a, b := TrimLeavesCore(s);
    if a, b :| IsCore(s, a, r, b) {
      CoreIsTrimmed(s, a, r, b);
    }
  }

  // strings.Split with a separator of one character.
  function Split(s: string, sep: char): (pieces: seq<string>)
    ensures |pieces| > 0
  {
    if s == [] then [[]]
    else if s[0] == sep then [[]] + Split(s[1..], sep)
    else
      var rest := Split(s[1..], sep);
      [[s[0]] + rest[0]] + rest[1..]
  }

  function ParseDailyUpdateTime(s: string): Option<(int, int)> {
    var pieces := Split(s, ':');
    if |pieces| != 2 then None else
      match (Atoi(TrimSpace(pieces[0])), Atoi(TrimSpace(pieces[1])))
      case (Some(h), Some(m)) => Some((h, m))
      case _ => None
  }

  function Join(pieces: seq<string>, sep: char): string {
    if |pieces| == 0 then [] else if |pieces| == 1 then pieces[0]
    else pieces[0] + [sep] + Join(pieces[1..], sep)
  }

  // Splitting loses nothing, and no piece holds the separator.
  lemma {:induction false} SplitJoin(s: string, sep: char)
    ensures Join(Split(s, sep), sep) == s
    ensures forall i :: 0 <= i < |Split(s, sep)| ==> sep !in Split(s, sep)[i]
  {
    if s != [] {
      SplitJoin(s[1..], sep);
      var rest := Split(s[1..], sep);
      if s[0] == sep {
        assert ([[]] + rest)[1..] == rest;
        assert s == [] + [sep] + s[1..];
      } else {
        var r := [[s[0]] + rest[0]] + rest[1..];
        assert r[1..] == rest[1..];
        assert s == [s[0]] + s[1..];
        if |rest| > 1 {
          assert [s[0]] + (rest[0] + [sep] + Join(rest[1..], sep)) == [s[0]] + rest[0] + [sep] + Join(rest[1..], sep);
        }
      }
    }
  }

  lemma {:induction false} SplitOnce(a: string, b: string, sep: char)
    requires sep !in a && sep !in b
    ensures Split(a + [sep] + b, sep) == [a, b]
  {
    var s := a + [sep] + b;
    if a == [] {
      SplitNone(b, sep);
      assert s[1..] == b;
    } else {
      assert a[0] in a && a == [a[0]] + a[1..];
      assert s[1..] == a[1..] + [sep] + b;
      SplitOnce(a[1..], b, sep);
    }
  }

  lemma {:induction false} SplitNone(b: string, sep: char)
    requires sep !in b
    ensures Split(b, sep) == [b]
  {
    if b != [] {
      assert b[0] in b && b == [b[0]] + b[1..];
      SplitNone(b[1..], sep);
    }
  }

  /** A daily time parses exactly when it is two numerals around one colon, each
      with any amount of white space around it. */
  lemma ParseMeaning(s: string, h: int, m: int)
    ensures ParseDailyUpdateTime(s) == Some((h, m))
      <==> exists a, b :: s == a + ":" + b && ':' !in a && ':' !in b
             && Atoi(TrimSpace(a)) == Some(h) && Atoi(TrimSpace(b)) == Some(m)
  {
    var pieces := Split(s, ':');
    SplitJoin(s, ':');
    if ParseDailyUpdateTime(s) == Some((h, m)) {
      assert Join(pieces, ':') == pieces[0] + ":" + pieces[1];
    }
    if a, b :| s == a + ":" + b && ':' !in a && ':' !in b
             && Atoi(TrimSpace(a)) == Some(h) && Atoi(TrimSpace(b)) == Some(m) {
      SplitOnce(a, b, ':');
    }
  }

  // The time given to the feed at a position: 03:00, then ten minutes apart.
  function DefaultMinutes(position: nat): nat {
    3 * 60 + 10 * position
  }

  function DefaultTime(position: nat): (s: string)
    ensures s != []
  {
    var mins := DefaultMinutes(position);
    Pad2(mins / 60) + ":" + Pad2(mins % 60)
  }

  lemma TrimDigits(s: string)
    requires s != [] && AllDigits(s)
    ensures TrimSpace(s) == s
  {
    assert IsDigit(s[0]) && IsDigit(s[|s| - 1]);
  }

  /** The default time reads back as the hour and minute it was made from. */
  lemma DefaultTimeParses(position: nat)
    requires DefaultMinutes(position) <= MAX_INT64
    ensures ParseDailyUpdateTime(DefaultTime(position))
         == Some((DefaultMinutes(position) / 60, DefaultMinutes(position) % 60))
  {
    var h, m := DefaultMinutes(position) / 60, DefaultMinutes(position) % 60;
    var a, b := Pad2(h), Pad2(m);
    NoColon(a);
    NoColon(b);
    SplitOnce(a, b, ':');
    TrimDigits(a);
    TrimDigits(b);
    ValueOfPad2(h);
    ValueOfPad2(m);
    AtoiOfDigits(a);
    AtoiOfDigits(b);
  }

  lemma NoColon(s: string)
    requires AllDigits(s)
    ensures ':' !in s
  {
  }

  // ------------------------------------------------------------- normalising

  // The first timezone of an agency that is known, or UTC.
  function FallbackZone(agencies: seq<string>, known: Zones): (tz: string)
    requires known("UTC")
    ensures known(tz) && tz != ""
    ensures (tz == "UTC" && forall i :: 0 <= i < |agencies| ==> agencies[i] == "" || !known(agencies[i]))
      || exists k :: 0 <= k < |agencies| && tz == agencies[k]
           && forall i :: 0 <= i < k ==> agencies[i] == "" || !known(agencies[i])
  {
    if agencies == [] then "UTC"
    else if agencies[0] != "" && known(agencies[0]) then agencies[0]
    else
      var tz := FallbackZone(agencies[1..], known);
      assert forall i :: 0 < i < |agencies| ==> agencies[i] == agencies[1..][i - 1];
      tz
  }

  function NormalizeFeedConfig(c: Config): Config {
    var t := if c.feedType == "" then c.parser else c.feedType;
    c.(feedType := t,
       requiredForInstall := if c.requiredForInstall.None? then Some(t != GTFS_REALTIME) else c.requiredForInstall)
  }

  function WithPolicy(c: Config): Config {
    if c.policy != DEFAULT then c
    else if c.feedType == GTFS_REALTIME then c.(policy := PERIODIC)
    else c.(policy := DAILY)
  }

  function DefaultPeriod(c: Config): int {
    if c.updatePeriodS.Some? && c.updatePeriodS.value != 0.0
    then Truncate(c.updatePeriodS.value * 1000.0) else 5000
  }

  function Normalized(c: Config, position: nat, agencies: seq<string>, known: Zones): Config
    requires known("UTC")
  {
    var d := WithPolicy(NormalizeFeedConfig(c));
    match d.policy
    case PERIODIC =>
      if d.periodicUpdatePeriodMs.None? then d.(periodicUpdatePeriodMs := Some(DefaultPeriod(d))) else d
    case DAILY =>
      d.(dailyUpdateTime :=
           if ParseDailyUpdateTime(d.dailyUpdateTime).Some? then d.dailyUpdateTime else DefaultTime(position),
         dailyUpdateTimezone :=
           if d.dailyUpdateTimezone != "" && known(d.dailyUpdateTimezone) then d.dailyUpdateTimezone
           else FallbackZone(agencies, known))
    case _ => d
  }

  // ------------------------------------------------------------------ periods

  const TWO_TO_THE_63: int := 0x8000_0000_0000_0000
  const TWO_TO_THE_64: int := 0x1_0000_0000_0000_0000

  const NANOSECONDS_IN_A_MILLISECOND: int := 1_000_000

  // The longest period that a duration can hold: about 292 years.
  const MAX_PERIOD_MS: int := 9_223_372_036_854

  // The int64 that a product of int64s wraps around to.
  function Wrapped(x: int): (r: int)
    ensures MIN_INT64 <= r <= MAX_INT64
    ensures (x - r) % TWO_TO_THE_64 == 0
  {
    var r := x % TWO_TO_THE_64;
    if r < TWO_TO_THE_63 then r else r - TWO_TO_THE_64
  }

  // The interval between two ticks, in nanoseconds.
  function TickInterval(periodMs: int): int {
    Wrapped(periodMs * NANOSECONDS_IN_A_MILLISECOND)
  }

  // What the feed loop needs: a policy it knows, and with it an interval that a
  // ticker accepts, or a time that parses and a timezone that can be loaded.
  predicate Runnable(c: Config, known: Zones) {
    || (c.policy == PERIODIC && c.periodicUpdatePeriodMs.Some? && TickInterval(c.periodicUpdatePeriodMs.value) > 0)
    || (c.policy == DAILY && ParseDailyUpdateTime(c.dailyUpdateTime).Some? && known(c.dailyUpdateTimezone))
  }

  // A period in milliseconds is to be positive; beyond 292 years the duration has
  // wrapped around, and its low 64 bits decide.
  predicate UsablePeriod(ms: int) {
    if -MAX_PERIOD_MS <= ms <= MAX_PERIOD_MS then ms > 0
    else 0 < ms * NANOSECONDS_IN_A_MILLISECOND % TWO_TO_THE_64 < TWO_TO_THE_63
  }

  // The same for the deprecated period in seconds: a millisecond at least.
  predicate UsableSeconds(s: real) {
    if -MAX_PERIOD_MS as real <= s * 1000.0 <= MAX_PERIOD_MS as real then s >= 0.001
    else UsablePeriod(Truncate(s * 1000.0))
  }

  // A feed as it is configured: its policy is a declared one, and if that makes it
  // periodic, its period is usable or there is none, and the default applies.
  predicate Usable(c: Config) {
    && !c.policy.Undeclared?
    && (WithPolicy(NormalizeFeedConfig(c)).policy == PERIODIC ==>
          if c.periodicUpdatePeriodMs.Some? then UsablePeriod(c.periodicUpdatePeriodMs.value)
          else c.updatePeriodS.None? || c.updatePeriodS.value == 0.0 || UsableSeconds(c.updatePeriodS.value))
  }

  lemma TickIntervalIsPositive(ms: int)
    ensures TickInterval(ms) > 0 <==> UsablePeriod(ms)
  {
    var ns := ms * NANOSECONDS_IN_A_MILLISECOND;
    if -MAX_PERIOD_MS <= ms <= MAX_PERIOD_MS {
      assert -TWO_TO_THE_63 < ns < TWO_TO_THE_63;
      assert ns % TWO_TO_THE_64 == if ns >= 0 then ns else ns + TWO_TO_THE_64;
    }
  }

  lemma SecondsToPeriod(s: real)
    ensures UsablePeriod(Truncate(s * 1000.0)) <==> UsableSeconds(s)
  {
  }

  lemma DefaultPeriodIsPositive(c: Config)
    ensures TickInterval(DefaultPeriod(c)) > 0
       <==> c.updatePeriodS.None? || c.updatePeriodS.value == 0.0 || UsableSeconds(c.updatePeriodS.value)
  {
    TickIntervalIsPositive(DefaultPeriod(c));
    if c.updatePeriodS.Some? {
      SecondsToPeriod(c.updatePeriodS.value);
    }
  }

  lemma EmptyTime()
    ensures ParseDailyUpdateTime("").None?
  {
  }

  lemma PeriodicIsRunnable(c: Config, position: nat, agencies: seq<string>, known: Zones)
    requires known("UTC") && WithPolicy(NormalizeFeedConfig(c)).policy == PERIODIC
    ensures Runnable(Normalized(c, position, agencies, known), known) <==> Usable(c)
  {
    DefaultPeriodIsPositive(c);
    if c.periodicUpdatePeriodMs.Some? {
      TickIntervalIsPositive(c.periodicUpdatePeriodMs.value);
    }
  }

  lemma DailyIsRunnable(c: Config, position: nat, agencies: seq<string>, known: Zones)
    requires known("UTC") && DefaultMinutes(position) <= MAX_INT64
    requires WithPolicy(NormalizeFeedConfig(c)).policy == DAILY
    ensures Runnable(Normalized(c, position, agencies, known), known) && Usable(c)
  {
    DefaultTimeParses(position);
  }

  /** After normalisation the policy is never DEFAULT, and a feed that is not NONE
      can be run exactly when it was configured with a declared policy and, if that
      makes it periodic, with a usable period or none. */
  lemma NormalizedIsRunnable(c: Config, position: nat, agencies: seq<string>, known: Zones)
    requires known("UTC") && DefaultMinutes(position) <= MAX_INT64
    ensures var n := Normalized(c, position, agencies, known);
      && n.policy != DEFAULT
      && (n.policy != NONE ==> (Runnable(n, known) <==> Usable(c)))
      && (n.policy == NONE <==> c.policy == NONE)
  {
    if WithPolicy(NormalizeFeedConfig(c)).policy == PERIODIC {
      PeriodicIsRunnable(c, position, agencies, known);
    } else if WithPolicy(NormalizeFeedConfig(c)).policy == DAILY {
      DailyIsRunnable(c, position, agencies, known);
    }
  }

  // A periodic feed with the given periods and nothing else.
  function PeriodicFeed(ms: Option<int>, s: Option<real>): Config {
    Config("feed", GTFS_REALTIME, "", None, PERIODIC, ms, s, "", "")
  }

  /** The comment's valid value is not guaranteed: a supplied period of zero or less
      is kept, and a period of less than a millisecond in seconds becomes zero. */
  lemma UnusablePeriodsStay(position: nat, agencies: seq<string>, known: Zones)
    requires known("UTC")
    ensures var tiny := Normalized(PeriodicFeed(None, Some(0.0004)), position, agencies, known);
      tiny.periodicUpdatePeriodMs == Some(0) && !Runnable(tiny, known)
    ensures !Runnable(Normalized(PeriodicFeed(Some(0), None), position, agencies, known), known)
    ensures !Runnable(Normalized(PeriodicFeed(Some(-5), None), position, agencies, known), known)
  {
    TickIntervalIsPositive(0);
    TickIntervalIsPositive(-5);
  }

  /** Settling the type: afterwards the feed has a type unless it had neither type nor
      parser, and says whether it is required; nothing is changed exactly when both
      were so already. */
  lemma TypeIsSettled(c: Config)
    ensures var n := NormalizeFeedConfig(c);
      && (n.feedType == "" <==> c.feedType == "" && c.parser == "")
      && n.requiredForInstall.Some?
      && (c.requiredForInstall.None? ==> (n.requiredForInstall.value <==> n.feedType != GTFS_REALTIME))
      && (n == c <==> (c.feedType != "" || c.parser == "") && c.requiredForInstall.Some?)
      && NormalizeFeedConfig(n) == n
  {
  }

  /** Normalising decides a default policy by the feed's type, keeps every value that
      can be used, and touches only what the policy needs. */
  lemma NormalizedKeepsWhatIsValid(c: Config, position: nat, agencies: seq<string>, known: Zones)
    requires known("UTC")
    ensures var n := Normalized(c, position, agencies, known);
      && n.id == c.id && n.updatePeriodS == c.updatePeriodS
      && n.feedType == (if c.feedType != "" then c.feedType else c.parser)
      && (c.policy != DEFAULT ==> n.policy == c.policy)
      && (c.policy == DEFAULT ==> n.policy == if n.feedType == GTFS_REALTIME then PERIODIC else DAILY)
      && (n.policy != PERIODIC || c.periodicUpdatePeriodMs.Some? ==> n.periodicUpdatePeriodMs == c.periodicUpdatePeriodMs)
      && (n.policy != DAILY || ParseDailyUpdateTime(c.dailyUpdateTime).Some? ==> n.dailyUpdateTime == c.dailyUpdateTime)
      && (n.policy != DAILY || (c.dailyUpdateTimezone != "" && known(c.dailyUpdateTimezone)) ==>
            n.dailyUpdateTimezone == c.dailyUpdateTimezone)
  {
  }

  // That many seconds in whole milliseconds, the rest dropped.
  predicate IsMilliseconds(ms: int, seconds: real) {
    if seconds >= 0.0 then ms as real <= seconds * 1000.0 < ms as real + 1.0
    else ms as real - 1.0 < seconds * 1000.0 <= ms as real
  }

  lemma TruncateMeaning(ms: int, seconds: real)
    ensures ms == Truncate(seconds * 1000.0) <==> IsMilliseconds(ms, seconds)
  {
  }

  /** What normalising fills in for a periodic feed: five seconds, or the deprecated
      period if it has one. A feed without a policy is periodic if it is a realtime
      feed. */
  lemma PeriodIsFilledIn(c: Config, position: nat, agencies: seq<string>, known: Zones)
    requires known("UTC") && c.periodicUpdatePeriodMs.None?
    requires c.policy == PERIODIC
          || (c.policy == DEFAULT && (if c.feedType != "" then c.feedType else c.parser) == "GTFS_REALTIME")
    ensures var n := Normalized(c, position, agencies, known);
      && n.policy == PERIODIC && n.periodicUpdatePeriodMs.Some?
      && (if c.updatePeriodS.None? || c.updatePeriodS.value == 0.0 then n.periodicUpdatePeriodMs.value == 5000
          else IsMilliseconds(n.periodicUpdatePeriodMs.value, c.updatePeriodS.value))
  {
    if c.updatePeriodS.Some? {
      TruncateMeaning(Truncate(c.updatePeriodS.value * 1000.0), c.updatePeriodS.value);
    }
  }

  // A whole number of thousandths of a second is that number of milliseconds.
  lemma WholeMilliseconds(n: int, ms: int)
    ensures IsMilliseconds(ms, n as real / 1000.0) <==> ms == n
  {
  }

  /** What normalising fills in for a daily feed without a usable time: three o'clock
      for the first feed and ten minutes more for every further one. A feed without a
      policy is daily if it is not a realtime feed. */
  lemma TimeIsFilledIn(c: Config, position: nat, agencies: seq<string>, known: Zones)
    requires known("UTC") && 180 + 10 * position <= 0x7fff_ffff_ffff_ffff
    requires c.policy == DAILY
          || (c.policy == DEFAULT && (if c.feedType != "" then c.feedType else c.parser) != "GTFS_REALTIME")
    requires ParseDailyUpdateTime(c.dailyUpdateTime).None?
    ensures var n := Normalized(c, position, agencies, known);
      && n.policy == DAILY
      && ParseDailyUpdateTime(n.dailyUpdateTime) == Some((3 + position / 6, 10 * (position % 6)))
  {
    DefaultTimeParses(position);
    TenMinutesApart(position);
  }

  lemma TenMinutesApart(position: nat)
    ensures DefaultMinutes(position) / 60 == 3 + position / 6 && DefaultMinutes(position) % 60 == 10 * (position % 6)
    ensures DefaultMinutes(position) == 180 + 10 * position
  {
    assert 180 + 10 * position == 60 * (3 + position / 6) + 10 * (position % 6);
  }

  /** It is written with two digits for the hour, a colon and two digits for the minute,
      as long as two digits are enough for the hour. */
  lemma TimeIsPadded(position: nat)
    requires 3 + position / 6 < 100
    ensures |DefaultTime(position)| == 5 && DefaultTime(position)[2] == ':'
    ensures AllDigits(DefaultTime(position)[..2]) && AllDigits(DefaultTime(position)[3..])
  {
    TenMinutesApart(position);
    TwoDigits(DefaultMinutes(position) / 60);
    TwoDigits(DefaultMinutes(position) % 60);
    var h, m := Pad2(DefaultMinutes(position) / 60), Pad2(DefaultMinutes(position) % 60);
    assert (h + ":" + m)[..2] == h && (h + ":" + m)[3..] == m;
  }

  lemma TwoDigits(n: nat)
    requires n < 100
    ensures |Pad2(n)| == 2
  {
    assert n >= 10 ==> Digits(n) == Digits(n / 10) + [DigitChar(n % 10)] && |Digits(n / 10)| == 1;
  }

  /** And without a usable timezone: the first agency's that can be loaded, or UTC. */
  lemma ZoneIsFilledIn(c: Config, position: nat, agencies: seq<string>, known: Zones, k: nat)
    requires known("UTC")
    requires c.policy == DAILY
          || (c.policy == DEFAULT && (if c.feedType != "" then c.feedType else c.parser) != "GTFS_REALTIME")
    requires c.dailyUpdateTimezone == "" || !known(c.dailyUpdateTimezone)
    requires k <= |agencies| && (k < |agencies| ==> agencies[k] != "" && known(agencies[k]))
    requires forall i :: 0 <= i < k ==> agencies[i] == "" || !known(agencies[i])
    ensures Normalized(c, position, agencies, known).dailyUpdateTimezone == if k < |agencies| then agencies[k] else "UTC"
  {
    FirstUsableZone(agencies, known, k);
    ZoneFallsBack(c, position, agencies, known);
  }

  lemma ZoneFallsBack(c: Config, position: nat, agencies: seq<string>, known: Zones)
    requires known("UTC")
    requires c.policy == DAILY
          || (c.policy == DEFAULT && (if c.feedType != "" then c.feedType else c.parser) != "GTFS_REALTIME")
    requires c.dailyUpdateTimezone == "" || !known(c.dailyUpdateTimezone)
    ensures Normalized(c, position, agencies, known).dailyUpdateTimezone == FallbackZone(agencies, known)
  {
  }

  lemma {:induction false} FirstUsableZone(agencies: seq<string>, known: Zones, k: nat)
    requires known("UTC")
    requires k <= |agencies| && (k < |agencies| ==> agencies[k] != "" && known(agencies[k]))
    requires forall i :: 0 <= i < k ==> agencies[i] == "" || !known(agencies[i])
    ensures FallbackZone(agencies, known) == if k < |agencies| then agencies[k] else "UTC"
  {
    if k > 0 {
      assert forall i :: 0 <= i < k - 1 ==> agencies[1..][i] == agencies[i + 1];
      FirstUsableZone(agencies[1..], known, k - 1);
    }
  }

  // What a configuration looks like when there is nothing left to decide.
  predicate IsNormal(c: Config, known: Zones) {
    && (c.feedType != "" || c.parser == "") && c.requiredForInstall.Some?
    && c.policy != DEFAULT
    && (c.policy == PERIODIC ==> c.periodicUpdatePeriodMs.Some?)
    && (c.policy == DAILY ==>
          && ParseDailyUpdateTime(c.dailyUpdateTime).Some?
          && c.dailyUpdateTimezone != "" && known(c.dailyUpdateTimezone))
  }

  lemma NormalStays(c: Config, position: nat, agencies: seq<string>, known: Zones)
    requires known("UTC") && IsNormal(c, known)
    ensures Normalized(c, position, agencies, known) == c
  {
    TypeIsSettled(c);
  }

  /** Normalising leads to a normal configuration, and leaves a configuration as it is
      exactly when that is normal already. */
  lemma NormalizedIsNormal(c: Config, position: nat, agencies: seq<string>, known: Zones)
    requires known("UTC") && DefaultMinutes(position) <= MAX_INT64
    ensures IsNormal(Normalized(c, position, agencies, known), known)
    ensures Normalized(c, position, agencies, known) == c <==> IsNormal(c, known)
  {
    DefaultTimeParses(position);
    TypeIsSettled(c);
    NormalizedKeepsWhatIsValid(c, position, agencies, known);
    if IsNormal(c, known) {
      NormalStays(c, position, agencies, known);
    }
  }

  /** Normalising again changes nothing, wherever the feed is listed and whatever
      the agencies say then. */
  lemma NormalizedIsIdempotent(c: Config, p: nat, q: nat, agencies: seq<string>, others: seq<string>, known: Zones)
    requires known("UTC") && DefaultMinutes(p) <= MAX_INT64
    ensures var n := Normalized(c, p, agencies, known);
      Normalized(n, q, others, known) == n
  {
    NormalizedIsNormal(c, p, agencies, known);
    NormalStays(Normalized(c, p, agencies, known), q, others, known);
  }

  // The feeds of a system that get a loop: normalised, in order, without NONE.
  function ActiveFeeds(feeds: seq<Config>, agencies: seq<string>, known: Zones): seq<Config>
    requires known("UTC")
  {
    if feeds == [] then [] else
      var n := Normalized(feeds[|feeds| - 1], |feeds| - 1, agencies, known);
      ActiveFeeds(feeds[..|feeds| - 1], agencies, known) + if n.policy == NONE then [] else [n]
  }

  // Normalising never makes a feed NONE, or anything else of it.
  lemma NoneStaysNone(c: Config, position: nat, agencies: seq<string>, known: Zones)
    requires known("UTC")
    ensures Normalized(c, position, agencies, known).policy == NONE <==> c.policy == NONE
  {
  }

  // The feed at a position of the configuration, normalised, gets a loop.
  predicate IsActive(feeds: seq<Config>, i: nat, agencies: seq<string>, known: Zones, x: Config)
    requires known("UTC")
  {
    i < |feeds| && feeds[i].policy != NONE && x == Normalized(feeds[i], i, agencies, known)
  }

  lemma LastActive(feeds: seq<Config>, agencies: seq<string>, known: Zones, x: Config)
    requires known("UTC") && feeds != []
    ensures x in ActiveFeeds(feeds, agencies, known) <==>
      || x in ActiveFeeds(feeds[..|feeds| - 1], agencies, known)
      || IsActive(feeds, |feeds| - 1, agencies, known, x)
  {
    NoneStaysNone(feeds[|feeds| - 1], |feeds| - 1, agencies, known);
  }

  lemma ActiveInFront(feeds: seq<Config>, i: nat, agencies: seq<string>, known: Zones, x: Config)
    requires known("UTC") && i + 1 < |feeds|
    ensures IsActive(feeds, i, agencies, known, x) <==> IsActive(feeds[..|feeds| - 1], i, agencies, known, x)
  {
    assert feeds[..|feeds| - 1][i] == feeds[i];
  }

  ghost predicate SomeActive(feeds: seq<Config>, agencies: seq<string>, known: Zones, x: Config)
    requires known("UTC")
  {
    exists i: nat :: IsActive(feeds, i, agencies, known, x)
  }

  lemma SomeActiveInFront(feeds: seq<Config>, agencies: seq<string>, known: Zones, x: Config)
    requires known("UTC") && feeds != []
    ensures SomeActive(feeds, agencies, known, x) <==>
      SomeActive(feeds[..|feeds| - 1], agencies, known, x) || IsActive(feeds, |feeds| - 1, agencies, known, x)
  {
    var n := |feeds| - 1;
    if i: nat :| IsActive(feeds, i, agencies, known, x) {
      if i < n {
        ActiveInFront(feeds, i, agencies, known, x);
      }
    }
    if i: nat :| IsActive(feeds[..n], i, agencies, known, x) {
      ActiveInFront(feeds, i, agencies, known, x);
    }
  }

  /** A feed gets a loop exactly when its policy is not NONE, and then its normal form
      is what the loop is given. */
  lemma {:induction false} ActiveFeedsMeaning(feeds: seq<Config>, agencies: seq<string>, known: Zones, x: Config)
    requires known("UTC")
    ensures x in ActiveFeeds(feeds, agencies, known) <==> SomeActive(feeds, agencies, known, x)
  {
    if feeds != [] {
      ActiveFeedsMeaning(feeds[..|feeds| - 1], agencies, known, x);
      LastActive(feeds, agencies, known, x);
      SomeActiveInFront(feeds, agencies, known, x);
    }
  }

  /** There is nothing to schedule exactly when every feed's policy is NONE. */
  lemma {:induction false} NothingActive(feeds: seq<Config>, agencies: seq<string>, known: Zones)
    requires known("UTC")
    ensures ActiveFeeds(feeds, agencies, known) == [] <==> forall i :: 0 <= i < |feeds| ==> feeds[i].policy == NONE
  {
    if feeds != [] {
      var n := |feeds| - 1;
      NothingActive(feeds[..n], agencies, known);
      NoneStaysNone(feeds[n], n, agencies, known);
    }
  }

  /** Every feed that gets a loop can be run exactly when every feed that is not NONE
      was configured in a usable way. */
  lemma ActiveFeedsAreRunnable(feeds: seq<Config>, agencies: seq<string>, known: Zones)
    requires known("UTC") && DefaultMinutes(|feeds|) <= MAX_INT64
    ensures (forall x :: x in ActiveFeeds(feeds, agencies, known) ==> Runnable(x, known))
       <==> (forall i :: 0 <= i < |feeds| && feeds[i].policy != NONE ==> Usable(feeds[i]))
  {
    forall i | 0 <= i < |feeds| && feeds[i].policy != NONE
      ensures var x := Normalized(feeds[i], i, agencies, known);
        x in ActiveFeeds(feeds, agencies, known) && (Runnable(x, known) <==> Usable(feeds[i]))
    {
      var x := Normalized(feeds[i], i, agencies, known);
      NormalizedIsRunnable(feeds[i], i, agencies, known);
      assert IsActive(feeds, i, agencies, known, x);
      assert SomeActive(feeds, agencies, known, x);
      ActiveFeedsMeaning(feeds, agencies, known, x);
    }
    forall x | x in ActiveFeeds(feeds, agencies, known)
      ensures SomeActive(feeds, agencies, known, x)
    {
      ActiveFeedsMeaning(feeds, agencies, known, x);
    }
  }

  // ---------------------------------------------------------------- the object

  class FeedConfig {
    const Id: string
    var Type: string
    const Parser: string
    var RequiredForInstall: Option<bool>
    var SchedulingPolicy: Policy
    var PeriodicUpdatePeriodMs: Option<int>
    const UpdatePeriodS: Option<real>
    var DailyUpdateTime: string
    var DailyUpdateTimezone: string

    constructor (c: Config)
      ensures Contents() == c
    {
      Id, Type, Parser, RequiredForInstall := c.id, c.feedType, c.parser, c.requiredForInstall;
      SchedulingPolicy, PeriodicUpdatePeriodMs, UpdatePeriodS := c.policy, c.periodicUpdatePeriodMs, c.updatePeriodS;
      DailyUpdateTime, DailyUpdateTimezone := c.dailyUpdateTime, c.dailyUpdateTimezone;
    }

    function Contents(): Config
      reads this
    {
      Config(Id, Type, Parser, RequiredForInstall, SchedulingPolicy, PeriodicUpdatePeriodMs, UpdatePeriodS,
             DailyUpdateTime, DailyUpdateTimezone)
    }

    method NormalizeType()
      modifies this
      ensures Contents() == NormalizeFeedConfig(old(Contents()))
    {
      if Type == "" {
        Type := Parser;
      }
      if RequiredForInstall.None? {
        RequiredForInstall := Some(Type != GTFS_REALTIME);
      }
    }

    method NormalizeSchedulingPolicy(position: nat, agencies: seq<string>, known: Zones)
      requires known("UTC")
      modifies this
      ensures Contents() == Normalized(old(Contents()), position, agencies, known)
    {
      NormalizeType();
      if SchedulingPolicy == DEFAULT {
        if Type == GTFS_REALTIME {
          SchedulingPolicy := PERIODIC;
        } else {
          SchedulingPolicy := DAILY;
        }
      }
      if SchedulingPolicy == PERIODIC {
        if PeriodicUpdatePeriodMs.None? {
          var p := 5000;
          if UpdatePeriodS.Some? && UpdatePeriodS.value != 0.0 {
            p := Truncate(UpdatePeriodS.value * 1000.0);
          }
          PeriodicUpdatePeriodMs := Some(p);
        }
      } else if SchedulingPolicy == DAILY {
        EmptyTime();
        if DailyUpdateTime != "" {
          if ParseDailyUpdateTime(DailyUpdateTime).None? {
            DailyUpdateTime := "";
          }
        }
        if DailyUpdateTime == "" {
          DailyUpdateTime := DefaultTime(position);
        }
        if DailyUpdateTimezone != "" {
          if !known(DailyUpdateTimezone) {
            DailyUpdateTimezone := "";
          }
        }
        if DailyUpdateTimezone == "" {
          DailyUpdateTimezone := FirstKnown(agencies, known);
        }
      }
    }
  }

  // The loop over the agencies.
  method FirstKnown(agencies: seq<string>, known: Zones) returns (tz: string)
    requires known("UTC")
    ensures tz == FallbackZone(agencies, known)
  {
    tz := "";
    for i := 0 to |agencies|
      invariant tz == ""
      invariant FallbackZone(agencies[i..], known) == FallbackZone(agencies, known)
    {
      var candidateTz := agencies[i];
      assert agencies[i..][0] == candidateTz && agencies[i..][1..] == agencies[i + 1..];
      if candidateTz == "" {
        continue;
      }
      if known(candidateTz) {
        return candidateTz;
      }
    }
    if tz == "" {
      tz := "UTC";
    }
  }

  function ContentsOf(feeds: seq<FeedConfig>): (r: seq<Config>)
    reads feeds
    ensures |r| == |feeds|
    ensures forall i :: 0 <= i < |r| ==> r[i] == feeds[i].Contents()
  {
    seq(|feeds|, i requires 0 <= i < |feeds| reads feeds => feeds[i].Contents())
  }

  ghost predicate DistinctObjects(feeds: seq<FeedConfig>) {
    forall i, j :: 0 <= i < j < |feeds| ==> feeds[i] != feeds[j]
  }

  // The objects hold these configurations.
  ghost predicate Hold(feeds: seq<FeedConfig>, contents: seq<Config>)
    reads feeds
  {
    |feeds| == |contents| && forall k :: 0 <= k < |feeds| ==> feeds[k].Contents() == contents[k]
  }

  // The feeds before a position are normalised, the others are as they were.
  ghost predicate NormalizedUpTo(systemFeeds: seq<FeedConfig>, before: seq<Config>, i: nat, agencies: seq<string>, known: Zones)
    requires known("UTC")
    reads systemFeeds
  {
    && |systemFeeds| == |before|
    && (forall k :: 0 <= k < i && k < |before| ==>
          systemFeeds[k].Contents() == Normalized(before[k], k, agencies, known))
    && (forall k :: i <= k < |before| ==> systemFeeds[k].Contents() == before[k])
  }

  // Normalises the feed at a position and leaves the others alone.
  method NormalizeAt(systemFeeds: seq<FeedConfig>, i: nat, agencies: seq<string>, known: Zones, ghost before: seq<Config>)
    requires known("UTC") && DistinctObjects(systemFeeds) && i < |systemFeeds|
    requires NormalizedUpTo(systemFeeds, before, i, agencies, known)
    modifies systemFeeds[i]
    ensures NormalizedUpTo(systemFeeds, before, i + 1, agencies, known)
    ensures forall f :: f in systemFeeds && f != systemFeeds[i] ==> f.Contents() == old(f.Contents())
  {
    NotAmong(systemFeeds, i, []);
    systemFeeds[i].NormalizeSchedulingPolicy(i, agencies, known);
  }

  lemma ActiveUpTo(feeds: seq<Config>, i: nat, agencies: seq<string>, known: Zones)
    requires known("UTC") && i < |feeds|
    ensures var n := Normalized(feeds[i], i, agencies, known);
      ActiveFeeds(feeds[..i + 1], agencies, known)
      == ActiveFeeds(feeds[..i], agencies, known) + if n.policy == NONE then [] else [n]
  {
    assert feeds[..i + 1][..i] == feeds[..i];
  }

  // One round of the loop.
  method CollectOne(systemFeeds: seq<FeedConfig>, i: nat, feeds: seq<FeedConfig>, agencies: seq<string>, known: Zones,
                    ghost before: seq<Config>)
    returns (feeds': seq<FeedConfig>)
    requires known("UTC") && DistinctObjects(systemFeeds) && i < |systemFeeds|
    requires NormalizedUpTo(systemFeeds, before, i, agencies, known)
    requires Hold(feeds, ActiveFeeds(before[..i], agencies, known)) && forall f :: f in feeds ==> f in systemFeeds[..i]
    modifies systemFeeds[i]
    ensures NormalizedUpTo(systemFeeds, before, i + 1, agencies, known)
    ensures Hold(feeds', ActiveFeeds(before[..i + 1], agencies, known))
    ensures forall f :: f in feeds' ==> f in systemFeeds[..i + 1]
  {
    NotAmong(systemFeeds, i, feeds);
    ghost var active := ActiveFeeds(before[..i], agencies, known);
    NormalizeAt(systemFeeds, i, agencies, known, before);
    assert Hold(feeds, active);
    ActiveUpTo(before, i, agencies, known);
    assert systemFeeds[..i + 1] == systemFeeds[..i] + [systemFeeds[i]];
    feeds' := feeds;
    if systemFeeds[i].SchedulingPolicy != NONE {
      feeds' := feeds + [systemFeeds[i]];
    }
  }

  lemma NotAmong(systemFeeds: seq<FeedConfig>, i: nat, feeds: seq<FeedConfig>)
    requires DistinctObjects(systemFeeds) && i < |systemFeeds|
    requires forall f :: f in feeds ==> f in systemFeeds[..i]
    ensures systemFeeds[i] !in feeds && forall f :: f in feeds ==> f in systemFeeds
    ensures forall k :: 0 <= k < |systemFeeds| && k != i ==> systemFeeds[k] != systemFeeds[i]
  {
  }

  /** The loop of a reset over a system's feeds: normalises each of them in place and
      collects those whose policy is not NONE. */
  method CollectActiveFeeds(systemFeeds: seq<FeedConfig>, agencies: seq<string>, known: Zones)
    returns (feeds: seq<FeedConfig>)
    requires known("UTC") && DistinctObjects(systemFeeds)
    modifies systemFeeds
    ensures forall i :: 0 <= i < |systemFeeds| ==>
      systemFeeds[i].Contents() == Normalized(old(systemFeeds[i].Contents()), i, agencies, known)
    ensures ContentsOf(feeds) == ActiveFeeds(old(ContentsOf(systemFeeds)), agencies, known)
    ensures forall f :: f in feeds ==> f in systemFeeds
  {
    ghost var before := ContentsOf(systemFeeds);
    feeds := [];
    for i := 0 to |systemFeeds|
      invariant NormalizedUpTo(systemFeeds, before, i, agencies, known)
      invariant Hold(feeds, ActiveFeeds(before[..i], agencies, known))
      invariant forall f :: f in feeds ==> f in systemFeeds[..i]
    {
      feeds := CollectOne(systemFeeds, i, feeds, agencies, known, before);
    }
    assert before[..|systemFeeds|] == before;
  }
}
