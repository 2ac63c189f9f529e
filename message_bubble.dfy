/** The message bubble's derived text (components/MessageBubble.tsx): the
    relative time shown beside the body and the avatar initial. The clock is
    a parameter: `now` and `sent` (the message's `created_at`) are integer milliseconds since the epoch. */
module MessageBubble {
  import opened Wrappers
  import opened Text

  datatype TimeUnit = Seconds | Minutes | Hours | Days

  /** An elapsed time as shown: a whole number of one unit. */
  datatype Elapsed = Elapsed(amount: nat, unit: TimeUnit)

  /** The unit's length in seconds. */
  function UnitLength(u: TimeUnit): nat
  {
    match u
    case Seconds => 1
    case Minutes => 60
    case Hours => 3600
    case Days => 86400
  }

  function Larger(u: TimeUnit): TimeUnit
  {
    match u
    case Seconds => Minutes
    case Minutes => Hours
    case Hours => Days
    case Days => Days
  }

  /** `Math.max(0, Math.floor((now - sent) / 1000))`: whole seconds elapsed,
      and zero for a timestamp in the future. Dafny's `/` by a positive
      divisor rounds down, as `Math.floor` does. */
  function ElapsedSeconds(now: int, sent: int): (d: nat)
    ensures now - sent >= 0 ==> d * 1000 <= now - sent < d * 1000 + 1000
    ensures now - sent < 1000 ==> d == 0
  {
    var q := (now - sent) / 1000;
    if q < 0 then 0 else q
  }

  /** `e` is `diff` seconds written in the largest unit that `diff` reaches,
      rounded down. */
  predicate Fits(diff: nat, e: Elapsed)
  {
    && e.amount * UnitLength(e.unit) <= diff < (e.amount + 1) * UnitLength(e.unit)
    && (e.unit != Seconds ==> UnitLength(e.unit) <= diff)
    && (e.unit != Days ==> diff < UnitLength(Larger(e.unit)))
  }

  /** The bucket chain of `getRelativeTime`: below a minute in seconds, below
      an hour in minutes, below a day in hours, otherwise in days. */
  function Classify(diff: nat): (e: Elapsed)
    ensures Fits(diff, e)
    ensures e.unit == Seconds ==> e.amount == diff
    ensures e.unit == Minutes ==> 1 <= e.amount <= 59
    ensures e.unit == Hours ==> 1 <= e.amount <= 23
    ensures e.unit == Days ==> e.amount >= 1
  {
    if diff < 60 then Elapsed(diff, Seconds)
    else if diff < 3600 then Elapsed(diff / 60, Minutes)
    else if diff < 86400 then Elapsed(diff / 3600, Hours)
    else Elapsed(diff / 86400, Days)
  }

  /** The buckets are exclusive and exhaustive: each number of seconds has
      exactly one way of being shown. */
  lemma FitsUnique(diff: nat, e: Elapsed)
    requires Fits(diff, e)
    ensures e == Classify(diff)
  {
  }

  function Suffix(u: TimeUnit): string
  {
    match u
    case Seconds => "s ago"
    case Minutes => "m"
    case Hours => "h"
    case Days => "d"
  }

  /** The template literals `${diff}s ago`, `${m}m`, `${h}h`, `${d}d`:
      every label reads back as the bucket and figure it was written from. */
  function Render(e: Elapsed): (r: string)
    ensures ParseRelative(r) == Some(e)
  {
    var d := Decimal(e.amount);
    var s := d + Suffix(e.unit);
    ParseDecimalOfDecimal(e.amount);
    if e.unit == Seconds then
      assert s[|s| - 5..] == "s ago";
      assert s[..|s| - 5] == d;
      s
    else
      assert s[|s| - 1] == Suffix(e.unit)[0];
      assert |s| >= 5 ==> s[|s| - 5..][4] == s[|s| - 1];
      assert s[..|s| - 1] == d;
      s
  }

  /** `getRelativeTime` with the clock readings passed in. */
  function RelativeTime(now: int, sent: int): (shown: string)
    ensures ParseRelative(shown) == Some(Classify(ElapsedSeconds(now, sent)))
  {
    Render(Classify(ElapsedSeconds(now, sent)))
  }

  /** A timestamp in the future, or less than a second ago, reads `0s ago`. */
  lemma FutureIsZeroSecondsAgo(now: int, sent: int)
    requires now - sent < 1000
    ensures RelativeTime(now, sent) == "0s ago"
  {
    assert Decimal(0) == "0";
  }

  /** The text shown for each range of elapsed seconds. */
  lemma RelativeTimeRanges(now: int, sent: int)
    ensures var diff := ElapsedSeconds(now, sent);
      && (diff < 60 ==> RelativeTime(now, sent) == Decimal(diff) + "s ago")
      && (60 <= diff < 3600 ==> RelativeTime(now, sent) == Decimal(diff / 60) + "m" && 1 <= diff / 60 <= 59)
      && (3600 <= diff < 86400 ==> RelativeTime(now, sent) == Decimal(diff / 3600) + "h" && 1 <= diff / 3600 <= 23)
      && (86400 <= diff ==> RelativeTime(now, sent) == Decimal(diff / 86400) + "d" && diff / 86400 >= 1)
  {
  }

  function UnitOfLetter(c: char): Option<TimeUnit>
  {
    if c == 'm' then Some(Minutes)
    else if c == 'h' then Some(Hours)
    else if c == 'd' then Some(Days)
    else None
  }

  function Numeral(digits: string, u: TimeUnit): Option<Elapsed>
  {
    if digits != [] && AllDigits(digits) then Some(Elapsed(ParseDecimal(digits), u)) else None
  }

  /** Reads a relative-time label back into its bucket. */
  function ParseRelative(s: string): Option<Elapsed>
  {
    if |s| >= 5 && s[|s| - 5..] == "s ago" then Numeral(s[..|s| - 5], Seconds)
    else if |s| >= 1 && UnitOfLetter(s[|s| - 1]).Some? then Numeral(s[..|s| - 1], UnitOfLetter(s[|s| - 1]).value)
    else None
  }

  /** Two clock readings show the same label exactly when they fall in the
      same bucket with the same figure. */
  lemma SameLabelSameBucket(now1: int, sent1: int, now2: int, sent2: int)
    ensures RelativeTime(now1, sent1) == RelativeTime(now2, sent2)
        <==> Classify(ElapsedSeconds(now1, sent1)) == Classify(ElapsedSeconds(now2, sent2))
  {
  }

  /** The avatar initial `user.name ? user.name[0].toUpperCase() : '?'`. */
  function Initial(name: string): (r: string)
    ensures |r| == 1 && !IsLowerAscii(r[0])
    ensures name == "" ==> r == "?"
    ensures name != "" ==> r == [UpperAscii(name[0])]
  {
    if name == "" then "?" else [UpperAscii(name[0])]
  }
}
