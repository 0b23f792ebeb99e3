/** Uptime of the host: whole seconds since boot, and the text Python's
    `str(timedelta(seconds=n))` gives them (main.py lines 148-149). */
module Uptime {
  import opened Wrappers
  import opened Decimal

  const SecondsPerDay: nat := 86400
  const SecondsPerHour: nat := 3600
  const SecondsPerMinute: nat := 60

  /** Python's `int(x)` on a float: truncation toward zero. */
  function Trunc(x: real): (i: int)
    ensures x >= 0.0 ==> 0 <= i && i as real <= x < i as real + 1.0
    ensures x < 0.0 ==> i <= 0 && i as real - 1.0 < x <= i as real
  {
    if x >= 0.0 then x.Floor else -((-x).Floor)
  }

  /** `max(0, int(now - boot))`: never negative, and the whole part of the
      elapsed time whenever that is not negative. */
  function UptimeSeconds(now: real, boot: real): (s: nat)
    ensures now - boot >= 0.0 ==> s as real <= now - boot < s as real + 1.0
    ensures now - boot < 1.0 ==> s == 0
  {
    var t := Trunc(now - boot);
    if t > 0 then t else 0
  }

  /** The fields of a normalised `timedelta` with no microseconds. */
  datatype Duration = Duration(days: nat, hours: nat, minutes: nat, seconds: nat)

  function TotalSeconds(d: Duration): nat {
    d.days * SecondsPerDay + d.hours * SecondsPerHour + d.minutes * SecondsPerMinute + d.seconds
  }

  predicate Normalised(d: Duration) {
    d.hours < 24 && d.minutes < 60 && d.seconds < 60
  }

  /** The normalised duration of `total` seconds. */
  function Split(total: nat): (d: Duration)
    ensures Normalised(d) && TotalSeconds(d) == total
  {
    var rem := total % SecondsPerDay;
    var d := Duration(total / SecondsPerDay, rem / SecondsPerHour, rem % SecondsPerHour / SecondsPerMinute, rem % SecondsPerMinute);
    assert rem % SecondsPerHour == (rem % SecondsPerHour / SecondsPerMinute) * SecondsPerMinute + rem % SecondsPerMinute by {
      ModOfMod(rem);
    }
    d
  }

  lemma ModOfMod(rem: nat)
    ensures (rem % 3600) % 60 == rem % 60
  {
    var q := rem / 3600;
    assert rem == q * 3600 + rem % 3600;
    assert q * 3600 == (q * 60) * 60;
  }

  /** `"%d day%s, "` for a nonzero day count, nothing for zero days: the
      part before the final ", " reads back as the day count, and holds no comma. */
  function DayPrefix(days: nat): (r: string)
    ensures r == "" <==> days == 0
    ensures days > 0 ==> |r| > 2 && r[|r| - 2..] == ", " && ',' !in r[..|r| - 2]
                         && ParseDays(r[..|r| - 2]) == Some(days)
  {
    if days == 0 then ""
    else
      var head := NatToString(days) + (if days == 1 then " day" else " days");
      DayWordParses(days);
      var r := head + ", ";
      assert r[..|r| - 2] == head;
      r
  }

  /** `"%d:%02d:%02d"` of hours, minutes and seconds: it holds no comma and
      reads back as the same three fields. */
  function ClockText(d: Duration): (c: string)
    requires Normalised(d)
    ensures ',' !in c
    ensures |c| >= 7 && c[..|c| - 6] == NatToString(d.hours)
    ensures ParseClock(c) == Some(Duration(0, d.hours, d.minutes, d.seconds))
  {
    var h := NatToString(d.hours);
    var c := h + ":" + Pad2(d.minutes) + ":" + Pad2(d.seconds);
    var n := |c|;
    assert n == |h| + 6;
    assert c[..n - 6] == h;
    assert c[n - 5..n - 3] == Pad2(d.minutes);
    assert c[n - 2..] == Pad2(d.seconds);
    NatToStringRoundTrip(d.hours);
    assert forall i :: 0 <= i < n ==> IsDigit(c[i]) || c[i] == ':';
    c
  }

  /** `str(timedelta(seconds=total))`: the text determines the duration, as
      reading it back gives the normalised fields of the same number of seconds. */
  function FormatUptime(total: nat): (t: string)
    ensures ParseUptime(t) == Some(Split(total))
  {
    var d := Split(total);
    var clock := ClockText(d);
    var prefix := DayPrefix(d.days);
    if d.days == 0 then
      assert prefix + clock == clock;
      prefix + clock
    else
      var head := prefix[..|prefix| - 2];
      assert prefix == head + ", ";
      ParseWithDays(head, clock, d.days, Duration(0, d.hours, d.minutes, d.seconds));
      prefix + clock
  }

  /** The text shown for the host's uptime in a snapshot: that of the whole,
      never negative, seconds since boot. */
  function UptimeText(now: real, boot: real): (t: string)
    ensures ParseUptime(t) == Some(Split(UptimeSeconds(now, boot)))
  {
    FormatUptime(UptimeSeconds(now, boot))
  }

  // Reading the text back.

  function IndexOf(s: string, c: char): (r: Option<nat>)
    ensures r.Some? ==> r.value < |s| && s[r.value] == c && c !in s[..r.value]
    ensures r.None? ==> c !in s
  {
    if s == [] then None
    else if s[0] == c then Some(0)
    else match IndexOf(s[1..], c)
      case None => None
      case Some(i) =>
        assert s[..i + 1] == [s[0]] + s[1..][..i];
        Some(i + 1)
  }

  /** Reads `N days` back for a canonical count of at least two, and `1 day`. */
  function ParseDays(head: string): Option<nat> {
    if |head| > 5 && head[|head| - 5..] == " days" && Canonical(head[..|head| - 5])
       && DigitsValue(head[..|head| - 5]) >= 2 then
      Some(DigitsValue(head[..|head| - 5]))
    else if head == "1 day" then Some(1)
    else None
  }

  function ParseClock(c: string): Option<Duration> {
    var n := |c|;
    if n >= 7 && c[n - 6] == ':' && c[n - 3] == ':'
       && Canonical(c[..n - 6]) && AllDigits(c[n - 5..n - 3]) && AllDigits(c[n - 2..])
    then Some(Duration(0, DigitsValue(c[..n - 6]), DigitsValue(c[n - 5..n - 3]), DigitsValue(c[n - 2..])))
    else None
  }

  /** Reads `[D day[s], ]H:MM:SS` back into its fields; the hours and the day
      count must be written without leading zeros, as `%d` writes them. */
  function ParseUptime(t: string): Option<Duration> {
    match IndexOf(t, ',')
    case None => ParseClock(t)
    case Some(i) =>
      if i + 2 <= |t| && t[i + 1] == ' ' then
        match (ParseDays(t[..i]), ParseClock(t[i + 2..]))
        case (Some(days), Some(c)) => Some(Duration(days, c.hours, c.minutes, c.seconds))
        case _ => None
      else None
  }

  lemma IndexOfAt(a: string, b: string, c: char)
    requires c !in a && |b| > 0 && b[0] == c
    ensures IndexOf(a + b, c) == Some(|a|)
  {
    assert (a + b)[|a|] == c;
    assert (a + b)[..|a|] == a;
  }

  /** The day count followed by "day" or "days" reads back as that count. */
  lemma DayWordParses(days: nat)
    requires days > 0
    ensures var head := NatToString(days) + (if days == 1 then " day" else " days");
      ',' !in head && ParseDays(head) == Some(days)
  {
    var digits := NatToString(days);
    var head := digits + (if days == 1 then " day" else " days");
    assert ',' !in digits by {
      assert forall i :: 0 <= i < |digits| ==> IsDigit(digits[i]);
    }
    NatToStringRoundTrip(days);
    if days == 1 {
      assert digits == "1";
      assert head == "1 day";
    } else {
      assert head[|head| - 5..] == " days";
      assert head[..|head| - 5] == digits;
    }
  }

  lemma ParseWithDays(head: string, clock: string, days: nat, c: Duration)
    requires ',' !in head && ParseDays(head) == Some(days) && ParseClock(clock) == Some(c)
    ensures ParseUptime(head + ", " + clock) == Some(Duration(days, c.hours, c.minutes, c.seconds))
  {
    var t := head + ", " + clock;
    assert t == head + (", " + clock);
    IndexOfAt(head, ", " + clock, ',');
    assert t[..|head|] == head;
    assert t[|head| + 2..] == clock;
  }

  /** The uptime text is the day prefix of the whole days followed by the clock. */
  lemma FormatUptimeParts(total: nat)
    ensures FormatUptime(total) == DayPrefix(total / SecondsPerDay) + ClockText(Split(total))
  {
    assert Split(total).days == total / SecondsPerDay;
  }

  lemma DayPrefixWords(days: nat)
    requires days > 0
    ensures DayPrefix(days) == NatToString(days) + (if days == 1 then " day, " else " days, ")
  {
    var n := NatToString(days);
    if days == 1 {
      assert DayPrefix(days) == n + " day" + ", ";
      assert n + " day" + ", " == n + " day, ";
    } else {
      assert DayPrefix(days) == n + " days" + ", ";
      assert n + " days" + ", " == n + " days, ";
    }
  }

  /** A clock text that reads back as the fields of `d` is `ClockText(d)`. */
  lemma ClockTextUnique(c: string, d: Duration)
    requires Normalised(d) && ParseClock(c) == Some(Duration(0, d.hours, d.minutes, d.seconds))
    ensures c == ClockText(d)
  {
    var n := |c|;
    CanonicalRoundTrip(c[..n - 6]);
    TwoDigitsArePad2(c[n - 5..n - 3], d.minutes);
    TwoDigitsArePad2(c[n - 2..], d.seconds);
    assert c == c[..n - 6] + ":" + c[n - 5..n - 3] + ":" + c[n - 2..];
    assert ClockText(d) == NatToString(d.hours) + ":" + Pad2(d.minutes) + ":" + Pad2(d.seconds);
  }

  /** A day part that reads back as `days` is the count and "day" or "days". */
  lemma DayWordUnique(head: string, days: nat)
    requires ParseDays(head) == Some(days)
    ensures days >= 1 && head == NatToString(days) + (if days == 1 then " day" else " days")
  {
    var k := |head| - 5;
    if |head| > 5 && head[k..] == " days" && Canonical(head[..k]) && DigitsValue(head[..k]) >= 2 {
      CanonicalRoundTrip(head[..k]);
      assert head == head[..k] + head[k..];
    } else {
      assert head == "1 day";
      assert NatToString(1) == "1";
    }
  }

  /** A text with ", " at position `i` is what comes before, ", ", and what comes after. */
  lemma CommaSpaceAt(t: string, i: nat)
    requires i + 2 <= |t| && t[i] == ',' && t[i + 1] == ' '
    ensures t == t[..i] + ", " + t[i + 2..]
  {
    var u := t[..i] + ", " + t[i + 2..];
    assert |u| == |t|;
    assert forall k :: 0 <= k < |t| ==> u[k] == t[k];
  }

  lemma DayPartUnique(t: string, i: nat, d: Duration)
    requires Normalised(d) && i + 2 <= |t| && t[i] == ',' && t[i + 1] == ' '
    requires ParseDays(t[..i]) == Some(d.days)
    requires ParseClock(t[i + 2..]) == Some(Duration(0, d.hours, d.minutes, d.seconds))
    ensures t == DayPrefix(d.days) + ClockText(d)
  {
    DayWordUnique(t[..i], d.days);
    ClockTextUnique(t[i + 2..], d);
    DayPrefixWords(d.days);
    var w := if d.days == 1 then " day" else " days";
    assert NatToString(d.days) + w + ", " == NatToString(d.days) + (if d.days == 1 then " day, " else " days, ");
    CommaSpaceAt(t, i);
  }

  /** The uptime text is the only text that reads back as its duration: the
      parser admits no other spelling of the same hours, minutes, seconds and days. */
  lemma {:induction false} UptimeTextUnique(t: string, total: nat)
    requires ParseUptime(t) == Some(Split(total))
    ensures t == FormatUptime(total)
  {
    var d := Split(total);
    assert d.days == total / SecondsPerDay;
    FormatUptimeParts(total);
    match IndexOf(t, ',')
    case None =>
      ClockTextUnique(t, d);
    case Some(i) =>
      DayPartUnique(t, i, d);
  }

  /** Below a day there is no day part; from one day on the text starts with
      the day count and "day, " (exactly one day) or "days, " (more). */
  lemma DayPart(total: nat)
    ensures total < SecondsPerDay ==> ',' !in FormatUptime(total)
    ensures total >= SecondsPerDay ==>
      var days := total / SecondsPerDay;
      var p := NatToString(days) + (if days == 1 then " day, " else " days, ");
      |p| <= |FormatUptime(total)| && FormatUptime(total)[..|p|] == p
  {
    FormatUptimeParts(total);
    var days := total / SecondsPerDay;
    var x := DayPrefix(days);
    var c := ClockText(Split(total));
    if total < SecondsPerDay {
      assert days == 0;
      assert x + c == c;
    } else {
      DayPrefixWords(days);
      assert (x + c)[..|x|] == x;
    }
  }

  lemma OneHourOneMinuteOneSecond()
    ensures FormatUptime(3661) == "1:01:01"
  {
  }
}
