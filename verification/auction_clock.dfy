/** The auction countdown of the company dashboard (`timeUntilAuction` in
    CompanyDashboard.tsx) as a function of `diff = end - now` in whole
    milliseconds. Hours use `Math.floor` of a division; minutes use
    JavaScript's `%`, which truncates toward zero, so for a negative `diff`
    the two parts round in different directions. */
module AuctionClock {
  import Decimal

  const MsPerMinute: int := 1000 * 60
  const MsPerHour: int := 1000 * 60 * 60

  /** `Math.floor(a / b)` for a positive divisor. */
  function FloorDiv(a: int, b: int): (q: int)
    requires b > 0
    ensures b * q <= a < b * (q + 1)
  {
    a / b
  }

  /** A floor quotient is the only integer bracketing `a` that way. */
  lemma FloorDivUnique(a: int, b: int, q: int)
    requires b > 0 && b * q <= a < b * (q + 1)
    ensures FloorDiv(a, b) == q
  {
  }

  /** The quotient rounded toward zero, which JavaScript's `%` is defined by. */
  function TruncQuot(a: int, b: int): int
    requires b > 0
  {
    if a >= 0 then a / b else -((-a) / b)
  }

  /** JavaScript's `a % b` for a positive divisor: what is left after taking
      out the multiple of `b` nearest zero; it is zero or has the sign of `a`. */
  function TruncRem(a: int, b: int): (r: int)
    requires b > 0
    ensures -b < r < b
    ensures a >= 0 ==> r >= 0
    ensures a < 0 ==> r <= 0
    ensures a == b * TruncQuot(a, b) + r
  {
    if a >= 0 then a % b else -((-a) % b)
  }

  datatype Countdown = Countdown(hours: int, minutes: int)

  /** The two numbers `timeUntilAuction` computes from `diff`. */
  function Split(diff: int): (c: Countdown)
    ensures MsPerHour * c.hours <= diff < MsPerHour * (c.hours + 1)
    ensures MsPerMinute * c.minutes <= TruncRem(diff, MsPerHour) < MsPerMinute * (c.minutes + 1)
    ensures diff >= 0 ==> 0 <= c.minutes <= 59
    ensures diff >= 0 ==>
              MsPerHour * c.hours + MsPerMinute * c.minutes <= diff < MsPerHour * c.hours + MsPerMinute * (c.minutes + 1)
    ensures diff < 0 ==> c.hours <= -1 && -60 <= c.minutes <= 0
  {
    Countdown(FloorDiv(diff, MsPerHour), FloorDiv(TruncRem(diff, MsPerHour), MsPerMinute))
  }

  /** `${hours}h ${minutes}m`: the text opens with a minus exactly when the
      hours are negative and always ends with the minutes' unit. */
  function Render(c: Countdown): (r: string)
    ensures |r| >= 4 && r[|r| - 1] == 'm'
    ensures r[0] == '-' <==> c.hours < 0
    ensures c.hours >= 0 && c.minutes >= 0 ==> forall k :: 0 <= k < |r| ==> r[k] != '-'
  {
    Decimal.IntToString(c.hours) + MinutePart(c.minutes)
  }

  /** `timeUntilAuction`, with the end time and the clock already read as
      millisecond counts. A countdown to a future end shows no minus sign at
      all; one for an end already past always opens with a minus. */
  function TimeUntilAuction(end: int, now: int): (s: string)
    ensures end >= now ==> forall k :: 0 <= k < |s| ==> s[k] != '-'
    ensures |s| > 0 && (s[0] == '-' <==> end < now)
  {
    Render(Split(end - now))
  }

  /** Two texts that each read "prefix free of the letter h, then a part
      starting with h" split at the same place. */
  lemma SplitAtH(a: string, x: string, b: string, y: string)
    requires forall k :: 0 <= k < |a| ==> a[k] != 'h'
    requires forall k :: 0 <= k < |b| ==> b[k] != 'h'
    requires |x| > 0 && x[0] == 'h' && |y| > 0 && y[0] == 'h'
    requires a + x == b + y
    ensures a == b && x == y
  {
    assert a == (a + x)[..|a|];
    assert b == (b + y)[..|b|];
    assert x == (a + x)[|a|..];
    assert y == (b + y)[|b|..];
  }

  /** The part of the text after the hours: "h ", the minutes, "m". */
  function MinutePart(minutes: int): (t: string)
    ensures |t| > 0 && t[0] == 'h'
  {
    "h " + Decimal.IntToString(minutes) + "m"
  }

  /** The minute part determines the minutes. */
  lemma MinutePartInjective(m: int, n: int)
    requires MinutePart(m) == MinutePart(n)
    ensures m == n
  {
    var x := MinutePart(m);
    var y := MinutePart(n);
    assert Decimal.IntToString(m) == x[2..|x| - 1];
    assert Decimal.IntToString(n) == y[2..|y| - 1];
    Decimal.IntToStringInjective(m, n);
  }

  /** The text determines the two numbers: no two countdowns render alike. */
  lemma RenderInjective(c: Countdown, d: Countdown)
    ensures Render(c) == Render(d) <==> c == d
  {
    if Render(c) == Render(d) {
      var a := Decimal.IntToString(c.hours);
      var b := Decimal.IntToString(d.hours);
      assert Render(c) == a + MinutePart(c.minutes);
      assert Render(d) == b + MinutePart(d.minutes);
      SplitAtH(a, MinutePart(c.minutes), b, MinutePart(d.minutes));
      Decimal.IntToStringInjective(c.hours, d.hours);
      MinutePartInjective(c.minutes, d.minutes);
    }
  }

  /** Read as a number of minutes, `hours * 60 + minutes` is the floored
      minute count of `diff` when `diff` is not negative or is a whole number
      of hours; for any other negative `diff` it is exactly 60 below it,
      because the hours are floored while the leftover is truncated (one
      millisecond past the end shows "-1h -1m"). */
  lemma MinutesShown(diff: int)
    ensures var c := Split(diff);
            diff >= 0 || TruncRem(diff, MsPerHour) == 0 ==> c.hours * 60 + c.minutes == FloorDiv(diff, MsPerMinute)
    ensures var c := Split(diff);
            diff < 0 && TruncRem(diff, MsPerHour) != 0 ==> c.hours * 60 + c.minutes == FloorDiv(diff, MsPerMinute) - 60
  {
    var c := Split(diff);
    var rem := TruncRem(diff, MsPerHour);
    var t := TruncQuot(diff, MsPerHour);
    if diff >= 0 || rem == 0 {
      // The truncated and the floored hour counts agree.
      assert c.hours == t;
      FloorDivUnique(diff, MsPerMinute, c.hours * 60 + c.minutes);
    } else {
      // The floored hour count is one below the truncated one.
      assert c.hours == t - 1;
      FloorDivUnique(diff, MsPerMinute, c.hours * 60 + c.minutes + 60);
    }
  }

  /** One millisecond after the end the countdown reads "-1h -1m". */
  lemma JustEnded()
    ensures TimeUntilAuction(0, 1) == "-1h -1m"
  {
    assert Split(-1) == Countdown(-1, -1);
    assert Decimal.DigitChar(1) == '1';
  }
}
