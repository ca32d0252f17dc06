/** The pure helpers of telegram.ts: the coin-to-USDT display value, the "time remaining"
    text and the referral share link. */
module Telegram {
  import opened Wrappers
  import opened Text
  import opened Schema

  /** The conversion rate written out inside `coinsToUsdt`. */
  const CONVERSION_RATE: int := 50000

  /** The value `(coins / 50000).toFixed(4)` prints, in ten-thousandths of a USDT.
      `toFixed` rounds the magnitude to the nearest ten-thousandth and keeps the sign;
      coins / 50000 in ten-thousandths is coins / 5, whose fraction is a multiple of 0.2,
      so no tie can occur. The result is the one multiple of 5 coins nearest to `coins`. */
  function CoinsToUsdtUnits(coins: int): (u: Fixed4)
    ensures -2 <= coins - 5 * u <= 2
    ensures coins >= 0 ==> u >= 0
  {
    if coins >= 0 then Magnitude(coins) else -(Magnitude(-coins) as int)
  }

  /** In the source's own terms: the display value is `coins / CONVERSION_RATE` in
      ten-thousandths of a USDT, rounded to the nearest one (the error stays below half a
      unit). */
  lemma NearestAtRate(coins: int)
    ensures var u := CoinsToUsdtUnits(coins);
            -CONVERSION_RATE < 2 * (coins * FIXED4_SCALE - u * CONVERSION_RATE) < CONVERSION_RATE
  {
    var u := CoinsToUsdtUnits(coins);
    assert coins * FIXED4_SCALE - u * CONVERSION_RATE == 10000 * (coins - 5 * u);
  }

  /** `toFixed(4)` on the non-negative quotient `c / 50000`: the nearest count of
      ten-thousandths. */
  function Magnitude(c: nat): nat
  {
    (2 * c + 5) / 10
  }

  /** `n / 10 ^ 4` printed as `toFixed(4)` prints it: the integer part without leading
      zeros, a point, and exactly four fraction digits. */
  function Fixed4Digits(n: nat): string
  {
    NatToString(n / FIXED4_SCALE) + "." + PadZeros(NatToString(n % FIXED4_SCALE), 4)
  }

  /** The integer part, a point and exactly four fraction digits. */
  lemma Fixed4DigitsShape(n: nat)
    ensures var d := Fixed4Digits(n);
            |d| >= 6 && d[|d| - 5] == '.' && IsDigit(d[0])
  {
    var w := NatToString(n / FIXED4_SCALE);
    var f := PadZeros(NatToString(n % FIXED4_SCALE), 4);
    assert |f| == 4 by {
      assert Pow10(4) == FIXED4_SCALE;
      ShortNatToString(n % FIXED4_SCALE, 4);
    }
    var d := w + "." + f;
    assert Fixed4Digits(n) == d;
    assert d[0] == w[0];
  }

  /** `coinsToUsdt(coins)`. A negative balance keeps its sign even when the magnitude
      rounds to zero (`coinsToUsdt(-2)` is "-0.0000"). */
  function CoinsToUsdt(coins: int): string
  {
    if coins >= 0 then Fixed4Digits(Magnitude(coins)) else "-" + Fixed4Digits(Magnitude(-coins))
  }

  /** The text has a point followed by exactly four digits, and starts with a minus sign
      exactly when the balance is negative. */
  lemma CoinsToUsdtShape(coins: int)
    ensures var s := CoinsToUsdt(coins);
            |s| >= 6 && s[|s| - 5] == '.' && (s[0] == '-' <==> coins < 0)
  {
    if coins >= 0 {
      Fixed4DigitsShape(Magnitude(coins));
      assert CoinsToUsdt(coins) == Fixed4Digits(Magnitude(coins));
    } else {
      var d := Fixed4Digits(Magnitude(-coins));
      Fixed4DigitsShape(Magnitude(-coins));
      MinusKeepsPoint(d);
      assert CoinsToUsdt(coins) == "-" + d;
    }
  }

  /** A minus sign in front leaves the point five characters from the end. */
  lemma MinusKeepsPoint(d: string)
    requires |d| >= 6 && d[|d| - 5] == '.'
    ensures var s := "-" + d; |s| >= 6 && s[|s| - 5] == '.' && s[0] == '-'
  {
    var s := "-" + d;
    assert s[|s| - 5] == d[|d| - 5];
  }

  /** Reading back a `toFixed(4)` string: an optional minus sign, integer digits, a point
      and four fraction digits; the value in ten-thousandths. */
  function ParseFixed4(s: string): Option<Fixed4>
  {
    if |s| > 0 && s[0] == '-' then
      match ParseUnsignedFixed4(s[1..])
      case Some(v) => Some(-(v as int))
      case None => None
    else
      ParseUnsignedFixed4(s)
  }

  function ParseUnsignedFixed4(s: string): Option<nat>
  {
    if |s| < 6 || s[|s| - 5] != '.' then None
    else
      match (ParseNat(s[..|s| - 5]), ParseNat(s[|s| - 4..]))
      case (Some(whole), Some(frac)) => Some(whole * FIXED4_SCALE + frac)
      case _ => None
  }

  lemma UnsignedRoundTrip(n: nat)
    ensures ParseUnsignedFixed4(Fixed4Digits(n)) == Some(n)
  {
    var w := NatToString(n / FIXED4_SCALE);
    var f := PadZeros(NatToString(n % FIXED4_SCALE), 4);
    var s := Fixed4Digits(n);
    assert |f| == 4 by {
      assert Pow10(4) == FIXED4_SCALE;
      ShortNatToString(n % FIXED4_SCALE, 4);
    }
    assert s == w + "." + f;
    assert s[..|s| - 5] == w && s[|s| - 4..] == f by {
      SidesOfSeparator(w, ".", f);
    }
    assert ParseNat(s[..|s| - 5]) == Some(n / FIXED4_SCALE) by {
      NatToStringRoundTrip(n / FIXED4_SCALE);
    }
    assert ParseNat(s[|s| - 4..]) == Some(n % FIXED4_SCALE) by {
      PaddedNatValue(n % FIXED4_SCALE, 4);
    }
    Fixed4DigitsShape(n);
    ParseFixed4Parts(s, n / FIXED4_SCALE, n % FIXED4_SCALE);
  }

  /** A text with the point in place whose two sides read as numbers. */
  lemma ParseFixed4Parts(s: string, whole: nat, frac: nat)
    requires |s| >= 6 && s[|s| - 5] == '.'
    requires ParseNat(s[..|s| - 5]) == Some(whole) && ParseNat(s[|s| - 4..]) == Some(frac)
    ensures ParseUnsignedFixed4(s) == Some(whole * FIXED4_SCALE + frac)
  {
  }

  /** What the withdrawal form reads back with `parseFloat(coinsToUsdt(coins))`: the
      displayed value, exactly. */
  lemma CoinsToUsdtReadsBack(coins: int)
    ensures ParseFixed4(CoinsToUsdt(coins)) == Some(CoinsToUsdtUnits(coins))
  {
    if coins >= 0 {
      var s := Fixed4Digits(Magnitude(coins));
      assert s[0] != '-' by {
        assert s[0] == NatToString(Magnitude(coins) / FIXED4_SCALE)[0];
        assert IsDigit(s[0]);
      }
      UnsignedRoundTrip(Magnitude(coins));
    } else {
      var s := "-" + Fixed4Digits(Magnitude(-coins));
      assert s[1..] == Fixed4Digits(Magnitude(-coins));
      UnsignedRoundTrip(Magnitude(-coins));
    }
  }

  /** For a non-negative balance the display value in ten-thousandths is
      `(2 * coins + 5) div 10`, that is coins / 5 rounded to the nearest integer. */
  lemma NonNegativeRounding(coins: int)
    requires coins >= 0
    ensures CoinsToUsdtUnits(coins) == (2 * coins + 5) / 10
    ensures 10 * CoinsToUsdtUnits(coins) <= 2 * coins + 5 < 10 * CoinsToUsdtUnits(coins) + 10
  {
  }

  /** Converting the display value back at the same rate is off by at most two coins. */
  lemma DisplayBackToCoins(coins: int)
    ensures var back := CoinsToUsdtUnits(coins) * CONVERSION_RATE / FIXED4_SCALE;
            coins - 2 <= back <= coins + 2
  {
    var u := CoinsToUsdtUnits(coins);
    assert u * CONVERSION_RATE / FIXED4_SCALE == 5 * u;
  }

  /** A larger balance never displays a smaller value. */
  lemma {:induction false} CoinsToUsdtMonotone(c1: int, c2: int)
    requires c1 <= c2
    ensures CoinsToUsdtUnits(c1) <= CoinsToUsdtUnits(c2)
  {
    var u1, u2 := CoinsToUsdtUnits(c1), CoinsToUsdtUnits(c2);
    assert 5 * u1 < 5 * u2 + 5;
  }

  /** A worked example: 500,000 coins display as 10 USDT. */
  lemma TenUsdtExample()
    ensures CoinsToUsdt(500000) == "10.0000"
    ensures CoinsToUsdtUnits(500000) == 10 * FIXED4_SCALE
  {
    assert Magnitude(500000) == 100000;
    assert NatToString(10) == "10" by {
      assert NatToString(1) == "1";
      assert NatToString(0) == "0";
    }
    assert PadZeros(NatToString(0), 4) == "0000" by {
      assert Zeros(3) == "000";
    }
    assert Fixed4Digits(100000) == "10" + "." + "0000";
  }

  /** How long until a moment, in the coarsest form `formatTimeRemaining` chooses. */
  datatype Remaining =
    | Now
    | HoursMinutes(hours: nat, minutes: nat)
    | MinutesSeconds(minutes: nat, seconds: nat)
    | Seconds(seconds: nat)

  const MS_PER_HOUR: int := 1000 * 60 * 60
  const MS_PER_MINUTE: int := 1000 * 60
  const MS_PER_SECOND: int := 1000

  /** The time from `now` to `target` (both in milliseconds), as `formatTimeRemaining`
      splits it; the clock reading is a parameter. Hours and minutes are whole ones,
      rounded down; seconds are whole seconds, rounded down. */
  function TimeRemaining(target: Option<Timestamp>, now: Timestamp): (r: Remaining)
    ensures r.Now? <==> target.None? || target.value - now <= 0
    ensures r.HoursMinutes? ==> var d := target.value - now;
              r.hours >= 1 && r.minutes < 60 &&
              r.hours * MS_PER_HOUR + r.minutes * MS_PER_MINUTE <= d < r.hours * MS_PER_HOUR + r.minutes * MS_PER_MINUTE + MS_PER_MINUTE
    ensures r.MinutesSeconds? ==> var d := target.value - now;
              d < MS_PER_HOUR && 1 <= r.minutes < 60 && r.seconds < 60 &&
              r.minutes * MS_PER_MINUTE + r.seconds * MS_PER_SECOND <= d < r.minutes * MS_PER_MINUTE + r.seconds * MS_PER_SECOND + MS_PER_SECOND
    ensures r.Seconds? ==> var d := target.value - now;
              0 < d < MS_PER_MINUTE && r.seconds < 60 &&
              r.seconds * MS_PER_SECOND <= d < r.seconds * MS_PER_SECOND + MS_PER_SECOND
  {
    if target.None? then Now
    else
      var diff := target.value - now;
      if diff <= 0 then Now
      else
        var hrs := diff / MS_PER_HOUR;
        var mins := (diff % MS_PER_HOUR) / MS_PER_MINUTE;
        var secs := (diff % MS_PER_MINUTE) / MS_PER_SECOND;
        if hrs > 0 then
          HoursAndMinutes(diff);
          HoursMinutes(hrs, mins)
        else if mins > 0 then
          MinutesAndSeconds(diff);
          MinutesSeconds(mins, secs)
        else
          WholeSeconds(diff);
          Seconds(secs)
  }

  /** At least an hour: whole hours, and the whole minutes left over. */
  lemma HoursAndMinutes(d: int)
    requires d >= MS_PER_HOUR
    ensures var h, m := d / MS_PER_HOUR, (d % MS_PER_HOUR) / MS_PER_MINUTE;
            h >= 1 && m < 60 &&
            h * MS_PER_HOUR + m * MS_PER_MINUTE <= d < h * MS_PER_HOUR + m * MS_PER_MINUTE + MS_PER_MINUTE
  {
  }

  /** Under an hour but at least a minute: whole minutes, and the whole seconds left over. */
  lemma MinutesAndSeconds(d: int)
    requires MS_PER_MINUTE <= d < MS_PER_HOUR
    ensures var m, s := (d % MS_PER_HOUR) / MS_PER_MINUTE, (d % MS_PER_MINUTE) / MS_PER_SECOND;
            1 <= m < 60 && s < 60 &&
            m * MS_PER_MINUTE + s * MS_PER_SECOND <= d < m * MS_PER_MINUTE + s * MS_PER_SECOND + MS_PER_SECOND
  {
  }

  /** Under a minute: whole seconds. */
  lemma WholeSeconds(d: int)
    requires 0 < d < MS_PER_MINUTE
    ensures var s := (d % MS_PER_MINUTE) / MS_PER_SECOND;
            s < 60 && s * MS_PER_SECOND <= d < s * MS_PER_SECOND + MS_PER_SECOND
  {
  }

  /** The text for each form; only `Now` prints as "Now", every other form ends in a unit. */
  function Render(r: Remaining): (s: string)
    ensures r.Now? <==> s == "Now"
  {
    match r
    case Now => "Now"
    case HoursMinutes(h, m) => NatToString(h) + "h " + NatToString(m) + "m"
    case MinutesSeconds(m, s) => NatToString(m) + "m " + NatToString(s) + "s"
    case Seconds(sec) =>
      var t := NatToString(sec) + "s";
      assert t[|t| - 1] != "Now"[2];
      t
  }

  /** The number of decimal digits at the start of `s`. */
  function DigitRun(s: string): (n: nat)
    ensures n <= |s| && AllDigits(s[..n])
    ensures n < |s| ==> !IsDigit(s[n])
  {
    if s == [] || !IsDigit(s[0]) then 0
    else
      var n := 1 + DigitRun(s[1..]);
      assert s[..n] == [s[0]] + s[1..][..n - 1];
      n
  }

  /** A digit string followed by a non-digit (or nothing) is exactly the digit run. */
  lemma {:induction false} DigitRunOf(d: string, rest: string)
    requires AllDigits(d)
    requires rest == [] || !IsDigit(rest[0])
    ensures DigitRun(d + rest) == |d|
  {
    if d != [] {
      assert (d + rest)[1..] == d[1..] + rest;
      DigitRunOf(d[1..], rest);
    }
  }

  /** The number a text starts with, and the rest of the text. */
  function SplitNumber(s: string): Option<(nat, string)>
  {
    var n := DigitRun(s);
    if n == 0 then None else Some((DigitsValue(s[..n]), s[n..]))
  }

  /** `n` printed and followed by a text that does not start with a digit splits back
      into `n` and that text. */
  lemma SplitNumberOf(n: nat, rest: string)
    requires rest == [] || !IsDigit(rest[0])
    ensures SplitNumber(NatToString(n) + rest) == Some((n, rest))
  {
    var s := NatToString(n) + rest;
    DigitRunOf(NatToString(n), rest);
    assert s[..|NatToString(n)|] == NatToString(n);
    assert s[|NatToString(n)|..] == rest;
    DigitsValueOfNatToString(n);
  }

  /** Reads a "time remaining" text back into its form: "Now", "<h>h <m>m",
      "<m>m <s>s" or "<s>s", with the numbers in decimal. */
  function ParseRemaining(s: string): Option<Remaining>
  {
    if s == "Now" then Some(Now)
    else
      match SplitNumber(s)
      case None => None
      case Some((a, rest)) =>
        if rest == "s" then Some(Seconds(a))
        else if |rest| >= 2 && rest[..2] == "h " then
          match SplitNumber(rest[2..])
          case Some((b, u)) => if u == "m" then Some(HoursMinutes(a, b)) else None
          case None => None
        else if |rest| >= 2 && rest[..2] == "m " then
          match SplitNumber(rest[2..])
          case Some((b, u)) => if u == "s" then Some(MinutesSeconds(a, b)) else None
          case None => None
        else None
  }

  lemma HoursMinutesReadsBack(h: nat, m: nat)
    ensures ParseRemaining(Render(HoursMinutes(h, m))) == Some(HoursMinutes(h, m))
  {
    var tail := NatToString(m) + "m";
    var rest := "h " + tail;
    var s := NatToString(h) + rest;
    assert Render(HoursMinutes(h, m)) == s;
    assert s != "Now" by { assert s[0] != 'N'; }
    assert SplitNumber(s) == Some((h, rest)) by { SplitNumberOf(h, rest); }
    assert rest[..2] == "h " && rest != "s" && rest[2..] == tail;
    assert SplitNumber(tail) == Some((m, "m")) by { SplitNumberOf(m, "m"); }
    ParseTwoNumbers(s, h, rest, m, "m");
  }

  lemma MinutesSecondsReadsBack(m: nat, sec: nat)
    ensures ParseRemaining(Render(MinutesSeconds(m, sec))) == Some(MinutesSeconds(m, sec))
  {
    var tail := NatToString(sec) + "s";
    var rest := "m " + tail;
    var s := NatToString(m) + rest;
    assert Render(MinutesSeconds(m, sec)) == s;
    assert s != "Now" by { assert s[0] != 'N'; }
    assert SplitNumber(s) == Some((m, rest)) by { SplitNumberOf(m, rest); }
    assert rest[..2] == "m " && rest[..2] != "h " && rest != "s" && rest[2..] == tail;
    assert SplitNumber(tail) == Some((sec, "s")) by { SplitNumberOf(sec, "s"); }
    ParseTwoNumbers(s, m, rest, sec, "s");
  }

  /** A text that splits into a number, "h " or "m ", a number and the matching unit. */
  lemma ParseTwoNumbers(s: string, a: nat, rest: string, b: nat, u: string)
    requires s != "Now" && SplitNumber(s) == Some((a, rest))
    requires rest != "s" && |rest| >= 2 && SplitNumber(rest[2..]) == Some((b, u))
    requires (rest[..2] == "h " && u == "m") || (rest[..2] == "m " && u == "s")
    ensures rest[..2] == "h " ==> ParseRemaining(s) == Some(HoursMinutes(a, b))
    ensures rest[..2] == "m " ==> ParseRemaining(s) == Some(MinutesSeconds(a, b))
  {
  }

  lemma SecondsReadsBack(sec: nat)
    ensures ParseRemaining(Render(Seconds(sec))) == Some(Seconds(sec))
  {
    var s := NatToString(sec) + "s";
    assert Render(Seconds(sec)) == s;
    assert s != "Now" by { assert s[0] != 'N'; }
    SplitNumberOf(sec, "s");
  }

  /** Every form's text reads back as that form, so the text carries the hours, minutes
      and seconds themselves. */
  lemma RenderReadsBack(r: Remaining)
    ensures ParseRemaining(Render(r)) == Some(r)
  {
    match r
    case Now =>
    case Seconds(sec) => SecondsReadsBack(sec);
    case HoursMinutes(h, m) => HoursMinutesReadsBack(h, m);
    case MinutesSeconds(m, sec) => MinutesSecondsReadsBack(m, sec);
  }

  /** `formatTimeRemaining(date)` with the current time passed in as `now`. */
  function FormatTimeRemaining(target: Option<Timestamp>, now: Timestamp): (s: string)
    ensures s == "Now" <==> target.None? || target.value - now <= 0
  {
    Render(TimeRemaining(target, now))
  }

  /** The text of `formatTimeRemaining` reads back as the split `TimeRemaining` gives, so
      it shows exactly those hours and minutes, minutes and seconds, or seconds. */
  lemma FormatTimeRemainingReadsBack(target: Option<Timestamp>, now: Timestamp)
    ensures ParseRemaining(FormatTimeRemaining(target, now)) == Some(TimeRemaining(target, now))
  {
    RenderReadsBack(TimeRemaining(target, now));
  }

  /** The start of every referral link. */
  const SHARE_PREFIX: string := "https://t.me/SpinEarnUSDTBot?start="

  /** `createShareUrl(user)`: the bot link carrying the user's referral code, unescaped. */
  function CreateShareUrl(user: User): (url: string)
    ensures |url| == |SHARE_PREFIX| + |user.referralCode|
    ensures url[..|SHARE_PREFIX|] == SHARE_PREFIX
  {
    SHARE_PREFIX + user.referralCode
  }

  /** The referral code a share link carries, if it is one. */
  function ReferralCodeOf(url: string): Option<string>
  {
    if |url| >= |SHARE_PREFIX| && url[..|SHARE_PREFIX|] == SHARE_PREFIX
    then Some(url[|SHARE_PREFIX|..]) else None
  }

  /** Stripping the prefix from a share link gives back the referral code, so two users
      share the same link exactly when they have the same code. */
  lemma ShareUrlRoundTrip(user: User, other: User)
    ensures ReferralCodeOf(CreateShareUrl(user)) == Some(user.referralCode)
    ensures CreateShareUrl(user) == CreateShareUrl(other) <==> user.referralCode == other.referralCode
  {
    var url := CreateShareUrl(user);
    assert url[|SHARE_PREFIX|..] == user.referralCode;
    var url2 := CreateShareUrl(other);
    assert url2[|SHARE_PREFIX|..] == other.referralCode;
  }
}
