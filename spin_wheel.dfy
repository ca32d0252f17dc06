/** The spin engine of SpinWheel.tsx: who may spin when, the per-second cooldown that
    re-enables the button, and the one change a granted spin makes to the user. The clock
    reading and the backend's answer are parameters; the wheel's random rotation is
    decoration and is not modelled (the reward never depends on it). */
module SpinWheel {
  import opened Wrappers
  import opened Text
  import opened Schema
  import Countdown

  /** The cooldown written out in the eligibility check: one hour in milliseconds. */
  const COOLDOWN_MS: int := 60 * 60 * 1000

  /** What the eligibility check concludes. */
  datatype Eligibility =
    | NoSpinsLeft
    | CoolingDown(seconds: int)  // the countdown starts at `seconds`
    | Ready

  /** `Math.ceil(a / b)` for a positive divisor. */
  function CeilDiv(a: int, b: int): (q: int)
    requires b > 0
    ensures (q - 1) * b < a <= q * b
  {
    (a + b - 1) / b
  }

  /** The eligibility check run whenever `spinsLeft` or `lastSpin` changes, at time `now`. */
  function CheckEligibility(spinsLeft: int, lastSpin: Option<Timestamp>, now: Timestamp): (e: Eligibility)
    ensures e.NoSpinsLeft? <==> spinsLeft <= 0
    ensures e.CoolingDown? <==> spinsLeft > 0 && lastSpin.Some? && now - lastSpin.value < COOLDOWN_MS
    ensures e.CoolingDown? ==>
              var remaining := COOLDOWN_MS - (now - lastSpin.value);
              e.seconds >= 1 && (e.seconds - 1) * 1000 < remaining <= e.seconds * 1000
  {
    if spinsLeft <= 0 then NoSpinsLeft
    else if lastSpin.Some? && now - lastSpin.value < COOLDOWN_MS then
      CoolingDown(CeilDiv(COOLDOWN_MS - (now - lastSpin.value), 1000))
    else Ready
  }

  predicate CanSpinAt(user: User, now: Timestamp)
  {
    CheckEligibility(user.spinsLeft, user.lastSpin, now).Ready?
  }

  /** A user may spin exactly when a spin is left and no spin happened in the last hour. */
  lemma CanSpinIff(user: User, now: Timestamp)
    ensures CanSpinAt(user, now) <==>
              user.spinsLeft > 0 && (user.lastSpin.None? || now - user.lastSpin.value >= COOLDOWN_MS)
  {
  }

  /** With the last spin between zero and one hour ago, the countdown starts between one
      second and one hour. */
  lemma CooldownWithinAnHour(spinsLeft: int, lastSpin: Timestamp, now: Timestamp)
    requires spinsLeft > 0 && 0 <= now - lastSpin < COOLDOWN_MS
    ensures var e := CheckEligibility(spinsLeft, Some(lastSpin), now);
            e.CoolingDown? && 1 <= e.seconds <= 3600
  {
  }

  /** The cooldown boundary: 3,599,999 ms after a spin the user must still wait a second;
      at 3,600,000 ms they may spin. */
  lemma CooldownBoundary(user: User, t: Timestamp)
    requires user.spinsLeft > 0 && user.lastSpin == Some(t)
    ensures CheckEligibility(user.spinsLeft, user.lastSpin, t + 3599999) == CoolingDown(1)
    ensures CanSpinAt(user, t + 3600000)
  {
  }

  /** The user after a granted spin: the backend's reward added, the spin time recorded
      and one spin used; nothing else changes. */
  function SpinCredited(user: User, reward: int, now: Timestamp): (u: User)
    ensures u.coins == user.coins + reward
    ensures u.lastSpin == Some(now)
    ensures u.spinsLeft == user.spinsLeft - 1
    ensures u.(coins := user.coins, lastSpin := user.lastSpin, spinsLeft := user.spinsLeft) == user
  {
    user.(coins := user.coins + reward, lastSpin := Some(now), spinsLeft := user.spinsLeft - 1)
  }

  /** Right after a granted spin the eligibility check locks the wheel again: for a full hour if spins
      remain, for good if that was the last one. Spins left never drop below zero. */
  lemma SpinLocksWheel(user: User, reward: int, spunAt: Timestamp, now: Timestamp)
    requires CanSpinAt(user, spunAt)
    ensures var u := SpinCredited(user, reward, now);
            u.spinsLeft >= 0 &&
            CheckEligibility(u.spinsLeft, u.lastSpin, now) ==
              (if user.spinsLeft > 1 then CoolingDown(COOLDOWN_MS / 1000) else NoSpinsLeft)
  {
  }

  /** A worked example: a user with no coins, one spin left and no earlier spin wins 15. */
  lemma SpinExample(user: User, now: Timestamp)
    requires user.coins == 0 && user.spinsLeft == 1 && user.lastSpin.None?
    ensures CanSpinAt(user, now)
    ensures var u := SpinCredited(user, 15, now);
            u.coins == 15 && u.spinsLeft == 0 && u.lastSpin == Some(now) && !CanSpinAt(u, now)
  {
  }

  /** `Math.trunc(a / b)`: the quotient rounded toward zero. */
  function TruncDiv(a: int, b: int): int
    requires b > 0
  {
    if a >= 0 then a / b else -((-a) / b)
  }

  /** JavaScript's `%`: the remainder of the division truncated toward zero, so it takes
      the dividend's sign, and its magnitude is below the divisor's. */
  function JsRem(a: int, b: int): (r: int)
    requires b > 0
    ensures a >= 0 ==> 0 <= r < b
    ensures a < 0 ==> -b < r <= 0
  {
    if a >= 0 then a % b else -((-a) % b)
  }

  /** The truncated quotient and the remainder put the dividend back together. */
  lemma JsRemDivision(a: int, b: int)
    requires b > 0
    ensures a == TruncDiv(a, b) * b + JsRem(a, b)
  {
    if a < 0 {
      assert -a == ((-a) / b) * b + (-a) % b;
    }
  }

  /** Reads a clock text back as a number of seconds: decimal minutes, a colon and
      exactly two digits of seconds below 60. */
  function ParseClock(t: string): Option<nat>
  {
    if |t| < 4 || t[|t| - 3] != ':' then None
    else
      match (ParseNat(t[..|t| - 3]), ParseNat(t[|t| - 2..]))
      case (Some(m), Some(s)) => if s < 60 then Some(60 * m + s) else None
      case _ => None
  }

  /** Minutes, a colon and seconds below 60 padded to two digits read back as the total. */
  lemma ClockTextReadsBack(m: nat, sec: nat)
    requires sec < 60
    ensures ParseClock(NatToString(m) + ":" + PadZeros(NatToString(sec), 2)) == Some(60 * m + sec)
  {
    var w := NatToString(m);
    var p := PadZeros(NatToString(sec), 2);
    assert |p| == 2 by {
      assert Pow10(2) == 100;
      ShortNatToString(sec, 2);
    }
    var t := w + ":" + p;
    assert |t| >= 4 && t[|t| - 3] == ':' by {
      ParseClockOf(w, p);
    }
    assert ParseNat(t[..|t| - 3]) == Some(m) by {
      ParseClockOf(w, p);
      NatToStringRoundTrip(m);
    }
    assert ParseNat(t[|t| - 2..]) == Some(sec) by {
      ParseClockOf(w, p);
      PaddedNatValue(sec, 2);
    }
    ParseClockParts(t, m, sec);
  }

  /** A text with the colon in place whose two sides read as numbers. */
  lemma ParseClockParts(t: string, m: nat, sec: nat)
    requires |t| >= 4 && t[|t| - 3] == ':' && sec < 60
    requires ParseNat(t[..|t| - 3]) == Some(m) && ParseNat(t[|t| - 2..]) == Some(sec)
    ensures ParseClock(t) == Some(60 * m + sec)
  {
  }

  /** A clock text splits at the colon before its last two characters. */
  lemma ParseClockOf(w: string, p: string)
    requires |w| >= 1 && |p| == 2
    ensures var t := w + ":" + p;
            |t| >= 4 && t[|t| - 3] == ':' && t[..|t| - 3] == w && t[|t| - 2..] == p
  {
    SidesOfSeparator(w, ":", p);
  }

  /** `formatTime(seconds)`: whole minutes (rounded down), a colon, and the remaining
      seconds padded to two characters. */
  function FormatTime(seconds: int): string
  {
    IntToString(seconds / 60) + ":" + PadZeros(IntToString(JsRem(seconds, 60)), 2)
  }

  /** For a non-negative count the text is minutes, a colon and exactly two digits of
      seconds below 60 (what `ParseClock` accepts), and it reads back as the count. */
  lemma FormatTimeReadsBack(seconds: int)
    requires seconds >= 0
    ensures ParseClock(FormatTime(seconds)) == Some(seconds)
  {
    var m, sec := seconds / 60, seconds % 60;
    assert JsRem(seconds, 60) == sec;
    assert IntToString(m) == NatToString(m);
    assert IntToString(sec) == NatToString(sec);
    ClockTextReadsBack(m, sec);
  }

  /** The backend's answer to `POST /api/spin`, or the failure of the request itself. */
  datatype SpinResponse =
    | Granted(reward: int)               // `{ success: true, result: { reward } }`
    | Refused(error: Option<string>)     // `{ success: false, error? }`
    | Threw(message: Option<string>)     // the request threw; `None` when not an `Error`

  /** The message shown after a failed spin: a refusal always shows a non-empty text,
      the backend's own message when it sent a non-empty one; a request that threw shows
      its error's message, or a fixed text when what it threw was not an `Error`. */
  function SpinErrorText(response: SpinResponse): (s: string)
    requires !response.Granted?
    ensures response.Refused? ==> s != "" && (s == "Failed to spin" || response.error == Some(s))
    ensures response.Refused? && response.error.Some? && response.error.value != "" ==>
              s == response.error.value
    ensures response.Threw? ==> s == (if response.message.Some? then response.message.value else "An error occurred")
  {
    match response
    case Refused(e) => OrDefault(e, "Failed to spin")
    case Threw(m) => m.GetOr("An error occurred")
  }

  /** The component's state. `timerRunning` says whether the countdown interval started
      by the last eligibility check still fires; `pending` is the user a `handleSpin` in
      progress captured. */
  class SpinWheel {
    var canSpin: bool
    var spinning: bool
    var spinCooldown: int
    var timerRunning: bool
    var error: Option<string>
    var showResult: bool
    var spinResult: Option<int>
    var pending: Option<User>

    ghost predicate Valid()
      reads this
    {
      && spinCooldown >= 0
      && (timerRunning ==> spinCooldown >= 1 && !canSpin)
      && (spinning <==> pending.Some?)
    }

    /** The state before the first eligibility check. */
    constructor ()
      ensures Valid()
      ensures canSpin && !spinning && spinCooldown == 0 && !timerRunning
      ensures error.None? && !showResult && spinResult.None? && pending.None?
    {
      canSpin, spinning, spinCooldown, timerRunning := true, false, 0, false;
      error, showResult, spinResult, pending := None, false, None, None;
    }

    /** The eligibility effect, run at `now` for the current user. Its cleanup stops the
        interval the previous run started; a new one starts only while cooling down. With
        no spins left the countdown value is left as it was. */
    method Recheck(user: User, now: Timestamp)
      requires Valid()
      modifies this
      ensures Valid()
      ensures canSpin == CanSpinAt(user, now)
      ensures var e := CheckEligibility(user.spinsLeft, user.lastSpin, now);
              timerRunning == e.CoolingDown? &&
              spinCooldown == (if e.CoolingDown? then e.seconds else old(spinCooldown))
      ensures spinning == old(spinning) && pending == old(pending) && error == old(error)
      ensures showResult == old(showResult) && spinResult == old(spinResult)
    {
      match CheckEligibility(user.spinsLeft, user.lastSpin, now)
      case NoSpinsLeft =>
        canSpin, timerRunning := false, false;
      case CoolingDown(s) =>
        canSpin, spinCooldown, timerRunning := false, s, true;
      case Ready =>
        canSpin, timerRunning := true, false;
    }

    /** One firing of the countdown interval: the value drops by one, and the firing that
        finds it at 1 stops the interval and re-enables spinning. */
    method Tick()
      requires Valid()
      modifies this
      ensures Valid()
      ensures old(timerRunning) ==>
                spinCooldown == Countdown.Step(old(spinCooldown)) &&
                timerRunning == (spinCooldown > 0) && canSpin == (spinCooldown == 0)
      ensures !old(timerRunning) ==> spinCooldown == old(spinCooldown) && !timerRunning && canSpin == old(canSpin)
      ensures spinning == old(spinning) && pending == old(pending) && error == old(error)
      ensures showResult == old(showResult) && spinResult == old(spinResult)
    {
      if timerRunning {
        if spinCooldown <= 1 {
          timerRunning, canSpin := false, true;
        }
        spinCooldown := Countdown.Step(spinCooldown);
      }
    }

    /** `handleSpin` up to the request: nothing happens unless spinning is allowed and no
        spin is in progress; otherwise the error is cleared and the wheel starts spinning. */
    method HandleSpin(user: User) returns (started: bool)
      requires Valid()
      modifies this
      ensures Valid()
      ensures started == (old(canSpin) && !old(spinning))
      ensures started ==> spinning && pending == Some(user) && error.None?
      ensures !started ==> spinning == old(spinning) && pending == old(pending) && error == old(error)
      ensures canSpin == old(canSpin) && spinCooldown == old(spinCooldown) && timerRunning == old(timerRunning)
      ensures showResult == old(showResult) && spinResult == old(spinResult)
    {
      started := canSpin && !spinning;
      if started {
        error, spinning, pending := None, true, Some(user);
      }
    }

    /** The end of a spin in progress. A granted spin (applied when the animation ends, at
        `now`) shows the reward and hands back the credited user; a refusal or a failed
        request records the error and hands back nothing, so the user is unchanged. */
    method Resolve(response: SpinResponse, now: Timestamp) returns (updated: Option<User>)
      requires Valid() && spinning
      modifies this
      ensures Valid() && !spinning
      ensures response.Granted? ==>
                updated == Some(SpinCredited(old(pending).value, response.reward, now)) &&
                showResult && spinResult == Some(response.reward) && error == old(error)
      ensures !response.Granted? ==>
                updated.None? && error == Some(SpinErrorText(response)) &&
                showResult == old(showResult) && spinResult == old(spinResult)
      ensures canSpin == old(canSpin) && spinCooldown == old(spinCooldown) && timerRunning == old(timerRunning)
    {
      var user := pending.value;
      if response.Granted? {
        spinResult, showResult := Some(response.reward), true;
        updated := Some(SpinCredited(user, response.reward, now));
      } else {
        error := Some(SpinErrorText(response));
        updated := None;
      }
      spinning, pending := false, None;
    }

    /** Closing the result dialog. */
    method CloseResult()
      requires Valid()
      modifies this`showResult, this`spinResult
      ensures Valid() && !showResult && spinResult.None?
    {
      showResult, spinResult := false, None;
    }

    /** The text under a locked wheel; it reads back as the countdown. */
    function CooldownText(): (t: string)
      reads this
      ensures spinCooldown >= 0 ==> ParseClock(t) == Some(spinCooldown)
    {
      if spinCooldown >= 0 then
        FormatTimeReadsBack(spinCooldown);
        FormatTime(spinCooldown)
      else
        FormatTime(spinCooldown)
    }
  }
}
