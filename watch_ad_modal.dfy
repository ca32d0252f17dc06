/** The ad-watch engine of WatchAdModal.tsx: opening starts a countdown from the ad's
    watch time, the claim is possible once it reaches zero, and a confirmed view adds the
    ad's reward to the user. There is no separate "claimed" state: a second credit is
    prevented only by the button being disabled while a claim is loading and by the
    modal closing after a successful one. The third-party ad units are outcomes the claim
    ignores. */
module WatchAdModal {
  import opened Wrappers
  import opened Text
  import opened Schema
  import Countdown

  /** The user after a confirmed view: the ad's reward added, nothing else changed. */
  function AdCredited(user: User, ad: Ad): (u: User)
    ensures u.coins == user.coins + ad.reward
    ensures u.(coins := user.coins) == user
  {
    user.(coins := user.coins + ad.reward)
  }

  /** Whether a third-party rewarded unit was shown or failed. */
  datatype AdUnitOutcome = Shown | Failed

  /** The backend's answer to `POST /api/ads/view`, or the failure of the request. */
  datatype ClaimResponse =
    | Confirmed                        // `{ success: true }`
    | Refused(error: Option<string>)   // `{ success: false, error? }`
    | Threw(message: Option<string>)   // the request threw; `None` when not an `Error`

  /** The message shown after a failed claim: the backend's non-empty message or the
      thrown error's message when there is one, the fixed text otherwise; a refusal never
      shows an empty text. */
  function ClaimErrorText(response: ClaimResponse): (s: string)
    requires !response.Confirmed?
    ensures response.Refused? ==> s != ""
    ensures s == "Failed to claim reward" ||
            (response.Refused? && response.error == Some(s)) || (response.Threw? && response.message == Some(s))
    ensures response.Refused? && response.error.Some? && response.error.value != "" ==> s == response.error.value
    ensures response.Threw? && response.message.Some? ==> s == response.message.value
  {
    match response
    case Refused(e) => OrDefault(e, "Failed to claim reward")
    case Threw(m) => m.GetOr("Failed to claim reward")
  }

  /** A `handleClaimReward` in progress: the user and the ad it captured. */
  datatype Claim = Claim(user: User, ad: Ad)

  /** The component's state, with its two props `isOpen` and `ad`. `timerRunning` says
      whether the countdown interval still fires. */
  class WatchAdModal {
    var isOpen: bool
    var ad: Option<Ad>
    var timeLeft: int
    var loading: bool
    var error: Option<string>
    var showDirectLinkAd: bool
    var timerRunning: bool
    var pending: Option<Claim>

    ghost predicate Valid()
      reads this
    {
      && (loading <==> pending.Some?)
      && (showDirectLinkAd <==> isOpen && ad.Some?)
      && (timerRunning ==> isOpen && ad.Some?)
    }

    /** Mounted closed and without an ad. */
    constructor ()
      ensures Valid()
      ensures !isOpen && ad.None? && timeLeft == 0 && !loading && error.None?
      ensures !showDirectLinkAd && !timerRunning && pending.None?
    {
      isOpen, ad, timeLeft, loading := false, None, 0, false;
      error, showDirectLinkAd, timerRunning, pending := None, false, false, None;
    }

    /** New props. When `isOpen` or `ad` changed, the effect's cleanup stops the interval
        and hides the direct-link ad, and then, if the modal is open on an ad, the
        countdown restarts from its watch time and the error is cleared. Closing never
        touches the user, the countdown value or a claim in progress. */
    method SetProps(open: bool, newAd: Option<Ad>)
      requires Valid()
      modifies this
      ensures Valid()
      ensures isOpen == open && ad == newAd
      ensures var changed := open != old(isOpen) || newAd != old(ad);
              if changed && open && newAd.Some? then
                timeLeft == newAd.value.watchTime && error.None? && timerRunning
              else if changed then
                timeLeft == old(timeLeft) && error == old(error) && !timerRunning
              else
                timeLeft == old(timeLeft) && error == old(error) && timerRunning == old(timerRunning)
      ensures loading == old(loading) && pending == old(pending)
    {
      if open != isOpen || newAd != ad {
        if isOpen && ad.Some? {
          timerRunning, showDirectLinkAd := false, false;
        }
        isOpen, ad := open, newAd;
        if open && newAd.Some? {
          timeLeft, error, showDirectLinkAd, timerRunning := newAd.value.watchTime, None, true, true;
        }
      }
    }

    /** One firing of the countdown interval; the firing that finds the value at most 1
        sets it to 0 and stops the interval. */
    method Tick()
      requires Valid()
      modifies this`timeLeft, this`timerRunning
      ensures Valid()
      ensures old(timerRunning) ==>
                timeLeft == Countdown.Step(old(timeLeft)) && timeLeft >= 0 &&
                (old(timeLeft) >= 0 ==> timeLeft <= old(timeLeft)) &&
                timerRunning == (old(timeLeft) > 1)
      ensures !old(timerRunning) ==> timeLeft == old(timeLeft) && !timerRunning
    {
      if timerRunning {
        if timeLeft <= 1 {
          timerRunning := false;
        }
        timeLeft := Countdown.Step(timeLeft);
      }
    }

    /** The claim button is on screen only while the modal is open on an ad. */
    predicate ClaimButtonShown()
      reads this
    {
      isOpen && ad.Some?
    }

    /** The claim button is disabled while time is left or a claim is loading. */
    predicate ClaimButtonEnabled()
      reads this
    {
      !(timeLeft > 0 || loading)
    }

    /** A press of the claim button, which runs `handleClaimReward` when the button is
        shown and enabled. The handler's own guard (an ad, no time left) is implied.
        A started claim sets `loading` and clears the error. */
    method ClickClaim(user: User) returns (started: bool)
      requires Valid()
      modifies this`loading, this`error, this`pending
      ensures Valid()
      ensures started <==> old(isOpen) && old(ad).Some? && old(timeLeft) <= 0 && !old(loading)
      ensures started ==> loading && error.None? && pending == Some(Claim(user, ad.value))
      ensures !started ==> loading == old(loading) && error == old(error) && pending == old(pending)
    {
      started := ClaimButtonShown() && ClaimButtonEnabled();
      if started {
        loading, error, pending := true, None, Some(Claim(user, ad.value));
      }
    }

    /** The end of a claim in progress. The interstitial shown before the request and the
        popup shown after it are swallowed whatever their outcome. A confirmed view hands
        back the credited user (the caller then closes the modal); a refusal or a failed
        request records the error and hands back nothing. Loading ends either way. */
    method Resolve(interstitial: AdUnitOutcome, response: ClaimResponse, popup: AdUnitOutcome)
      returns (updated: Option<User>)
      requires Valid() && loading
      modifies this`loading, this`error, this`pending
      ensures Valid() && !loading
      ensures response.Confirmed? ==>
                updated == Some(AdCredited(old(pending).value.user, old(pending).value.ad)) &&
                error == old(error)
      ensures !response.Confirmed? ==> updated.None? && error == Some(ClaimErrorText(response))
    {
      var claim := pending.value;
      if response.Confirmed? {
        updated := Some(AdCredited(claim.user, claim.ad));
      } else {
        error := Some(ClaimErrorText(response));
        updated := None;
      }
      loading, pending := false, None;
    }
  }
}
