/** The signed-in user's state holder and the wiring between it and the three flows: each
    flow hands back a new user record, which replaces the held one. The router renders the
    page through a component function it creates afresh on every render, so each
    replacement of the user unmounts the page and mounts a new one: the spin wheel, both
    modals and the page's own state start over, and the wheel's check runs for the new
    user. Interval firings are the components' own `Tick`. */
module Session {
  import opened Wrappers
  import opened Schema
  import SpinWheel
  import WatchAdModal
  import WithdrawModal
  import Constants
  import Telegram

  class Home {
    var user: User
    var wheel: SpinWheel.SpinWheel
    var adModal: WatchAdModal.WatchAdModal
    var withdrawModal: WithdrawModal.WithdrawModal
    var selectedAd: Option<Ad>
    var showAdModal: bool
    var showWithdrawModal: bool

    ghost predicate Valid()
      reads this, wheel, adModal, withdrawModal
    {
      && wheel.Valid() && adModal.Valid() && withdrawModal.Valid()
      && adModal.isOpen == showAdModal && adModal.ad == selectedAd
      && withdrawModal.isOpen == showWithdrawModal
    }

    /** The components as a fresh mount for `u` at `now` leaves them: the wheel in its
        initial state after its first eligibility check (counting down exactly while
        cooling down, from the computed seconds, and 0 otherwise), with no spin, result or
        error; the ad modal closed with no ad, no time left, no timer, claim or error; the
        withdrawal form closed, idle and without error, its wallet field holding the saved
        wallet and no amount typed. */
    static ghost predicate MountedFor(w: SpinWheel.SpinWheel, a: WatchAdModal.WatchAdModal,
                                      m: WithdrawModal.WithdrawModal, u: User, now: Timestamp)
      reads w, a, m
    {
      && w.Valid() && a.Valid() && m.Valid()
      && w.canSpin == SpinWheel.CanSpinAt(u, now)
      && (var e := SpinWheel.CheckEligibility(u.spinsLeft, u.lastSpin, now);
          w.timerRunning == e.CoolingDown? && w.spinCooldown == (if e.CoolingDown? then e.seconds else 0))
      && !w.spinning && w.pending.None? && !w.showResult && w.spinResult.None? && w.error.None?
      && !a.isOpen && a.ad.None? && a.timeLeft == 0 && !a.timerRunning && !a.showDirectLinkAd
      && !a.loading && a.pending.None? && a.error.None?
      && !m.isOpen && !m.loading && m.pending.None? && m.error.None?
      && m.wallet == u.usdtWallet.GetOr("") && m.amount.None?
    }

    /** The components of a freshly mounted page for `u` at `now`. */
    static method MountComponents(u: User, now: Timestamp)
      returns (w: SpinWheel.SpinWheel, a: WatchAdModal.WatchAdModal, m: WithdrawModal.WithdrawModal)
      ensures fresh(w) && fresh(a) && fresh(m)
      ensures MountedFor(w, a, m, u, now)
    {
      w := new SpinWheel.SpinWheel();
      w.Recheck(u, now);
      a := new WatchAdModal.WatchAdModal();
      m := new WithdrawModal.WithdrawModal(u);
    }

    /** The page mounted for `u` at time `now`: both modals closed, the wheel checked. */
    constructor (u: User, now: Timestamp)
      ensures Valid() && fresh(wheel) && fresh(adModal) && fresh(withdrawModal)
      ensures user == u && !showAdModal && selectedAd.None? && !showWithdrawModal
      ensures MountedFor(wheel, adModal, withdrawModal, u, now)
    {
      var w, a, m := MountComponents(u, now);
      user, wheel, adModal, withdrawModal := u, w, a, m;
      selectedAd, showAdModal, showWithdrawModal := None, false, false;
    }

    /** `setUser(u)`: the held user is replaced and the page is mounted afresh at `now`,
        so whatever any component held (a spin or claim in progress, the result dialog,
        the typed wallet and amount, an open modal) is gone, and the wheel is checked for
        `u`. */
    method SetUser(u: User, now: Timestamp)
      modifies this
      ensures Valid() && user == u && fresh(wheel) && fresh(adModal) && fresh(withdrawModal)
      ensures selectedAd.None? && !showAdModal && !showWithdrawModal
      ensures MountedFor(wheel, adModal, withdrawModal, u, now)
    {
      user := u;
      selectedAd, showAdModal, showWithdrawModal := None, false, false;
      wheel, adModal, withdrawModal := MountComponents(u, now);
    }

    /** Choosing an ad opens the modal on it. */
    method WatchAd(ad: Ad)
      requires Valid()
      modifies this`selectedAd, this`showAdModal, adModal
      ensures Valid() && showAdModal && selectedAd == Some(ad) && user == old(user)
      ensures !old(showAdModal) || old(selectedAd) != Some(ad) ==>
                adModal.timeLeft == ad.watchTime && adModal.timerRunning && adModal.error.None?
      ensures old(showAdModal) && old(selectedAd) == Some(ad) ==>
                adModal.timeLeft == old(adModal.timeLeft) && adModal.timerRunning == old(adModal.timerRunning) &&
                adModal.error == old(adModal.error)
      ensures adModal.loading == old(adModal.loading) && adModal.pending == old(adModal.pending)
    {
      selectedAd, showAdModal := Some(ad), true;
      adModal.SetProps(true, Some(ad));
    }

    /** The modal's `onClose`: it closes and its countdown stops; the user is untouched. */
    method CloseAdModal()
      requires Valid()
      modifies this`showAdModal, adModal
      ensures Valid() && !showAdModal && selectedAd == old(selectedAd) && user == old(user)
      ensures !adModal.timerRunning && adModal.timeLeft == old(adModal.timeLeft)
      ensures adModal.error == old(adModal.error)
      ensures adModal.loading == old(adModal.loading) && adModal.pending == old(adModal.pending)
    {
      showAdModal := false;
      adModal.SetProps(false, selectedAd);
    }

    /** A press of the claim button for the held user. */
    method Claim() returns (started: bool)
      requires Valid()
      modifies adModal`loading, adModal`error, adModal`pending
      ensures Valid() && unchanged(this)
      ensures started <==> showAdModal && selectedAd.Some? && old(adModal.timeLeft) <= 0 && !old(adModal.loading)
      ensures old(adModal.loading) ==> !started
      ensures started ==>
                adModal.loading && adModal.error.None? &&
                adModal.pending == Some(WatchAdModal.Claim(user, selectedAd.value))
      ensures !started ==>
                adModal.loading == old(adModal.loading) && adModal.error == old(adModal.error) &&
                adModal.pending == old(adModal.pending)
      ensures adModal.timeLeft == old(adModal.timeLeft) && adModal.timerRunning == old(adModal.timerRunning)
    {
      started := adModal.ClickClaim(user);
    }

    /** The claim in progress ends: on a confirmed view the credited user replaces the held
        one, which remounts the page with the modal closed, so the button is gone until an
        ad is chosen again, which restarts its countdown. The modal's own `onClose` that
        follows acts on the page that was unmounted and changes nothing. */
    method ClaimResolved(interstitial: WatchAdModal.AdUnitOutcome, response: WatchAdModal.ClaimResponse,
                         popup: WatchAdModal.AdUnitOutcome, now: Timestamp)
      requires Valid() && adModal.loading
      modifies this, adModal
      ensures Valid() && !adModal.loading
      ensures var c := old(adModal.pending).value;
              response.Confirmed? ==>
                user == WatchAdModal.AdCredited(c.user, c.ad) &&
                fresh(wheel) && fresh(adModal) && fresh(withdrawModal) &&
                selectedAd.None? && !showAdModal && !showWithdrawModal &&
                MountedFor(wheel, adModal, withdrawModal, user, now)
      ensures !response.Confirmed? ==>
                unchanged(this) && adModal.error == Some(WatchAdModal.ClaimErrorText(response)) &&
                adModal.pending.None? && adModal.isOpen == old(adModal.isOpen) && adModal.ad == old(adModal.ad) &&
                adModal.timeLeft == old(adModal.timeLeft) && adModal.timerRunning == old(adModal.timerRunning)
    {
      var updated := adModal.Resolve(interstitial, response, popup);
      if updated.Some? {
        SetUser(updated.value, now);
      }
    }

    /** Two presses of the claim button before the backend answers, then the answer:
        the reward is credited at most once, and on success no further press can claim. */
    method DoubleClaim(interstitial: WatchAdModal.AdUnitOutcome, response: WatchAdModal.ClaimResponse,
                       popup: WatchAdModal.AdUnitOutcome, now: Timestamp)
      returns (first: bool, second: bool)
      requires Valid() && !adModal.loading
      modifies this, adModal
      ensures Valid() && !second
      ensures first && response.Confirmed? ==>
                old(selectedAd).Some? && user.coins == old(user.coins) + old(selectedAd).value.reward &&
                !adModal.isOpen
      ensures !(first && response.Confirmed?) ==> unchanged(this) && user == old(user)
    {
      first := Claim();
      second := Claim();
      if first {
        ClaimResolved(interstitial, response, popup, now);
      }
    }

    /** A claim is started, the modal is closed and opened again on an ad, and the button
        is pressed again before the backend answers: the claim still in flight keeps the
        button disabled, so the second press starts nothing. */
    method ClaimAcrossReopen(ad: Ad) returns (first: bool, second: bool)
      requires Valid()
      modifies this`selectedAd, this`showAdModal, adModal
      ensures Valid() && user == old(user)
      ensures first ==>
                old(selectedAd).Some? && !second &&
                adModal.pending == Some(WatchAdModal.Claim(old(user), old(selectedAd).value))
    {
      first := Claim();
      CloseAdModal();
      WatchAd(ad);
      second := Claim();
    }

    /** A press of the spin button for the held user. */
    method Spin() returns (started: bool)
      requires Valid()
      modifies wheel
      ensures Valid() && unchanged(this)
      ensures started == (old(wheel.canSpin) && !old(wheel.spinning))
      ensures started ==> wheel.spinning && wheel.pending == Some(user) && wheel.error.None?
      ensures !started ==>
                wheel.spinning == old(wheel.spinning) && wheel.pending == old(wheel.pending) &&
                wheel.error == old(wheel.error)
      ensures wheel.canSpin == old(wheel.canSpin) && wheel.spinCooldown == old(wheel.spinCooldown) &&
              wheel.timerRunning == old(wheel.timerRunning)
      ensures wheel.showResult == old(wheel.showResult) && wheel.spinResult == old(wheel.spinResult)
    {
      started := wheel.HandleSpin(user);
    }

    /** The spin in progress ends; a granted spin's credited user replaces the held one.
        That remounts the page: the new wheel is locked again, and the result dialog the
        old wheel had just opened is gone with it. A failed spin changes only the wheel. */
    method SpinResolved(response: SpinWheel.SpinResponse, now: Timestamp)
      requires Valid() && wheel.spinning
      modifies this, wheel
      ensures Valid() && !wheel.spinning
      ensures response.Granted? ==>
                user == SpinWheel.SpinCredited(old(wheel.pending).value, response.reward, now) &&
                fresh(wheel) && fresh(adModal) && fresh(withdrawModal) &&
                selectedAd.None? && !showAdModal && !showWithdrawModal &&
                MountedFor(wheel, adModal, withdrawModal, user, now)
      ensures response.Granted? ==>
                !wheel.canSpin && wheel.timerRunning == (user.spinsLeft > 0) &&
                (user.spinsLeft > 0 ==> wheel.spinCooldown == SpinWheel.COOLDOWN_MS / 1000)
      ensures !response.Granted? ==>
                unchanged(this) && wheel.error == Some(SpinWheel.SpinErrorText(response)) &&
                wheel.pending.None? &&
                wheel.showResult == old(wheel.showResult) && wheel.spinResult == old(wheel.spinResult) &&
                wheel.canSpin == old(wheel.canSpin) && wheel.spinCooldown == old(wheel.spinCooldown) &&
                wheel.timerRunning == old(wheel.timerRunning)
    {
      var updated := wheel.Resolve(response, now);
      if updated.Some? {
        SetUser(updated.value, now);
      }
    }

    method OpenWithdrawModal()
      requires Valid()
      modifies this`showWithdrawModal, withdrawModal`isOpen, withdrawModal`error
      ensures Valid() && showWithdrawModal && user == old(user)
      ensures withdrawModal.error == if !old(showWithdrawModal) then None else old(withdrawModal.error)
      ensures withdrawModal.wallet == old(withdrawModal.wallet) && withdrawModal.amount == old(withdrawModal.amount)
      ensures withdrawModal.loading == old(withdrawModal.loading) && withdrawModal.pending == old(withdrawModal.pending)
    {
      showWithdrawModal := true;
      withdrawModal.SetOpen(true);
    }

    method CloseWithdrawModal()
      requires Valid()
      modifies this`showWithdrawModal, withdrawModal`isOpen, withdrawModal`error
      ensures Valid() && !showWithdrawModal && user == old(user)
      ensures withdrawModal.error == old(withdrawModal.error)
      ensures withdrawModal.wallet == old(withdrawModal.wallet) && withdrawModal.amount == old(withdrawModal.amount)
      ensures withdrawModal.loading == old(withdrawModal.loading) && withdrawModal.pending == old(withdrawModal.pending)
    {
      showWithdrawModal := false;
      withdrawModal.SetOpen(false);
    }

    /** A press of the withdrawal button for the held user. */
    method RequestWithdrawal() returns (request: Option<InsertWithdrawal>)
      requires Valid()
      modifies withdrawModal`loading, withdrawModal`error, withdrawModal`pending
      ensures Valid() && unchanged(this)
      ensures !showWithdrawModal || old(withdrawModal.loading) ==>
                request.None? && withdrawModal.loading == old(withdrawModal.loading) &&
                withdrawModal.error == old(withdrawModal.error) && withdrawModal.pending == old(withdrawModal.pending)
      ensures showWithdrawModal && !old(withdrawModal.loading) ==>
                var check := WithdrawModal.Validate(withdrawModal.wallet, withdrawModal.amount,
                                                    WithdrawModal.AvailableUsdt(user.coins));
                if check.Failure? then
                  request.None? && !withdrawModal.loading &&
                  withdrawModal.error == Some(WithdrawModal.ErrorMessage(check.error))
                else
                  var s := WithdrawModal.Submission(user, check.value, withdrawModal.wallet);
                  request == Some(WithdrawModal.RequestOf(s)) && withdrawModal.loading &&
                  withdrawModal.pending == Some(s) && withdrawModal.error.None?
      ensures request.Some? ==> withdrawModal.pending == Some(WithdrawModal.Submission(user, request.value.amount, request.value.usdtWallet))
      ensures request.Some? ==> request.value.amount <= Telegram.CoinsToUsdtUnits(user.coins)
      ensures request.Some? ==> request.value.amount >= Constants.MIN_WITHDRAWAL_USDT * FIXED4_SCALE
      ensures request.Some? ==> showWithdrawModal
    {
      request := withdrawModal.Click(user);
    }

    /** The request in progress ends; once created, the deducted user replaces the held one,
        which remounts the page with the modal closed. */
    method WithdrawResolved(response: WithdrawModal.WithdrawResponse, now: Timestamp)
      requires Valid() && withdrawModal.loading
      modifies this, withdrawModal
      ensures Valid() && !withdrawModal.loading
      ensures var s := old(withdrawModal.pending).value;
              response.Created? ==>
                user == WithdrawModal.Deducted(s.user, s.amount, s.wallet) &&
                fresh(wheel) && fresh(adModal) && fresh(withdrawModal) &&
                selectedAd.None? && !showAdModal && !showWithdrawModal &&
                MountedFor(wheel, adModal, withdrawModal, user, now)
      ensures response.Threw? ==>
                unchanged(this) &&
                withdrawModal.error == Some(response.message.GetOr("Failed to process withdrawal")) &&
                withdrawModal.pending.None? && withdrawModal.isOpen == old(withdrawModal.isOpen) &&
                withdrawModal.wallet == old(withdrawModal.wallet) && withdrawModal.amount == old(withdrawModal.amount)
    {
      var updated := withdrawModal.Resolve(response);
      if updated.Some? {
        SetUser(updated.value, now);
      }
    }
  }
}
