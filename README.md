# Spin & Earn USDT: reward and balance logic

A verified model of the reward and balance logic of the Spin & Earn USDT Telegram Mini App client.
Users earn coins by spinning a wheel and by watching ads. They redeem coins for USDT at 50,000 coins
per USDT, with a minimum withdrawal of 10 USDT. Three flows change the signed-in user's record:

- **Spin** (`SpinWheel`): a user may spin when a spin is left and the last spin was at least an hour
  ago. A locked wheel counts down once a second and unlocks itself. A spin the backend grants adds the
  backend's reward, records the spin time and uses up one spin. Nothing else changes.
- **Ad watch** (`WatchAdModal`): opening the modal on an ad starts a countdown from the ad's watch
  time. The claim button is enabled once the countdown is at zero and no claim is loading. A view the
  backend confirms adds the ad's reward, and the modal then closes. The third-party rewarded units
  shown around the claim do not affect the credit: the interstitial is awaited before the request
  but its outcome is ignored, and the popup after a confirmed view is started without being awaited.
- **Withdrawal** (`WithdrawModal`): three checks run in order (blank wallet, below 10 USDT, above
  the available balance). A request that passes is sent, and the coins it is worth are deducted at
  once, before any approval. The available balance is the 4-decimal display value of the coins.

Around them sit the record shapes and column defaults of the database (`Schema`), the constants
(`Constants`), the pure helpers of `telegram.ts` (`Telegram`: the USDT display value, the "time
remaining" text, the referral link) and the page that holds the current user and replaces it with
whatever a flow hands back (`Session.Home`).

The router renders the page with a component function it builds anew on every render (App.tsx:109).
The user is the router's state (App.tsx:18), so every replacement of the user unmounts the page
and mounts a fresh one. `Session.Home.SetUser` models that remount: the wheel, both modals and the
page's own state start over, and the wheel's check runs for the new user. One consequence is that
the result dialog a granted spin opens (SpinWheel.tsx:86-87) is removed by the same update that
credits the spin.

Modelling choices:
- Coins are integers. USDT amounts are exact integers in ten-thousandths (`Schema.Fixed4`), which is
  the scale-4 precision of the database's decimal columns and of `coinsToUsdt`'s output.
- Timestamps are milliseconds. Every reading of the clock is a parameter (`now`).
- Each interval firing is an explicit `Tick`. Each run of a React effect is an explicit method
  (`Recheck`, `SetProps`, `SetOpen`).
- Each asynchronous handler is split in two: the click, which leaves a request in flight, and
  `Resolve(response)`, which applies the backend's answer. The backend's answer is an arbitrary
  value of a response datatype, with one case for success, one for a `success: false` body, and one
  for a request that threw. The handler works on the user captured at the click (the `pending`
  field), as the JavaScript closure does.

Three properties one might expect of such an app do not hold in the code. The model follows the code:
- Ads have no terminal "claimed" state and no "already claimed" error. A second credit is prevented
  only by the `loading`-disabled button and by the modal closing after a success.
  `Session.Home.DoubleClaim` shows that two presses before the answer credit once.
- The balance is not kept at or above zero. The withdrawal checks compare against the rounded
  display value, so a passing withdrawal can leave the balance at -2 coins
  (`WithdrawModal.DeductionOvershootBounded`, `WithdrawModal.OvershootReached`).
- Converting the display value back to coins is not exact to within one coin. The code's rounding
  is off by up to two coins (`Telegram.DisplayBackToCoins`).

## Model

| member | source | states |
|---|---|---|
| `Schema.CreateUser` | schema.ts:74-78 | the insert shape cannot carry `id`, `createdAt` or `totalEarned`: a stored user gets the serial id, the insert time and `totalEarned` 0; every other omitted column takes its default and every given one is kept |
| `Schema.NewUserDefaults` | schema.ts:12-20 | a user inserted with only the required columns has 0 coins, 100 spins left, 0 referral earnings, 0 earned, is not banned and has no last spin or wallet |
| `Schema.CreateWithdrawal` | schema.ts:25-33 | a stored withdrawal is unprocessed, keeps user, amount and wallet, and is `Pending` unless a status was given |
| `Schema.CreateAd` | schema.ts:36-45 | a stored ad keeps its integer watch time and reward and is active unless told otherwise |
| `Constants.SpinRewardsShape` | constants.ts:8 | the reward table is strictly increasing and every entry is positive |
| `HardCodedCopies.Agree` | constants.ts:1-14 | the literals repeated in the flows (rate 50000 twice, minimum 10, one hour in ms, 100 daily spins as the column default, and the 50-coin referral bonus in the text of ReferralsPage.tsx:81) equal the constants |
| `Countdown.Step` | WatchAdModal.tsx:47-53 | one firing never yields a negative value, decrements a positive value by one, and sets a value of at most 1 to 0 |
| `Countdown.AfterValue` | SpinWheel.tsx:45-52 | after k >= 1 firings the value is max(v - k, 0) |
| `Countdown.ReachesZeroAfterExactly` | WatchAdModal.tsx:46-54 | from v >= 1 the value is 0 after k firings exactly when k >= v, and is v - k before that |
| `Countdown.AfterMonotone` | SpinWheel.tsx:45-52 | from a non-negative start the value never increases and never goes below 0 |
| `Text.TrimEmptyIffBlank` | WithdrawModal.tsx:47 | `!wallet.trim()` holds exactly when every character is JavaScript whitespace (the empty wallet included) |
| `Telegram.CoinsToUsdtUnits` | telegram.ts:39-42 | the display value in ten-thousandths is the one multiple of 5 coins within 2 coins of the balance, and is non-negative for a non-negative balance |
| `Telegram.NearestAtRate` | telegram.ts:40-41 | the display value is the balance divided by the rate `CONVERSION_RATE` (50,000) in ten-thousandths, off by less than half a ten-thousandth |
| `Telegram.CoinsToUsdtShape` | telegram.ts:39-42 | `coinsToUsdt`'s text has a point followed by exactly four digits, and starts with a minus sign exactly for a negative balance, even one that rounds to zero; `CoinsToUsdtReadsBack` ties the text to the value |
| `Telegram.CoinsToUsdtReadsBack` | telegram.ts:41 | reading the `toFixed(4)` string back (as the withdrawal form does) gives exactly the display value, negative balances included |
| `Telegram.NonNegativeRounding` | telegram.ts:41 | for c >= 0 the display value in ten-thousandths is (2c + 5) div 10, c/5 rounded to nearest |
| `Telegram.DisplayBackToCoins` | telegram.ts:40-41 | the display value times 50,000 differs from the balance by at most 2 coins |
| `Telegram.CoinsToUsdtMonotone` | telegram.ts:41 | a larger balance never displays a smaller value |
| `Telegram.TenUsdtExample` | telegram.ts:39-42 | `coinsToUsdt(500000)` is "10.0000" |
| `Telegram.TimeRemaining` | telegram.ts:45-63 | "Now" exactly for no date or a date not in the future; otherwise whole hours (at least 1) and minutes below 60, or minutes (at least 1) and seconds below 60 under an hour, or seconds below 60 under a minute, each bracketing the remaining time |
| `Telegram.FormatTimeRemaining` | telegram.ts:46-51 | the text is "Now" exactly when there is no date or the date is not in the future |
| `Telegram.Render` | telegram.ts:57-63 | only the `Now` form prints as "Now" |
| `Telegram.RenderReadsBack` | telegram.ts:57-63 | the texts "<h>h <m>m", "<m>m <s>s" and "<s>s" read back as exactly the form and numbers they were printed from |
| `Telegram.FormatTimeRemainingReadsBack` | telegram.ts:45-64 | `formatTimeRemaining`'s text reads back as the split `TimeRemaining` gives, so it shows exactly those hours and minutes, minutes and seconds, or seconds |
| `Telegram.CreateShareUrl` | telegram.ts:67-69 | the link is the fixed bot prefix followed by the referral code |
| `Telegram.ShareUrlRoundTrip` | telegram.ts:67-69 | stripping the prefix gives back the referral code; two users get the same link exactly when their codes are equal |
| `SpinWheel.CeilDiv` | SpinWheel.tsx:41 | `Math.ceil(a / b)` is the q with (q - 1)·b < a <= q·b |
| `SpinWheel.CheckEligibility` | SpinWheel.tsx:23-60 | no spins left exactly when `spinsLeft <= 0`, whatever `lastSpin` is; cooling down exactly when spins remain and the last spin is less than 3,600,000 ms ago, with a countdown of ceil(remaining / 1000) >= 1 seconds; ready otherwise |
| `SpinWheel.CanSpinIff` | SpinWheel.tsx:24-36 | a user may spin exactly when spins remain and there was no spin or it is at least an hour old |
| `SpinWheel.CooldownWithinAnHour` | SpinWheel.tsx:30-41 | with 0 <= elapsed < 1 h the countdown starts between 1 and 3600 seconds |
| `SpinWheel.CooldownBoundary` | SpinWheel.tsx:33-36 | 3,599,999 ms after a spin the wheel is locked for 1 more second; at 3,600,000 ms it may spin |
| `SpinWheel.SpinCredited` | SpinWheel.tsx:91-96 | a granted spin adds the backend's reward, sets `lastSpin` to the time, uses one spin, and changes nothing else |
| `SpinWheel.SpinLocksWheel` | SpinWheel.tsx:30-41 | after an allowed spin, spins left stay non-negative and the eligibility check locks the wheel for a full hour, or for good if it was the last spin |
| `SpinWheel.SpinExample` | SpinWheel.tsx:91-96 | a user with 0 coins, 1 spin and no last spin who wins 15 ends with 15 coins, 0 spins, `lastSpin = now`, and cannot spin again |
| `SpinWheel.JsRem` | SpinWheel.tsx:112 | JavaScript's `%` takes the dividend's sign: 0 <= r < b for a >= 0 and -b < r <= 0 for a < 0 |
| `SpinWheel.JsRemDivision` | SpinWheel.tsx:112 | with the quotient truncated toward zero, a = trunc(a / b)·b + (a % b), so `%` is the remainder of that division |
| `SpinWheel.ClockTextReadsBack` | SpinWheel.tsx:113 | minutes, a colon and seconds below 60 padded to two digits read back as 60·minutes + seconds |
| `SpinWheel.FormatTimeReadsBack` | SpinWheel.tsx:110-114 | for s >= 0, `formatTime(s)` is minutes, a colon and exactly two digits of seconds below 60, and it reads back as s |
| `SpinWheel.SpinErrorText` | SpinWheel.tsx:81-101 | after a refusal the error shown is never empty: the backend's message when it sent a non-empty one, "Failed to spin" otherwise; after a throw it is the error's message, or "An error occurred" for a non-`Error` |
| `SpinWheel.SpinWheel.CooldownText` | SpinWheel.tsx:187 | the text under a locked wheel reads back as the countdown in seconds |
| `SpinWheel.SpinWheel.constructor` | SpinWheel.tsx:14-19 | the wheel starts enabled, not spinning, with countdown 0, no error and no result |
| `SpinWheel.SpinWheel.Recheck` | SpinWheel.tsx:23-60 | after the effect, `canSpin` is the eligibility verdict; the countdown runs exactly while cooling down and starts at the computed seconds; with no spins left the countdown value is untouched |
| `SpinWheel.SpinWheel.Tick` | SpinWheel.tsx:44-53 | a running countdown takes one `Countdown.Step`; the firing that reaches 0 stops it and enables spinning; a stopped one changes nothing; the value stays non-negative |
| `SpinWheel.SpinWheel.HandleSpin` | SpinWheel.tsx:62-66 | a spin starts exactly when `canSpin` and not `spinning`, clearing the error; otherwise nothing changes |
| `SpinWheel.SpinWheel.Resolve` | SpinWheel.tsx:77-107 | a granted spin shows the reward and hands back `SpinCredited` of the captured user; a refusal or a throw sets the error text and hands back nothing; spinning ends either way |
| `SpinWheel.SpinWheel.CloseResult` | SpinWheel.tsx:116-119 | closing the result dialog hides it and forgets the reward |
| `WatchAdModal.AdCredited` | WatchAdModal.tsx:99-103 | a confirmed view adds the ad's reward and changes nothing else |
| `WatchAdModal.WatchAdModal.constructor` | WatchAdModal.tsx:30-37 | the modal starts with 0 time left, not loading, no error, no timer |
| `WatchAdModal.WatchAdModal.SetProps` | WatchAdModal.tsx:40-68 | opening on an ad restarts the countdown from its watch time and clears the error; closing only stops the timer and hides the direct-link ad; a claim in progress is never touched |
| `WatchAdModal.WatchAdModal.Tick` | WatchAdModal.tsx:46-54 | a running countdown takes one `Countdown.Step`, never goes negative or up, and stops after the firing that finds it at most 1 |
| `WatchAdModal.ClaimErrorText` | WatchAdModal.tsx:96-120 | the error shown after a failed claim is the backend's non-empty message or the thrown error's message when there is one, "Failed to claim reward" otherwise; a refusal never shows an empty text |
| `WatchAdModal.WatchAdModal.ClickClaim` | WatchAdModal.tsx:185-187 | a claim starts exactly when the button is shown (`ClaimButtonShown`: open on an ad) and enabled (`ClaimButtonEnabled`: no time left, nothing loading); the handler's own guard at line 71 is implied; it sets loading and clears the error |
| `WatchAdModal.WatchAdModal.Resolve` | WatchAdModal.tsx:76-123 | whatever the rewarded units do, a confirmed view hands back `AdCredited` of the captured user and ad; a refusal or a throw sets the error text and hands back nothing; loading ends |
| `WithdrawModal.ErrorMessagesDistinct` | WithdrawModal.tsx:47-62 | the three check messages differ, so the text tells which check failed, and the minimum prints as "Minimum withdrawal is 10 USDT" |
| `WithdrawModal.AvailableUsdt` | WithdrawModal.tsx:40 | `parseFloat(coinsToUsdt(coins))` is exactly the display value |
| `WithdrawModal.Validate` | WithdrawModal.tsx:46-62 | the wallet check comes first, then the minimum (non-numeric or below 10 USDT), then the balance; each error is reported exactly when the earlier checks pass and its own fails; both bounds are inclusive; success returns the amount (the wallet test `!wallet.trim()` is written as `IsBlank`, the same test by `Text.TrimEmptyIffBlank`) |
| `WithdrawModal.CoinsToDeduct` | WithdrawModal.tsx:77 | the deduction is exactly the amount times 50,000 coins |
| `WithdrawModal.Deducted` | WithdrawModal.tsx:78-82 | the coins worth the amount are taken off, the wallet is recorded as typed (untrimmed), nothing else changes |
| `WithdrawModal.DeductionOvershootBounded` | WithdrawModal.tsx:59-82 | after the checks pass, the user had at least 499,998 coins and is left with at least -2 (not at least 0) |
| `WithdrawModal.OvershootReached` | WithdrawModal.tsx:77-82 | 500,003 coins display as 10.0001 USDT; withdrawing that passes and leaves -2 coins |
| `WithdrawModal.ValidationExamples` | WithdrawModal.tsx:53-62 | 9.99 USDT is below the minimum; 10 USDT against 5 available is refused; 10 against 10 passes and costs 500,000 coins |
| `WithdrawModal.RequestOf` | WithdrawModal.tsx:68-72 | the request carries the user id, the amount and the untrimmed wallet, and no status |
| `WithdrawModal.RequestStoredPending` | schema.ts:30 | every withdrawal the form requests is stored pending and unprocessed for the typed amount and wallet |
| `WithdrawModal.WithdrawModal.constructor` | WithdrawModal.tsx:27-30 | the wallet field starts as the saved wallet or empty; nothing loading, no error |
| `WithdrawModal.WithdrawModal.SetOpen` | WithdrawModal.tsx:34-38 | opening clears the error |
| `WithdrawModal.WithdrawModal.EditWallet` | WithdrawModal.tsx:123 | typing replaces the wallet text |
| `WithdrawModal.WithdrawModal.EditAmount` | WithdrawModal.tsx:142 | typing replaces the amount (held as parsed) |
| `WithdrawModal.WithdrawModal.Click` | WithdrawModal.tsx:101-157 | the button exists only in the open dialog (line 101) and is disabled while loading (line 157); a press in either case does nothing; otherwise it runs `handleWithdraw`: a failed check sets its message and sends nothing, and a passing one starts loading and returns the request |
| `WithdrawModal.WithdrawModal.HandleWithdraw` | WithdrawModal.tsx:43-66 | the error is cleared; a failed check sets its message and sends nothing, loading untouched; a passing one starts loading, records the submission and returns the request for it |
| `WithdrawModal.WithdrawModal.Resolve` | WithdrawModal.tsx:64-98 | a created request hands back `Deducted` of the captured user, amount and wallet; a throw sets its message and hands back nothing; loading ends |
| `Session.Home.constructor` | Home.tsx:21-26 | the page holds the user, both modals are closed, no ad is selected, and the components are as `MountedFor` the user at mount time |
| `Session.Home.MountComponents` | Home.tsx:72-121 | fresh components satisfying `MountedFor`: the wheel checked for the user, counting down from the computed seconds exactly while cooling down (0 otherwise), with no spin, result or error; the ad modal closed with no ad, no time left, no timer, claim or error; the withdrawal form closed, idle, without error, the wallet field holding the saved wallet and no amount |
| `Session.Home.SetUser` | App.tsx:109 | the held user is replaced and the page is mounted afresh: fresh components satisfying `MountedFor` the new user, both modals closed and no ad selected, so any spin, claim or request in progress, the result dialog, errors, countdowns and the typed wallet and amount are all reset |
| `Session.Home.WatchAd` | Home.tsx:33-36 | choosing an ad opens the modal on it; a new choice restarts its countdown and clears its error, re-choosing the open ad keeps countdown, timer and error; a claim in flight (loading, pending) survives; only the selected ad, the modal flag and the ad modal may change, so the user, the wheel and the withdrawal form stay as they were |
| `Session.Home.CloseAdModal` | WatchAdModal.tsx:61-66 | closing the ad modal stops its timer and keeps its time left, its error and any claim in flight; only the modal flag and the ad modal may change, so the user, the selected ad, the wheel and the withdrawal form stay as they were |
| `Session.Home.Claim` | WatchAdModal.tsx:70-75 | a claim starts exactly when the modal is open on an ad, the countdown is at zero and no claim is loading, and then loads with the error cleared and the held user and ad captured; otherwise loading, error and the pending claim are all kept, and the page and the countdown never change |
| `Session.Home.ClaimResolved` | WatchAdModal.tsx:116-117 | a confirmed view replaces the user with the credited one and remounts the page: fresh components satisfying `MountedFor` it, both modals closed; a failure leaves the page itself (user, components, selected ad, modal flags) untouched, sets the ad modal's error to `ClaimErrorText` of the answer, ends the claim and keeps the modal's open state, ad, countdown and timer |
| `Session.Home.DoubleClaim` | WatchAdModal.tsx:187 | two presses before the backend answers credit the reward at most once; after a credited claim the ad modal is closed, so no further press can claim; otherwise the page itself is untouched |
| `Session.Home.ClaimAcrossReopen` | WatchAdModal.tsx:187 | a claim started, then the modal closed and reopened on an ad, then a second press before the answer: the second press starts nothing and the first claim is still the pending one |
| `Session.Home.Spin` | SpinWheel.tsx:63 | a spin starts exactly when allowed and none is in progress, and then spins with the held user captured and the error cleared; otherwise spinning, the captured user and the error are kept; either way the page, the wheel's lock, countdown, timer and result dialog stay as they were |
| `Session.Home.SpinResolved` | SpinWheel.tsx:85-97 | a granted spin replaces the user with the credited one and remounts the page (fresh components satisfying `MountedFor` it), whose wheel is locked, shows no result dialog, and runs the one-hour countdown exactly when spins remain; a failure leaves the page itself untouched, sets the wheel's error to `SpinErrorText` of the answer, ends the spin and keeps its lock, countdown, timer, result dialog and last result |
| `Session.Home.OpenWithdrawModal` | WithdrawModal.tsx:34-38 | opening the withdrawal modal clears its error when it was closed and keeps it otherwise; the typed wallet and amount and any request in flight are kept; only the modal flag and the form's open state and error may change |
| `Session.Home.CloseWithdrawModal` | Home.tsx:119 | closing keeps the user, the form's error, the typed wallet and amount and any request in flight; only the modal flag and the form's open state may change |
| `Session.Home.RequestWithdrawal` | WithdrawModal.tsx:46-62 | a press on a closed or loading form does nothing; on the open idle form, a failed check sends nothing and shows `ErrorMessage` of the first failing check, and a passing one sends exactly `RequestOf` the held user, the checked amount and the typed wallet, and starts loading; a sent request is at least 10 USDT and at most the display value of the held user's coins; the page never changes |
| `Session.Home.WithdrawResolved` | WithdrawModal.tsx:84-91 | a created request replaces the user with the deducted one and remounts the page (fresh components satisfying `MountedFor` it, both modals closed); a throw leaves the page itself untouched, shows the thrown message or "Failed to process withdrawal", ends the request and keeps the form's open state and the typed wallet and amount |

## Left out

- Rendering, styling, toasts, the result dialog's visuals, the progress-bar percentages and the wheel's
  random rotation (cosmetic; the reward never depends on it).
- Timers as real time: `setInterval`, `setTimeout` and the 3000 ms animation delay. The model has
  explicit `Tick` steps, and a granted spin is applied when `Resolve` is called.
- The network, react-query, authentication and the mock-user fallback. Backend answers are parameters.
  The body of the withdrawal response is not inspected, as in the code.
- The ad-network scripts (`showRewardedInterstitial`, `showRewardedPopup`, the direct-link ad) and
  `window.open` of the ad URL. Their outcomes appear only as ignored parameters. An interstitial that
  never settles would stall the claim; the model does not capture that.
- `setupTelegramMainButton`, `getTelegramUser`, `shareReferralViaApp` and `copyToClipboard`, which
  are calls into the host bridge and the clipboard.
- `REFERRAL_EARNINGS_PERCENTAGE` (a float), referral crediting and withdrawal approval or rejection.
  None of these happen in the client. `REFERRAL_BONUS` (50) is declared but no modelled flow uses it.
- Schema.WithdrawalStatus: the `status` column is free `text` defaulting to "pending"
  (schema.ts:30). The model's three-value enumeration abstracts it to the values its comment
  names (pending, approved, rejected); other strings the database would accept are not modelled.
- Floating point. The model's amounts are exact, and the withdrawal amount is taken already
  parsed, in ten-thousandths. The source's deduction `amountValue * 50000` (WithdrawModal.tsx:77)
  is a product of IEEE-754 doubles, which is inexact even at the input's 0.01 step: 10.03 gives
  501499.99999999994 coins and 10.05 gives 502500.00000000006. Typed amounts with more than four
  decimals, `parseFloat`'s acceptance of trailing garbage, and `toFixed`'s exponent form at or
  above 10^21 are not modelled either.
- WithdrawModal.DeductionOvershootBounded: the -2 bound holds in exact arithmetic only. With the
  source's double product, 502,498 coins display as "10.0500", and withdrawing 10.05 passes the
  checks and leaves -2.0000000000582077 coins.
- Invalid `Date` values (NaN times) in the cooldown check and in `formatTimeRemaining`.
- `formatTimeRemaining` and `createShareUrl` are not called by the modelled flows (`formatTimeRemaining`
  is imported by the wheel but unused).
- React compares the `ad` prop by object identity. `WatchAdModal.WatchAdModal.SetProps` compares
  records by value, so a new object with equal fields does not restart the countdown in the model.
- A successful spin whose `data.result` is missing throws inside the animation timeout, outside the
  `try`, and leaves `spinning` set. The model assumes a granted spin carries its reward.
- Updates that race with each other: each handler hands back an update of the user it captured at the
  click. If two flows overlap, the later update overwrites the earlier one. The model keeps that
  capture but states no property about interleavings.
- Session.Home.SetUser: a request still in flight when the page remounts completes in the source
  through its old closure, and then calls `setUser` with an update of the user it captured. The
  model drops that request along with the unmounted component, so its late update is not modelled.
