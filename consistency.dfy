/** The flows repeat several numbers of constants.ts as literals; they agree. */
module HardCodedCopies {
  import Constants
  import Schema
  import Telegram
  import SpinWheel
  import WithdrawModal

  /** The referral bonus the referrals page promises in its text ("you get 50 coins"). */
  const REFERRAL_PAGE_BONUS: int := 50

  lemma Agree()
    ensures Telegram.CONVERSION_RATE == Constants.COIN_TO_USDT_RATE
    ensures WithdrawModal.COINS_PER_USDT == Constants.COIN_TO_USDT_RATE
    ensures WithdrawModal.MIN_WITHDRAWAL == Constants.MIN_WITHDRAWAL_USDT
    ensures SpinWheel.COOLDOWN_MS == Constants.SPIN_COOLDOWN_SECONDS * 1000
    ensures Schema.DEFAULT_SPINS_LEFT == Constants.DAILY_SPIN_LIMIT
    ensures REFERRAL_PAGE_BONUS == Constants.REFERRAL_BONUS
  {
  }
}
