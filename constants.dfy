/** The numbers the reward flows are built around (constants.ts). */
module Constants {

  /** 50,000 coins are worth 1 USDT. */
  const COIN_TO_USDT_RATE: int := 50000

  /** Smallest withdrawal, in USDT. */
  const MIN_WITHDRAWAL_USDT: int := 10

  /** The reward table. The wheel's eight printed segments show these values, with 6 twice. */
  const SPIN_REWARDS: seq<int> := [2, 4, 6, 8, 10, 15, 20]

  /** Spins a user gets per day. */
  const DAILY_SPIN_LIMIT: int := 100

  /** Time between two spins, in seconds (one hour). */
  const SPIN_COOLDOWN_SECONDS: int := 3600

  /** Coins promised to a referrer when a referred friend joins. */
  const REFERRAL_BONUS: int := 50

  predicate StrictlyIncreasing(s: seq<int>)
  {
    forall i, j :: 0 <= i < j < |s| ==> s[i] < s[j]
  }

  /** The reward table is sorted strictly upwards and every reward is positive. */
  lemma SpinRewardsShape()
    ensures StrictlyIncreasing(SPIN_REWARDS)
    ensures forall i :: 0 <= i < |SPIN_REWARDS| ==> SPIN_REWARDS[i] > 0
  {
  }
}
