/** The records the reward flows read and update, with the column defaults the database
    fills in (schema.ts). Timestamps are milliseconds since the Unix epoch. */
module Schema {
  import opened Wrappers

  type Timestamp = int

  /** A `decimal(10, 4)` column, counted in ten-thousandths: 12.5 USDT is 125000. */
  type Fixed4 = int

  /** Ten-thousandths in one unit of a `Fixed4` value (scale 4). */
  const FIXED4_SCALE: int := 10000

  datatype User = User(
    id: int,
    telegramId: string,
    username: Option<string>,
    firstName: string,
    lastName: Option<string>,
    coins: int,
    usdtWallet: Option<string>,
    referralCode: string,
    referrerId: Option<int>,
    lastSpin: Option<Timestamp>,
    spinsLeft: int,
    referralEarnings: int,
    totalEarned: Fixed4,
    banned: bool,
    createdAt: Timestamp)

  /** The documented values of the withdrawal `status` column. */
  datatype WithdrawalStatus = Pending | Approved | Rejected

  datatype Withdrawal = Withdrawal(
    id: int,
    userId: int,
    amount: Fixed4,
    usdtWallet: string,
    status: WithdrawalStatus,
    createdAt: Timestamp,
    processedAt: Option<Timestamp>)

  datatype Ad = Ad(
    id: int,
    title: string,
    description: Option<string>,
    url: string,
    watchTime: int,  // seconds
    reward: int,     // coins
    active: bool,
    createdAt: Timestamp)

  datatype AdView = AdView(id: int, userId: int, adId: int, createdAt: Timestamp)

  /** The documented values of the transaction `type` column. */
  datatype TransactionType = SpinReward | AdReward | ReferralReward | WithdrawalDebit

  /** A ledger entry; `amount` is negative for withdrawals. */
  datatype Transaction = Transaction(
    id: int,
    userId: int,
    amount: int,
    kind: TransactionType,
    sourceId: Option<int>,
    createdAt: Timestamp)

  datatype SpinResult = SpinResult(id: int, userId: int, reward: int, createdAt: Timestamp)

  /** Column defaults of the `users` table. */
  const DEFAULT_COINS: int := 0
  const DEFAULT_SPINS_LEFT: int := 100
  const DEFAULT_REFERRAL_EARNINGS: int := 0
  const DEFAULT_TOTAL_EARNED: Fixed4 := 0
  const DEFAULT_BANNED: bool := false

  /** The insert shape of a user: `id`, `createdAt` and `totalEarned` cannot be supplied;
      columns with a default may be left out (`None`). */
  datatype InsertUser = InsertUser(
    telegramId: string,
    username: Option<string>,
    firstName: string,
    lastName: Option<string>,
    coins: Option<int>,
    usdtWallet: Option<string>,
    referralCode: string,
    referrerId: Option<int>,
    lastSpin: Option<Timestamp>,
    spinsLeft: Option<int>,
    referralEarnings: Option<int>,
    banned: Option<bool>)

  /** The row the database stores for an inserted user: `id` comes from the serial column,
      `createdAt` from `defaultNow()`, and every omitted column takes its default. */
  function CreateUser(ins: InsertUser, id: int, now: Timestamp): (u: User)
    ensures u.id == id && u.createdAt == now
    ensures u.totalEarned == DEFAULT_TOTAL_EARNED
    ensures u.coins == (if ins.coins.Some? then ins.coins.value else DEFAULT_COINS)
    ensures u.spinsLeft == (if ins.spinsLeft.Some? then ins.spinsLeft.value else DEFAULT_SPINS_LEFT)
    ensures u.referralEarnings == (if ins.referralEarnings.Some? then ins.referralEarnings.value else DEFAULT_REFERRAL_EARNINGS)
    ensures u.banned == (if ins.banned.Some? then ins.banned.value else DEFAULT_BANNED)
    ensures u.telegramId == ins.telegramId && u.firstName == ins.firstName && u.referralCode == ins.referralCode
    ensures u.username == ins.username && u.lastName == ins.lastName && u.usdtWallet == ins.usdtWallet
    ensures u.referrerId == ins.referrerId && u.lastSpin == ins.lastSpin
  {
    User(id, ins.telegramId, ins.username, ins.firstName, ins.lastName,
         ins.coins.GetOr(DEFAULT_COINS), ins.usdtWallet, ins.referralCode, ins.referrerId,
         ins.lastSpin, ins.spinsLeft.GetOr(DEFAULT_SPINS_LEFT),
         ins.referralEarnings.GetOr(DEFAULT_REFERRAL_EARNINGS), DEFAULT_TOTAL_EARNED,
         ins.banned.GetOr(DEFAULT_BANNED), now)
  }

  /** A user inserted with only the required columns starts with no coins, a full day of
      spins, no referral earnings, nothing earned and not banned. */
  lemma NewUserDefaults(telegramId: string, firstName: string, referralCode: string, id: int, now: Timestamp)
    ensures var u := CreateUser(InsertUser(telegramId, None, firstName, None, None, None,
                                           referralCode, None, None, None, None, None), id, now);
            u.coins == 0 && u.spinsLeft == 100 && u.referralEarnings == 0 && u.totalEarned == 0 &&
            !u.banned && u.lastSpin.None? && u.usdtWallet.None?
  {
  }

  /** The insert shape of a withdrawal: `id`, `createdAt` and `processedAt` cannot be
      supplied; `status` may be left out. */
  datatype InsertWithdrawal = InsertWithdrawal(
    userId: int,
    amount: Fixed4,
    usdtWallet: string,
    status: Option<WithdrawalStatus>)

  /** The row stored for an inserted withdrawal: unprocessed, and pending unless a status
      was given. */
  function CreateWithdrawal(ins: InsertWithdrawal, id: int, now: Timestamp): (w: Withdrawal)
    ensures w.id == id && w.createdAt == now && w.processedAt.None?
    ensures w.userId == ins.userId && w.amount == ins.amount && w.usdtWallet == ins.usdtWallet
    ensures w.status == (if ins.status.Some? then ins.status.value else Pending)
  {
    Withdrawal(id, ins.userId, ins.amount, ins.usdtWallet, ins.status.GetOr(Pending), now, None)
  }

  /** Column defaults of the `ads` table. */
  const DEFAULT_AD_ACTIVE: bool := true

  /** The insert shape of an ad: `id` and `createdAt` cannot be supplied. */
  datatype InsertAd = InsertAd(
    title: string,
    description: Option<string>,
    url: string,
    watchTime: int,
    reward: int,
    active: Option<bool>)

  function CreateAd(ins: InsertAd, id: int, now: Timestamp): (a: Ad)
    ensures a.id == id && a.createdAt == now
    ensures a.watchTime == ins.watchTime && a.reward == ins.reward
    ensures a.active == (if ins.active.Some? then ins.active.value else DEFAULT_AD_ACTIVE)
    ensures a.title == ins.title && a.description == ins.description && a.url == ins.url
  {
    Ad(id, ins.title, ins.description, ins.url, ins.watchTime, ins.reward,
       ins.active.GetOr(DEFAULT_AD_ACTIVE), now)
  }
}
