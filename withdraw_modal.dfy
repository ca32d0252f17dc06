/** The withdrawal flow of WithdrawModal.tsx: three checks in a fixed order, then a
    request to the backend and an optimistic deduction from the displayed balance.
    Amounts are exact: the typed amount is taken as already read by `parseFloat`, in
    ten-thousandths of a USDT (`None` when it is not a number). */
module WithdrawModal {
  import opened Wrappers
  import opened Text
  import opened Schema
  import Telegram

  /** The minimum written out in the form, in USDT. */
  const MIN_WITHDRAWAL: int := 10

  /** The rate written out in the deduction: 50,000 coins per USDT. */
  const COINS_PER_USDT: int := 50000

  datatype WithdrawError = InvalidWallet | BelowMinimum | InsufficientBalance

  function ErrorMessage(e: WithdrawError): string
  {
    match e
    case InvalidWallet => "Please enter a valid USDT wallet address"
    case BelowMinimum => "Minimum withdrawal is " + IntToString(MIN_WITHDRAWAL) + " USDT"
    case InsufficientBalance => "Insufficient balance"
  }

  /** The three messages differ, so the text tells which check failed; the minimum is
      printed as "10". */
  lemma ErrorMessagesDistinct(e1: WithdrawError, e2: WithdrawError)
    ensures ErrorMessage(e1) == ErrorMessage(e2) <==> e1 == e2
    ensures ErrorMessage(BelowMinimum) == "Minimum withdrawal is 10 USDT"
  {
    assert IntToString(MIN_WITHDRAWAL) == "10" by {
      assert NatToString(1) == "1";
      assert NatToString(0) == "0";
    }
    assert ErrorMessage(InvalidWallet)[0] == 'P';
    assert ErrorMessage(BelowMinimum)[0] == 'M';
    assert ErrorMessage(InsufficientBalance)[0] == 'I';
  }

  /** `availableUsdt`: the balance as `coinsToUsdt` prints it, read back as a number. */
  function AvailableUsdt(coins: int): (a: Fixed4)
    ensures a == Telegram.CoinsToUsdtUnits(coins)
  {
    Telegram.CoinsToUsdtReadsBack(coins);
    Telegram.ParseFixed4(Telegram.CoinsToUsdt(coins)).GetOr(0)
  }

  /** The checks of `handleWithdraw`, in order; the first that fails is the one reported.
      On success the amount to withdraw is returned. Both bounds are inclusive. The wallet
      check `!walletAddress.trim()` is written as `IsBlank`, which `TrimEmptyIffBlank`
      shows to be the same test. */
  function Validate(wallet: string, amount: Option<Fixed4>, available: Fixed4): (r: Result<Fixed4, WithdrawError>)
    ensures r == Failure(InvalidWallet) <==> IsBlank(wallet)
    ensures r == Failure(BelowMinimum) <==>
              !IsBlank(wallet) && (amount.None? || amount.value < MIN_WITHDRAWAL * FIXED4_SCALE)
    ensures r == Failure(InsufficientBalance) <==>
              !IsBlank(wallet) && amount.Some? && MIN_WITHDRAWAL * FIXED4_SCALE <= amount.value &&
              amount.value > available
    ensures r.Success? <==>
              !IsBlank(wallet) && amount.Some? &&
              MIN_WITHDRAWAL * FIXED4_SCALE <= amount.value <= available
    ensures r.Success? ==> r.value == amount.value
  {
    if IsBlank(wallet) then Failure(InvalidWallet)
    else if amount.None? || amount.value < MIN_WITHDRAWAL * FIXED4_SCALE then Failure(BelowMinimum)
    else if amount.value > available then Failure(InsufficientBalance)
    else Success(amount.value)
  }

  /** `amountValue * 50000` for an amount in ten-thousandths: exactly the coins worth it. */
  function CoinsToDeduct(amount: Fixed4): (c: int)
    ensures c * FIXED4_SCALE == amount * COINS_PER_USDT
  {
    amount * (COINS_PER_USDT / FIXED4_SCALE)
  }

  /** The user after a submitted request: the coins worth the amount taken off, the wallet
      recorded exactly as typed (untrimmed); nothing else changed. */
  function Deducted(user: User, amount: Fixed4, wallet: string): (u: User)
    ensures u.coins == user.coins - CoinsToDeduct(amount)
    ensures u.usdtWallet == Some(wallet)
    ensures u.(coins := user.coins, usdtWallet := user.usdtWallet) == user
  {
    user.(coins := user.coins - CoinsToDeduct(amount), usdtWallet := Some(wallet))
  }

  /** Because the available balance is the rounded display value, a request that passes
      the checks can take up to two coins more than the user has: the balance after the
      deduction is at least -2, and the user had at least 499,998 coins. */
  lemma DeductionOvershootBounded(user: User, wallet: string, amount: Option<Fixed4>)
    requires Validate(wallet, amount, AvailableUsdt(user.coins)).Success?
    ensures user.coins >= MIN_WITHDRAWAL * COINS_PER_USDT - 2
    ensures Deducted(user, amount.value, wallet).coins >= -2
  {
    var u := Telegram.CoinsToUsdtUnits(user.coins);
    assert amount.value <= u;
    assert CoinsToDeduct(amount.value) == 5 * amount.value;
  }

  /** The bound is reached: 500,003 coins display as 10.0001 USDT, and withdrawing that
      leaves -2 coins. */
  lemma OvershootReached(user: User, wallet: string)
    requires user.coins == 500003 && !IsBlank(wallet)
    ensures AvailableUsdt(user.coins) == 100001
    ensures Validate(wallet, Some(100001), AvailableUsdt(user.coins)) == Success(100001)
    ensures Deducted(user, 100001, wallet).coins == -2
  {
  }

  /** Worked examples: 9.99 USDT is below the minimum; 10 USDT against 5
      available is refused; 10 USDT against 10 available passes and costs 500,000 coins. */
  lemma ValidationExamples(wallet: string)
    requires !IsBlank(wallet)
    ensures Validate(wallet, Some(99900), 100000) == Failure(BelowMinimum)
    ensures Validate(wallet, Some(100000), 50000) == Failure(InsufficientBalance)
    ensures Validate(wallet, Some(100000), 100000) == Success(100000)
    ensures CoinsToDeduct(100000) == 500000
  {
  }

  /** The backend's answer to `POST /api/withdrawals`: its body is not inspected. */
  datatype WithdrawResponse = Created | Threw(message: Option<string>)

  /** A `handleWithdraw` waiting for the backend: the user, amount and wallet it captured. */
  datatype Submission = Submission(user: User, amount: Fixed4, wallet: string)

  /** The request body `handleWithdraw` sends: no status, so the row is created pending. */
  function RequestOf(s: Submission): (ins: InsertWithdrawal)
    ensures ins.userId == s.user.id && ins.amount == s.amount && ins.usdtWallet == s.wallet
    ensures ins.status.None?
  {
    InsertWithdrawal(s.user.id, s.amount, s.wallet, None)
  }

  /** Every withdrawal the form requests is stored pending and unprocessed, for the amount
      and wallet the user typed. */
  lemma RequestStoredPending(s: Submission, id: int, now: Timestamp)
    ensures var w := CreateWithdrawal(RequestOf(s), id, now);
            w.status == Pending && w.processedAt.None? && w.amount == s.amount && w.usdtWallet == s.wallet
  {
  }

  /** The component's state, with its `isOpen` prop; `amount` is the typed amount as read
      by `parseFloat`. */
  class WithdrawModal {
    var isOpen: bool
    var wallet: string
    var amount: Option<Fixed4>
    var loading: bool
    var error: Option<string>
    var pending: Option<Submission>

    ghost predicate Valid()
      reads this
    {
      loading <==> pending.Some?
    }

    /** Mounted for `user`: the wallet field starts with the saved wallet, or empty. */
    constructor (user: User)
      ensures Valid()
      ensures wallet == user.usdtWallet.GetOr("") && amount.None?
      ensures !isOpen && !loading && error.None? && pending.None?
    {
      isOpen, wallet, amount, loading, error, pending := false, user.usdtWallet.GetOr(""), None, false, None, None;
    }

    /** A new `isOpen` prop; opening clears the error. */
    method SetOpen(open: bool)
      requires Valid()
      modifies this`isOpen, this`error
      ensures Valid() && isOpen == open
      ensures error == if open && !old(isOpen) then None else old(error)
    {
      if open != isOpen && open {
        error := None;
      }
      isOpen := open;
    }

    method EditWallet(text: string)
      requires Valid()
      modifies this`wallet
      ensures Valid() && wallet == text
    {
      wallet := text;
    }

    method EditAmount(parsed: Option<Fixed4>)
      requires Valid()
      modifies this`amount
      ensures Valid() && amount == parsed
    {
      amount := parsed;
    }

    /** A press of the request button, which is on screen only while the dialog is open
        and disabled while loading: it runs `handleWithdraw` for the current `user`, and
        does nothing otherwise. */
    method Click(user: User) returns (request: Option<InsertWithdrawal>)
      requires Valid()
      modifies this`loading, this`error, this`pending
      ensures Valid()
      ensures !old(isOpen) || old(loading) ==>
                request.None? && loading == old(loading) && error == old(error) && pending == old(pending)
      ensures old(isOpen) && !old(loading) ==>
                var check := Validate(wallet, amount, AvailableUsdt(user.coins));
                if check.Failure? then
                  request.None? && !loading && error == Some(ErrorMessage(check.error))
                else
                  var s := Submission(user, check.value, wallet);
                  request == Some(RequestOf(s)) && loading && pending == Some(s) && error.None?
    {
      if !isOpen || loading {
        return None;
      }
      request := HandleWithdraw(user);
    }

    /** `handleWithdraw`: the error is cleared, a failed check sets its message and sends
        nothing, and a passing one starts loading and returns the request to send. */
    method HandleWithdraw(user: User) returns (request: Option<InsertWithdrawal>)
      requires Valid()
      modifies this`loading, this`error, this`pending
      ensures Valid()
      ensures var check := Validate(wallet, amount, AvailableUsdt(user.coins));
              if check.Failure? then
                request.None? && loading == old(loading) && pending == old(pending) &&
                error == Some(ErrorMessage(check.error))
              else
                var s := Submission(user, check.value, wallet);
                request == Some(RequestOf(s)) && loading && pending == Some(s) && error.None?
    {
      error := None;
      var check := Validate(wallet, amount, AvailableUsdt(user.coins));
      if check.Failure? {
        error := Some(ErrorMessage(check.error));
        request := None;
      } else {
        var s := Submission(user, check.value, wallet);
        loading, pending := true, Some(s);
        request := Some(RequestOf(s));
      }
    }

    /** The end of a request in progress: once created, the deducted user is handed back
        (the caller then closes the modal); if the request threw, its message is shown and
        nothing is handed back. Loading ends either way. */
    method Resolve(response: WithdrawResponse) returns (updated: Option<User>)
      requires Valid() && loading
      modifies this`loading, this`error, this`pending
      ensures Valid() && !loading
      ensures var s := old(pending).value;
              response.Created? ==> updated == Some(Deducted(s.user, s.amount, s.wallet)) && error == old(error)
      ensures response.Threw? ==>
                updated.None? && error == Some(response.message.GetOr("Failed to process withdrawal"))
    {
      var s := pending.value;
      if response.Created? {
        updated := Some(Deducted(s.user, s.amount, s.wallet));
      } else {
        error := Some(response.message.GetOr("Failed to process withdrawal"));
        updated := None;
      }
      loading, pending := false, None;
    }
  }
}
