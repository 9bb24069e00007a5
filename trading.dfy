/**
 * The money side of `pokecord/trading.py`: the bank calls `trade` makes
 * once the counterparty accepts. The bank itself belongs to the bot
 * framework; its balances are a map with a ceiling, and
 * `can_spend`/`withdraw_credits`/`deposit_credits` behave as the
 * framework documents them.
 */
module Trading {
  import opened Records

  /** A user's balance; an account never touched holds 0. */
  function Bal(b: map<UserId, int>, u: UserId): int
  {
    if u in b then b[u] else 0
  }

  /** `bank.can_spend`: a non-negative amount the balance covers. */
  predicate CanSpend(b: map<UserId, int>, u: UserId, amount: int)
  {
    amount >= 0 && Bal(b, u) >= amount
  }

  /**
   * The payment after an accepted trade: `withdraw_credits` from the
   * counterparty, then `deposit_credits` to the seller, or, when that
   * raises `BalanceTooHigh`, the seller's balance set to the ceiling.
   */
  function Settle(b: map<UserId, int>, payer: UserId, payee: UserId, amount: int, maxBalance: int): (r: map<UserId, int>)
    requires CanSpend(b, payer, amount)
    ensures payer != payee ==> Bal(r, payer) == Bal(b, payer) - amount
    ensures payer != payee ==> Bal(r, payee) == (if Bal(b, payee) + amount > maxBalance then maxBalance else Bal(b, payee) + amount)
    ensures payer == payee ==> Bal(r, payee) == (if Bal(b, payee) > maxBalance then maxBalance else Bal(b, payee))
    ensures forall v :: v != payer && v != payee ==> Bal(r, v) == Bal(b, v)
    ensures r.Keys == b.Keys + {payer, payee}
  {
    var b1 := b[payer := Bal(b, payer) - amount];
    var credited := Bal(b1, payee) + amount;
    if credited > maxBalance then b1[payee := maxBalance] else b1[payee := credited]
  }

  /**
   * Below the ceiling the price moves from one account to the other and
   * no money is made or lost.
   */
  lemma SettleConserves(b: map<UserId, int>, payer: UserId, payee: UserId, amount: int, maxBalance: int)
    requires CanSpend(b, payer, amount) && payer != payee
    requires Bal(b, payee) + amount <= maxBalance
    ensures var r := Settle(b, payer, payee, amount, maxBalance);
      Bal(r, payer) + Bal(r, payee) == Bal(b, payer) + Bal(b, payee)
  {
  }

  /**
   * `trade` as written: in the `BalanceTooHigh` handler the message
   * format names `balanace` where the text says `{balance}`, so `format`
   * raises `KeyError` before `set_balance`: the seller is paid nothing.
   */
  function SettleAsWritten(b: map<UserId, int>, payer: UserId, payee: UserId, amount: int, maxBalance: int): (r: map<UserId, int>)
    requires CanSpend(b, payer, amount)
    ensures payer != payee ==> Bal(r, payer) == Bal(b, payer) - amount
  {
    var b1 := b[payer := Bal(b, payer) - amount];
    var credited := Bal(b1, payee) + amount;
    if credited > maxBalance then b1 else b1[payee := credited]
  }

  /**
   * The input that shows it: a seller below the ceiling whom the price
   * would lift past it (ceiling 100, seller 99, price 10). As written the
   * buyer pays and the seller's balance does not move, so the price is
   * lost; the intended rule lifts the seller to the ceiling.
   */
  lemma CeilingLosesPaymentAsWritten(b: map<UserId, int>, payer: UserId, payee: UserId, amount: int, maxBalance: int)
    requires CanSpend(b, payer, amount) && payer != payee
    requires Bal(b, payee) < maxBalance < Bal(b, payee) + amount
    ensures Bal(SettleAsWritten(b, payer, payee, amount, maxBalance), payee) == Bal(b, payee)
    ensures Bal(Settle(b, payer, payee, amount, maxBalance), payee) == maxBalance
    ensures Bal(SettleAsWritten(b, payer, payee, amount, maxBalance), payee)
          < Bal(Settle(b, payer, payee, amount, maxBalance), payee)
    ensures var r := SettleAsWritten(b, payer, payee, amount, maxBalance);
      Bal(r, payer) + Bal(r, payee) == Bal(b, payer) + Bal(b, payee) - amount
  {
  }
}
