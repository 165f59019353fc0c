/**
 * `execute_order` with the arithmetic of a build whose overflow checks are
 * off: `amount * price`, the buyer's credit and the seller's debit all wrap
 * modulo 2^64 instead of failing. Two consequences are exhibited on concrete
 * states and contrasted with the checked model in module Dex.
 */
module DexAsWritten {
  import opened Wrappers
  import opened UInt64
  import opened Ledger
  import opened Dex

  /**
   * The same guards and writes as `ExecuteOrder`, with wrapping arithmetic:
   * it never fails on arithmetic, writes no order and touches only the
   * buyer's and the seller's entry of the order's token.
   */
  function ExecuteOrderWrapping(s: State, orderId: uint64, counterparty: AccountId, amount: uint64): (r: Result<State, Error>)
    ensures r.Failure? ==> r.error in {OrderDoesNotExist, OrderAlreadyFilled, InsufficientBuyBalance, InsufficientSellBalance}
    ensures orderId !in s.orders ==> r == Failure(OrderDoesNotExist)
    ensures orderId in s.orders && s.orders[orderId].isFilled ==> r == Failure(OrderAlreadyFilled)
    ensures r == Failure(InsufficientBuyBalance) <==>
      && orderId in s.orders
      && !s.orders[orderId].isFilled
      && s.orders[orderId].side == Buy
      && BalanceOf(s.balances, s.orders[orderId].user, s.orders[orderId].token) < WrappingMul(amount, s.orders[orderId].price)
    ensures r == Failure(InsufficientSellBalance) <==>
      && orderId in s.orders
      && !s.orders[orderId].isFilled
      && s.orders[orderId].side == Sell
      && BalanceOf(s.balances, s.orders[orderId].user, s.orders[orderId].token) < amount
    ensures r.Success? <==>
      && orderId in s.orders
      && !s.orders[orderId].isFilled
      && BalanceOf(s.balances, s.orders[orderId].user, s.orders[orderId].token)
         >= (if s.orders[orderId].side == Buy then WrappingMul(amount, s.orders[orderId].price) else amount)
    ensures r.Success? ==>
      && orderId in s.orders
      && r.value.orders == s.orders
      && r.value.orderCount == s.orderCount
      && r.value.balances == SettleWrapping(s.balances, Buyer(s.orders[orderId], counterparty),
                                            Seller(s.orders[orderId], counterparty), s.orders[orderId].token, amount)
  {
    if orderId !in s.orders then Failure(OrderDoesNotExist)
    else
      var order := s.orders[orderId];
      if order.isFilled then Failure(OrderAlreadyFilled)
      else
        var held := BalanceOf(s.balances, order.user, order.token);
        match order.side
        case Buy =>
          var totalCost := WrappingMul(amount, order.price);
          if held < totalCost then Failure(InsufficientBuyBalance)
          else Success(s.(balances := SettleWrapping(s.balances, order.user, counterparty, order.token, amount)))
        case Sell =>
          if held < amount then Failure(InsufficientSellBalance)
          else Success(s.(balances := SettleWrapping(s.balances, counterparty, order.user, order.token, amount)))
  }

  /** Both balances read first, then buyer + amount and seller - amount stored, each wrapping. */
  function SettleWrapping(b: Balances, buyer: AccountId, seller: AccountId, token: TokenHash, amount: uint64): (r: Balances)
    ensures TouchesOnly(b, r, buyer, seller, token)
    ensures buyer != seller ==> BalanceOf(r, buyer, token) == WrappingAdd(BalanceOf(b, buyer, token), amount)
    ensures BalanceOf(r, seller, token) == WrappingSub(BalanceOf(b, seller, token), amount)
  {
    var buyerBalance := BalanceOf(b, buyer, token);
    var sellerBalance := BalanceOf(b, seller, token);
    SetBalance(SetBalance(b, buyer, token, WrappingAdd(buyerBalance, amount)), seller, token, WrappingSub(sellerBalance, amount))
  }

  /** Wherever the checked model succeeds, nothing wraps and the two models agree. */
  lemma WrappingAgreesWhenChecked(s: State, orderId: uint64, counterparty: AccountId, amount: uint64)
    requires ExecuteOrder(s, orderId, counterparty, amount).Success?
    ensures ExecuteOrderWrapping(s, orderId, counterparty, amount) == ExecuteOrder(s, orderId, counterparty, amount)
  {
  }

  const Owner: AccountId := 1
  const Taker: AccountId := 2
  const Coin: TokenHash := 7

  /**
   * A buy order at price 2^32, executed for 2^32 units by an owner holding
   * nothing: the true cost 2^64 wraps to 0, the balance check passes and the
   * owner receives 2^32 tokens. The checked model rejects the same call.
   */
  lemma WrappedCostSkipsBuyCheck()
    ensures var order := Order(0, Owner, Coin, 1, 0x1_0000_0000, Buy, false);
      var s := State(map[0 := order], 1, map[(Taker, Coin) := 0x1_0000_0000]);
      && BalanceOf(s.balances, Owner, Coin) < 0x1_0000_0000 * 0x1_0000_0000
      && ExecuteOrderWrapping(s, 0, Taker, 0x1_0000_0000).Success?
      && BalanceOf(ExecuteOrderWrapping(s, 0, Taker, 0x1_0000_0000).value.balances, Owner, Coin) == 0x1_0000_0000
      && ExecuteOrder(s, 0, Taker, 0x1_0000_0000) == Failure(ArithmeticOverflow)
  {
    assert WrappingMul(0x1_0000_0000, 0x1_0000_0000) == 0;
  }

  /**
   * A buy order at price 1 whose owner holds 1, executed for 1 unit against a
   * taker holding nothing: the buy branch never checks the taker, whose
   * debit wraps to 2^64 - 1, so the two balances together grow by 2^64.
   * The checked model rejects the same call.
   */
  lemma WrappedDebitMintsTokens()
    ensures var order := Order(0, Owner, Coin, 1, 1, Buy, false);
      var s := State(map[0 := order], 1, map[(Owner, Coin) := 1]);
      var after := ExecuteOrderWrapping(s, 0, Taker, 1);
      && after.Success?
      && BalanceOf(after.value.balances, Taker, Coin) == MAX
      && BalanceOf(after.value.balances, Owner, Coin) + BalanceOf(after.value.balances, Taker, Coin)
         == BalanceOf(s.balances, Owner, Coin) + BalanceOf(s.balances, Taker, Coin) + MODULUS
      && ExecuteOrder(s, 0, Taker, 1) == Failure(ArithmeticUnderflow)
  {
  }
}
