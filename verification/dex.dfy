/**
 * The order book: orders stored by id, the counter that mints ids, and the
 * token ledger, with the two dispatchable calls `create_order` and
 * `execute_order` as pure transitions. A call that fails returns only its
 * error; the host then keeps the state as it was.
 *
 * Arithmetic is checked: an operation on `u64` that would leave its range
 * fails the call with `ArithmeticOverflow` or `ArithmeticUnderflow`, as a
 * build with overflow checks panics. In the source some writes precede the
 * panicking operation (the order insert before `id + 1`, the buyer's credit
 * before the seller's debit); the model returns no state for a failed call
 * because the host discards every write of a call that panics. The same
 * calls with wrapping arithmetic are in module DexAsWritten.
 */
module Dex {
  import opened Wrappers
  import opened UInt64
  import opened Ledger

  /** The `is_buy` flag of an order. */
  datatype Side = Buy | Sell

  /** A stored order. `isFilled` starts false and no call ever sets it. */
  datatype Order = Order(
    id: uint64,
    user: AccountId,
    token: TokenHash,
    amount: uint64,
    price: uint64,
    side: Side,
    isFilled: bool)

  /** The module's storage: `Orders`, `OrderCount` and `TokenBalances`. */
  datatype State = State(orders: map<uint64, Order>, orderCount: uint64, balances: Balances)

  datatype Error =
    | OrderDoesNotExist
    | OrderAlreadyFilled
    | InsufficientBuyBalance
    | InsufficientSellBalance
    | ArithmeticOverflow
    | ArithmeticUnderflow

  /** Storage before any call: no orders and a zero counter; balances come from outside this module. */
  function Genesis(balances: Balances): State
  {
    State(map[], 0, balances)
  }

  /**
   * `create_order`: the order gets the current counter as its id, is stored
   * unfilled under that id for the caller, and the counter moves on by one.
   * Nothing else is written. At the top of the `u64` range the increment
   * fails instead.
   */
  function CreateOrder(s: State, caller: AccountId, token: TokenHash, amount: uint64, price: uint64, side: Side): (r: Result<State, Error>)
    ensures r.Success? <==> s.orderCount < MAX
    ensures r.Failure? ==> r.error == ArithmeticOverflow
    ensures r.Success? ==>
      && r.value.orderCount == s.orderCount + 1
      && s.orderCount in r.value.orders
      && r.value.orders[s.orderCount] == Order(s.orderCount, caller, token, amount, price, side, false)
      && r.value.balances == s.balances
    ensures r.Success? ==> forall id :: id != s.orderCount ==>
      && (id in r.value.orders <==> id in s.orders)
      && (id in s.orders ==> r.value.orders[id] == s.orders[id])
  {
    var id := s.orderCount;
    var order := Order(id, caller, token, amount, price, side, false);
    match CheckedAdd(id, 1)
    case None => Failure(ArithmeticOverflow)
    case Some(next) => Success(s.(orders := s.orders[id := order], orderCount := next))
  }

  /** The account that receives tokens: the owner of a buy order, the counterparty of a sell order. */
  function Buyer(order: Order, counterparty: AccountId): AccountId
  {
    if order.side == Buy then order.user else counterparty
  }

  /** The account that gives up tokens: the counterparty of a buy order, the owner of a sell order. */
  function Seller(order: Order, counterparty: AccountId): AccountId
  {
    if order.side == Buy then counterparty else order.user
  }

  /**
   * The two ledger writes shared by both branches of `execute_order`: read
   * the buyer's and the seller's balance, then store buyer + amount and
   * seller - amount, in that order. It fails, writing nothing, when either
   * result leaves the `u64` range (the host then discards the credit already
   * written before the debit panics).
   */
  function Settle(b: Balances, buyer: AccountId, seller: AccountId, token: TokenHash, amount: uint64): (r: Result<Balances, Error>)
    ensures r.Failure? ==> r.error in {ArithmeticOverflow, ArithmeticUnderflow}
    ensures r == Failure(ArithmeticOverflow) <==> BalanceOf(b, buyer, token) + amount > MAX
    ensures r == Failure(ArithmeticUnderflow) <==>
      BalanceOf(b, buyer, token) + amount <= MAX && BalanceOf(b, seller, token) < amount
    ensures r.Success? ==> Settled(b, r.value, buyer, seller, token, amount)
  {
    var buyerBalance := BalanceOf(b, buyer, token);
    var sellerBalance := BalanceOf(b, seller, token);
    match CheckedAdd(buyerBalance, amount)
    case None => Failure(ArithmeticOverflow)
    case Some(credited) =>
      match CheckedSub(sellerBalance, amount)
      case None => Failure(ArithmeticUnderflow)
      case Some(debited) => Success(SetBalance(SetBalance(b, buyer, token, credited), seller, token, debited))
  }

  /**
   * The guards of `execute_order` before any write: the order exists, is not
   * filled, and its owner holds amount * price of the token (a buy, where the
   * product must fit in `u64`) or amount (a sell).
   */
  predicate Guarded(s: State, orderId: uint64, amount: uint64)
  {
    && orderId in s.orders
    && !s.orders[orderId].isFilled
    && var order := s.orders[orderId];
       var held := BalanceOf(s.balances, order.user, order.token);
       match order.side
       case Buy => CheckedMul(amount, order.price).Some? && CheckedMul(amount, order.price).value <= held
       case Sell => amount <= held
  }

  /**
   * `execute_order`, with the other side of the trade named by
   * `counterparty`. It fails when the order is missing or filled, when a buy
   * order's owner holds less than amount * price of the token, or when a sell
   * order's owner holds less than amount; otherwise it settles `amount` of the
   * order's token between buyer and seller and writes nothing else. The order
   * itself is not written back.
   */
  function ExecuteOrder(s: State, orderId: uint64, counterparty: AccountId, amount: uint64): (r: Result<State, Error>)
    ensures orderId !in s.orders ==> r == Failure(OrderDoesNotExist)
    ensures orderId in s.orders && s.orders[orderId].isFilled ==> r == Failure(OrderAlreadyFilled)
    ensures r == Failure(InsufficientBuyBalance) <==>
      && orderId in s.orders
      && !s.orders[orderId].isFilled
      && s.orders[orderId].side == Buy
      && CheckedMul(amount, s.orders[orderId].price).Some?
      && BalanceOf(s.balances, s.orders[orderId].user, s.orders[orderId].token) < CheckedMul(amount, s.orders[orderId].price).value
    ensures r == Failure(InsufficientSellBalance) <==>
      && orderId in s.orders
      && !s.orders[orderId].isFilled
      && s.orders[orderId].side == Sell
      && BalanceOf(s.balances, s.orders[orderId].user, s.orders[orderId].token) < amount
    ensures r == Failure(ArithmeticOverflow) <==>
      && orderId in s.orders
      && !s.orders[orderId].isFilled
      && ((s.orders[orderId].side == Buy && CheckedMul(amount, s.orders[orderId].price).None?)
          || (Guarded(s, orderId, amount)
              && BalanceOf(s.balances, Buyer(s.orders[orderId], counterparty), s.orders[orderId].token) + amount > MAX))
    ensures r == Failure(ArithmeticUnderflow) <==>
      && Guarded(s, orderId, amount)
      && BalanceOf(s.balances, Buyer(s.orders[orderId], counterparty), s.orders[orderId].token) + amount <= MAX
      && BalanceOf(s.balances, Seller(s.orders[orderId], counterparty), s.orders[orderId].token) < amount
    ensures r.Success? <==>
      && Guarded(s, orderId, amount)
      && BalanceOf(s.balances, Buyer(s.orders[orderId], counterparty), s.orders[orderId].token) + amount <= MAX
      && amount <= BalanceOf(s.balances, Seller(s.orders[orderId], counterparty), s.orders[orderId].token)
    ensures Guarded(s, orderId, amount) ==>
      r == Commit(s, Settle(s.balances, Buyer(s.orders[orderId], counterparty), Seller(s.orders[orderId], counterparty),
                            s.orders[orderId].token, amount))
    ensures r.Success? ==>
      && orderId in s.orders
      && r.value.orders == s.orders
      && r.value.orderCount == s.orderCount
      && Settled(s.balances, r.value.balances,
                 Buyer(s.orders[orderId], counterparty), Seller(s.orders[orderId], counterparty),
                 s.orders[orderId].token, amount)
  {
    if orderId !in s.orders then Failure(OrderDoesNotExist)
    else
      var order := s.orders[orderId];
      if order.isFilled then Failure(OrderAlreadyFilled)
      else
        var held := BalanceOf(s.balances, order.user, order.token);
        match order.side
        case Buy =>
          (match CheckedMul(amount, order.price)
           case None => Failure(ArithmeticOverflow)
           case Some(totalCost) =>
             if held < totalCost then Failure(InsufficientBuyBalance)
             else Commit(s, Settle(s.balances, order.user, counterparty, order.token, amount)))
        case Sell =>
          if held < amount then Failure(InsufficientSellBalance)
          else Commit(s, Settle(s.balances, counterparty, order.user, order.token, amount))
  }

  /** Store settled balances into the state, or pass the settlement's error on. */
  function Commit(s: State, settled: Result<Balances, Error>): Result<State, Error>
  {
    match settled
    case Failure(e) => Failure(e)
    case Success(b) => Success(s.(balances := b))
  }
}
