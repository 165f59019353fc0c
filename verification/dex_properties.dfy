/**
 * What the two calls guarantee together: the storage invariant they keep,
 * what a run of calls from genesis looks like, and how settlement moves the
 * supply of a token.
 */
module DexProperties {
  import opened Wrappers
  import opened UInt64
  import opened Ledger
  import opened Dex

  /** One dispatched call, with its arguments. */
  datatype Call =
    | Create(caller: AccountId, token: TokenHash, amount: uint64, price: uint64, side: Side)
    | Execute(orderId: uint64, counterparty: AccountId, amount: uint64)

  function Dispatch(s: State, c: Call): Result<State, Error>
  {
    match c
    case Create(caller, token, amount, price, side) => CreateOrder(s, caller, token, amount, price, side)
    case Execute(orderId, counterparty, amount) => ExecuteOrder(s, orderId, counterparty, amount)
  }

  /** The state after a call: its new state on success, the old one untouched on failure. */
  function Apply(s: State, c: Call): State
  {
    match Dispatch(s, c)
    case Success(s') => s'
    case Failure(_) => s
  }

  /** The state after a sequence of calls, applied one at a time in order. */
  function Run(s: State, calls: seq<Call>): State
    decreases |calls|
  {
    if calls == [] then s else Run(Apply(s, calls[0]), calls[1..])
  }

  /** The order a successful create call stores under `id`. */
  function Placed(c: Call, id: uint64): Order
    requires c.Create?
  {
    Order(id, c.caller, c.token, c.amount, c.price, c.side, false)
  }

  /**
   * The storage invariant: orders are stored exactly under the ids below the
   * counter, each under its own id, and none is filled.
   */
  ghost predicate Valid(s: State)
  {
    && (forall id: uint64 :: id in s.orders <==> id < s.orderCount)
    && (forall id :: id in s.orders ==> s.orders[id].id == id && !s.orders[id].isFilled)
  }

  // ----- create_order -----

  /** From a valid state the id handed out is unused, so creating an order never overwrites one, and validity is kept. */
  lemma CreatePreservesValid(s: State, caller: AccountId, token: TokenHash, amount: uint64, price: uint64, side: Side)
    requires Valid(s)
    ensures s.orderCount !in s.orders
    ensures CreateOrder(s, caller, token, amount, price, side).Success? ==>
      && Valid(CreateOrder(s, caller, token, amount, price, side).value)
      && s.orders.Keys < CreateOrder(s, caller, token, amount, price, side).value.orders.Keys
  {
    var r := CreateOrder(s, caller, token, amount, price, side);
    if r.Success? {
      assert s.orderCount in r.value.orders.Keys - s.orders.Keys;
    }
  }

  /**
   * N create calls in a row, with room left in the counter, store their
   * orders under the N consecutive ids that follow the counter, in call
   * order, advance the counter by N, keep every order stored below the old
   * counter, and leave the ledger alone.
   */
  lemma {:induction false} CreatesNumberConsecutively(s: State, calls: seq<Call>)
    requires forall i :: 0 <= i < |calls| ==> calls[i].Create?
    requires s.orderCount + |calls| <= MAX
    ensures Run(s, calls).orderCount == s.orderCount + |calls|
    ensures Run(s, calls).balances == s.balances
    ensures forall id: uint64 :: s.orderCount <= id < s.orderCount + |calls| ==>
      id in Run(s, calls).orders && Run(s, calls).orders[id] == Placed(calls[id - s.orderCount], id)
    ensures forall id :: id in s.orders && id < s.orderCount ==>
      id in Run(s, calls).orders && Run(s, calls).orders[id] == s.orders[id]
    decreases |calls|
  {
    if calls != [] {
      var s1 := Apply(s, calls[0]);
      CreatesNumberConsecutively(s1, calls[1..]);
      var t := Run(s, calls);
      assert t == Run(s1, calls[1..]);
      forall id: uint64 | s.orderCount <= id < s.orderCount + |calls|
        ensures id in t.orders && t.orders[id] == Placed(calls[id - s.orderCount], id)
      {
        if id == s.orderCount {
          assert s1.orders[id] == Placed(calls[0], id);
        } else {
          assert calls[1..][id - s1.orderCount] == calls[id - s.orderCount];
        }
      }
    }
  }

  /** From genesis, the i-th of N create calls gets id i, so ids rise strictly, and the counter ends at N. */
  lemma CreatesFromGenesis(b: Balances, calls: seq<Call>)
    requires forall i :: 0 <= i < |calls| ==> calls[i].Create?
    requires |calls| <= MAX
    ensures Run(Genesis(b), calls).orderCount == |calls|
    ensures forall id: uint64 :: id < |calls| ==>
      id in Run(Genesis(b), calls).orders && Run(Genesis(b), calls).orders[id] == Placed(calls[id], id)
    ensures forall i: uint64, j: uint64 :: i < j < |calls| ==>
      Run(Genesis(b), calls).orders[i].id < Run(Genesis(b), calls).orders[j].id
  {
    CreatesNumberConsecutively(Genesis(b), calls);
  }

  // ----- execute_order -----

  /** Executing an order keeps validity: it writes no order, so in particular it never marks one filled. */
  lemma ExecutePreservesValid(s: State, orderId: uint64, counterparty: AccountId, amount: uint64)
    requires Valid(s)
    ensures ExecuteOrder(s, orderId, counterparty, amount).Success? ==>
      Valid(ExecuteOrder(s, orderId, counterparty, amount).value)
  {
  }

  /**
   * A successful execution leaves the order stored as it was, still open, so
   * the same order can be executed again: the filled check never fires for it.
   */
  lemma ExecutedOrderStaysOpen(s: State, orderId: uint64, counterparty: AccountId, amount: uint64,
                               counterparty': AccountId, amount': uint64)
    requires ExecuteOrder(s, orderId, counterparty, amount).Success?
    ensures var s' := ExecuteOrder(s, orderId, counterparty, amount).value;
      && orderId in s'.orders
      && s'.orders[orderId] == s.orders[orderId]
      && !s'.orders[orderId].isFilled
      && ExecuteOrder(s', orderId, counterparty', amount') !in {Failure(OrderDoesNotExist), Failure(OrderAlreadyFilled)}
  {
  }

  /**
   * Account 1 holds 100 of token 7 and offers to sell 100 at price 5 (order 0);
   * account 2 takes 40 and then takes 10 more from the same order: both
   * executions succeed, because the first one leaves the order open.
   */
  lemma SellOrderExecutesTwice()
    ensures var s0 := Genesis(map[(1, 7) := 100]);
      var s1 := CreateOrder(s0, 1, 7, 100, 5, Sell);
      && s1.Success?
      && var e1 := ExecuteOrder(s1.value, 0, 2, 40);
      && e1.Success?
      && BalanceOf(e1.value.balances, 1, 7) == 60 && BalanceOf(e1.value.balances, 2, 7) == 40
      && var e2 := ExecuteOrder(e1.value, 0, 2, 10);
      && e2.Success?
      && BalanceOf(e2.value.balances, 1, 7) == 50 && BalanceOf(e2.value.balances, 2, 7) == 50
  {
  }

  /** A sell order's owner is its seller and must hold `amount`, so the seller's debit can never go below zero. */
  lemma SellDebitCannotUnderflow(s: State, orderId: uint64, counterparty: AccountId, amount: uint64)
    requires orderId in s.orders && s.orders[orderId].side == Sell
    ensures ExecuteOrder(s, orderId, counterparty, amount) != Failure(ArithmeticUnderflow)
  {
  }

  /** In a buy order only the owner's holding is checked: the counterparty's debit fails exactly when it holds too little. */
  lemma BuyDebitChecksOnlyAtSettlement(s: State, orderId: uint64, counterparty: AccountId, amount: uint64)
    requires orderId in s.orders && s.orders[orderId].side == Buy && !s.orders[orderId].isFilled
    requires amount * s.orders[orderId].price <= BalanceOf(s.balances, s.orders[orderId].user, s.orders[orderId].token)
    requires BalanceOf(s.balances, s.orders[orderId].user, s.orders[orderId].token) + amount <= MAX
    ensures ExecuteOrder(s, orderId, counterparty, amount) == Failure(ArithmeticUnderflow)
        <==> BalanceOf(s.balances, counterparty, s.orders[orderId].token) < amount
  {
  }

  /** A successful buy execution leaves the owner holding at least the true product amount * price. */
  lemma BuyOwnerCoversTrueCost(s: State, orderId: uint64, counterparty: AccountId, amount: uint64)
    requires orderId in s.orders && s.orders[orderId].side == Buy
    requires ExecuteOrder(s, orderId, counterparty, amount).Success?
    ensures amount * s.orders[orderId].price <= BalanceOf(s.balances, s.orders[orderId].user, s.orders[orderId].token)
  {
  }

  // ----- supply -----

  /**
   * Settlement moves `amount` of one token from seller to buyer: the supply
   * of every token is unchanged, except that when buyer and seller are one
   * account the seller's write overwrites the credit and `amount` is lost.
   */
  lemma SettleSupply(b: Balances, buyer: AccountId, seller: AccountId, token: TokenHash, amount: uint64, t: TokenHash)
    requires Settle(b, buyer, seller, token, amount).Success?
    ensures Supply(Settle(b, buyer, seller, token, amount).value, t)
         == Supply(b, t) - (if buyer == seller && t == token then amount else 0)
  {
    var credited := BalanceOf(b, buyer, token) + amount;
    var debited := BalanceOf(b, seller, token) - amount;
    var b1 := SetBalance(b, buyer, token, credited);
    SupplyAfterSet(b, buyer, token, credited, t);
    SupplyAfterSet(b1, seller, token, debited, t);
  }

  /** Executing an order between two different accounts changes no token's total supply. */
  lemma ExecuteConservesSupply(s: State, orderId: uint64, counterparty: AccountId, amount: uint64, t: TokenHash)
    requires ExecuteOrder(s, orderId, counterparty, amount).Success?
    requires counterparty != s.orders[orderId].user
    ensures Supply(ExecuteOrder(s, orderId, counterparty, amount).value.balances, t) == Supply(s.balances, t)
  {
    var order := s.orders[orderId];
    SettleSupply(s.balances, Buyer(order, counterparty), Seller(order, counterparty), order.token, amount, t);
  }

  /** Executing an order against its own owner debits the owner by `amount` and burns that much of the token. */
  lemma SelfExecutionBurns(s: State, orderId: uint64, amount: uint64)
    requires orderId in s.orders
    requires ExecuteOrder(s, orderId, s.orders[orderId].user, amount).Success?
    ensures var order := s.orders[orderId];
      var after := ExecuteOrder(s, orderId, order.user, amount).value.balances;
      && BalanceOf(after, order.user, order.token) == BalanceOf(s.balances, order.user, order.token) - amount
      && Supply(after, order.token) == Supply(s.balances, order.token) - amount
  {
    var order := s.orders[orderId];
    SettleSupply(s.balances, order.user, order.user, order.token, amount, order.token);
  }

  // ----- runs of calls -----

  lemma {:induction false} RunPreservesValid(s: State, calls: seq<Call>)
    requires Valid(s)
    ensures Valid(Run(s, calls))
    decreases |calls|
  {
    if calls != [] {
      match calls[0] {
        case Create(caller, token, amount, price, side) =>
          CreatePreservesValid(s, caller, token, amount, price, side);
        case Execute(orderId, counterparty, amount) =>
          ExecutePreservesValid(s, orderId, counterparty, amount);
      }
      RunPreservesValid(Apply(s, calls[0]), calls[1..]);
    }
  }

  /**
   * After any run of calls from genesis no stored order is filled, so
   * `execute_order` can never report an already-filled order.
   */
  lemma FilledIsUnreachable(b: Balances, calls: seq<Call>, orderId: uint64, counterparty: AccountId, amount: uint64)
    ensures var s := Run(Genesis(b), calls);
      && (forall id :: id in s.orders ==> !s.orders[id].isFilled)
      && ExecuteOrder(s, orderId, counterparty, amount) != Failure(OrderAlreadyFilled)
  {
    RunPreservesValid(Genesis(b), calls);
  }

  /** A run of execute calls alone leaves the orders and the counter exactly as they were. */
  lemma {:induction false} ExecutesWriteNoOrder(s: State, calls: seq<Call>)
    requires forall i :: 0 <= i < |calls| ==> calls[i].Execute?
    ensures Run(s, calls).orders == s.orders
    ensures Run(s, calls).orderCount == s.orderCount
    decreases |calls|
  {
    if calls != [] {
      ExecutesWriteNoOrder(Apply(s, calls[0]), calls[1..]);
    }
  }
}
