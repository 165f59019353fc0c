# Order-book DEX pallet: a Dafny model

This project models the core of a minimal on-chain exchange module written for
a Substrate runtime. The module keeps three pieces of storage:

- `Orders`: a map from a `u64` order id to an `Order` record.
- `OrderCount`: a `u64` counter that mints order ids.
- `TokenBalances`: a `u64` balance per `(account, token)`, which reads as zero when absent.

It offers two calls:

- `create_order` stores a new unfilled order under the next id for the caller.
- `execute_order` checks the order owner's balance and then moves `amount` of
  the order's token from the seller to the buyer.

Each call is a pure transition on an immutable `State`. It returns
`Success(newState)` or `Failure(error)`. On failure nothing is written: the host
keeps the previous state (`DexProperties.Apply`).

Files:

- `wrappers.dfy`: `Option` and `Result`.
- `uint64.dfy`: Rust's `u64`, with checked operations (`Checked*`) and
  wrapping operations (`Wrapping*`).
- `ledger.dfy`: the balance map, its zero-default read and its write. It also
  defines `Supply`, the total of one token over all accounts, and how one write
  changes it.
- `dex.dfy`: `Order`, `State`, `CreateOrder`, `ExecuteOrder` and `Settle`
  (settlement, the two balance writes).
- `dex_properties.dfy`: the storage invariant, runs of calls from genesis,
  double execution, and supply conservation.
- `dex_as_written.dfy`: `execute_order` with wrapping arithmetic, and the two
  defects it shows.

## Modelling decisions

- **Counterparty.** In the source, both the buyer and the seller come from the
  order's own owner (lib.rs:65-67, 90-92). That code is malformed: it refers to
  an undefined `orders_id` and calls `ensure_signed` on an account. Here the
  other side of the trade is an explicit `counterparty` parameter of
  `ExecuteOrder`. A buy order's owner is the buyer and the counterparty is the
  seller; a sell order's owner is the seller. Self-trades are not excluded,
  because the source has no such check. Both balances are read before either
  is written, so when counterparty and owner are the same account the
  seller's write wins. The net effect is a debit of `amount`
  (`DexProperties.SelfExecutionBurns`).
- **`is_filled` is never set.** `execute_order` never writes the order back.
  The model reproduces this. It proves that no reachable order is ever filled
  (`DexProperties.FilledIsUnreachable`). It also proves that an executed order
  stays open and can be executed again (`DexProperties.ExecutedOrderStaysOpen`,
  `DexProperties.SellOrderExecutesTwice`).
- **`u64` arithmetic.** The source does not check any of these:
  - `amount * order.price` (lib.rs:57);
  - the buyer's credit (lib.rs:75, 100);
  - the seller's debit (lib.rs:79, 104);
  - `id + 1` (lib.rs:46).

  The main model (`Dex`) treats each of these as an error result,
  `ArithmeticOverflow` or `ArithmeticUnderflow`, where a build with overflow
  checks panics. In the source some writes come before the operation that
  panics: the order is inserted (lib.rs:45) before `id + 1` (lib.rs:46), and
  the buyer's credit is stored (lib.rs:73-76, 98-101) before the seller's
  debit (lib.rs:79, 104). A failed call in the model still writes nothing,
  because the host discards every write of a call that panics (see the
  atomicity line under "Left out"). With overflow checks off, as in a release build, the same operations
  wrap modulo 2^64. `DexAsWritten.ExecuteOrderWrapping` models that behaviour;
  see "Findings".
- **Identities.** `AccountId` and `TokenHash` are `nat`. The model only
  compares them for equality.
- **Checks the source does not make, and the model therefore leaves out:**
  - `amount > 0` and `price > 0` (`InvalidOrder`);
  - a `SelfTrade` error;
  - a separate quote-asset payment leg;
  - marking the order filled after execution.

  The buy branch checks and moves the same token it prices the order in.

## Model

| member | source | states |
|---|---|---|
| `Ledger.SetBalance` | lib.rs:73-80 | storing a balance makes that entry read back the new value, leaves every other (account, token) entry reading as before, and adds only that key |
| `Ledger.SupplyAfterSet` | lib.rs:98-105 | one balance write changes the total supply of its token by exactly the change in that entry, and no other token's supply |
| `Dex.CreateOrder` | lib.rs:27-50 | succeeds exactly when the counter can be incremented; stores an unfilled order for the caller under the old counter with the given token, amount, price and side; advances the counter by one; leaves every other order and the whole ledger untouched |
| `Dex.Settle` | lib.rs:64-80 | fails with overflow exactly when the buyer's credit leaves `u64`, and with underflow exactly when the credit fits but the seller holds less than `amount`; otherwise the seller ends with old − amount, a distinct buyer with old + amount, and no other entry changes |
| `Dex.ExecuteOrder` | lib.rs:52-110 | a missing id fails with OrderDoesNotExist and a filled order with OrderAlreadyFilled; a buy fails with overflow exactly when amount × price leaves `u64`, and for insufficient balance exactly when the owner holds less than amount × price; a sell fails exactly when the owner holds less than amount; once these guards pass the result is the settlement, so the call succeeds exactly when the buyer's credit fits and the seller holds amount, and otherwise reports overflow or underflow; on success orders and counter are unchanged and the ledger is settled between buyer and seller |
| `DexProperties.CreatePreservesValid` | lib.rs:35-46 | from a valid state the id handed out is unused, so no existing order is overwritten; the key set strictly grows and validity is kept |
| `DexProperties.CreatesNumberConsecutively` | lib.rs:35-46 | N create calls store their orders, in call order, under the N ids following the counter; the counter advances by N, earlier orders and the ledger are kept |
| `DexProperties.CreatesFromGenesis` | lib.rs:19-46 | from an empty store the i-th created order gets id i, ids strictly increase, and the counter ends at N |
| `DexProperties.ExecutePreservesValid` | lib.rs:52-110 | execution keeps the storage invariant: ids below the counter, each order under its own id, none filled |
| `DexProperties.ExecutedOrderStaysOpen` | lib.rs:52-54 | after a successful execution the order is stored unchanged and still open, so a further execution passes both the existence and the filled check |
| `DexProperties.SellOrderExecutesTwice` | lib.rs:83-105 | a sell order of 100 is executed for 40 and then again for 10; both succeed and the balances move 60/40 and then 50/50 |
| `DexProperties.SellDebitCannotUnderflow` | lib.rs:83-105 | for a sell order the seller is the owner, whose balance was checked against amount, so the debit never underflows |
| `DexProperties.BuyDebitChecksOnlyAtSettlement` | lib.rs:56-80 | once a buy order's owner check and the credit pass, the counterparty's debit fails exactly when it holds less than amount; it is never checked beforehand |
| `DexProperties.BuyOwnerCoversTrueCost` | lib.rs:56-62 | a successful buy execution implies the owner held at least the exact product amount × price |
| `DexProperties.SettleSupply` | lib.rs:69-80 | settlement conserves every token's supply when buyer and seller differ, and reduces the traded token's supply by amount when they are the same account |
| `DexProperties.ExecuteConservesSupply` | lib.rs:56-107 | a successful execution between two different accounts leaves every token's total supply unchanged |
| `DexProperties.SelfExecutionBurns` | lib.rs:69-80 | executing against the order's own owner leaves the owner with old − amount and burns amount of the token's supply |
| `DexProperties.RunPreservesValid` | lib.rs:27-110 | any sequence of calls from a valid state ends in a valid state |
| `DexProperties.FilledIsUnreachable` | lib.rs:36-54 | after any run of calls from genesis no order is filled, so execution never reports OrderAlreadyFilled |
| `DexProperties.ExecutesWriteNoOrder` | lib.rs:52-110 | any run of execute calls leaves the orders map and the counter exactly as they were |
| `DexAsWritten.ExecuteOrderWrapping` | lib.rs:52-110 | with wrapping arithmetic a missing order fails with OrderDoesNotExist and a filled one with OrderAlreadyFilled; a buy fails exactly when the owner holds less than the wrapped amount × price, a sell exactly when the owner holds less than amount; it succeeds exactly when these guards pass, and then writes no order and stores the wrapping settlement |
| `DexAsWritten.SettleWrapping` | lib.rs:69-80 | wrapping settlement touches only the two entries, leaves a distinct buyer with old + amount modulo 2^64 and the seller with old − amount modulo 2^64 |
| `DexAsWritten.WrappingAgreesWhenChecked` | lib.rs:57-105 | wherever the checked model succeeds, the wrapping model gives the same result |
| `DexAsWritten.WrappedCostSkipsBuyCheck` | lib.rs:57-62 | a buy at price 2^32 for 2^32 units passes the balance check with a zero balance when the cost wraps; the checked model reports overflow |
| `DexAsWritten.WrappedDebitMintsTokens` | lib.rs:77-80 | a buy against a counterparty holding nothing wraps the debit to 2^64 − 1, so the two balances grow by 2^64; the checked model reports underflow |

## Findings

| source | as written | input that shows it | evidently intended | confidence | as-written member | corrected member |
|---|---|---|---|---|---|---|
| lib.rs:57-62 | `total_cost = amount * order.price` is unchecked; with overflow checks off it wraps before it is compared with the owner's balance | buy order at price 2^32, owner balance 0, `amount` = 2^32: the cost wraps to 0 and the check passes | a buy goes through only if the owner holds the true amount × price | medium (assumes a build with overflow checks off); not executed | `DexAsWritten.WrappedCostSkipsBuyCheck` | `DexProperties.BuyOwnerCoversTrueCost` |
| lib.rs:77-80 | in the buy branch the seller's debit `seller_token_balance - amount` is never checked, because only the buyer's balance is tested | buy order at price 1, owner balance 1, counterparty balance 0, `amount` = 1: the counterparty ends with 2^64 − 1. In the source's own reading, where the seller is the owner, price 0 and an owner balance of 0 give the same wrap | execution moves tokens without creating any: supply is conserved and no balance goes negative | medium (assumes a build with overflow checks off); not executed | `DexAsWritten.WrappedDebitMintsTokens` | `DexProperties.ExecuteConservesSupply` |

## Left out

- Authentication: `ensure_signed(origin)` and `into_account` (lib.rs:34, 65-67, 90-92). The caller and the counterparty are plain parameters.
- Event emission with `deposit_event` (lib.rs:48, 81, 106). It is observational only.
- The storage hashers and the `Tokens` map (lib.rs:16-23). The hashers are host storage details, and the module never uses `Tokens`.
- The `#[weight]` annotation (lib.rs:26). It is host plumbing.
- Transaction atomicity and the serialization of concurrent callers. The host provides these, so each call is one pure transition. In particular the host discards the writes a call made before it panicked, such as the order insert at lib.rs:45 or the buyer credit at lib.rs:73-76, so a failed call returns no state.
- The source of the initial balances. No code in this module credits an account. `Dex.Genesis` takes the balances as a parameter.
- Counter wrap-around: when the counter is at `u64::MAX`, `Dex.CreateOrder` fails with ArithmeticOverflow. A build with overflow checks off would instead wrap the counter to 0, and the next order would overwrite order 0.
