/**
 * The `TokenBalances` storage map: a `u64` balance per (account, token),
 * reading as zero where nothing has been stored, and the total supply of a
 * token summed over every stored entry.
 */
module Ledger {
  import opened UInt64

  /** Account identities (`T::AccountId`); the model only compares them for equality. */
  type AccountId = nat

  /** Token identifiers (`T::Hash`); the model only compares them for equality. */
  type TokenHash = nat

  type Key = (AccountId, TokenHash)

  type Balances = map<Key, uint64>

  /** The storage getter: the stored balance, or the default zero for an absent key. */
  function BalanceOf(b: Balances, account: AccountId, token: TokenHash): uint64
  {
    if (account, token) in b then b[(account, token)] else 0
  }

  /** `TokenBalances::insert`: the written entry reads back the new value and every other entry reads as before. */
  function SetBalance(b: Balances, account: AccountId, token: TokenHash, value: uint64): (r: Balances)
    ensures BalanceOf(r, account, token) == value
    ensures forall a: AccountId, t: TokenHash :: (a, t) != (account, token) ==> BalanceOf(r, a, t) == BalanceOf(b, a, t)
    ensures r.Keys == b.Keys + {(account, token)}
  {
    b[(account, token) := value]
  }

  /** Only the (buyer, token) and (seller, token) entries may read differently in `after`. */
  ghost predicate TouchesOnly(before: Balances, after: Balances, buyer: AccountId, seller: AccountId, token: TokenHash)
  {
    forall a: AccountId, t: TokenHash ::
      (a, t) != (buyer, token) && (a, t) != (seller, token) ==> BalanceOf(after, a, t) == BalanceOf(before, a, t)
  }

  /**
   * `after` is `before` with `amount` of `token` moved from the seller to the
   * buyer, both balances read before either is written: the seller's write
   * comes second, so when buyer and seller are one account it alone survives.
   */
  ghost predicate Settled(before: Balances, after: Balances, buyer: AccountId, seller: AccountId, token: TokenHash, amount: int)
  {
    && BalanceOf(after, seller, token) == BalanceOf(before, seller, token) - amount
    && (buyer != seller ==> BalanceOf(after, buyer, token) == BalanceOf(before, buyer, token) + amount)
    && TouchesOnly(before, after, buyer, seller, token)
  }

  // ----- total supply of a token -----

  ghost function Pick(keys: set<Key>): (k: Key)
    requires keys != {}
    ensures k in keys
  {
    var k :| k in keys; k
  }

  /** What entry `k` contributes to the supply of `token`. */
  function Held(b: Balances, k: Key, token: TokenHash): int
    requires k in b
  {
    if k.1 == token then b[k] else 0
  }

  ghost function SumOver(b: Balances, keys: set<Key>, token: TokenHash): int
    requires keys <= b.Keys
    decreases keys
  {
    if keys == {} then 0
    else
      var k := Pick(keys);
      Held(b, k, token) + SumOver(b, keys - {k}, token)
  }

  /** The sum of every stored balance of `token`, over all accounts. */
  ghost function Supply(b: Balances, token: TokenHash): int
  {
    SumOver(b, b.Keys, token)
  }

  /** The sum does not depend on the order in which entries are picked: any one entry can be split off first. */
  lemma {:induction false} SumOverRemove(b: Balances, keys: set<Key>, token: TokenHash, k: Key)
    requires keys <= b.Keys
    requires k in keys
    ensures SumOver(b, keys, token) == Held(b, k, token) + SumOver(b, keys - {k}, token)
    decreases keys
  {
    var j := Pick(keys);
    if j != k {
      SumOverRemove(b, keys - {j}, token, k);
      SumOverRemove(b, keys - {k}, token, j);
      assert keys - {j} - {k} == keys - {k} - {j};
    }
  }

  /** Two ledgers that agree on a set of keys sum to the same value over it. */
  lemma {:induction false} SumOverFrame(b: Balances, b': Balances, keys: set<Key>, token: TokenHash)
    requires keys <= b.Keys && keys <= b'.Keys
    requires forall k :: k in keys ==> b[k] == b'[k]
    ensures SumOver(b, keys, token) == SumOver(b', keys, token)
    decreases keys
  {
    if keys != {} {
      var k := Pick(keys);
      SumOverRemove(b', keys, token, k);
      SumOverFrame(b, b', keys - {k}, token);
    }
  }

  /** Writing one entry changes the supply of its token by exactly the change in that entry, and no other token's supply. */
  lemma SupplyAfterSet(b: Balances, account: AccountId, tok: TokenHash, value: uint64, token: TokenHash)
    ensures Supply(SetBalance(b, account, tok, value), token)
         == Supply(b, token) + (if tok == token then value - BalanceOf(b, account, tok) else 0)
  {
    var k := (account, tok);
    var b' := SetBalance(b, account, tok, value);
    SumOverRemove(b', b'.Keys, token, k);
    assert b'.Keys - {k} == b.Keys - {k};
    SumOverFrame(b', b, b.Keys - {k}, token);
    if k in b {
      SumOverRemove(b, b.Keys, token, k);
    } else {
      assert b.Keys - {k} == b.Keys;
    }
  }
}
