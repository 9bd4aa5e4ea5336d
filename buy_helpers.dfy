/** packages/cli/src/helpers/buy.ts: the user record the commands work with
    and the holdings filter of `getUserTokenHoldings`. The list of holdings
    comes from the friend.tech API and is a parameter here. */
module BuyHelpers {
  import opened Common

  /** `FormattedUser`, as `getUser` returns it. */
  datatype FormattedUser = FormattedUser(
    twitterUsername: string, twitterName: string, keyPriceInEth: real, lastOnline: int, address: string)

  /** One entry of the holdings response; `balance` is `Number(user.balance)`. */
  datatype TokenHolding = TokenHolding(address: string, twitterName: string, balance: Numeric)

  /** `UserTokenHoldings`. */
  datatype Holding = Holding(balance: int, twitterName: string)

  /** Kept by the filter: a positive balance, and not the queried address
      itself. NaN is not positive. */
  predicate Qualifies(u: TokenHolding, address: string)
  {
    u.balance.Num? && u.balance.value > 0 && !SameAddress(u.address, address)
  }

  /** The map the filter loop builds from the first `|users|` entries. */
  function HoldingsOf(address: string, users: seq<TokenHolding>): (m: OrderedMap<string, Holding>)
    ensures m.Valid()
  {
    if users == [] then EmptyMap()
    else
      var m := HoldingsOf(address, users[..|users| - 1]);
      var u := users[|users| - 1];
      if Qualifies(u, address) then m.Put(u.address, Holding(u.balance.value, u.twitterName)) else m
  }

  /** The loop of `getUserTokenHoldings`. */
  method GetUserTokenHoldings(address: string, users: seq<TokenHolding>)
    returns (usersMap: OrderedMap<string, Holding>)
    ensures usersMap == HoldingsOf(address, users)
  {
    usersMap := EmptyMap();
    for i := 0 to |users|
      invariant usersMap == HoldingsOf(address, users[..i])
    {
      var user := users[i];
      assert users[..i + 1][..i] == users[..i];
      if user.balance.Num? && user.balance.value > 0 && !SameAddress(user.address, address) {
        usersMap := usersMap.Put(user.address, Holding(user.balance.value, user.twitterName));
      }
    }
    assert users[..|users|] == users;
  }

  /** Every kept holding has a positive balance and none is the queried
      address; an address is kept exactly when some entry for it
      qualifies. */
  lemma {:induction false} HoldingsAreQualified(address: string, users: seq<TokenHolding>, a: string)
    ensures a in HoldingsOf(address, users).values ==>
              HoldingsOf(address, users).values[a].balance > 0 && !SameAddress(a, address)
    ensures a in HoldingsOf(address, users).values <==>
              exists i :: 0 <= i < |users| && users[i].address == a && Qualifies(users[i], address)
  {
    if users != [] {
      var pre := users[..|users| - 1];
      HoldingsAreQualified(address, pre, a);
      if a in HoldingsOf(address, pre).values {
        var i :| 0 <= i < |pre| && pre[i].address == a && Qualifies(pre[i], address);
        assert users[i] == pre[i];
      }
      if exists i :: 0 <= i < |users| && users[i].address == a && Qualifies(users[i], address) {
        var i :| 0 <= i < |users| && users[i].address == a && Qualifies(users[i], address);
        if i < |pre| {
          assert pre[i] == users[i];
        }
      }
    }
  }

  /** When an address qualifies several times, the last qualifying entry
      wins, with its balance and Twitter name. */
  lemma {:induction false} LastQualifyingEntryWins(address: string, users: seq<TokenHolding>, i: nat)
    requires i < |users| && Qualifies(users[i], address)
    requires forall j :: i < j < |users| && Qualifies(users[j], address) ==> users[j].address != users[i].address
    ensures users[i].address in HoldingsOf(address, users).values
    ensures HoldingsOf(address, users).values[users[i].address] == Holding(users[i].balance.value, users[i].twitterName)
  {
    var pre := users[..|users| - 1];
    if i < |users| - 1 {
      forall j | i < j < |pre| && Qualifies(pre[j], address) ensures pre[j].address != pre[i].address {
        assert pre[j] == users[j];
      }
      LastQualifyingEntryWins(address, pre, i);
    }
  }
}
