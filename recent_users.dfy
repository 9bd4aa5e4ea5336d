/** The recent-users list of packages/cli/src/commands/recent-users.tsx: the
    recent messagers and the online users merged by address into one `Map`,
    then one CSV line, for one key, per user whose key price is within the
    maximum. The two API responses are parameters. */
module RecentUsers {
  import opened Common

  const RecentColumns: seq<string> := ["address", "quantity", "price", "twitterUsername", "twitterName"]

  /** A user of either response; `ethDisplayPrice` is in wei. */
  datatype ApiUser = ApiUser(address: string, twitterUsername: string, twitterName: string, ethDisplayPrice: int)

  /** The value the command stores per address. */
  datatype Entry = Entry(twitterUsername: string, twitterName: string, keyPriceInEth: real)

  /** `Number(formatEther(…))`, without the rounding of a float. */
  function PriceInEth(wei: int): real
  {
    wei as real / 1000000000000000000.0
  }

  function EntryOf(u: ApiUser): Entry
  {
    Entry(u.twitterUsername, u.twitterName, PriceInEth(u.ethDisplayPrice))
  }

  /** The map the `users.set` loop builds from `list`. */
  function UsersOf(list: seq<ApiUser>): (m: OrderedMap<string, Entry>)
    ensures m.Valid()
  {
    if list == [] then EmptyMap()
    else UsersOf(list[..|list| - 1]).Put(list[|list| - 1].address, EntryOf(list[|list| - 1]))
  }

  /** One more user is one more `set` on the map. */
  lemma UsersOfNext(list: seq<ApiUser>, i: nat)
    requires i < |list|
    ensures UsersOf(list[..i + 1]) == UsersOf(list[..i]).Put(list[i].address, EntryOf(list[i]))
  {
    assert list[..i + 1][..i] == list[..i];
  }

  /** The loop over the recent messagers followed by the online users. */
  method CollectUsers(recentUsers: seq<ApiUser>, onlineUsers: seq<ApiUser>) returns (users: OrderedMap<string, Entry>)
    ensures users == UsersOf(recentUsers + onlineUsers)
  {
    var all := recentUsers + onlineUsers;
    users := EmptyMap();
    for i := 0 to |all|
      invariant users == UsersOf(all[..i])
    {
      UsersOfNext(all, i);
      var user := all[i];
      users := users.Put(user.address, Entry(user.twitterUsername, user.twitterName, PriceInEth(user.ethDisplayPrice)));
    }
    assert all[..|all|] == all;
  }

  /** An address is in the map exactly when some user has it. */
  lemma {:induction false} UsersOfDomain(list: seq<ApiUser>, a: string)
    ensures a in UsersOf(list).values <==> exists i :: 0 <= i < |list| && list[i].address == a
  {
    if list != [] {
      var pre := list[..|list| - 1];
      var last := list[|list| - 1];
      UsersOfDomain(pre, a);
      assert forall i :: 0 <= i < |pre| ==> pre[i] == list[i];
      if a == last.address {
        assert list[|list| - 1].address == a;
      } else if a in UsersOf(pre).values {
        var i :| 0 <= i < |pre| && pre[i].address == a;
        assert list[i].address == a;
      }
    }
  }

  /** The entry of an address in the map is that of the last user with it. */
  lemma {:induction false} UsersOfLast(list: seq<ApiUser>, i: nat)
    requires i < |list|
    requires forall j :: i < j < |list| ==> list[j].address != list[i].address
    ensures list[i].address in UsersOf(list).values
    ensures UsersOf(list).values[list[i].address] == EntryOf(list[i])
  {
    var pre := list[..|list| - 1];
    if i < |list| - 1 {
      assert pre[i] == list[i];
      forall j | i < j < |pre|
        ensures pre[j].address != pre[i].address
      {
        assert pre[j] == list[j];
      }
      UsersOfLast(pre, i);
    }
  }

  /** An online user overrides a recent messager with the same address: the
      entry is that of the last online user with the address. */
  lemma OnlineOverridesRecent(recentUsers: seq<ApiUser>, onlineUsers: seq<ApiUser>, k: nat)
    requires k < |onlineUsers|
    requires forall j :: k < j < |onlineUsers| ==> onlineUsers[j].address != onlineUsers[k].address
    ensures var users := UsersOf(recentUsers + onlineUsers).values;
            onlineUsers[k].address in users && users[onlineUsers[k].address] == EntryOf(onlineUsers[k])
  {
    var all := recentUsers + onlineUsers;
    var i := |recentUsers| + k;
    assert all[i] == onlineUsers[k];
    forall j | i < j < |all|
      ensures all[j].address != all[i].address
    {
      assert all[j] == onlineUsers[j - |recentUsers|];
    }
    UsersOfLast(all, i);
  }

  /** The addresses of `list`. */
  function AddressSet(list: seq<ApiUser>): set<string>
  {
    set u | u in list :: u.address
  }

  /** `usersNum` is the number of distinct addresses over both responses. */
  lemma UsersNumIsDistinctAddresses(recentUsers: seq<ApiUser>, onlineUsers: seq<ApiUser>)
    ensures UsersOf(recentUsers + onlineUsers).Size() == |AddressSet(recentUsers + onlineUsers)|
  {
    var all := recentUsers + onlineUsers;
    var m := UsersOf(all);
    DistinctCardinality(m.keys);
    forall a ensures a in m.keys <==> a in AddressSet(all) {
      UsersOfDomain(all, a);
      if a in AddressSet(all) {
        var u :| u in all && u.address == a;
      }
    }
    assert (set x | x in m.keys) == AddressSet(all);
  }

  // ---------------------------------------------------------------------
  // CSV rows

  /** One line: the user's address, one key, the price and the names. */
  datatype RecentRow = RecentRow(address: string, quantity: int, price: real, twitterUsername: string, twitterName: string)

  function RowOf(address: string, e: Entry): RecentRow
  {
    RecentRow(address, 1, e.keyPriceInEth, e.twitterUsername, e.twitterName)
  }

  /** The lines for the first `n` entries of the map, in its order. */
  function RecentRows(users: OrderedMap<string, Entry>, maxPrice: real, n: nat): (rows: seq<RecentRow>)
    requires users.Valid() && n <= users.Size()
    ensures |rows| <= n
  {
    if n == 0 then []
    else
      var a := users.keys[n - 1];
      var p := RecentRows(users, maxPrice, n - 1);
      if users.values[a].keyPriceInEth <= maxPrice then p + [RowOf(a, users.values[a])] else p
  }

  /** The `for … of users` loop: the header, then the lines of the users
      within the maximum price; the count excludes the header. */
  method BuildCsv(users: OrderedMap<string, Entry>, maxPrice: real)
    returns (csvData: seq<CsvLine<RecentRow>>, filteredUsersNum: int)
    requires users.Valid()
    ensures var rows := RecentRows(users, maxPrice, users.Size());
            && |csvData| == |rows| + 1
            && csvData[0] == HeaderLine(RecentColumns)
            && (forall i :: 0 <= i < |rows| ==> csvData[i + 1] == DataLine(rows[i]))
            && filteredUsersNum == |rows|
  {
    csvData := [HeaderLine(RecentColumns)];
    for i := 0 to |users.keys|
      invariant var rows := RecentRows(users, maxPrice, i);
                |csvData| == |rows| + 1 && csvData[0] == HeaderLine(RecentColumns)
                && forall k :: 0 <= k < |rows| ==> csvData[k + 1] == DataLine(rows[k])
    {
      var address := users.keys[i];
      var user := users.values[address];
      if user.keyPriceInEth <= maxPrice {
        csvData := csvData + [DataLine(RecentRow(address, 1, user.keyPriceInEth, user.twitterUsername, user.twitterName))];
      }
    }
    filteredUsersNum := |csvData| - 1;
  }

  /** A line is written exactly for each address in the map whose price is
      within the maximum, with quantity 1 and that address's entry. */
  lemma {:induction false} RecentRowsExactlyAffordable(users: OrderedMap<string, Entry>, maxPrice: real, n: nat,
                                                      r: RecentRow)
    requires users.Valid() && n <= users.Size()
    ensures r in RecentRows(users, maxPrice, n) <==>
              exists k :: 0 <= k < n && r == RowOf(users.keys[k], users.values[users.keys[k]])
                          && users.values[users.keys[k]].keyPriceInEth <= maxPrice
    ensures r in RecentRows(users, maxPrice, n) ==> r.quantity == 1 && r.price <= maxPrice
  {
    if n > 0 {
      RecentRowsExactlyAffordable(users, maxPrice, n - 1, r);
    }
  }
}
