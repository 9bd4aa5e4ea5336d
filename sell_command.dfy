/** Order preparation and the selling loop of packages/cli/src/commands/sell.tsx.
    The CSV rows arrive already parsed and, when `--shuffle` is on, already
    shuffled; balances, user lookups and transaction failures are
    parameters. */
module SellCommand {
  import opened Common
  import OrderCsv
  import BuyHelpers
  import OrderLoop

  /** `SellOrder` as far as the decisions read it: `currentlyOwns` is absent
      until the balance has been fetched. */
  datatype SellOrder = SellOrder(
    address: string, quantity: int, index: nat, currentlyOwns: Option<int>, user: Option<BuyHelpers.FormattedUser>)

  /** `Number(order.quantity) || 1`: a falsy quantity (0 or NaN) becomes 1. */
  function DefaultQuantity(q: Numeric): (r: int)
    ensures r != 0
    ensures q.Num? && q.value != 0 ==> r == q.value
    ensures q.NaN? || q == Num(0) ==> r == 1
  {
    if q.Truthy() then q.value else 1
  }

  /** The orders `formatData` pushes for `rows`: one per row, indexed by
      position, with the quantity defaulted and nothing fetched yet. */
  function RowOrders(rows: seq<OrderCsv.CsvRow>): (r: seq<SellOrder>)
    ensures |r| == |rows|
    ensures forall i :: 0 <= i < |rows| ==>
              r[i] == SellOrder(rows[i].address, DefaultQuantity(rows[i].quantity), i, None, None)
  {
    if rows == [] then []
    else
      var n := |rows| - 1;
      assert forall i :: 0 <= i < n ==> rows[..n][i] == rows[i];
      RowOrders(rows[..n]) + [SellOrder(rows[n].address, DefaultQuantity(rows[n].quantity), n, None, None)]
  }

  /** One more row pushes its order. */
  lemma RowOrdersNext(rows: seq<OrderCsv.CsvRow>, i: nat)
    requires i < |rows|
    ensures RowOrders(rows[..i + 1]) == RowOrders(rows[..i]) + [SellOrder(rows[i].address, DefaultQuantity(rows[i].quantity), i, None, None)]
  {
    assert rows[..i + 1][..i] == rows[..i];
  }

  /** `formatData`: one order per row, in row order, indexed by position,
      with the defaulted quantity, and the addresses that occur on more than
      one row. */
  method FormatData(rows: seq<OrderCsv.CsvRow>) returns (duplicatedOrders: seq<string>, orders: seq<SellOrder>)
    ensures |orders| == |rows|
    ensures forall i :: 0 <= i < |rows| ==>
              orders[i] == SellOrder(rows[i].address, DefaultQuantity(rows[i].quantity), i, None, None)
    ensures duplicatedOrders == OrderCsv.Duplicates(OrderCsv.Addresses(rows))
  {
    ghost var addresses := OrderCsv.Addresses(rows);
    var ordersMap := EmptyMap<string, nat>();
    orders := [];
    for i := 0 to |rows|
      invariant ordersMap == OrderCsv.CountMap(addresses[..i])
      invariant orders == RowOrders(rows[..i])
    {
      OrderCsv.CountMapNext(addresses, i);
      RowOrdersNext(rows, i);
      ordersMap := OrderCsv.Bump(ordersMap, rows[i].address);
      var quantity := DefaultQuantity(rows[i].quantity);
      orders := orders + [SellOrder(rows[i].address, quantity, i, None, None)];
    }
    assert addresses[..|rows|] == addresses;
    assert rows[..|rows|] == rows;
    duplicatedOrders := OrderCsv.CollectDuplicates(ordersMap);
  }

  datatype CsvError = EmptyFile | MissingAddressColumn | DuplicatedAddresses(addresses: seq<string>)

  datatype ParseResult = Parsed(orders: seq<SellOrder>) | Failed(error: CsvError)

  /** The checks of the `parseCsv` step, in their order. Unlike `buy`, a
      missing `quantity` column is accepted: every quantity is then 1. */
  method ParseCsv(columns: seq<string>, rows: seq<OrderCsv.CsvRow>) returns (r: ParseResult)
    ensures r.Parsed? <==> |rows| > 0 && "address" in columns && Distinct(OrderCsv.Addresses(rows))
    ensures r == Failed(EmptyFile) <==> |rows| == 0
    ensures r.Failed? && r.error.DuplicatedAddresses? ==>
              forall a :: a in r.error.addresses <==> Count(OrderCsv.Addresses(rows), a) > 1
    ensures r.Parsed? ==> |r.orders| == |rows|
    ensures r.Parsed? ==> forall i :: 0 <= i < |rows| ==> r.orders[i].address == rows[i].address && r.orders[i].quantity != 0
  {
    if |rows| == 0 {
      return Failed(EmptyFile);
    }
    if "address" !in columns {
      return Failed(MissingAddressColumn);
    }
    var duplicatedOrders, orders := FormatData(rows);
    OrderCsv.NoDuplicatesIffDistinct(OrderCsv.Addresses(rows));
    if |duplicatedOrders| > 0 {
      forall a ensures a in duplicatedOrders <==> Count(OrderCsv.Addresses(rows), a) > 1 {
        OrderCsv.DuplicatesExactly(OrderCsv.Addresses(rows), a);
      }
      return Failed(DuplicatedAddresses(duplicatedOrders));
    }
    return Parsed(orders);
  }

  /** `shouldSkip`: the balance is unknown, or the order asks for more keys
      than are held. */
  predicate ShouldSkip(order: SellOrder): (r: bool)
    ensures !r ==> order.currentlyOwns.Some? && order.quantity <= order.currentlyOwns.value
    ensures order.currentlyOwns == Some(0) && order.quantity > 0 ==> r
  {
    order.currentlyOwns.None? || order.quantity > order.currentlyOwns.value
  }

  /** The guard of the `prepareOrders` step: some order already carries a
      balance. */
  predicate HasBalances(orders: seq<SellOrder>)
  {
    exists i :: 0 <= i < |orders| && orders[i].currentlyOwns.Some?
  }

  /** The orders after `prepareOrders`. `balances[i]` is the fetched balance
      of order `i`, `None` when the fetch throws; the user is looked up only
      after a balance arrived, and `users[i]` is `None` when that lookup
      fails. */
  function Prepare(orders: seq<SellOrder>, balances: seq<Option<int>>, users: seq<Option<BuyHelpers.FormattedUser>>)
    : (r: seq<SellOrder>)
    requires |balances| == |users| == |orders|
    ensures |r| == |orders|
    ensures forall i :: 0 <= i < |orders| ==>
              && r[i].address == orders[i].address && r[i].quantity == orders[i].quantity && r[i].index == orders[i].index
              && r[i].currentlyOwns == (if balances[i].Some? then balances[i] else orders[i].currentlyOwns)
    ensures HasBalances(orders) || (exists i :: 0 <= i < |balances| && balances[i].Some?) <==> HasBalances(r)
  {
    seq(|orders|, i requires 0 <= i < |orders| =>
      if balances[i].None? then orders[i]
      else orders[i].(currentlyOwns := balances[i], user := if users[i].Some? then users[i] else orders[i].user))
  }

  /** Preparing keeps every order's address, quantity and index; an order
      whose balance could not be fetched is unchanged, and every other order
      carries its balance and, when the lookup succeeded, its user. */
  lemma PrepareKeepsOrders(orders: seq<SellOrder>, balances: seq<Option<int>>,
                           users: seq<Option<BuyHelpers.FormattedUser>>, i: nat)
    requires |balances| == |users| == |orders| && i < |orders|
    ensures var o := Prepare(orders, balances, users)[i];
            && o.address == orders[i].address && o.quantity == orders[i].quantity && o.index == orders[i].index
            && (balances[i].None? ==> o == orders[i])
            && (balances[i].Some? ==> o.currentlyOwns == balances[i])
            && (balances[i].Some? && users[i].Some? ==> o.user == users[i])
  {
  }

  /** After preparing fresh orders, the guard holds exactly when some
      balance arrived; an order whose balance did not arrive is skipped. */
  lemma PrepareSetsGuard(orders: seq<SellOrder>, balances: seq<Option<int>>,
                         users: seq<Option<BuyHelpers.FormattedUser>>)
    requires |balances| == |users| == |orders|
    requires !HasBalances(orders)
    ensures HasBalances(Prepare(orders, balances, users)) <==> exists i :: 0 <= i < |balances| && balances[i].Some?
    ensures forall i :: 0 <= i < |orders| && balances[i].None? ==> ShouldSkip(Prepare(orders, balances, users)[i])
  {
    var r := Prepare(orders, balances, users);
    if exists i :: 0 <= i < |balances| && balances[i].Some? {
      var i :| 0 <= i < |balances| && balances[i].Some?;
      assert r[i].currentlyOwns.Some?;
    }
    if HasBalances(r) {
      var i :| 0 <= i < |r| && r[i].currentlyOwns.Some?;
      assert balances[i].Some?;
    }
  }

  /** The `sell` command's order list, which `prepareOrders` updates in
      place. */
  class SellSession {
    var orders: seq<SellOrder>

    constructor (orders: seq<SellOrder>)
      ensures this.orders == orders
    {
      this.orders := orders;
    }

    /** The `prepareOrders` step: it does nothing once some order carries a
        balance, so it runs at most once whenever a balance arrives. */
    method PrepareOrders(balances: seq<Option<int>>, users: seq<Option<BuyHelpers.FormattedUser>>)
      requires |balances| == |users| == |orders|
      modifies this
      ensures HasBalances(old(orders)) ==> orders == old(orders)
      ensures !HasBalances(old(orders)) ==> orders == Prepare(old(orders), balances, users)
    {
      if exists i :: 0 <= i < |orders| && orders[i].currentlyOwns.Some? {
        return;
      }
      var updated := [];
      for i := 0 to |orders|
        invariant |updated| == i
        invariant forall k :: 0 <= k < i ==> updated[k] == Prepare(orders, balances, users)[k]
      {
        var o := orders[i];
        if balances[i].Some? {
          o := o.(currentlyOwns := balances[i]);
          if users[i].Some? {
            o := o.(user := users[i]);
          }
        }
        updated := updated + [o];
      }
      orders := updated;
    }
  }

  /** A second `prepareOrders` after one in which some balance arrived
      changes nothing. */
  lemma PrepareOrdersRunsOnce(orders: seq<SellOrder>, balances: seq<Option<int>>,
                              users: seq<Option<BuyHelpers.FormattedUser>>)
    requires |balances| == |users| == |orders|
    requires !HasBalances(orders)
    requires exists i :: 0 <= i < |balances| && balances[i].Some?
    ensures HasBalances(Prepare(orders, balances, users))
  {
    PrepareSetsGuard(orders, balances, users);
  }

  /** The orders as the transaction loop sees them. */
  function LoopOrders(orders: seq<SellOrder>): (r: seq<OrderLoop.LoopOrder>)
    ensures |r| == |orders|
    ensures forall i :: 0 <= i < |orders| ==>
              r[i] == OrderLoop.LoopOrder(orders[i].address, Num(orders[i].quantity), orders[i].index, ShouldSkip(orders[i]))
  {
    seq(|orders|, i requires 0 <= i < |orders| =>
      OrderLoop.LoopOrder(orders[i].address, Num(orders[i].quantity), orders[i].index, ShouldSkip(orders[i])))
  }

  /** One more order adds its quantity to the tally exactly when it is not
      skipped. */
  lemma KeysToSellNext(orders: seq<SellOrder>, i: nat, numKeys: int)
    requires i < |orders|
    requires Num(numKeys) == OrderLoop.SumQuantities(OrderLoop.Kept(LoopOrders(orders)[..i]))
    ensures Num(if ShouldSkip(orders[i]) then numKeys else numKeys + orders[i].quantity)
            == OrderLoop.SumQuantities(OrderLoop.Kept(LoopOrders(orders)[..i + 1]))
  {
    var loopOrders := LoopOrders(orders);
    OrderLoop.SumKeptNext(loopOrders, i);
    assert loopOrders[i].skip == ShouldSkip(orders[i]) && loopOrders[i].quantity == Num(orders[i].quantity);
  }

  /** The `numKeys` loop of the `printOrders` log entry. */
  method CountKeysToSell(orders: seq<SellOrder>) returns (numKeys: int)
    ensures Num(numKeys) == OrderLoop.SumQuantities(OrderLoop.Kept(LoopOrders(orders)))
  {
    numKeys := 0;
    for i := 0 to |orders|
      invariant Num(numKeys) == OrderLoop.SumQuantities(OrderLoop.Kept(LoopOrders(orders)[..i]))
    {
      KeysToSellNext(orders, i, numKeys);
      if !ShouldSkip(orders[i]) {
        numKeys := numKeys + orders[i].quantity;
      }
    }
    assert LoopOrders(orders)[..|orders|] == LoopOrders(orders);
  }

  /** The `for` loop of the `selling` step (after its initial two-second
      pause): the shared transaction loop, where `shouldSkip` decides which
      orders are passed over and the last index is `orders.length - 1`. */
  method StartSells(orders: seq<SellOrder>, delay: int, failed: seq<bool>) returns (steps: seq<OrderLoop.Step>)
    requires |failed| == |orders|
    ensures steps == OrderLoop.Steps(LoopOrders(orders), |orders| - 1, delay, failed, |orders|)
  {
    steps := OrderLoop.RunLoop(LoopOrders(orders), |orders| - 1, delay, failed);
  }

  /** Every sale the loop sends is that of an order whose balance is known
      and at least the quantity sold, and exactly the orders that are not
      skipped are sold, whatever fails. */
  lemma SellsOnlyWhatIsHeld(orders: seq<SellOrder>, delay: int, failed: seq<bool>)
    requires |failed| == |orders|
    ensures var sends := OrderLoop.Sends(OrderLoop.Steps(LoopOrders(orders), |orders| - 1, delay, failed, |orders|));
            && sends == OrderLoop.Pairs(OrderLoop.Kept(LoopOrders(orders)))
            && forall k :: 0 <= k < |sends| ==>
                 exists i :: 0 <= i < |orders| && sends[k] == (orders[i].address, Num(orders[i].quantity))
                             && orders[i].currentlyOwns.Some? && orders[i].quantity <= orders[i].currentlyOwns.value
  {
    var loopOrders := LoopOrders(orders);
    OrderLoop.RunSends(loopOrders, |orders| - 1, delay, failed);
    var kept := OrderLoop.Kept(loopOrders);
    var sends := OrderLoop.Pairs(kept);
    forall k | 0 <= k < |sends|
      ensures exists i :: 0 <= i < |orders| && sends[k] == (orders[i].address, Num(orders[i].quantity))
                          && orders[i].currentlyOwns.Some? && orders[i].quantity <= orders[i].currentlyOwns.value
    {
      OrderLoop.KeptMembers(loopOrders, kept[k]);
      var i :| 0 <= i < |loopOrders| && loopOrders[i] == kept[k];
      assert !ShouldSkip(orders[i]);
    }
  }

  /** With the indices `formatData` assigns, the selling loop pauses once
      after each sold order except after the last order of the file. */
  lemma SellPauses(orders: seq<SellOrder>, delay: int, failed: seq<bool>)
    requires |failed| == |orders| > 0
    requires forall i :: 0 <= i < |orders| ==> orders[i].index == i
    ensures OrderLoop.Pauses(OrderLoop.Steps(LoopOrders(orders), |orders| - 1, delay, failed, |orders|))
            == |OrderLoop.Kept(LoopOrders(orders)[..|orders| - 1])|
  {
    var loopOrders := LoopOrders(orders);
    forall i | 0 <= i < |loopOrders| ensures loopOrders[i].index == i + 0 {
    }
    OrderLoop.RunPauses(loopOrders, 0, delay, failed);
    assert |orders| - 1 + 0 == |orders| - 1;
  }
}
