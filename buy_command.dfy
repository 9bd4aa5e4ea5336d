/** Order preparation and the buying loop of packages/cli/src/commands/buy.tsx.
    The CSV rows arrive already parsed and, when `--shuffle` is on, already
    shuffled; user lookups, purchases and their failures are parameters. */
module BuyCommand {
  import opened Common
  import OrderCsv
  import BuyHelpers
  import OrderLoop

  const MinDelayBetweenBuys: int := 15

  /** `BuyOrder` as far as the decisions read it. An absent `owns` is
      `false`. */
  datatype BuyOrder = BuyOrder(
    address: string, quantity: Numeric, index: nat, owns: bool, user: Option<BuyHelpers.FormattedUser>)

  /** The orders `formatData` pushes for `rows`: one per row, indexed by
      position, with nothing owned or fetched yet. */
  function RowOrders(rows: seq<OrderCsv.CsvRow>): (r: seq<BuyOrder>)
    ensures |r| == |rows|
    ensures forall i :: 0 <= i < |rows| ==> r[i] == BuyOrder(rows[i].address, rows[i].quantity, i, false, None)
  {
    if rows == [] then []
    else
      var n := |rows| - 1;
      assert forall i :: 0 <= i < n ==> rows[..n][i] == rows[i];
      RowOrders(rows[..n]) + [BuyOrder(rows[n].address, rows[n].quantity, n, false, None)]
  }

  /** One more row pushes its order. */
  lemma RowOrdersNext(rows: seq<OrderCsv.CsvRow>, i: nat)
    requires i < |rows|
    ensures RowOrders(rows[..i + 1]) == RowOrders(rows[..i]) + [BuyOrder(rows[i].address, rows[i].quantity, i, false, None)]
  {
    assert rows[..i + 1][..i] == rows[..i];
  }

  /** `formatData`: one order per row, in row order, indexed by position,
      and the addresses that occur on more than one row. */
  method FormatData(rows: seq<OrderCsv.CsvRow>) returns (duplicatedOrders: seq<string>, orders: seq<BuyOrder>)
    ensures |orders| == |rows|
    ensures forall i :: 0 <= i < |rows| ==> orders[i] == BuyOrder(rows[i].address, rows[i].quantity, i, false, None)
    ensures duplicatedOrders == OrderCsv.Duplicates(OrderCsv.Addresses(rows))
  {
    ghost var addresses := OrderCsv.Addresses(rows);
    var ordersMap := EmptyMap<string, nat>();
    orders := [];
    for i := 0 to |rows|
      invariant ordersMap == OrderCsv.CountMap(addresses[..i])
      invariant orders == RowOrders(rows[..i])
    {
      OrderCsv.CountMapNext(addresses, i);
      RowOrdersNext(rows, i);
      ordersMap := OrderCsv.Bump(ordersMap, rows[i].address);
      orders := orders + [BuyOrder(rows[i].address, rows[i].quantity, i, false, None)];
    }
    assert addresses[..|rows|] == addresses;
    assert rows[..|rows|] == rows;
    duplicatedOrders := OrderCsv.CollectDuplicates(ordersMap);
  }

  datatype CsvError = EmptyFile | MissingColumn(column: string) | DuplicatedAddresses(addresses: seq<string>)

  datatype ParseResult = Parsed(orders: seq<BuyOrder>) | Failed(error: CsvError)

  /** The checks of the `parseCsv` step, in their order. `columns` are the
      keys of the first row. */
  method ParseCsv(columns: seq<string>, rows: seq<OrderCsv.CsvRow>) returns (r: ParseResult)
    ensures r.Parsed? <==> |rows| > 0 && "address" in columns && "quantity" in columns && Distinct(OrderCsv.Addresses(rows))
    ensures r == Failed(EmptyFile) <==> |rows| == 0
    ensures r.Failed? && r.error.DuplicatedAddresses? ==>
              forall a :: a in r.error.addresses <==> Count(OrderCsv.Addresses(rows), a) > 1
    ensures r.Parsed? ==> |r.orders| == |rows| && forall i :: 0 <= i < |rows| ==> r.orders[i].address == rows[i].address
  {
    if |rows| == 0 {
      return Failed(EmptyFile);
    }
    if "address" !in columns {
      return Failed(MissingColumn("address"));
    }
    if "quantity" !in columns {
      return Failed(MissingColumn("quantity"));
    }
    var duplicatedOrders, orders := FormatData(rows);
    OrderCsv.NoDuplicatesIffDistinct(OrderCsv.Addresses(rows));
    if |duplicatedOrders| > 0 {
      forall a ensures a in duplicatedOrders <==> Count(OrderCsv.Addresses(rows), a) > 1 {
        OrderCsv.DuplicatesExactly(OrderCsv.Addresses(rows), a);
      }
      return Failed(DuplicatedAddresses(duplicatedOrders));
    }
    return Parsed(orders);
  }

  /** `shouldSkip`: an order goes ahead only when the key is not owned yet
      and the user was fetched with a price within the limit. */
  predicate ShouldSkip(order: BuyOrder, maxPrice: real): (r: bool)
    ensures !r ==> !order.owns && order.user.Some? && order.user.value.keyPriceInEth <= maxPrice
    ensures order.owns ==> r
  {
    order.owns || order.user.None? || order.user.value.keyPriceInEth > maxPrice
  }

  datatype SkipReason = AlreadyOwnTheKey | CouldNotGetThePrice | PriceHigherThan(maxPrice: real) | UnknownReason

  /** `getSkipReason`: owned first, then the missing user, then the price. */
  function GetSkipReason(order: BuyOrder, maxPrice: real): (reason: SkipReason)
    ensures reason == UnknownReason <==> !ShouldSkip(order, maxPrice)
    ensures reason == AlreadyOwnTheKey <==> order.owns
    ensures reason == CouldNotGetThePrice <==> !order.owns && order.user.None?
    ensures reason.PriceHigherThan? ==> reason.maxPrice == maxPrice && order.user.value.keyPriceInEth > maxPrice
  {
    if order.owns then AlreadyOwnTheKey
    else if order.user.None? then CouldNotGetThePrice
    else if order.user.value.keyPriceInEth > maxPrice then PriceHigherThan(maxPrice)
    else UnknownReason
  }

  /** The orders as the transaction loop sees them. */
  function LoopOrders(orders: seq<BuyOrder>, maxPrice: real): (r: seq<OrderLoop.LoopOrder>)
    ensures |r| == |orders|
    ensures forall i :: 0 <= i < |orders| ==>
              r[i] == OrderLoop.LoopOrder(orders[i].address, orders[i].quantity, orders[i].index, ShouldSkip(orders[i], maxPrice))
  {
    seq(|orders|, i requires 0 <= i < |orders| =>
      OrderLoop.LoopOrder(orders[i].address, orders[i].quantity, orders[i].index, ShouldSkip(orders[i], maxPrice)))
  }

  /** The `numKeys` loop of the `printOrders` log entry: the quantities of
      the orders that are not skipped, added with JavaScript's `+`. */
  method CountKeysToBuy(orders: seq<BuyOrder>, maxPrice: real) returns (numKeys: Numeric)
    ensures numKeys == OrderLoop.SumQuantities(OrderLoop.Kept(LoopOrders(orders, maxPrice)))
  {
    ghost var loopOrders := LoopOrders(orders, maxPrice);
    numKeys := Num(0);
    for i := 0 to |orders|
      invariant numKeys == OrderLoop.SumQuantities(OrderLoop.Kept(loopOrders[..i]))
    {
      OrderLoop.SumKeptNext(loopOrders, i);
      assert loopOrders[i].skip == ShouldSkip(orders[i], maxPrice) && loopOrders[i].quantity == orders[i].quantity;
      if !ShouldSkip(orders[i], maxPrice) {
        numKeys := numKeys.Plus(orders[i].quantity);
      }
    }
    assert loopOrders[..|orders|] == loopOrders;
  }

  /** The `for` loop of the `buying` step (after its initial two-second
      pause): the shared transaction loop, where `shouldSkip` decides which
      orders are passed over and the last index is `orders.length - 1`.
      `failed[i]` says whether buying order `i` throws, in `buy` or while
      waiting for the receipt. */
  method StartBuys(orders: seq<BuyOrder>, maxPrice: real, delay: int, failed: seq<bool>)
    returns (steps: seq<OrderLoop.Step>)
    requires |failed| == |orders|
    ensures steps == OrderLoop.Steps(LoopOrders(orders, maxPrice), |orders| - 1, delay, failed, |orders|)
  {
    steps := OrderLoop.RunLoop(LoopOrders(orders, maxPrice), |orders| - 1, delay, failed);
  }

  /** Exactly the orders that are not skipped are bought, in order, with
      their quantities, whatever fails. */
  lemma BuysExactlyTheUnskipped(orders: seq<BuyOrder>, maxPrice: real, delay: int, failed: seq<bool>)
    requires |failed| == |orders|
    ensures var loopOrders := LoopOrders(orders, maxPrice);
            && OrderLoop.Sends(OrderLoop.Steps(loopOrders, |orders| - 1, delay, failed, |orders|))
               == OrderLoop.Pairs(OrderLoop.Kept(loopOrders))
            && forall o :: o in OrderLoop.Kept(loopOrders) ==> !o.skip && o in loopOrders
  {
    var loopOrders := LoopOrders(orders, maxPrice);
    OrderLoop.RunSends(loopOrders, |orders| - 1, delay, failed);
    forall o | o in OrderLoop.Kept(loopOrders) ensures !o.skip && o in loopOrders {
      OrderLoop.KeptMembers(loopOrders, o);
    }
  }

  /** With the indices that `formatData` assigns, the loop pauses once
      after each bought order except after the last order of the file. */
  lemma BuyPauses(orders: seq<BuyOrder>, maxPrice: real, delay: int, failed: seq<bool>)
    requires |failed| == |orders| > 0
    requires forall i :: 0 <= i < |orders| ==> orders[i].index == i
    ensures var loopOrders := LoopOrders(orders, maxPrice);
            OrderLoop.Pauses(OrderLoop.Steps(loopOrders, |orders| - 1, delay, failed, |orders|))
            == |OrderLoop.Kept(loopOrders[..|orders| - 1])|
  {
    var loopOrders := LoopOrders(orders, maxPrice);
    forall i | 0 <= i < |loopOrders| ensures loopOrders[i].index == i + 0 {
    }
    OrderLoop.RunPauses(loopOrders, 0, delay, failed);
    assert |orders| - 1 + 0 == |orders| - 1;
  }

  datatype DelayResult = DelayAccepted(seconds: int) | InvalidDelay | DelayTooSmall

  /** The delay prompt: `value` is `Number(input without a trailing "s")`. */
  function CheckDelay(value: Numeric): (r: DelayResult)
    ensures r.DelayAccepted? <==> value.Num? && value.value >= MinDelayBetweenBuys
    ensures r.DelayAccepted? ==> r.seconds == value.value && r.seconds >= MinDelayBetweenBuys
    ensures r == InvalidDelay <==> value.NaN?
  {
    if value.NaN? then InvalidDelay
    else if value.value < MinDelayBetweenBuys then DelayTooSmall
    else DelayAccepted(value.value)
  }
}
