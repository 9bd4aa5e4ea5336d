/** The `nuke` command of packages/cli/src/commands/nuke.tsx: the
    confirmation gate in front of it, the key count shown before the last
    confirmation, one sell order per holding, and the selling loop. The
    holdings come from `getUserTokenHoldings` (module BuyHelpers). */
module Nuke {
  import opened Common
  import BuyHelpers
  import OrderLoop

  // ---------------------------------------------------------------------
  // The confirmation gate
  // ---------------------------------------------------------------------

  datatype NukeStep = AskForConfirmation | PreparingKeys | FinalConfirmation | SellingKeys

  /** The component state the gate reads and writes: `step`,
      `confirmation` and `error`. Once an error is set only the error is
      rendered, so no input can change the state any more. */
  datatype Gate = Gate(step: NukeStep, confirmation: nat, error: Option<string>)

  /** What the user or the holdings fetch does. */
  datatype Event = Confirm | Cancel | SubmitAddress(value: string) | KeysLoaded | KeysFailed(message: string)

  const Phew: string := "😅 Phew! That was close!"
  const WrongWalletAddress: string := "Wrong wallet address"

  /** The gate once a wallet has been chosen. */
  const Start: Gate := Gate(AskForConfirmation, 0, None)

  /** One event. While `confirmation < 2` a yes/no prompt is shown; at 2 the
      wallet address must be typed exactly; then the holdings are loaded and
      a final yes/no prompt starts the selling. An event the current step
      shows no input for changes nothing. */
  function Next(g: Gate, e: Event, walletAddress: string): (r: Gate)
    ensures g.error.Some? ==> r == g
    ensures g.error.None? && e == Cancel && (g.step == FinalConfirmation || (g.step == AskForConfirmation && g.confirmation < 2))
            ==> r.error == Some(Phew)
    ensures g.error.None? && g.step == AskForConfirmation && g.confirmation == 2 && e.SubmitAddress? && e.value != walletAddress
            ==> r == g.(error := Some(WrongWalletAddress))
    ensures r.step == PreparingKeys && g.step != PreparingKeys ==>
              g.step == AskForConfirmation && g.confirmation == 2 && e == SubmitAddress(walletAddress) && r.error.None?
    ensures r.step == SellingKeys && g.step != SellingKeys ==> g.step == FinalConfirmation && e == Confirm && r.error.None?
    ensures r.step == FinalConfirmation && g.step != FinalConfirmation ==> g.step == PreparingKeys && e == KeysLoaded
    ensures r.step == AskForConfirmation ==> g.step == AskForConfirmation && g.confirmation <= r.confirmation <= g.confirmation + 1
    ensures r.confirmation <= 2 || r.confirmation == g.confirmation
  {
    if g.error.Some? then g
    else
      match g.step
      case AskForConfirmation =>
        if g.confirmation < 2 then
          (match e
           case Confirm => g.(confirmation := g.confirmation + 1)
           case Cancel => g.(error := Some(Phew))
           case _ => g)
        else if g.confirmation == 2 then
          (match e
           case SubmitAddress(value) =>
             if value != walletAddress then g.(error := Some(WrongWalletAddress)) else g.(step := PreparingKeys)
           case _ => g)
        else g
      case PreparingKeys =>
        (match e
         case KeysLoaded => g.(step := FinalConfirmation)
         case KeysFailed(message) => g.(error := Some(message))
         case _ => g)
      case FinalConfirmation =>
        (match e
         case Confirm => g.(step := SellingKeys)
         case Cancel => g.(error := Some(Phew))
         case _ => g)
      case SellingKeys => g
  }

  /** The gate after the first `n` events. */
  function Run(events: seq<Event>, walletAddress: string, n: nat): (r: Gate)
    requires n <= |events|
    ensures r.confirmation <= 2
    ensures r.step != AskForConfirmation ==> r.confirmation == 2
    ensures n == 0 ==> r == Start
  {
    if n == 0 then Start else Next(Run(events, walletAddress, n - 1), events[n - 1], walletAddress)
  }

  /** What the gate keeps true along any run: while asking, the number of
      confirmations given is at most two and at most the confirms so far;
      past the question, the wallet address was typed exactly at some
      point, after at least two confirms. */
  ghost predicate GateInvariant(g: Gate, events: seq<Event>, walletAddress: string)
  {
    && (g.step == AskForConfirmation ==> g.confirmation <= 2 && g.confirmation <= Count(events, Confirm))
    && (g.step != AskForConfirmation ==>
          exists j :: 0 <= j < |events| && events[j] == SubmitAddress(walletAddress) && Count(events[..j], Confirm) >= 2)
  }

  /** Every run keeps the gate invariant. */
  lemma {:induction false} RunKeepsInvariant(events: seq<Event>, walletAddress: string, n: nat)
    requires n <= |events|
    ensures GateInvariant(Run(events, walletAddress, n), events[..n], walletAddress)
  {
    if n > 0 {
      RunKeepsInvariant(events, walletAddress, n - 1);
      var g := Run(events, walletAddress, n - 1);
      var e := events[n - 1];
      var pre := events[..n - 1];
      assert events[..n] == pre + [e];
      assert events[..n][..n - 1] == pre;
      var r := Next(g, e, walletAddress);
      if r.step != AskForConfirmation {
        if g.step != AskForConfirmation {
          var j :| 0 <= j < |pre| && pre[j] == SubmitAddress(walletAddress) && Count(pre[..j], Confirm) >= 2;
          assert events[..n][j] == pre[j];
          assert events[..n][..j] == pre[..j];
        } else {
          assert e == SubmitAddress(walletAddress);
          assert events[..n][n - 1] == e;
        }
      }
    } else {
      assert Count(events[..0], Confirm) == 0;
    }
  }

  /** The keys are loaded, and the selling started, only after two
      confirmations followed by the exact wallet address. */
  lemma GatePassedOnlyAfterTwoConfirmsAndAddress(events: seq<Event>, walletAddress: string)
    requires Run(events, walletAddress, |events|).step != AskForConfirmation
    ensures exists j :: 0 <= j < |events| && events[j] == SubmitAddress(walletAddress) && Count(events[..j], Confirm) >= 2
  {
    RunKeepsInvariant(events, walletAddress, |events|);
    assert events[..|events|] == events;
  }

  /** Once a wrong address has been typed, no later event sells anything:
      the error stays and the step never leaves the question. */
  lemma {:induction false} WrongAddressIsFinal(events: seq<Event>, walletAddress: string, k: nat, n: nat)
    requires k < n <= |events|
    requires Run(events, walletAddress, k) == Gate(AskForConfirmation, 2, None)
    requires events[k].SubmitAddress? && events[k].value != walletAddress
    ensures Run(events, walletAddress, n) == Gate(AskForConfirmation, 2, Some(WrongWalletAddress))
  {
    if n > k + 1 {
      WrongAddressIsFinal(events, walletAddress, k, n - 1);
    }
  }

  // ---------------------------------------------------------------------
  // Counting keys and building the orders
  // ---------------------------------------------------------------------

  /** The balances of the holdings listed in `keys`, added up. */
  function TotalBalance(keys: seq<string>, values: map<string, BuyHelpers.Holding>): int
    requires forall i :: 0 <= i < |keys| ==> keys[i] in values
  {
    if keys == [] then 0 else TotalBalance(keys[..|keys| - 1], values) + values[keys[|keys| - 1]].balance
  }

  /** `countKeys`: the balances of all holdings, in the map's order. */
  method CountKeys(users: OrderedMap<string, BuyHelpers.Holding>) returns (keys: int)
    requires users.Valid()
    ensures keys == TotalBalance(users.keys, users.values)
  {
    var entries := users.Entries();
    keys := 0;
    for i := 0 to |entries|
      invariant keys == TotalBalance(users.keys[..i], users.values)
    {
      assert users.keys[..i + 1][..i] == users.keys[..i];
      var (_, holding) := entries[i];
      keys := keys + holding.balance;
    }
    assert users.keys[..|entries|] == users.keys;
  }

  /** No holdings, no keys; holdings with positive balances (as
      `getUserTokenHoldings` returns them) add up to at least one key per
      holding. */
  lemma {:induction false} TotalBalanceBounds(keys: seq<string>, values: map<string, BuyHelpers.Holding>)
    requires forall i :: 0 <= i < |keys| ==> keys[i] in values
    ensures keys == [] ==> TotalBalance(keys, values) == 0
    ensures (forall i :: 0 <= i < |keys| ==> values[keys[i]].balance > 0) ==> TotalBalance(keys, values) >= |keys|
  {
    if keys != [] {
      TotalBalanceBounds(keys[..|keys| - 1], values);
    }
  }

  /** A `nuke` sell order. */
  datatype NukeOrder = NukeOrder(address: string, quantity: int, twitterName: string, index: int)

  /** The orders built from the holdings' entries: one per holding, in the
      map's order, selling its whole balance, numbered from 1. */
  function NukeOrders(users: OrderedMap<string, BuyHelpers.Holding>): (orders: seq<NukeOrder>)
    requires users.Valid()
    ensures |orders| == users.Size()
    ensures forall i :: 0 <= i < |orders| ==>
              && orders[i].address == users.keys[i]
              && orders[i].quantity == users.values[users.keys[i]].balance
              && orders[i].twitterName == users.values[users.keys[i]].twitterName
              && orders[i].index == i + 1
  {
    seq(|users.keys|, i requires 0 <= i < |users.keys| =>
      NukeOrder(users.keys[i], users.values[users.keys[i]].balance, users.values[users.keys[i]].twitterName, i + 1))
  }

  /** The orders as the transaction loop sees them: none is skipped. */
  function LoopOrders(orders: seq<NukeOrder>): (r: seq<OrderLoop.LoopOrder>)
    ensures |r| == |orders|
    ensures forall i :: 0 <= i < |orders| ==>
              r[i] == OrderLoop.LoopOrder(orders[i].address, Num(orders[i].quantity), orders[i].index, false)
  {
    seq(|orders|, i requires 0 <= i < |orders| =>
      OrderLoop.LoopOrder(orders[i].address, Num(orders[i].quantity), orders[i].index, false))
  }

  lemma {:induction false} KeptNothingSkipped(orders: seq<OrderLoop.LoopOrder>)
    requires forall i :: 0 <= i < |orders| ==> !orders[i].skip
    ensures OrderLoop.Kept(orders) == orders
  {
    if orders != [] {
      KeptNothingSkipped(orders[..|orders| - 1]);
      assert orders == orders[..|orders| - 1] + [orders[|orders| - 1]];
    }
  }

  /** The loop passes over none of the `nuke` orders. */
  lemma LoopOrdersAllKept(orders: seq<NukeOrder>)
    ensures OrderLoop.Kept(LoopOrders(orders)) == LoopOrders(orders)
  {
    KeptNothingSkipped(LoopOrders(orders));
  }

  lemma {:induction false} SumOfNukeOrders(users: OrderedMap<string, BuyHelpers.Holding>, n: nat)
    requires users.Valid() && n <= |users.keys|
    ensures OrderLoop.SumQuantities(LoopOrders(NukeOrders(users))[..n]) == Num(TotalBalance(users.keys[..n], users.values))
  {
    if n > 0 {
      SumOfNukeOrders(users, n - 1);
      var lo := LoopOrders(NukeOrders(users));
      assert lo[..n][..n - 1] == lo[..n - 1];
      assert users.keys[..n][..n - 1] == users.keys[..n - 1];
    }
  }

  /** The quantities of all the orders add up to all the balances. */
  lemma SumOfAllNukeOrders(users: OrderedMap<string, BuyHelpers.Holding>)
    requires users.Valid()
    ensures OrderLoop.SumQuantities(LoopOrders(NukeOrders(users))) == Num(TotalBalance(users.keys, users.values))
  {
    var lo := LoopOrders(NukeOrders(users));
    SumOfNukeOrders(users, |users.keys|);
    assert lo[..|users.keys|] == lo;
    assert users.keys[..|users.keys|] == users.keys;
  }

  /** The count shown before the final confirmation is the number of keys
      the orders sell. */
  lemma CountMatchesOrders(users: OrderedMap<string, BuyHelpers.Holding>)
    requires users.Valid()
    ensures OrderLoop.SumQuantities(OrderLoop.Kept(LoopOrders(NukeOrders(users)))) == Num(TotalBalance(users.keys, users.values))
  {
    LoopOrdersAllKept(NukeOrders(users));
    SumOfAllNukeOrders(users);
  }

  // ---------------------------------------------------------------------
  // The selling loop
  // ---------------------------------------------------------------------

  /** The `for` loop of the `sellingKeys` step as written: it pauses after
      every order whose index is not `orders.length - 1`. With indices
      numbered from 1, that spares the next-to-last order instead of the
      last one. Unlike the `sell` loop it skips nothing: every order is
      sent, in order, whatever fails. */
  method SellAllKeysAsWritten(orders: seq<NukeOrder>, delay: int, failed: seq<bool>) returns (steps: seq<OrderLoop.Step>)
    requires |failed| == |orders|
    ensures steps == OrderLoop.Steps(LoopOrders(orders), |orders| - 1, delay, failed, |orders|)
    ensures OrderLoop.Sends(steps) == OrderLoop.Pairs(LoopOrders(orders))
  {
    steps := OrderLoop.RunLoop(LoopOrders(orders), |orders| - 1, delay, failed);
    OrderLoop.RunSends(LoopOrders(orders), |orders| - 1, delay, failed);
    LoopOrdersAllKept(orders);
  }

  /** As written, with two holdings or more, the last order is followed by
      a pause and the next-to-last one is not. */
  lemma NextToLastOrderSkipsPause(users: OrderedMap<string, BuyHelpers.Holding>, delay: int, failed: seq<bool>)
    requires users.Valid() && |users.keys| >= 2 && |failed| == |users.keys|
    ensures var lo := LoopOrders(NukeOrders(users));
            var n := |lo|;
            && OrderLoop.OrderSteps(lo[n - 1], n - 1, delay, failed[n - 1])
               == [OrderLoop.Sent(lo[n - 1].address, lo[n - 1].quantity, failed[n - 1]), OrderLoop.Paused(delay)]
            && OrderLoop.OrderSteps(lo[n - 2], n - 1, delay, failed[n - 2])
               == [OrderLoop.Sent(lo[n - 2].address, lo[n - 2].quantity, failed[n - 2])]
  {
  }

  /** A concrete run as written: two holdings give a pause after the second
      order only. */
  lemma TwoHoldingsAsWritten(a: string, b: string, ha: BuyHelpers.Holding, hb: BuyHelpers.Holding, delay: int)
    requires a != b
    ensures var users := OrderedMap([a, b], map[a := ha, b := hb]);
            users.Valid()
            && OrderLoop.Steps(LoopOrders(NukeOrders(users)), 1, delay, [false, false], 2)
               == [OrderLoop.Sent(a, Num(ha.balance), false), OrderLoop.Sent(b, Num(hb.balance), false), OrderLoop.Paused(delay)]
  {
    var users := OrderedMap([a, b], map[a := ha, b := hb]);
    assert users.Valid();
    var lo := LoopOrders(NukeOrders(users));
    assert lo[0] == OrderLoop.LoopOrder(a, Num(ha.balance), 1, false);
    assert lo[1] == OrderLoop.LoopOrder(b, Num(hb.balance), 2, false);
    assert OrderLoop.Steps(lo, 1, delay, [false, false], 1) == [OrderLoop.Sent(a, Num(ha.balance), false)];
  }

  /** The selling loop as intended: with indices numbered from 1 the last
      order's index is `orders.length`, and it is the one not followed by a
      pause. */
  method SellAllKeys(orders: seq<NukeOrder>, delay: int, failed: seq<bool>) returns (steps: seq<OrderLoop.Step>)
    requires |failed| == |orders|
    ensures steps == OrderLoop.Steps(LoopOrders(orders), |orders|, delay, failed, |orders|)
    ensures OrderLoop.Sends(steps) == OrderLoop.Pairs(LoopOrders(orders))
  {
    steps := OrderLoop.RunLoop(LoopOrders(orders), |orders|, delay, failed);
    OrderLoop.RunSends(LoopOrders(orders), |orders|, delay, failed);
    LoopOrdersAllKept(orders);
  }

  /** The intended loop sells every holding once, whole, in the map's order,
      whatever fails. */
  lemma SellAllKeysSellsEverything(users: OrderedMap<string, BuyHelpers.Holding>, delay: int, failed: seq<bool>)
    requires users.Valid() && |failed| == |users.keys|
    ensures var lo := LoopOrders(NukeOrders(users));
            OrderLoop.Sends(OrderLoop.Steps(lo, |lo|, delay, failed, |lo|)) == OrderLoop.Pairs(lo)
  {
    var lo := LoopOrders(NukeOrders(users));
    KeptNothingSkipped(lo);
    OrderLoop.RunSends(lo, |lo|, delay, failed);
  }

  /** The intended loop pauses exactly between consecutive orders: after
      every order but the last. */
  lemma SellAllKeysPausesBetweenOrders(users: OrderedMap<string, BuyHelpers.Holding>, delay: int, failed: seq<bool>)
    requires users.Valid() && |users.keys| > 0 && |failed| == |users.keys|
    ensures var lo := LoopOrders(NukeOrders(users));
            OrderLoop.Pauses(OrderLoop.Steps(lo, |lo|, delay, failed, |lo|)) == |lo| - 1
  {
    var lo := LoopOrders(NukeOrders(users));
    KeptNothingSkipped(lo[..|lo| - 1]);
    forall i | 0 <= i < |lo| ensures lo[i].index == i + 1 {
    }
    OrderLoop.RunPauses(lo, 1, delay, failed);
    assert |lo| - 1 + 1 == |lo|;
  }
}
