/** The transaction loop shared by the `buy`, `sell` and `nuke` commands
    (packages/cli/src/commands/buy.tsx, sell.tsx and nuke.tsx): for each
    order in turn, a skipped order is only logged; any other order is sent
    as one transaction, a failure is logged and the loop goes on, and the
    `finally` block pauses unless the order's index equals the index the
    command takes for the last order. Whether each transaction fails is a
    parameter. */
module OrderLoop {
  import opened Common

  /** An order as the loop sees it. */
  datatype LoopOrder = LoopOrder(address: string, quantity: Numeric, index: int, skip: bool)

  /** What the loop does, in order. */
  datatype Step = Skipped(index: int) | Sent(address: string, quantity: Numeric, failed: bool) | Paused(seconds: int)

  /** The steps of one order. */
  function OrderSteps(o: LoopOrder, lastIndex: int, delay: int, failed: bool): seq<Step>
  {
    if o.skip then [Skipped(o.index)]
    else [Sent(o.address, o.quantity, failed)] + (if o.index != lastIndex then [Paused(delay)] else [])
  }

  /** A skipped order is only logged; any other order is sent as one
      transaction, followed by a pause exactly when its index is not the
      last index. */
  lemma OrderStepsShape(o: LoopOrder, lastIndex: int, delay: int, failed: bool)
    ensures var r := OrderSteps(o, lastIndex, delay, failed);
            && 1 <= |r| <= 2
            && (o.skip ==> r[0] == Skipped(o.index))
            && (!o.skip ==> r[0] == Sent(o.address, o.quantity, failed))
            && (|r| == 2 <==> !o.skip && o.index != lastIndex)
            && (|r| == 2 ==> r[1] == Paused(delay))
  {
  }

  /** The steps for the first `n` orders. */
  function Steps(orders: seq<LoopOrder>, lastIndex: int, delay: int, failed: seq<bool>, n: nat): (r: seq<Step>)
    requires |failed| == |orders| && n <= |orders|
    ensures n <= |r| <= 2 * n
  {
    if n == 0 then []
    else Steps(orders, lastIndex, delay, failed, n - 1) + OrderSteps(orders[n - 1], lastIndex, delay, failed[n - 1])
  }

  /** The steps for the first `n` orders, built together with the proof of
      what they send and how often they pause. */
  ghost function CountedSteps(orders: seq<LoopOrder>, lastIndex: int, delay: int, failed: seq<bool>, n: nat): (r: seq<Step>)
    requires |failed| == |orders| && n <= |orders|
    ensures r == Steps(orders, lastIndex, delay, failed, n)
    ensures Sends(r) == KeptPairs(orders, n)
    ensures Pauses(r) == PausingOrders(orders, lastIndex, n)
  {
    if n == 0 then []
    else
      var before := CountedSteps(orders, lastIndex, delay, failed, n - 1);
      var these := OrderSteps(orders[n - 1], lastIndex, delay, failed[n - 1]);
      SendsConcat(before, these);
      OrderStepsSends(orders[n - 1], lastIndex, delay, failed[n - 1]);
      PausesConcat(before, these);
      OrderStepsPauses(orders[n - 1], lastIndex, delay, failed[n - 1]);
      before + these
  }

  /** Every pause comes right after a sent order. */
  predicate PausesFollowSends(steps: seq<Step>)
  {
    forall k :: 0 <= k < |steps| && steps[k].Paused? ==> 0 < k && steps[k - 1].Sent?
  }

  /** The `finally` block pauses only after a transaction: every pause in
      the trace comes right after a sent order. */
  lemma {:induction false} PauseFollowsSend(orders: seq<LoopOrder>, lastIndex: int, delay: int, failed: seq<bool>, n: nat)
    requires |failed| == |orders| && n <= |orders|
    ensures PausesFollowSends(Steps(orders, lastIndex, delay, failed, n))
  {
    if n > 0 {
      PauseFollowsSend(orders, lastIndex, delay, failed, n - 1);
      var before := Steps(orders, lastIndex, delay, failed, n - 1);
      var these := OrderSteps(orders[n - 1], lastIndex, delay, failed[n - 1]);
      var r := before + these;
      OrderStepsShape(orders[n - 1], lastIndex, delay, failed[n - 1]);
      forall k | 0 <= k < |r| && r[k].Paused?
        ensures 0 < k && r[k - 1].Sent?
      {
        if k >= |before| {
          assert r[k] == these[k - |before|];
          assert k == |before| + 1 && r[k - 1] == these[0];
        } else {
          assert r[k] == before[k] && before[k].Paused?;
          assert r[k - 1] == before[k - 1];
        }
      }
    }
  }

  /** The steps of one more order follow those of the orders before it. */
  lemma StepsNext(orders: seq<LoopOrder>, lastIndex: int, delay: int, failed: seq<bool>, i: nat)
    requires |failed| == |orders| && i < |orders|
    ensures Steps(orders, lastIndex, delay, failed, i + 1)
            == Steps(orders, lastIndex, delay, failed, i) + OrderSteps(orders[i], lastIndex, delay, failed[i])
  {
  }

  /** The `for` loop over the orders: a skipped order is only logged; any
      other order is sent as one transaction, a failure is logged and the
      loop goes on; the `finally` block pauses unless the order's index is
      `lastIndex`. */
  method RunLoop(orders: seq<LoopOrder>, lastIndex: int, delay: int, failed: seq<bool>) returns (steps: seq<Step>)
    requires |failed| == |orders|
    ensures steps == Steps(orders, lastIndex, delay, failed, |orders|)
  {
    steps := [];
    for i := 0 to |orders|
      invariant steps == Steps(orders, lastIndex, delay, failed, i)
    {
      var order := orders[i];
      var these: seq<Step>;
      if order.skip {
        these := [Skipped(order.index)];
      } else {
        these := [Sent(order.address, order.quantity, failed[i])];
        if order.index != lastIndex {
          these := these + [Paused(delay)];
        }
      }
      StepsNext(orders, lastIndex, delay, failed, i);
      steps := steps + these;
    }
  }

  /** The transactions among the steps, in order. */
  function Sends(steps: seq<Step>): seq<(string, Numeric)>
  {
    if steps == [] then []
    else (if steps[0].Sent? then [(steps[0].address, steps[0].quantity)] else []) + Sends(steps[1..])
  }

  /** The number of pauses among the steps. */
  function Pauses(steps: seq<Step>): nat
  {
    if steps == [] then 0
    else Pauses(steps[..|steps| - 1]) + (if steps[|steps| - 1].Paused? then 1 else 0)
  }

  lemma {:induction false} PausesConcat(a: seq<Step>, b: seq<Step>)
    ensures Pauses(a + b) == Pauses(a) + Pauses(b)
  {
    if b == [] {
      assert a + b == a;
    } else {
      var pre := b[..|b| - 1];
      PausesConcat(a, pre);
      assert (a + b)[..|a + b| - 1] == a + pre;
    }
  }

  /** The orders that are not skipped, in order. */
  function Kept(orders: seq<LoopOrder>): (r: seq<LoopOrder>)
    ensures |r| <= |orders|
  {
    if orders == [] then []
    else
      var p := Kept(orders[..|orders| - 1]);
      var last := orders[|orders| - 1];
      if last.skip then p else p + [last]
  }

  /** The address and quantity of each order. */
  function Pairs(orders: seq<LoopOrder>): (r: seq<(string, Numeric)>)
    ensures |r| == |orders|
    ensures forall k :: 0 <= k < |orders| ==> r[k] == (orders[k].address, orders[k].quantity)
  {
    if orders == [] then []
    else Pairs(orders[..|orders| - 1]) + [(orders[|orders| - 1].address, orders[|orders| - 1].quantity)]
  }

  /** The kept orders are exactly the orders that are not skipped. */
  lemma {:induction false} KeptMembers(orders: seq<LoopOrder>, o: LoopOrder)
    ensures o in Kept(orders) <==> o in orders && !o.skip
  {
    if orders != [] {
      var last := orders[|orders| - 1];
      KeptMembers(orders[..|orders| - 1], o);
      assert orders == orders[..|orders| - 1] + [last];
    }
  }

  lemma {:induction false} SendsConcat(a: seq<Step>, b: seq<Step>)
    ensures Sends(a + b) == Sends(a) + Sends(b)
  {
    if a == [] {
      assert a + b == b;
    } else {
      assert (a + b)[0] == a[0];
      assert (a + b)[1..] == a[1..] + b;
      SendsConcat(a[1..], b);
    }
  }

  lemma OrderStepsSends(o: LoopOrder, lastIndex: int, delay: int, failed: bool)
    ensures Sends(OrderSteps(o, lastIndex, delay, failed)) == (if o.skip then [] else [(o.address, o.quantity)])
  {
    var steps := OrderSteps(o, lastIndex, delay, failed);
    if !o.skip {
      if o.index != lastIndex {
        assert steps[1..][1..] == [];
        assert Sends(steps[1..]) == [];
      } else {
        assert steps[1..] == [];
      }
    }
  }

  /** The address and quantity of each of the first `n` orders that is not
      skipped, in order. */
  function KeptPairs(orders: seq<LoopOrder>, n: nat): seq<(string, Numeric)>
    requires n <= |orders|
  {
    if n == 0 then []
    else KeptPairs(orders, n - 1) + (if orders[n - 1].skip then [] else [(orders[n - 1].address, orders[n - 1].quantity)])
  }

  /** One more order adds its pair to the kept ones exactly when it is not
      skipped. */
  lemma KeptPairsStep(orders: seq<LoopOrder>)
    requires orders != []
    ensures var last := orders[|orders| - 1];
            Pairs(Kept(orders))
            == Pairs(Kept(orders[..|orders| - 1])) + (if last.skip then [] else [(last.address, last.quantity)])
  {
    var pre := Kept(orders[..|orders| - 1]);
    var last := orders[|orders| - 1];
    if last.skip {
      assert Kept(orders) == pre;
    } else {
      assert Kept(orders) == pre + [last];
      assert (pre + [last])[..|pre|] == pre;
      assert Pairs(pre + [last]) == Pairs(pre) + [(last.address, last.quantity)];
    }
  }

  /** The pairs of the kept orders among the first `n` are those
      `KeptPairs` lists. */
  lemma {:induction false} KeptPairsOfKept(orders: seq<LoopOrder>, n: nat)
    requires n <= |orders|
    ensures KeptPairs(orders, n) == Pairs(Kept(orders[..n]))
  {
    if n > 0 {
      KeptPairsOfKept(orders, n - 1);
      KeptPairsStep(orders[..n]);
      assert orders[..n][..n - 1] == orders[..n - 1];
    }
  }

  /** One order pauses once when it is sent and is not the last one. */
  lemma OrderStepsPauses(o: LoopOrder, lastIndex: int, delay: int, failed: bool)
    ensures Pauses(OrderSteps(o, lastIndex, delay, failed)) == (if !o.skip && o.index != lastIndex then 1 else 0)
  {
    var steps := OrderSteps(o, lastIndex, delay, failed);
    var first := if o.skip then Skipped(o.index) else Sent(o.address, o.quantity, failed);
    assert [first][..0] == [];
    assert Pauses([first]) == 0;
    if !o.skip && o.index != lastIndex {
      assert steps == [first, Paused(delay)];
      assert steps[..1] == [first];
    } else {
      assert steps == [first];
    }
  }

  /** How many of the first `n` orders are sent and are not at the last
      index: the orders after which the loop pauses. */
  function PausingOrders(orders: seq<LoopOrder>, lastIndex: int, n: nat): nat
    requires n <= |orders|
  {
    if n == 0 then 0
    else PausingOrders(orders, lastIndex, n - 1) + (if !orders[n - 1].skip && orders[n - 1].index != lastIndex then 1 else 0)
  }

  /** How many of the first `n` orders are not skipped. */
  function KeptCount(orders: seq<LoopOrder>, n: nat): nat
    requires n <= |orders|
  {
    if n == 0 then 0 else KeptCount(orders, n - 1) + (if orders[n - 1].skip then 0 else 1)
  }

  /** Exactly the orders that are not skipped are sent, in order and with
      their quantities, whichever of them fail: a skipped order never
      reaches the contract and a failure does not stop later orders. */
  lemma SendsExactlyKept(orders: seq<LoopOrder>, lastIndex: int, delay: int, failed: seq<bool>, n: nat)
    requires |failed| == |orders| && n <= |orders|
    ensures Sends(Steps(orders, lastIndex, delay, failed, n)) == KeptPairs(orders, n)
  {
    var r := CountedSteps(orders, lastIndex, delay, failed, n);
  }

  /** The loop pauses once after each pausing order. */
  lemma StepsPauses(orders: seq<LoopOrder>, lastIndex: int, delay: int, failed: seq<bool>, n: nat)
    requires |failed| == |orders| && n <= |orders|
    ensures Pauses(Steps(orders, lastIndex, delay, failed, n)) == PausingOrders(orders, lastIndex, n)
  {
    var r := CountedSteps(orders, lastIndex, delay, failed, n);
  }

  /** The kept orders among the first `n` are as many as `KeptCount` says. */
  lemma {:induction false} KeptLength(orders: seq<LoopOrder>, n: nat)
    requires n <= |orders|
    ensures |Kept(orders[..n])| == KeptCount(orders, n)
  {
    if n > 0 {
      KeptLength(orders, n - 1);
      assert orders[..n][..n - 1] == orders[..n - 1];
    }
  }

  /** When the indices count positions from `offset` and the last index is
      that of the last order, every order kept before the last position
      pauses. */
  lemma {:induction false} PausesBetweenSends(orders: seq<LoopOrder>, offset: int, n: nat)
    requires n < |orders|
    requires forall i :: 0 <= i < |orders| ==> orders[i].index == i + offset
    ensures PausingOrders(orders, |orders| - 1 + offset, n) == KeptCount(orders, n)
  {
    if n > 0 {
      PausesBetweenSends(orders, offset, n - 1);
      assert orders[n - 1].index == n - 1 + offset;
    }
  }

  /** A whole run sends exactly the kept orders. */
  lemma RunSends(orders: seq<LoopOrder>, lastIndex: int, delay: int, failed: seq<bool>)
    requires |failed| == |orders|
    ensures Sends(Steps(orders, lastIndex, delay, failed, |orders|)) == Pairs(Kept(orders))
  {
    SendsExactlyKept(orders, lastIndex, delay, failed, |orders|);
    KeptPairsOfKept(orders, |orders|);
    assert orders[..|orders|] == orders;
  }

  /** A whole run over orders indexed by position from `offset`, whose
      last index is that of the last order, pauses once after each kept
      order except after the last order. */
  lemma RunPauses(orders: seq<LoopOrder>, offset: int, delay: int, failed: seq<bool>)
    requires |failed| == |orders| > 0
    requires forall i :: 0 <= i < |orders| ==> orders[i].index == i + offset
    ensures Pauses(Steps(orders, |orders| - 1 + offset, delay, failed, |orders|)) == |Kept(orders[..|orders| - 1])|
  {
    var n := |orders|;
    var lastIndex := n - 1 + offset;
    StepsPauses(orders, lastIndex, delay, failed, n);
    assert orders[n - 1].index == lastIndex;
    assert PausingOrders(orders, lastIndex, n) == PausingOrders(orders, lastIndex, n - 1);
    PausesBetweenSends(orders, offset, n - 1);
    KeptLength(orders, n - 1);
  }

  /** The sum of the quantities of `orders`, with JavaScript's `+`. */
  function SumQuantities(orders: seq<LoopOrder>): Numeric
  {
    if orders == [] then Num(0)
    else SumQuantities(orders[..|orders| - 1]).Plus(orders[|orders| - 1].quantity)
  }

  /** One more order adds its quantity to the sum of the kept ones exactly
      when it is not skipped. */
  lemma SumKeptNext(orders: seq<LoopOrder>, i: nat)
    requires i < |orders|
    ensures SumQuantities(Kept(orders[..i + 1]))
            == if orders[i].skip then SumQuantities(Kept(orders[..i]))
               else SumQuantities(Kept(orders[..i])).Plus(orders[i].quantity)
  {
    var pre := Kept(orders[..i]);
    assert orders[..i + 1][..i] == orders[..i];
    if !orders[i].skip {
      assert Kept(orders[..i + 1]) == pre + [orders[i]];
      assert (pre + [orders[i]])[..|pre|] == pre;
    }
  }

  /** The arithmetic total of the quantities that are numbers, added from
      the first order on. */
  function Total(orders: seq<LoopOrder>): int
  {
    if orders == [] then 0
    else (if orders[0].quantity.Num? then orders[0].quantity.value else 0) + Total(orders[1..])
  }

  /** The total can also be taken from the last order back. */
  lemma {:induction false} TotalLast(orders: seq<LoopOrder>)
    requires orders != []
    ensures var last := orders[|orders| - 1].quantity;
            Total(orders) == Total(orders[..|orders| - 1]) + (if last.Num? then last.value else 0)
  {
    if |orders| > 1 {
      TotalLast(orders[1..]);
      assert orders[1..][..|orders| - 2] == orders[..|orders| - 1][1..];
    }
  }

  /** The sum is a number exactly when every quantity is. */
  lemma {:induction false} SumIsNumIff(orders: seq<LoopOrder>)
    ensures SumQuantities(orders).Num? <==> forall i :: 0 <= i < |orders| ==> orders[i].quantity.Num?
  {
    if orders != [] {
      var pre := orders[..|orders| - 1];
      SumIsNumIff(pre);
      assert forall i :: 0 <= i < |pre| ==> pre[i] == orders[i];
    }
  }

  /** A sum that is a number is the arithmetic total. */
  lemma {:induction false} SumIsTotal(orders: seq<LoopOrder>)
    ensures SumQuantities(orders).Num? ==> SumQuantities(orders).value == Total(orders)
  {
    if orders != [] {
      SumIsTotal(orders[..|orders| - 1]);
      TotalLast(orders);
    }
  }

  /** No negative quantity, no negative total. */
  lemma {:induction false} TotalNonNegative(orders: seq<LoopOrder>)
    requires forall i :: 0 <= i < |orders| ==> orders[i].quantity.Num? ==> orders[i].quantity.value >= 0
    ensures Total(orders) >= 0
  {
    if orders != [] {
      TotalNonNegative(orders[1..]);
    }
  }

  /** The sum is a number exactly when every quantity is, and then it is
      the total of the quantities, not negative when no quantity is. */
  lemma SumQuantitiesIsSum(orders: seq<LoopOrder>)
    ensures SumQuantities(orders).Num? <==> forall i :: 0 <= i < |orders| ==> orders[i].quantity.Num?
    ensures SumQuantities(orders).Num? ==> SumQuantities(orders).value == Total(orders)
    ensures (forall i :: 0 <= i < |orders| ==> orders[i].quantity.Num? && orders[i].quantity.value >= 0) ==>
              SumQuantities(orders).value >= 0
  {
    SumIsNumIff(orders);
    SumIsTotal(orders);
    if forall i :: 0 <= i < |orders| ==> orders[i].quantity.Num? && orders[i].quantity.value >= 0 {
      TotalNonNegative(orders);
    }
  }
}
