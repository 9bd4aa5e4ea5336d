/** The reaction to trade events in packages/cli/src/commands/watch-sells.tsx:
    when somebody sells keys of the watched wallet, notify and sell the
    matching share of that trader's keys. Balances and the trader's profile
    are fetched by the handler; here they are parameters. */
module WatchSells {
  import opened Common
  import SellRule
  import Markdown

  /** The fields of a `Trade` event the handler reads. */
  datatype TradeEvent = TradeEvent(trader: string, subject: string, isBuy: bool, shareAmount: nat)

  /** The last sentence of the notification. */
  datatype SellPlan = TryingToSell(keys: nat) | NoNeedToSell

  /** The notification about a sale of my keys, with the Markdown-escaped
      trader name and profile link. */
  datatype Notification = Notification(
    name: string, url: string, shareAmount: nat, iOwn: nat, traderHold: nat, plan: SellPlan)

  /** How the message after a sale describes what is left. */
  datatype Remainder = StillOwn(keys: nat) | NoneLeft

  datatype SoldMessage = SoldMessage(keysNum: nat, address: string, remainder: Remainder)

  /** A `sellShares` call and the message sent after it; no message when
      the call threw. */
  datatype Sale = Sale(address: string, keysNum: nat, message: Option<SoldMessage>)

  /** What the handler does with one event. `BalancesFailed`: a
      `sharesBalance` call threw, so the error is logged and nothing else
      happens. `Reacted`: the notification was composed; `notified` says
      whether sending it went through, and only then may a sale follow. */
  datatype Reaction = Ignored | BalancesFailed | Reacted(notice: Notification, notified: bool, sale: Option<Sale>)

  /** Which of the handler's awaited calls throw: the two balance reads,
      the Telegram message about the trader's sale, the `sellShares`
      transaction. */
  datatype Failures = Failures(balances: bool, notify: bool, sell: bool)

  const UnknownUser: string := "⚠️ Unknown user"
  const RoomsUrl: string := "https://friend.tech/rooms/"

  /** The message branch of `sellKeys`: "still own" exactly when keys are
      left. */
  function SoldMessageFor(keysNum: nat, ownAfterSell: nat, address: string): (m: SoldMessage)
    ensures m.keysNum == keysNum && m.address == address
    ensures m.remainder.StillOwn? <==> ownAfterSell > 0
    ensures m.remainder.StillOwn? ==> m.remainder.keys == ownAfterSell
  {
    SoldMessage(keysNum, address, if ownAfterSell != 0 then StillOwn(ownAfterSell) else NoneLeft)
  }

  /** The message of `notifyAboutSellOfMyKeys`: the escaped name (or the
      unknown-user mark) and profile link, the numbers, and the plan. */
  function NotificationFor(ev: TradeEvent, twitterName: Option<string>, iNeedToSell: nat,
                           iOwn: nat, traderHold: nat): (n: Notification)
    ensures n.name == Markdown.Escape(if twitterName.Some? then twitterName.value else UnknownUser)
    ensures n.url == Markdown.Escape(RoomsUrl + ev.trader)
    ensures n.shareAmount == ev.shareAmount && n.iOwn == iOwn && n.traderHold == traderHold
    ensures n.plan.TryingToSell? <==> iNeedToSell != 0
    ensures n.plan.TryingToSell? ==> n.plan.keys == iNeedToSell
  {
    var name := if twitterName.Some? then twitterName.value else UnknownUser;
    Notification(Markdown.Escape(name), Markdown.Escape(RoomsUrl + ev.trader), ev.shareAmount,
                 iOwn, traderHold, if iNeedToSell != 0 then TryingToSell(iNeedToSell) else NoNeedToSell)
  }

  /** The two filters in front of the balance reads: sells only, and
      outside dev mode only sells of the watched wallet's keys. */
  predicate PassesFilters(ev: TradeEvent, walletToWatch: string, isDev: bool)
  {
    !ev.isBuy && (isDev || SameAddress(Lower(ev.subject), walletToWatch))
  }

  /** Whether the handler gets past its filters and the throttle. */
  predicate Accepts(ev: TradeEvent, walletToWatch: string, isDev: bool, allow: bool): (r: bool)
    ensures r ==> !ev.isBuy
    ensures r <==> PassesFilters(ev, walletToWatch, isDev) && allow
  {
    PassesFilters(ev, walletToWatch, isDev) && allow
  }

  /** The decision of the `onTrade` handler, given the two balances it
      fetches (`traderHold`: the trader's keys of the watched wallet,
      `iOwn`: the watched wallet's keys of the trader), the trader's
      Twitter name if the profile could be fetched, and which awaited
      calls throw. The balances are read before the throttle is checked. */
  function React(ev: TradeEvent, walletToWatch: string, isDev: bool, allow: bool,
                 traderHold: nat, iOwn: nat, twitterName: Option<string>, fails: Failures): (r: Reaction)
    ensures r == BalancesFailed <==> PassesFilters(ev, walletToWatch, isDev) && fails.balances
    ensures r.Reacted? <==> Accepts(ev, walletToWatch, isDev, allow) && !fails.balances
  {
    if ev.isBuy then Ignored
    else if !isDev && !SameAddress(Lower(ev.subject), walletToWatch) then Ignored
    else if fails.balances then BalancesFailed
    else if !allow then Ignored
    else
      var iNeedToSell := SellRule.CheckHowManyToSell(iOwn, traderHold, ev.shareAmount);
      var notice := NotificationFor(ev, twitterName, iNeedToSell, iOwn, traderHold);
      if fails.notify then Reacted(notice, false, None)
      else if iNeedToSell == 0 then Reacted(notice, true, None)
      else
        var ownAfterSell := iOwn - iNeedToSell;
        var message := if fails.sell then None else Some(SoldMessageFor(iNeedToSell, ownAfterSell, ev.trader));
        Reacted(notice, true, Some(Sale(ev.trader, iNeedToSell, message)))
  }

  /** Buy events are never acted on. */
  lemma BuysIgnored(ev: TradeEvent, walletToWatch: string, isDev: bool, allow: bool,
                    traderHold: nat, iOwn: nat, twitterName: Option<string>, fails: Failures)
    requires ev.isBuy
    ensures React(ev, walletToWatch, isDev, allow, traderHold, iOwn, twitterName, fails) == Ignored
  {
  }

  /** Every accepted event whose balances could be read is notified; a sale
      of the trader's keys follows exactly when the notification went
      through and the proportional-sell rule asks for a positive amount, and
      it sells exactly that amount. The message after the sale is sent
      exactly when `sellShares` did not throw. */
  lemma {:induction false} SaleFollowsRule(ev: TradeEvent, walletToWatch: string, isDev: bool, allow: bool,
                                           traderHold: nat, iOwn: nat, twitterName: Option<string>, fails: Failures)
    requires Accepts(ev, walletToWatch, isDev, allow) && !fails.balances
    ensures var r := React(ev, walletToWatch, isDev, allow, traderHold, iOwn, twitterName, fails);
            var n := SellRule.CheckHowManyToSell(iOwn, traderHold, ev.shareAmount);
            && r.Reacted?
            && (r.notified <==> !fails.notify)
            && (r.sale.Some? <==> !fails.notify && n > 0)
            && (r.sale.Some? ==> r.sale.value.keysNum == n && r.sale.value.address == ev.trader)
            && (r.sale.Some? ==> (r.sale.value.message.Some? <==> !fails.sell))
            && (r.notice.plan.TryingToSell? <==> n > 0)
  {
  }

  /** A failed notification ends the handler: nothing is sold, whatever the
      rule says. */
  lemma NotifyFailureBlocksSale(ev: TradeEvent, walletToWatch: string, isDev: bool, allow: bool,
                                traderHold: nat, iOwn: nat, twitterName: Option<string>, fails: Failures)
    requires fails.notify
    ensures var r := React(ev, walletToWatch, isDev, allow, traderHold, iOwn, twitterName, fails);
            r == Ignored || r == BalancesFailed || (r.Reacted? && !r.notified && r.sale.None?)
  {
  }

  /** After a sale the keys sold and the keys left add up to what I owned,
      never more; the message says "still own" exactly when keys are left,
      which is always the case when the trader kept some keys. */
  lemma {:induction false} SaleLeavesRemainder(ev: TradeEvent, walletToWatch: string, isDev: bool, allow: bool,
                                               traderHold: nat, iOwn: nat, twitterName: Option<string>, fails: Failures)
    requires React(ev, walletToWatch, isDev, allow, traderHold, iOwn, twitterName, fails).Reacted?
    requires React(ev, walletToWatch, isDev, allow, traderHold, iOwn, twitterName, fails).sale.Some?
    requires !fails.sell
    ensures var s := React(ev, walletToWatch, isDev, allow, traderHold, iOwn, twitterName, fails).sale.value;
            && s.keysNum <= iOwn
            && s.message.Some?
            && (s.message.value.remainder.StillOwn? <==> s.keysNum < iOwn)
            && (s.message.value.remainder.StillOwn? ==> s.keysNum + s.message.value.remainder.keys == iOwn)
            && (traderHold > 0 ==> s.message.value.remainder.StillOwn?)
  {
  }

  /** The event handler registered by `listenToSellEvents`, with its closure
      flag `allow` as a field. In dev mode every accepted event closes the
      gate until `ThrottleExpired` (the 30-second timer) reopens it. */
  class SellWatcher {
    const walletToWatch: string
    const isDev: bool
    var allow: bool

    constructor (wallet: string, isDev: bool)
      ensures walletToWatch == Lower(wallet) && this.isDev == isDev && allow
    {
      walletToWatch := Lower(wallet);
      this.isDev := isDev;
      allow := true;
    }

    /** One event. A throttle closed in dev mode stays closed whatever
        happens after it closed; a failed balance read leaves it open. */
    method OnTrade(ev: TradeEvent, traderHold: nat, iOwn: nat, twitterName: Option<string>, fails: Failures)
      returns (r: Reaction)
      modifies this`allow
      ensures r == React(ev, walletToWatch, isDev, old(allow), traderHold, iOwn, twitterName, fails)
      ensures allow == (old(allow) && !(isDev && r.Reacted?))
    {
      if ev.isBuy {
        return Ignored;
      }
      if !isDev && !SameAddress(Lower(ev.subject), walletToWatch) {
        return Ignored;
      }
      if fails.balances {
        return BalancesFailed;
      }
      if !allow {
        return Ignored;
      }
      if isDev {
        allow := false;
      }
      r := React(ev, walletToWatch, isDev, true, traderHold, iOwn, twitterName, fails);
    }

    method ThrottleExpired()
      modifies this`allow
      ensures allow
    {
      allow := true;
    }
  }
}
