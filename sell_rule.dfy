/** The proportional-sell rule (`checkHowManyToSell`): when a trader sells
    part of the keys they hold in me, how many of my keys in them I sell. */
module SellRule {

  /** Ceiling of `a / b`, characterised as the least `q` with `a <= q * b`. */
  function CeilDiv(a: nat, b: nat): (q: nat)
    requires b > 0
    ensures a <= q * b
    ensures q > 0 ==> (q - 1) * b < a
  {
    (a + b - 1) / b
  }

  lemma {:induction false} CeilDivLeast(a: nat, b: nat, q: nat)
    requires b > 0 && a <= q * b
    ensures CeilDiv(a, b) <= q
  {
    var c := CeilDiv(a, b);
    if c > q {
      assert (c - 1) * b >= q * b by {
        assert c - 1 >= q;
        MulMonotone(q, c - 1, b);
      }
    }
  }

  lemma MulMonotone(x: nat, y: nat, z: nat)
    requires x <= y
    ensures x * z <= y * z
  {
  }

  /** `Math.ceil((traderSold / traderOwnedBefore) * iOwn)`, computed exactly:
      the fraction of my keys matching the fraction the trader sold, rounded
      up. It never exceeds what I own. */
  function ProportionalShare(iOwn: nat, sold: nat, before: nat): (q: nat)
    requires 0 < before && sold <= before
    ensures q <= iOwn
    ensures sold * iOwn <= q * before
    ensures q > 0 ==> (q - 1) * before < sold * iOwn
  {
    MulMonotone(sold, before, iOwn);
    CeilDivLeast(sold * iOwn, before, iOwn);
    CeilDiv(sold * iOwn, before)
  }

  /** packages/cli/src/helpers/checkHowManyToSell.ts. Arguments in the
      source's order: what I own, what the trader still owns, what the
      trader just sold. */
  function CheckHowManyToSell(iOwn: nat, traderOwns: nat, traderSold: nat): (r: nat)
    ensures r <= iOwn
    ensures traderSold == 0 || iOwn == 0 ==> r == 0
    ensures traderSold > 0 && iOwn > 0 && traderOwns == 0 ==> r == iOwn
    ensures traderOwns > 0 ==> r < iOwn || iOwn == 0
  {
    if traderSold == 0 || iOwn == 0 then 0
    else if traderOwns == 0 then iOwn
    else
      var traderOwnedBefore := traderOwns + traderSold;
      var iNeedToSell := ProportionalShare(iOwn, traderSold, traderOwnedBefore);
      if iOwn - iNeedToSell == 0 then iNeedToSell - 1 else iNeedToSell
  }

  /** On a partial exit the result is the rounded-up proportional share,
      capped at one key fewer than I own. */
  lemma {:induction false} PartialExitIsCappedShare(iOwn: nat, traderOwns: nat, traderSold: nat)
    requires traderSold > 0 && iOwn > 0 && traderOwns > 0
    ensures var r := CheckHowManyToSell(iOwn, traderOwns, traderSold);
            var c := CeilDiv(traderSold * iOwn, traderOwns + traderSold);
            r == (if c == iOwn then c - 1 else c)
  {
  }

  /** On a partial exit I sell at least the proportional share, unless that
      would have emptied my position, in which case I keep exactly one key. */
  lemma {:induction false} PartialExitSellsAtLeastShare(iOwn: nat, traderOwns: nat, traderSold: nat)
    requires traderSold > 0 && iOwn > 0 && traderOwns > 0
    ensures var r := CheckHowManyToSell(iOwn, traderOwns, traderSold);
            r == iOwn - 1 || traderSold * iOwn <= r * (traderOwns + traderSold)
  {
  }

  /** A partial exit by the trader makes me sell at least one key as long as
      I own two or more; owning one, I keep it. */
  lemma {:induction false} PartialExitSellsSomething(iOwn: nat, traderOwns: nat, traderSold: nat)
    requires traderSold > 0 && traderOwns > 0
    ensures iOwn >= 2 ==> CheckHowManyToSell(iOwn, traderOwns, traderSold) >= 1
    ensures iOwn == 1 ==> CheckHowManyToSell(iOwn, traderOwns, traderSold) == 0
  {
    if iOwn >= 2 {
      var before := traderOwns + traderSold;
      var c := ProportionalShare(iOwn, traderSold, before);
      assert traderSold * iOwn > 0;
      assert c > 0;
    }
  }

  /** Selling more never makes the trader's follower sell less: with what I
      own and what the trader keeps fixed, the result grows with the amount
      the trader sold. */
  lemma {:induction false} MonotoneInTraderSold(iOwn: nat, traderOwns: nat, s1: nat, s2: nat)
    requires s1 <= s2
    ensures CheckHowManyToSell(iOwn, traderOwns, s1) <= CheckHowManyToSell(iOwn, traderOwns, s2)
  {
    if s1 > 0 && iOwn > 0 && traderOwns > 0 {
      ShareMonotone(iOwn, traderOwns, s1, s2);
    }
  }

  lemma {:induction false} ShareMonotone(iOwn: nat, o: nat, s1: nat, s2: nat)
    requires 0 < s1 <= s2 && 0 < o
    ensures ProportionalShare(iOwn, s1, o + s1) <= ProportionalShare(iOwn, s2, o + s2)
  {
    var b1, b2 := o + s1, o + s2;
    var c2 := ProportionalShare(iOwn, s2, b2);
    CrossMul(o, s1, s2);
    ScaleFraction(s1, b1, s2, b2, iOwn, c2);
    CeilDivLeast(s1 * iOwn, b1, c2);
  }

  /** s1 / (o + s1) <= s2 / (o + s2) when s1 <= s2. */
  lemma CrossMul(o: nat, s1: nat, s2: nat)
    requires s1 <= s2
    ensures s1 * (o + s2) <= s2 * (o + s1)
  {
    assert s1 * (o + s2) == s1 * o + s1 * s2;
    assert s2 * (o + s1) == s2 * o + s2 * s1;
    MulMonotone(s1, s2, o);
  }

  /** If s1 / b1 <= s2 / b2 and s2 * n <= c * b2, then s1 * n <= c * b1. */
  lemma ScaleFraction(s1: nat, b1: nat, s2: nat, b2: nat, n: nat, c: nat)
    requires b2 > 0
    requires s1 * b2 <= s2 * b1
    requires s2 * n <= c * b2
    ensures s1 * n <= c * b1
  {
    var lhs := (s1 * n) * b2;
    var rhs := (c * b1) * b2;
    assert lhs == (s1 * b2) * n by { MulAssocComm(s1, n, b2); }
    MulMonotone(s1 * b2, s2 * b1, n);
    assert (s2 * b1) * n == (s2 * n) * b1 by { MulAssocComm(s2, b1, n); }
    MulMonotone(s2 * n, c * b2, b1);
    assert (c * b2) * b1 == rhs by { MulAssocComm(c, b2, b1); }
    DivideOutPositive(s1 * n, c * b1, b2);
  }

  lemma MulAssocComm(x: nat, y: nat, z: nat)
    ensures (x * y) * z == (x * z) * y
  {
  }

  lemma DivideOutPositive(x: nat, y: nat, z: nat)
    requires z > 0 && x * z <= y * z
    ensures x <= y
  {
    if x > y {
      MulMonotone(y + 1, x, z);
    }
  }

  /** The rows of packages/cli/src/helpers/__tests__/checkHowManyToSell.test.ts
      in which nothing was sold, I own nothing or the trader sold out, each as
      (iOwn, traderOwns, traderSold) and the expected result. */
  lemma TestTableEdgeRows()
    ensures CheckHowManyToSell(0, 0, 1) == 0
    ensures CheckHowManyToSell(1, 0, 1) == 1
    ensures CheckHowManyToSell(10, 0, 2) == 10
    ensures CheckHowManyToSell(1, 1, 0) == 0
  {
  }

  /** The partial-exit rows of the same table. */
  lemma TestTablePartialRows()
    ensures CheckHowManyToSell(1, 1, 1) == 0
    ensures CheckHowManyToSell(2, 2, 2) == 1
    ensures CheckHowManyToSell(2, 2, 1) == 1
    ensures CheckHowManyToSell(12, 1, 4) == 10
    ensures CheckHowManyToSell(5, 1, 11) == 4
    ensures CheckHowManyToSell(5, 2, 10) == 4
    ensures CheckHowManyToSell(5, 4, 8) == 4
  {
    ShareValue(1, 1, 2, 1);
    ShareValue(2, 2, 4, 1);
    ShareValue(2, 1, 3, 1);
    ShareValue(12, 4, 5, 10);
    ShareValue(5, 11, 12, 5);
    ShareValue(5, 10, 12, 5);
    ShareValue(5, 8, 12, 4);
  }

  lemma ShareValue(iOwn: nat, sold: nat, before: nat, q: nat)
    requires 0 < before && sold <= before
    requires (sold * iOwn + before - 1) / before == q
    ensures ProportionalShare(iOwn, sold, before) == q
  {
  }
}
