/** Duplicate-address detection shared by the `formatData` functions of
    packages/cli/src/commands/buy.tsx and packages/cli/src/commands/sell.tsx:
    a `Map` from address to number of rows, then every address counted
    more than once, in the map's iteration order. */
module OrderCsv {
  import opened Common

  /** A parsed row of an order CSV (`address`, `quantity` columns);
      `quantity` is `Number(row.quantity)`, NaN when the column is missing. */
  datatype CsvRow = CsvRow(address: string, quantity: Numeric)

  /** The address column, row by row. */
  function Addresses(rows: seq<CsvRow>): (a: seq<string>)
    ensures |a| == |rows| && forall i :: 0 <= i < |rows| ==> a[i] == rows[i].address
  {
    seq(|rows|, i requires 0 <= i < |rows| => rows[i].address)
  }

  /** The distinct addresses of `s` in order of first appearance: the key
      order of a `Map` filled from `s`. */
  function FirstOccurrences(s: seq<string>): (r: seq<string>)
    ensures Distinct(r)
    ensures forall a :: a in r <==> a in s
  {
    if s == [] then []
    else
      var p := FirstOccurrences(s[..|s| - 1]);
      var last := s[|s| - 1];
      assert s == s[..|s| - 1] + [last];
      if last in p then p else p + [last]
  }

  /** One step of the counting map: `!saved` sends an absent address (and a
      zero count, which never occurs) to 1, a present one to count + 1. */
  function Bump(counts: OrderedMap<string, nat>, address: string): (m: OrderedMap<string, nat>)
    requires counts.Valid()
    ensures m.Valid()
  {
    var saved := counts.Get(address);
    if saved.None? || saved.value == 0 then counts.Put(address, 1)
    else counts.Put(address, saved.value + 1)
  }

  /** The counting map after visiting every address of `s`. */
  function CountMap(s: seq<string>): (m: OrderedMap<string, nat>)
    ensures m.Valid()
  {
    if s == [] then EmptyMap() else Bump(CountMap(s[..|s| - 1]), s[|s| - 1])
  }

  /** Visiting one more address bumps its count. */
  lemma CountMapNext(s: seq<string>, i: nat)
    requires i < |s|
    ensures CountMap(s[..i + 1]) == Bump(CountMap(s[..i]), s[i])
  {
    assert s[..i + 1][..i] == s[..i];
  }

  /** The counting map holds each address of `s` once, in order of first
      appearance, with its number of occurrences. */
  lemma {:induction false} CountMapCounts(s: seq<string>)
    ensures CountMap(s).keys == FirstOccurrences(s)
    ensures forall a :: a in CountMap(s).values ==> CountMap(s).values[a] == Count(s, a) > 0
  {
    if s != [] {
      var pre, last := s[..|s| - 1], s[|s| - 1];
      CountMapCounts(pre);
      assert s == pre + [last];
      forall a | a in CountMap(s).values
        ensures CountMap(s).values[a] == Count(s, a) > 0
      {
        assert Count(s, a) == (if last == a then 1 else 0) + Count(pre, a);
        if a != last {
          assert a in CountMap(pre).values;
        }
      }
    }
  }

  /** `keys` filtered to those whose count in `values` is above one. */
  function CountedTwice(keys: seq<string>, values: map<string, nat>): (r: seq<string>)
    requires forall i :: 0 <= i < |keys| ==> keys[i] in values
  {
    if keys == [] then []
    else
      var p := CountedTwice(keys[..|keys| - 1], values);
      var last := keys[|keys| - 1];
      if values[last] > 1 then p + [last] else p
  }

  /** The addresses occurring more than once in `s`, in order of first
      appearance. */
  function Duplicates(s: seq<string>): seq<string>
  {
    var m := CountMap(s);
    assert forall i :: 0 <= i < |m.keys| ==> m.keys[i] in m.values by {
      forall i | 0 <= i < |m.keys| ensures m.keys[i] in m.values {
        assert m.keys[i] in m.keys;
      }
    }
    CountedTwice(m.keys, m.values)
  }

  /** The second loop of `formatData`: walk the map's entries and keep the
      addresses counted more than once. */
  method CollectDuplicates(counts: OrderedMap<string, nat>) returns (dups: seq<string>)
    requires counts.Valid()
    ensures dups == CountedTwice(counts.keys, counts.values)
  {
    var entries := counts.Entries();
    dups := [];
    for i := 0 to |entries|
      invariant dups == CountedTwice(counts.keys[..i], counts.values)
    {
      var (address, n) := entries[i];
      assert counts.keys[..i + 1][..i] == counts.keys[..i];
      if n > 1 {
        dups := dups + [address];
      }
    }
    assert counts.keys[..|entries|] == counts.keys;
  }

  lemma {:induction false} CountedTwiceMembers(keys: seq<string>, values: map<string, nat>, a: string)
    requires forall i :: 0 <= i < |keys| ==> keys[i] in values
    ensures a in CountedTwice(keys, values) <==> a in keys && values[a] > 1
  {
    if keys != [] {
      var pre := keys[..|keys| - 1];
      CountedTwiceMembers(pre, values, a);
      assert keys == pre + [keys[|keys| - 1]];
    }
  }

  lemma {:induction false} CountedTwiceDistinct(keys: seq<string>, values: map<string, nat>)
    requires forall i :: 0 <= i < |keys| ==> keys[i] in values
    requires Distinct(keys)
    ensures Distinct(CountedTwice(keys, values))
  {
    if keys != [] {
      var pre, last := keys[..|keys| - 1], keys[|keys| - 1];
      CountedTwiceDistinct(pre, values);
      assert last !in pre;
      CountedTwiceMembers(pre, values, last);
    }
  }

  /** An address is reported as duplicated exactly when it occurs more than
      once, and it is reported once. */
  lemma {:induction false} DuplicatesExactly(s: seq<string>, a: string)
    ensures a in Duplicates(s) <==> Count(s, a) > 1
    ensures Distinct(Duplicates(s))
  {
    CountMapCounts(s);
    var m := CountMap(s);
    CountedTwiceMembers(m.keys, m.values, a);
    CountedTwiceDistinct(m.keys, m.values);
    CountPositiveIffIn(s, a);
  }

  /** No address is reported exactly when the addresses are distinct. */
  lemma {:induction false} NoDuplicatesIffDistinct(s: seq<string>)
    ensures Duplicates(s) == [] <==> Distinct(s)
  {
    DistinctIffCountsAtMostOne(s);
    if Duplicates(s) == [] {
      forall a | a in s ensures Count(s, a) == 1 {
        DuplicatesExactly(s, a);
        CountPositiveIffIn(s, a);
      }
    } else {
      var a := Duplicates(s)[0];
      DuplicatesExactly(s, a);
      CountPositiveIffIn(s, a);
    }
  }
}
