/** Shared vocabulary of the model: optional values, JavaScript numbers as
    far as the commands use them, address comparison, insertion-ordered maps
    (JavaScript's `Map` and plain objects) and the stable sort of
    `Array.prototype.sort`. */
module Common {

  datatype Option<+T> = None | Some(value: T)

  /** A JavaScript number produced by `Number(...)` on a CSV cell: an integer
      or NaN. Fractions and infinities are not modelled. */
  datatype Numeric = Num(value: int) | NaN {
    /** JavaScript `+`: NaN absorbs. */
    function Plus(other: Numeric): (r: Numeric)
      ensures r.Num? <==> Num? && other.Num?
      ensures r.Num? ==> r.value == value + other.value
    {
      if Num? && other.Num? then Num(value + other.value) else NaN
    }

    /** JavaScript truthiness of a number: false exactly for 0 and NaN. */
    predicate Truthy()
    {
      Num? && value != 0
    }
  }

  // ---------------------------------------------------------------------
  // Addresses

  function LowerChar(c: char): (d: char)
    ensures 'A' <= c <= 'Z' ==> 'a' <= d <= 'z'
    ensures !('A' <= c <= 'Z') ==> d == c
  {
    if 'A' <= c <= 'Z' then (c as int - 'A' as int + 'a' as int) as char else c
  }

  /** `String.prototype.toLowerCase`, restricted to ASCII letters. */
  function Lower(s: string): (r: string)
    ensures |r| == |s|
    ensures forall i :: 0 <= i < |s| ==> r[i] == LowerChar(s[i])
  {
    seq(|s|, i requires 0 <= i < |s| => LowerChar(s[i]))
  }

  /** The helper `compareHashes` is not part of this model; every caller
      compares hexadecimal addresses, so it is taken to be equality up to
      the case of ASCII letters. */
  predicate SameAddress(a: string, b: string)
  {
    Lower(a) == Lower(b)
  }

  lemma SameAddressIsEquivalence(a: string, b: string, c: string)
    ensures SameAddress(a, a)
    ensures SameAddress(a, b) ==> SameAddress(b, a)
    ensures SameAddress(a, b) && SameAddress(b, c) ==> SameAddress(a, c)
  {
  }

  // ---------------------------------------------------------------------
  // Sequences

  predicate Distinct<T(==)>(s: seq<T>)
  {
    forall i, j :: 0 <= i < j < |s| ==> s[i] != s[j]
  }

  /** Number of occurrences of `x` in `s`. */
  function Count<T(==)>(s: seq<T>, x: T): (n: nat)
    ensures n == multiset(s)[x]
    ensures n <= |s|
  {
    if s == [] then 0
    else
      assert s == s[..|s| - 1] + [s[|s| - 1]];
      (if s[|s| - 1] == x then 1 else 0) + Count(s[..|s| - 1], x)
  }

  lemma {:induction false} CountPositiveIffIn<T>(s: seq<T>, x: T)
    ensures Count(s, x) > 0 <==> x in s
  {
    assert x in s <==> x in multiset(s);
  }

  /** A sequence is duplicate-free exactly when each element occurs once. */
  lemma {:induction false} DistinctIffCountsAtMostOne<T>(s: seq<T>)
    ensures Distinct(s) <==> forall x :: x in s ==> Count(s, x) == 1
  {
    if Distinct(s) {
      forall x | x in s ensures Count(s, x) == 1 {
        DistinctCount(s, x);
      }
    } else {
      var i, j :| 0 <= i < j < |s| && s[i] == s[j];
      TwoIndicesCount(s, i, j);
    }
  }

  lemma {:induction false} DistinctCount<T>(s: seq<T>, x: T)
    requires Distinct(s) && x in s
    ensures Count(s, x) == 1
  {
    var k :| 0 <= k < |s| && s[k] == x;
    var pre, post := s[..k], s[k + 1..];
    assert s == pre + [x] + post;
    assert x !in pre && x !in post;
    assert multiset(s) == multiset(pre) + multiset{x} + multiset(post);
  }

  lemma {:induction false} TwoIndicesCount<T>(s: seq<T>, i: nat, j: nat)
    requires i < j < |s| && s[i] == s[j]
    ensures Count(s, s[i]) >= 2
  {
    assert s == s[..i] + [s[i]] + s[i + 1..j] + [s[j]] + s[j + 1..];
    assert multiset(s) == multiset(s[..i]) + multiset{s[i]} + multiset(s[i + 1..j])
                          + multiset{s[j]} + multiset(s[j + 1..]);
  }

  /** A duplicate-free sequence has as many elements as its set. */
  lemma {:induction false} DistinctCardinality<T>(s: seq<T>)
    requires Distinct(s)
    ensures |set x | x in s| == |s|
  {
    if s != [] {
      var pre, last := s[..|s| - 1], s[|s| - 1];
      DistinctCardinality(pre);
      assert s == pre + [last];
      assert last !in pre;
      assert (set x | x in s) == (set x | x in pre) + {last};
    }
  }

  // ---------------------------------------------------------------------
  // Insertion-ordered maps

  /** A JavaScript `Map` (or a plain object with non-numeric keys): a
      finite map whose iteration order is the order in which keys were first
      inserted. */
  datatype OrderedMap<K(!new), V> = OrderedMap(keys: seq<K>, values: map<K, V>) {

    ghost predicate Valid()
    {
      Distinct(keys) && (forall k :: k in keys <==> k in values)
    }

    function Size(): nat
    {
      |keys|
    }

    function Get(k: K): (r: Option<V>)
      ensures r.Some? <==> k in values
      ensures r.Some? ==> r.value == values[k]
    {
      if k in values then Some(values[k]) else None
    }

    /** `Map.prototype.set`: an existing key keeps its position, a new key
        goes last. */
    function Put(k: K, v: V): (m: OrderedMap<K, V>)
      requires Valid()
      ensures m.Valid()
      ensures m.values == values[k := v]
      ensures k in values ==> m.keys == keys
      ensures k !in values ==> m.keys == keys + [k]
    {
      if k in values then OrderedMap(keys, values[k := v])
      else OrderedMap(keys + [k], values[k := v])
    }

    /** The entries in iteration order. */
    function Entries(): (es: seq<(K, V)>)
      requires Valid()
      ensures |es| == |keys|
      ensures forall i :: 0 <= i < |keys| ==> es[i] == (keys[i], values[keys[i]])
    {
      seq(|keys|, i requires 0 <= i < |keys| => (keys[i], values[keys[i]]))
    }
  }

  function EmptyMap<K(!new), V>(): (m: OrderedMap<K, V>)
    ensures m.Valid() && m.Size() == 0 && m.values == map[]
  {
    OrderedMap([], map[])
  }

  // ---------------------------------------------------------------------
  // Stable sort

  ghost predicate SortedBy<T>(s: seq<T>, key: T -> int)
  {
    forall i, j :: 0 <= i < j < |s| ==> key(s[i]) <= key(s[j])
  }

  /** Places `x` before the first element whose key is not below its own,
      so that earlier elements stay ahead of later ones with an equal key. */
  function InsertBy<T>(x: T, s: seq<T>, key: T -> int): (r: seq<T>)
    ensures multiset(r) == multiset(s) + multiset{x}
  {
    if s == [] || key(x) <= key(s[0]) then [x] + s
    else
      assert s == [s[0]] + s[1..];
      [s[0]] + InsertBy(x, s[1..], key)
  }

  /** Inserting keeps every key at or above a bound that `x` and all of
      `s` respect. */
  lemma {:induction false} InsertByLowerBound<T>(x: T, s: seq<T>, key: T -> int, bound: int)
    requires bound <= key(x)
    requires forall i :: 0 <= i < |s| ==> bound <= key(s[i])
    ensures forall i :: 0 <= i < |InsertBy(x, s, key)| ==> bound <= key(InsertBy(x, s, key)[i])
  {
    if s != [] && key(x) > key(s[0]) {
      InsertByLowerBound(x, s[1..], key, bound);
    }
  }

  lemma {:induction false} InsertBySorted<T>(x: T, s: seq<T>, key: T -> int)
    requires SortedBy(s, key)
    ensures SortedBy(InsertBy(x, s, key), key)
  {
    if s != [] && key(x) > key(s[0]) {
      var rest := InsertBy(x, s[1..], key);
      InsertBySorted(x, s[1..], key);
      InsertByLowerBound(x, s[1..], key, key(s[0]));
      assert InsertBy(x, s, key) == [s[0]] + rest;
    }
  }

  /** `Array.prototype.sort` with the comparator `(a, b) => key(a) - key(b)`:
      a stable sort by ascending key. */
  function SortBy<T>(s: seq<T>, key: T -> int): (r: seq<T>)
    ensures SortedBy(r, key)
    ensures multiset(r) == multiset(s)
    ensures |r| == |s|
  {
    if s == [] then []
    else
      assert s == [s[0]] + s[1..];
      InsertBySorted(s[0], SortBy(s[1..], key), key);
      InsertBy(s[0], SortBy(s[1..], key), key)
  }

  /** The elements of `s` whose key is `k`, in their order in `s`. */
  function WithKey<T>(s: seq<T>, key: T -> int, k: int): seq<T>
  {
    if s == [] then []
    else (if key(s[0]) == k then [s[0]] else []) + WithKey(s[1..], key, k)
  }

  /** Inserting `x` puts it ahead of every element of `s` with its key. */
  lemma {:induction false} InsertByWithKey<T>(x: T, s: seq<T>, key: T -> int, k: int)
    ensures WithKey(InsertBy(x, s, key), key, k) == (if key(x) == k then [x] else []) + WithKey(s, key, k)
  {
    if s == [] || key(x) <= key(s[0]) {
      assert ([x] + s)[1..] == s;
    } else {
      var rest := InsertBy(x, s[1..], key);
      InsertByWithKey(x, s[1..], key, k);
      assert ([s[0]] + rest)[1..] == rest;
      assert WithKey(s, key, k) == (if key(s[0]) == k then [s[0]] else []) + WithKey(s[1..], key, k);
    }
  }

  /** The sort is stable: the elements with any one key keep their input
      order. */
  lemma {:induction false} SortByStable<T>(s: seq<T>, key: T -> int, k: int)
    ensures WithKey(SortBy(s, key), key, k) == WithKey(s, key, k)
  {
    if s != [] {
      SortByStable(s[1..], key, k);
      InsertByWithKey(s[0], SortBy(s[1..], key), key, k);
    }
  }

  // ---------------------------------------------------------------------
  // CSV output

  /** A line of the `csvData` array the commands hand to `saveToCsv`: the
      header first, then one line per row. */
  datatype CsvLine<R> = HeaderLine(columns: seq<string>) | DataLine(row: R)
}
