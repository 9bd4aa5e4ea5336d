/** The credential store of packages/cli/src/clients/keychain.ts: one record
    kept under a single keychain entry, read whole by every getter and
    written whole, after schema validation, by every setter. The keychain
    itself is a field holding the last saved record. */
module Credentials {
  import opened Common

  const AddressLength: nat := 42
  const PrivateKeyLength: nat := 64

  datatype WalletEntry = WalletEntry(name: string, privateKey: string)

  datatype TwitterCredentials = TwitterCredentials(username: string, password: string, email: string)

  /** `Store`. `wallets` is a plain object keyed by address; addresses are
      not integer-like, so its entry order is insertion order. */
  datatype Store = Store(
    nodeProviderUrl: Option<string>,
    wallets: OrderedMap<string, WalletEntry>,
    twitter: Option<TwitterCredentials>,
    ftToken: Option<string>,
    telegramApiKey: Option<string>,
    basescanApiKey: Option<string>)

  /** `Wallet`, as `getWallets` lists it. */
  datatype Wallet = Wallet(address: string, name: string, privateKey: string)

  /** The store `getStore` yields when nothing has been saved. */
  const EmptyStore: Store := Store(None, OrderedMap([], map[]), None, None, None, None)

  /** The length checks of the store schema: every wallet key is 42
      characters long and every private key 64. */
  predicate ValidStore(s: Store)
  {
    forall i :: 0 <= i < |s.wallets.keys| ==>
      |s.wallets.keys[i]| == AddressLength
      && s.wallets.keys[i] in s.wallets.values
      && |s.wallets.values[s.wallets.keys[i]].privateKey| == PrivateKeyLength
  }

  /** `getWallets` on a store: one wallet per entry, in entry order. */
  function WalletsOf(s: Store): (ws: seq<Wallet>)
    requires s.wallets.Valid()
    ensures |ws| == s.wallets.Size()
    ensures forall i :: 0 <= i < |ws| ==>
              ws[i] == Wallet(s.wallets.keys[i], s.wallets.values[s.wallets.keys[i]].name,
                              s.wallets.values[s.wallets.keys[i]].privateKey)
    ensures forall a :: a in s.wallets.values ==>
              exists i :: 0 <= i < |ws| && ws[i] == Wallet(a, s.wallets.values[a].name, s.wallets.values[a].privateKey)
  {
    var es := s.wallets.Entries();
    var ws := seq(|es|, i requires 0 <= i < |es| => Wallet(es[i].0, es[i].1.name, es[i].1.privateKey));
    assert forall a :: a in s.wallets.values ==> ws[IndexOf(s.wallets.keys, a)].address == a;
    ws
  }

  /** The position of `x` in `s`. */
  function IndexOf<T(==)>(s: seq<T>, x: T): (i: nat)
    requires x in s
    ensures i < |s| && s[i] == x
  {
    if s[0] == x then 0 else 1 + IndexOf(s[1..], x)
  }

  /** The `reduce` of `removeWallet` over the first `n` entries: every entry
      but `address`, in entry order. */
  function WithoutAddress(wallets: OrderedMap<string, WalletEntry>, address: string, n: nat)
    : (r: OrderedMap<string, WalletEntry>)
    requires wallets.Valid() && n <= |wallets.keys|
    ensures r.Valid()
  {
    if n == 0 then EmptyMap()
    else
      var acc := WithoutAddress(wallets, address, n - 1);
      var key := wallets.keys[n - 1];
      if key != address then acc.Put(key, wallets.values[key]) else acc
  }

  /** Removing keeps every other entry, with its value and in its order,
      and drops `address`. */
  lemma {:induction false} WithoutAddressKeepsOthers(wallets: OrderedMap<string, WalletEntry>, address: string, n: nat)
    requires wallets.Valid() && n <= |wallets.keys|
    ensures var r := WithoutAddress(wallets, address, n);
            && r.keys == Filter(wallets.keys[..n], address)
            && r.values == map k | k in wallets.keys[..n] && k != address :: wallets.values[k]
  {
    if n > 0 {
      WithoutAddressKeepsOthers(wallets, address, n - 1);
      var pre := wallets.keys[..n - 1];
      var key := wallets.keys[n - 1];
      assert wallets.keys[..n] == pre + [key];
      assert wallets.keys[..n][..n - 1] == pre;
      FilterMembers(pre, address, key);
      assert key !in pre;
    }
  }

  /** `keys` without `address`, in order. */
  function Filter(keys: seq<string>, address: string): seq<string>
  {
    if keys == [] then []
    else
      var p := Filter(keys[..|keys| - 1], address);
      if keys[|keys| - 1] != address then p + [keys[|keys| - 1]] else p
  }

  lemma {:induction false} FilterMembers(keys: seq<string>, address: string, k: string)
    ensures k in Filter(keys, address) <==> k in keys && k != address
  {
    if keys != [] {
      FilterMembers(keys[..|keys| - 1], address, k);
      assert keys == keys[..|keys| - 1] + [keys[|keys| - 1]];
    }
  }

  lemma {:induction false} FilterAbsent(keys: seq<string>, address: string)
    requires address !in keys
    ensures Filter(keys, address) == keys
  {
    if keys != [] {
      var pre := keys[..|keys| - 1];
      assert keys == pre + [keys[|keys| - 1]];
      FilterAbsent(pre, address);
    }
  }

  /** After the whole `reduce`, the entries are those of the other
      addresses, in entry order. */
  lemma WithoutAddressWhole(wallets: OrderedMap<string, WalletEntry>, address: string)
    requires wallets.Valid()
    ensures var r := WithoutAddress(wallets, address, |wallets.keys|);
            && r.keys == Filter(wallets.keys, address)
            && r.values == map k | k in wallets.values && k != address :: wallets.values[k]
  {
    var n := |wallets.keys|;
    WithoutAddressKeepsOthers(wallets, address, n);
    assert wallets.keys[..n] == wallets.keys;
  }

  /** The wallets after `removeWallet(address)`: `address` is gone and every
      other wallet keeps its value. */
  lemma RemoveWalletEffect(wallets: OrderedMap<string, WalletEntry>, address: string)
    requires wallets.Valid()
    ensures var r := WithoutAddress(wallets, address, |wallets.keys|);
            && address !in r.values
            && (forall k :: k in r.values <==> k in wallets.values && k != address)
            && (forall k :: k in r.values ==> r.values[k] == wallets.values[k])
  {
    WithoutAddressWhole(wallets, address);
  }

  /** Removing an address that has no wallet changes nothing, order
      included. */
  lemma RemoveAbsentWallet(wallets: OrderedMap<string, WalletEntry>, address: string)
    requires wallets.Valid() && address !in wallets.values
    ensures WithoutAddress(wallets, address, |wallets.keys|) == wallets
  {
    var r := WithoutAddress(wallets, address, |wallets.keys|);
    WithoutAddressWhole(wallets, address);
    FilterAbsent(wallets.keys, address);
    assert r.values == wallets.values;
  }

  /** Whether a save went through. */
  datatype Outcome = Saved | Rejected

  /** The macOS keychain entry that holds the store: `saved` is the last
      record written, `None` while nothing has been saved. */
  class Keychain {
    var saved: Option<Store>

    /** What every save leaves: a well-formed wallet map that passed the
        length checks. */
    ghost predicate Inv()
      reads this
    {
      saved.Some? ==> saved.value.wallets.Valid() && ValidStore(saved.value)
    }

    constructor ()
      ensures saved == None && Inv()
    {
      saved := None;
    }

    /** `getStore`: the saved record, or an empty one with no wallets and no
        optional field. */
    function GetStore(): (s: Store)
      reads this
      ensures saved.None? ==> s.wallets.keys == [] && s.wallets.values == map[] && s.nodeProviderUrl.None?
                              && s.twitter.None? && s.ftToken.None? && s.telegramApiKey.None? && s.basescanApiKey.None?
      ensures Inv() ==> s.wallets.Valid() && ValidStore(s)
    {
      if saved.None? then EmptyStore else saved.value
    }

    /** `setStore`: a record that fails the length checks is rejected and
        nothing is saved. */
    method SetStore(s: Store) returns (outcome: Outcome)
      requires s.wallets.Valid()
      modifies this
      ensures outcome == Saved <==> ValidStore(s)
      ensures outcome == Saved ==> saved == Some(s)
      ensures outcome == Rejected ==> saved == old(saved)
      ensures old(Inv()) ==> Inv()
    {
      var ok := true;
      for i := 0 to |s.wallets.keys|
        invariant ok <==> forall k :: 0 <= k < i ==>
                    |s.wallets.keys[k]| == AddressLength && s.wallets.keys[k] in s.wallets.values
                    && |s.wallets.values[s.wallets.keys[k]].privateKey| == PrivateKeyLength
      {
        var key := s.wallets.keys[i];
        if |key| != AddressLength || key !in s.wallets.values || |s.wallets.values[key].privateKey| != PrivateKeyLength {
          ok := false;
        }
      }
      if !ok {
        return Rejected;
      }
      saved := Some(s);
      return Saved;
    }

    /** `getWallets`: the stored wallets, in the order their addresses were
        first saved. */
    function GetWallets(): (ws: seq<Wallet>)
      reads this
      requires Inv()
      ensures |ws| == GetStore().wallets.Size()
      ensures ws == WalletsOf(GetStore())
      ensures forall i :: 0 <= i < |ws| ==> ws[i].address == GetStore().wallets.keys[i]
    {
      WalletsOf(GetStore())
    }

    /** `setWallet`: the wallet is added or replaced, nothing else changes,
        and the save is rejected exactly when the address or the private key
        has the wrong length. */
    method SetWallet(address: string, name: string, privateKey: string) returns (outcome: Outcome)
      requires Inv()
      modifies this
      ensures Inv()
      ensures outcome == Saved <==> |address| == AddressLength && |privateKey| == PrivateKeyLength
      ensures outcome == Saved ==>
                saved == Some(old(GetStore()).(wallets := old(GetStore()).wallets.Put(address, WalletEntry(name, privateKey))))
      ensures outcome == Rejected ==> saved == old(saved)
    {
      var store := GetStore();
      var updated := store.(wallets := store.wallets.Put(address, WalletEntry(name, privateKey)));
      PutValid(store, address, WalletEntry(name, privateKey));
      outcome := SetStore(updated);
    }

    /** `removeWallet`: the wallet is gone, every other one is kept, and
        the save always goes through. */
    method RemoveWallet(address: string) returns (outcome: Outcome)
      requires Inv()
      modifies this
      ensures Inv() && outcome == Saved
      ensures saved == Some(old(GetStore()).(wallets := WithoutAddress(old(GetStore()).wallets, address, old(GetStore()).wallets.Size())))
    {
      var store := GetStore();
      var wallets := WithoutAddress(store.wallets, address, |store.wallets.keys|);
      RemoveValid(store, address);
      outcome := SetStore(store.(wallets := wallets));
    }

    function GetNodeProviderUrl(): (url: Option<string>)
      reads this
      ensures saved.None? ==> url.None?
    {
      GetStore().nodeProviderUrl
    }

    method SetNodeProviderUrl(url: string) returns (outcome: Outcome)
      requires Inv()
      modifies this
      ensures Inv() && outcome == Saved
      ensures saved == Some(old(GetStore()).(nodeProviderUrl := Some(url)))
      ensures GetNodeProviderUrl() == Some(url)
    {
      var store := GetStore();
      outcome := SetStore(store.(nodeProviderUrl := Some(url)));
    }

    function GetTwitterCredentials(): (c: Option<TwitterCredentials>)
      reads this
      ensures saved.None? ==> c.None?
    {
      GetStore().twitter
    }

    method SetTwitterCredentials(username: string, password: string, email: string) returns (outcome: Outcome)
      requires Inv()
      modifies this
      ensures Inv() && outcome == Saved
      ensures saved == Some(old(GetStore()).(twitter := Some(TwitterCredentials(username, password, email))))
      ensures GetTwitterCredentials() == Some(TwitterCredentials(username, password, email))
    {
      var store := GetStore();
      outcome := SetStore(store.(twitter := Some(TwitterCredentials(username, password, email))));
    }

    function GetFtToken(): (token: Option<string>)
      reads this
      ensures saved.None? ==> token.None?
    {
      GetStore().ftToken
    }

    method SetFtToken(token: string) returns (outcome: Outcome)
      requires Inv()
      modifies this
      ensures Inv() && outcome == Saved
      ensures saved == Some(old(GetStore()).(ftToken := Some(token)))
      ensures GetFtToken() == Some(token)
    {
      var store := GetStore();
      outcome := SetStore(store.(ftToken := Some(token)));
    }

    function GetTelegramApiKey(): (key: Option<string>)
      reads this
      ensures saved.None? ==> key.None?
    {
      GetStore().telegramApiKey
    }

    method SetTelegramApiKey(apiKey: string) returns (outcome: Outcome)
      requires Inv()
      modifies this
      ensures Inv() && outcome == Saved
      ensures saved == Some(old(GetStore()).(telegramApiKey := Some(apiKey)))
      ensures GetTelegramApiKey() == Some(apiKey)
    {
      var store := GetStore();
      outcome := SetStore(store.(telegramApiKey := Some(apiKey)));
    }

    function GetBasescanApiKey(): (key: Option<string>)
      reads this
      ensures saved.None? ==> key.None?
    {
      GetStore().basescanApiKey
    }

    method SetBasescanApiKey(apiKey: string) returns (outcome: Outcome)
      requires Inv()
      modifies this
      ensures Inv() && outcome == Saved
      ensures saved == Some(old(GetStore()).(basescanApiKey := Some(apiKey)))
      ensures GetBasescanApiKey() == Some(apiKey)
    {
      var store := GetStore();
      outcome := SetStore(store.(basescanApiKey := Some(apiKey)));
    }
  }

  /** Adding a wallet to a store that passed the checks gives one that
      passes them exactly when the new address and private key have the
      right lengths. */
  lemma PutValid(s: Store, address: string, entry: WalletEntry)
    requires s.wallets.Valid() && ValidStore(s)
    ensures ValidStore(s.(wallets := s.wallets.Put(address, entry)))
            <==> |address| == AddressLength && |entry.privateKey| == PrivateKeyLength
  {
    var t := s.(wallets := s.wallets.Put(address, entry));
    var keys := t.wallets.keys;
    var i := IndexOf(keys, address);
    if |address| == AddressLength && |entry.privateKey| == PrivateKeyLength {
      forall k | 0 <= k < |keys|
        ensures |keys[k]| == AddressLength && keys[k] in t.wallets.values
                && |t.wallets.values[keys[k]].privateKey| == PrivateKeyLength
      {
        if keys[k] != address {
          assert keys[k] in s.wallets.keys;
          var j := IndexOf(s.wallets.keys, keys[k]);
        }
      }
    }
  }

  /** Removing a wallet keeps a store that passed the checks passing them. */
  lemma RemoveValid(s: Store, address: string)
    requires s.wallets.Valid() && ValidStore(s)
    ensures ValidStore(s.(wallets := WithoutAddress(s.wallets, address, |s.wallets.keys|)))
  {
    var w := WithoutAddress(s.wallets, address, |s.wallets.keys|);
    RemoveWalletEffect(s.wallets, address);
    forall k | 0 <= k < |w.keys|
      ensures |w.keys[k]| == AddressLength && w.keys[k] in w.values
              && |w.values[w.keys[k]].privateKey| == PrivateKeyLength
    {
      assert w.keys[k] in w.values;
      var j := IndexOf(s.wallets.keys, w.keys[k]);
    }
  }

  /** After `setWallet(a, n, k)` is saved, `getWallets` lists the wallet
      `(a, n, k)`, and every other wallet it listed before. */
  lemma WalletsAfterSet(s: Store, address: string, name: string, privateKey: string)
    requires s.wallets.Valid()
    ensures var t := s.(wallets := s.wallets.Put(address, WalletEntry(name, privateKey)));
            && Wallet(address, name, privateKey) in WalletsOf(t)
            && (forall w :: w in WalletsOf(s) && w.address != address ==> w in WalletsOf(t))
  {
    var t := s.(wallets := s.wallets.Put(address, WalletEntry(name, privateKey)));
    var ws, wt := WalletsOf(s), WalletsOf(t);
    assert address in t.wallets.values;
    var j := IndexOf(t.wallets.keys, address);
    assert wt[j] == Wallet(address, name, privateKey);
    forall w | w in ws && w.address != address ensures w in wt {
      var i :| 0 <= i < |ws| && ws[i] == w;
      assert w.address in s.wallets.values;
      var k := IndexOf(t.wallets.keys, w.address);
      assert t.wallets.values[w.address] == s.wallets.values[w.address];
      assert wt[k] == w;
    }
  }
}
