/**
 * The account store a `MolluskContext` reads from and writes back to, in
 * its `HashMap` implementation.
 */
module AccountStore {
  import opened Wrappers
  import opened Solana

  /** The store after writing the entries in order, each `insert`
      replacing what was under its key. */
  function StoreAll(m: map<Pubkey, Account>, entries: seq<KeyedAccount>): map<Pubkey, Account>
    decreases |entries|
  {
    if entries == [] then m
    else
      var last := entries[|entries| - 1];
      StoreAll(m, entries[..|entries| - 1])[last.0 := last.1]
  }

  /** After writing a list of entries, a key is present iff it was present
      before or is written. */
  lemma {:induction false} StoreAllKeys(m: map<Pubkey, Account>, entries: seq<KeyedAccount>)
    ensures forall k :: k in StoreAll(m, entries) <==> k in m || exists i :: 0 <= i < |entries| && entries[i].0 == k
    decreases |entries|
  {
    if entries != [] {
      var n := |entries|;
      StoreAllKeys(m, entries[..n - 1]);
      assert forall i :: 0 <= i < n - 1 ==> entries[..n - 1][i] == entries[i];
    }
  }

  /** Keys that are not written keep their accounts. */
  lemma {:induction false} StoreAllKeepsUnwritten(m: map<Pubkey, Account>, entries: seq<KeyedAccount>)
    ensures forall k :: k in m && (forall i :: 0 <= i < |entries| ==> entries[i].0 != k) ==>
      k in StoreAll(m, entries) && StoreAll(m, entries)[k] == m[k]
    decreases |entries|
  {
    if entries != [] {
      var n := |entries|;
      StoreAllKeepsUnwritten(m, entries[..n - 1]);
      assert forall i :: 0 <= i < n - 1 ==> entries[..n - 1][i] == entries[i];
    }
  }

  /** A written key holds the account of the LAST entry written under it. */
  lemma {:induction false} StoreAllLastWriteWins(m: map<Pubkey, Account>, entries: seq<KeyedAccount>)
    ensures forall i :: 0 <= i < |entries| && (forall j :: i < j < |entries| ==> entries[j].0 != entries[i].0) ==>
      entries[i].0 in StoreAll(m, entries) && StoreAll(m, entries)[entries[i].0] == entries[i].1
  {
    forall i | 0 <= i < |entries| && (forall j :: i < j < |entries| ==> entries[j].0 != entries[i].0)
      ensures entries[i].0 in StoreAll(m, entries) && StoreAll(m, entries)[entries[i].0] == entries[i].1
    {
      StoreAllLast(m, entries, i);
    }
  }

  /** The last write under one key, by induction on the entries. */
  lemma {:induction false} StoreAllLast(m: map<Pubkey, Account>, entries: seq<KeyedAccount>, i: nat)
    requires i < |entries|
    requires forall j :: i < j < |entries| ==> entries[j].0 != entries[i].0
    ensures entries[i].0 in StoreAll(m, entries) && StoreAll(m, entries)[entries[i].0] == entries[i].1
    decreases |entries|
  {
    var n := |entries|;
    if i < n - 1 {
      var init := entries[..n - 1];
      assert init[i] == entries[i];
      assert forall j :: i < j < n - 1 ==> init[j] == entries[j];
      StoreAllLast(m, init, i);
      assert entries[n - 1].0 != entries[i].0;
    }
  }

  /** `impl AccountStore for HashMap<Pubkey, AccountSharedData>`. */
  class HashMapStore {
    var accounts: map<Pubkey, Account>

    /** An empty `HashMap`. */
    constructor ()
      ensures accounts == map[]
      ensures forall k :: GetAccount(k).None?
    {
      accounts := map[];
    }

    /** `default_account`: the trait's default, whatever the key. */
    function DefaultAccount(pubkey: Pubkey): (a: Account)
      ensures a.lamports == 0 && a.data == [] && a.owner == DEFAULT_PUBKEY && !a.executable && a.rentEpoch == 0
    {
      DEFAULT_ACCOUNT
    }

    /** `get_account`: a copy of the stored account, if any. */
    function GetAccount(pubkey: Pubkey): (r: Option<Account>)
      reads this
      ensures r.None? <==> pubkey !in accounts
      ensures r.Some? ==> r.value == accounts[pubkey]
    {
      if pubkey in accounts then Some(accounts[pubkey]) else None
    }

    /** `store_account`: insert, replacing any account under the key. */
    method StoreAccount(pubkey: Pubkey, account: Account)
      modifies this
      ensures accounts == old(accounts)[pubkey := account]
      ensures GetAccount(pubkey) == Some(account)
      ensures forall k :: k != pubkey ==> GetAccount(k) == old(GetAccount(k))
    {
      accounts := accounts[pubkey := account];
    }

    /** Writes every entry in order, as `consume_mollusk_result` does. */
    method StoreAccounts(entries: seq<KeyedAccount>)
      modifies this
      ensures accounts == StoreAll(old(accounts), entries)
    {
      var i := 0;
      while i < |entries|
        invariant 0 <= i <= |entries|
        invariant accounts == StoreAll(old(accounts), entries[..i])
      {
        assert entries[..i + 1][..i] == entries[..i];
        StoreAccount(entries[i].0, entries[i].1);
        i := i + 1;
      }
      assert entries[..i] == entries;
    }
  }

  /** Storing twice under one key keeps only the later account. */
  lemma StoreTwiceKeepsLater(m: map<Pubkey, Account>, k: Pubkey, a: Account, b: Account)
    ensures StoreAll(m, [(k, a), (k, b)]) == m[k := b]
  {
    assert [(k, a), (k, b)][..1] == [(k, a)];
    assert [(k, a)][..0] == [];
    assert StoreAll(m, [(k, a)]) == m[k := a];
    assert StoreAll(m, [(k, a), (k, b)]) == m[k := a][k := b];
  }
}
