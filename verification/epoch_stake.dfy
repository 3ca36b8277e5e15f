/**
 * Epoch stake: a map from vote account to stake, the mock map that splits
 * a target total over a few vote accounts, and the two stake queries the
 * harness answers for the runtime.
 */
module EpochStakes {
  import opened Wrappers
  import opened Solana

  type EpochStake = map<Pubkey, U64>

  const LAMPORTS_PER_MOCK_ACCOUNT: nat := 1_000_000_000

  // ---------------------------------------------------------------------
  // The sum of the stakes.

  ghost function Pick(stake: EpochStake): Pubkey
    requires stake != map[]
  {
    var k :| k in stake; k
  }

  /** `epoch_stake.values().sum()`. */
  ghost function Total(stake: EpochStake): nat
    decreases |stake|
  {
    if stake == map[] then 0
    else
      var k := Pick(stake);
      assert stake.Keys - {k} == (stake - {k}).Keys;
      stake[k] + Total(stake - {k})
  }

  /** The sum does not depend on which key is taken first. */
  lemma {:induction false} TotalRemove(stake: EpochStake, k: Pubkey)
    requires k in stake
    ensures Total(stake) == stake[k] + Total(stake - {k})
    decreases |stake|
  {
    var j := Pick(stake);
    if j != k {
      assert stake.Keys - {j} == (stake - {j}).Keys;
      assert stake.Keys - {k} == (stake - {k}).Keys;
      TotalRemove(stake - {j}, k);
      TotalRemove(stake - {k}, j);
      assert stake - {j} - {k} == stake - {k} - {j};
    }
  }

  /** Adding a stake under a new key adds it to the sum. */
  lemma TotalInsert(stake: EpochStake, k: Pubkey, v: U64)
    requires k !in stake
    ensures Total(stake[k := v]) == Total(stake) + v
  {
    TotalRemove(stake[k := v], k);
    assert stake[k := v] - {k} == stake;
  }

  /** `get_epoch_stake`: the sum of every vote account's stake, added up
      in `u64`. `None` stands for the overflow panic of a debug build,
      which happens exactly when the true sum leaves `u64`, whatever order
      the values come in. */
  method GetEpochStake(stake: EpochStake) returns (total: Option<U64>)
    ensures total.None? <==> Total(stake) >= U64_LIMIT
    ensures total.Some? ==> total.value == Total(stake)
  {
    var sum: U64 := 0;
    var rest := stake;
    while rest != map[]
      invariant rest.Keys <= stake.Keys
      invariant sum + Total(rest) == Total(stake)
      decreases |rest|
    {
      var k :| k in rest;
      TotalRemove(rest, k);
      if sum + rest[k] >= U64_LIMIT {
        return None;
      }
      sum := sum + rest[k];
      assert rest.Keys - {k} == (rest - {k}).Keys;
      rest := rest - {k};
    }
    total := Some(sum);
  }

  /** `get_epoch_stake_for_vote_account`: the stake of a known vote
      account, 0 for an unknown one. */
  function GetEpochStakeForVoteAccount(stake: EpochStake, voteAddress: Pubkey): (r: U64)
    ensures voteAddress in stake ==> r == stake[voteAddress]
    ensures voteAddress !in stake ==> r == 0
  {
    if voteAddress in stake then stake[voteAddress] else 0
  }

  // ---------------------------------------------------------------------
  // The mock stake.

  /** `u64::div_ceil`. */
  function DivCeil(a: nat, b: nat): (r: nat)
    requires b > 0
    ensures (r - 1) * b < a <= r * b || (a == 0 && r == 0)
  {
    a / b + (if a % b == 0 then 0 else 1)
  }

  /** The number of mock vote accounts for a target total: one per started
      billion lamports. */
  function NumAccounts(targetTotal: U64): nat {
    DivCeil(targetTotal, LAMPORTS_PER_MOCK_ACCOUNT)
  }

  function Sum(values: seq<nat>): nat
    decreases |values|
  {
    if values == [] then 0 else Sum(values[..|values| - 1]) + values[|values| - 1]
  }

  /** The stakes the mock map is filled with, in order:
      `repeat(base).take(n - 1).chain(once(base + remainder))`. They make
      up the target exactly, and none exceeds it. */
  function Shares(targetTotal: U64): (r: seq<U64>)
    ensures |r| == NumAccounts(targetTotal)
    ensures forall j :: 0 <= j < |r| - 1 ==> r[j] == targetTotal / |r|
    ensures |r| > 0 ==> r[|r| - 1] == targetTotal / |r| + targetTotal % |r|
    ensures Sum(r) == targetTotal
    ensures forall j :: 0 <= j < |r| ==> r[j] <= targetTotal
  {
    if targetTotal == 0 then []
    else
      var n := NumAccounts(targetTotal);
      var base := targetTotal / n;
      var remainder := targetTotal % n;
      SplitFits(targetTotal, n);
      var r := seq(n - 1, _ => base as U64) + [(base + remainder) as U64];
      assert r[..n - 1] == seq(n - 1, _ => base as nat);
      SumRepeat(n - 1, base);
      MulSucc(n - 1, base);
      r
  }

  lemma {:induction false} SumRepeat(m: nat, b: nat)
    ensures Sum(seq(m, _ => b)) == m * b
    decreases m
  {
    if m > 0 {
      assert seq(m, _ => b)[..m - 1] == seq(m - 1, _ => b);
      SumRepeat(m - 1, b);
      MulSucc(m - 1, b);
    }
  }

  /** The map that gives the j-th key the j-th value. */
  function ZipMap(keys: seq<Pubkey>, values: seq<U64>): EpochStake
    requires |keys| == |values|
    decreases |keys|
  {
    if keys == [] then map[]
    else ZipMap(keys[..|keys| - 1], values[..|values| - 1])[keys[|keys| - 1] := values[|values| - 1]]
  }

  predicate Distinct(keys: seq<Pubkey>) {
    forall i :: 0 <= i < |keys| ==> keys[i] !in keys[..i]
  }

  lemma DistinctPrefix(keys: seq<Pubkey>, m: nat)
    requires Distinct(keys) && m <= |keys|
    ensures Distinct(keys[..m])
  {
    forall i | 0 <= i < m ensures keys[..m][i] !in keys[..m][..i] {
      assert keys[..m][..i] == keys[..i];
    }
  }

  /** Over distinct keys, the zipped map holds exactly those keys. */
  lemma {:induction false} ZipMapKeys(keys: seq<Pubkey>, values: seq<U64>)
    requires |keys| == |values| && Distinct(keys)
    ensures |ZipMap(keys, values)| == |keys|
    ensures forall k :: k in ZipMap(keys, values) <==> k in keys
    decreases |keys|
  {
    if keys != [] {
      var n := |keys|;
      DistinctPrefix(keys, n - 1);
      ZipMapKeys(keys[..n - 1], values[..n - 1]);
      assert keys == keys[..n - 1] + [keys[n - 1]];
    }
  }

  /** Each key holds its own value (a later duplicate would win; distinct
      keys have none). */
  lemma {:induction false} ZipMapValues(keys: seq<Pubkey>, values: seq<U64>)
    requires |keys| == |values| && Distinct(keys)
    ensures forall j :: 0 <= j < |keys| ==> keys[j] in ZipMap(keys, values) && ZipMap(keys, values)[keys[j]] == values[j]
    decreases |keys|
  {
    if keys != [] {
      var n := |keys|;
      DistinctPrefix(keys, n - 1);
      ZipMapValues(keys[..n - 1], values[..n - 1]);
      forall j | 0 <= j < n - 1 ensures keys[j] != keys[n - 1] {
        assert keys[j] in keys[..n - 1];
      }
    }
  }

  /** The zipped stakes add up to the sum of the values. */
  lemma {:induction false} ZipMapTotal(keys: seq<Pubkey>, values: seq<U64>)
    requires |keys| == |values| && Distinct(keys)
    ensures Total(ZipMap(keys, values)) == Sum(values)
    decreases |keys|
  {
    if keys != [] {
      var n := |keys|;
      DistinctPrefix(keys, n - 1);
      ZipMapTotal(keys[..n - 1], values[..n - 1]);
      ZipMapKeys(keys[..n - 1], values[..n - 1]);
      TotalInsert(ZipMap(keys[..n - 1], values[..n - 1]), keys[n - 1], values[n - 1]);
    }
  }

  /** `create_mock_epoch_stake`. `Pubkey::new_unique` is modelled by
      `uniqueKeys`, a supply of distinct keys taken in order: the j-th
      fresh key holds the j-th share, so the stakes sum to the target. */
  method CreateMockEpochStake(targetTotal: U64, uniqueKeys: seq<Pubkey>) returns (stake: EpochStake)
    requires |uniqueKeys| >= NumAccounts(targetTotal) && Distinct(uniqueKeys)
    ensures targetTotal == 0 ==> stake == map[]
    ensures |stake| == NumAccounts(targetTotal)
    ensures forall k :: k in stake <==> k in uniqueKeys[..NumAccounts(targetTotal)]
    ensures forall j :: 0 <= j < NumAccounts(targetTotal) ==> stake[uniqueKeys[j]] == Shares(targetTotal)[j]
    ensures Total(stake) == targetTotal
    ensures forall k :: k in stake ==> stake[k] <= targetTotal
  {
    if targetTotal == 0 {
      return map[];
    }
    var shares := Shares(targetTotal);
    stake := InsertShares(shares, uniqueKeys);
    ghost var keys := uniqueKeys[..|shares|];
    DistinctPrefix(uniqueKeys, |shares|);
    ZipMapKeys(keys, shares);
    ZipMapValues(keys, shares);
    ZipMapTotal(keys, shares);
    forall k | k in stake ensures stake[k] <= targetTotal {
      var j :| 0 <= j < |keys| && keys[j] == k;
    }
  }

  /** The `for_each` of `create_mock_epoch_stake`: each share goes to the
      next fresh key. */
  method InsertShares(shares: seq<U64>, uniqueKeys: seq<Pubkey>) returns (stake: EpochStake)
    requires |uniqueKeys| >= |shares|
    ensures stake == ZipMap(uniqueKeys[..|shares|], shares)
  {
    stake := map[];
    var i := 0;
    while i < |shares|
      invariant 0 <= i <= |shares|
      invariant stake == ZipMap(uniqueKeys[..i], shares[..i])
    {
      assert uniqueKeys[..i + 1][..i] == uniqueKeys[..i];
      assert shares[..i + 1][..i] == shares[..i];
      stake := stake[uniqueKeys[i] := shares[i]];
      i := i + 1;
    }
    assert shares[..i] == shares;
  }

  /** `n` shares of `base` plus the remainder make up the target, and the
      last share cannot exceed it. */
  lemma SplitFits(targetTotal: nat, n: nat)
    requires 0 < n
    ensures n * (targetTotal / n) + targetTotal % n == targetTotal
    ensures targetTotal / n + targetTotal % n <= targetTotal
  {
    DivModSplit(targetTotal, n);
    MulAtLeast(n, targetTotal / n);
  }

  lemma DivModSplit(t: nat, n: nat)
    requires n > 0
    ensures n * (t / n) + t % n == t
  {
  }

  lemma {:induction false} MulAtLeast(n: nat, b: nat)
    requires n >= 1
    ensures n * b >= b
    decreases n
  {
    if n > 1 {
      MulAtLeast(n - 1, b);
      MulSucc(n - 1, b);
    }
  }

  lemma MulSucc(m: nat, b: nat)
    ensures m * b + b == (m + 1) * b
  {
  }
}
