/**
 * The Solana SDK vocabulary the harness is written against: public keys,
 * accounts, instructions and the harness's own error enum. Public keys and
 * the SDK's error enums are opaque here; only equality is used.
 */
module Solana {
  import opened Wrappers

  /** A 32-byte account address; only compared for equality. */
  type Pubkey(==, 0, !new)

  /** `solana_instruction::error::InstructionError`, an opaque SDK enum. */
  type InstructionError(==, 0, !new)

  /** `solana_program_error::ProgramError`, an opaque SDK enum. */
  type ProgramError(==, 0, !new)

  type Byte = bv8

  /** Rust `u64`. */
  const U64_LIMIT: nat := 0x1_0000_0000_0000_0000
  type U64 = x: nat | x < U64_LIMIT

  /** `Pubkey::default()`, the all-zero address. */
  const DEFAULT_PUBKEY: Pubkey
  /** `solana_instructions_sysvar::ID`. */
  const INSTRUCTIONS_SYSVAR_ID: Pubkey
  /** `solana_sysvar_id::ID`, the owner of every sysvar account. */
  const SYSVAR_OWNER_ID: Pubkey
  /** `solana_system_program::id()`. */
  const SYSTEM_PROGRAM_ID: Pubkey
  /** The loader keys re-exported under `loader_keys`. */
  const LOADER_V1: Pubkey
  const LOADER_V2: Pubkey
  const LOADER_V3: Pubkey
  const LOADER_V4: Pubkey
  const NATIVE_LOADER: Pubkey
  /** The precompile program ids re-exported under `precompile_keys`. */
  const ED25519_PROGRAM: Pubkey
  const SECP256K1_PROGRAM: Pubkey
  const SECP256R1_PROGRAM: Pubkey

  /** `solana_account::Account`. */
  datatype Account = Account(
    lamports: U64,
    data: seq<Byte>,
    owner: Pubkey,
    executable: bool,
    rentEpoch: U64)

  /** `Account::default()`. */
  const DEFAULT_ACCOUNT: Account := Account(0, [], DEFAULT_PUBKEY, false, 0)

  type KeyedAccount = (Pubkey, Account)

  datatype AccountMeta = AccountMeta(pubkey: Pubkey, isSigner: bool, isWritable: bool)

  datatype Instruction = Instruction(programId: Pubkey, accounts: seq<AccountMeta>, data: seq<Byte>)

  /** `MolluskError` variants raised while compiling accounts, and the
      panic of an `unwrap` on a key the key map does not hold. */
  datatype Fault = AccountMissing(key: Pubkey) | KeyNotMapped(key: Pubkey)

  /** `iter().find(|(k, _)| k == key).map(|(_, a)| a)`: the account of the
      first entry whose key matches. */
  function Lookup(accounts: seq<KeyedAccount>, key: Pubkey): (r: Option<Account>)
    ensures r.None? <==> forall i :: 0 <= i < |accounts| ==> accounts[i].0 != key
    ensures r.Some? ==> exists i :: 0 <= i < |accounts| && accounts[i] == (key, r.value)
                                   && forall j :: 0 <= j < i ==> accounts[j].0 != key
  {
    if accounts == [] then None
    else if accounts[0].0 == key then Some(accounts[0].1)
    else Lookup(accounts[1..], key)
  }

  /** `keys.iter().map(|key| (*key, resolve(key))).collect()` where
      `resolve` panics on a fault: either every key resolves and the entries
      follow the keys one for one, or the first key that does not resolve
      stops the map with its fault. */
  function MapKeys(keys: seq<Pubkey>, resolve: Pubkey -> Result<Account, Fault>): (r: Result<seq<KeyedAccount>, Fault>)
    ensures r.Ok? <==> forall i :: 0 <= i < |keys| ==> resolve(keys[i]).Ok?
    ensures r.Ok? ==> |r.value| == |keys|
    ensures r.Ok? ==> forall i :: 0 <= i < |keys| ==> r.value[i] == (keys[i], resolve(keys[i]).value)
    ensures r.Err? ==> exists i :: (0 <= i < |keys| && resolve(keys[i]) == Err(r.error)
                                    && forall j :: 0 <= j < i ==> resolve(keys[j]).Ok?)
    decreases |keys|
  {
    if keys == [] then Ok([])
    else
      match resolve(keys[0])
      case Err(fault) => Err(fault)
      case Ok(account) =>
        match MapKeys(keys[1..], resolve)
        case Err(fault) => Err(fault)
        case Ok(rest) => Ok([(keys[0], account)] + rest)
  }
}
