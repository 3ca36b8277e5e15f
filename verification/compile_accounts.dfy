/**
 * Transaction account compilation: every account key of the message is
 * given an account, taken from the caller's accounts, else from the
 * fallback accounts (the harness's program cache and sysvars), else
 * synthesized for program ids and the instructions sysvar.
 */
module CompileAccounts {
  import opened Wrappers
  import opened Solana

  /** `construct_instructions_data`, the SDK's serialisation of the
      instructions sysvar. */
  type InstructionsSerializer = seq<Instruction> -> seq<Byte>

  /** `Message::new(instructions, None).account_keys()`: the SDK's ordering
      of the distinct keys the instructions mention. */
  type MessageKeys = seq<Instruction> -> seq<Pubkey>

  /** The `program_ids` set collected from every instruction. */
  function ProgramIds(instructions: seq<Instruction>): set<Pubkey> {
    set ix | ix in instructions :: ix.programId
  }

  /** `instructions_sysvar::keyed_account`: the sysvar synthesized from all
      instructions. */
  function InstructionsSysvarAccount(instructions: seq<Instruction>, serialize: InstructionsSerializer): Account {
    Account(0, serialize(instructions), SYSVAR_OWNER_ID, false, 0)
  }

  /** A program account nobody supplied: the default account marked executable. */
  const STUB_PROGRAM_ACCOUNT: Account := DEFAULT_ACCOUNT.(executable := true)

  /** The account one message key resolves to. */
  function ResolveKey(
    key: Pubkey,
    provided: seq<KeyedAccount>,
    instructions: seq<Instruction>,
    fallback: map<Pubkey, Account>,
    serialize: InstructionsSerializer): Result<Account, Fault>
  {
    if key in ProgramIds(instructions) then
      (match Lookup(provided, key)
       case Some(account) => Ok(account)
       case None => if key in fallback then Ok(fallback[key]) else Ok(STUB_PROGRAM_ACCOUNT))
    else if key == INSTRUCTIONS_SYSVAR_ID then
      (match Lookup(provided, key)
       case Some(account) => Ok(account)
       case None =>
         if key in fallback then Ok(fallback[key]) else Ok(InstructionsSysvarAccount(instructions, serialize)))
    else
      match Lookup(provided, key)
      case Some(account) => Ok(account)
      case None => if key in fallback then Ok(fallback[key]) else Err(AccountMissing(key))
  }

  /** `build_transaction_accounts`; `AccountMissing` is a panic in the
      source, here the error of the result. */
  function BuildTransactionAccounts(
    accountKeys: seq<Pubkey>,
    provided: seq<KeyedAccount>,
    instructions: seq<Instruction>,
    fallback: map<Pubkey, Account>,
    serialize: InstructionsSerializer): Result<seq<KeyedAccount>, Fault>
  {
    MapKeys(accountKeys, key => ResolveKey(key, provided, instructions, fallback, serialize))
  }

  /** `compile_accounts`: the message's key list and the accounts aligned with it. */
  function Compile(
    instructions: seq<Instruction>,
    provided: seq<KeyedAccount>,
    fallback: map<Pubkey, Account>,
    messageKeys: MessageKeys,
    serialize: InstructionsSerializer): (r: Result<(seq<Pubkey>, seq<KeyedAccount>), Fault>)
    ensures r.Ok? ==> r.value.0 == messageKeys(instructions) && |r.value.1| == |r.value.0|
    ensures r.Ok? ==> forall i :: 0 <= i < |r.value.0| ==> r.value.1[i].0 == r.value.0[i]
    ensures r.Err? ==> r.error.AccountMissing? && r.error.key in messageKeys(instructions)
  {
    var keys := messageKeys(instructions);
    var built := BuildTransactionAccounts(keys, provided, instructions, fallback, serialize);
    BuildFailsOnlyForUnknownKeys(keys, provided, instructions, fallback, serialize);
    match built
    case Err(fault) => Err(fault)
    case Ok(accounts) => Ok((keys, accounts))
  }

  // ---------------------------------------------------------------------
  // Properties.

  /** Whatever the kind of key, a provided account wins over a fallback,
      and a fallback over anything synthesized; only a key that is neither
      a program id nor the instructions sysvar can be missing. */
  lemma ResolveKeyWaterfall(
    key: Pubkey, provided: seq<KeyedAccount>, instructions: seq<Instruction>,
    fallback: map<Pubkey, Account>, serialize: InstructionsSerializer)
    ensures Lookup(provided, key).Some? ==>
      ResolveKey(key, provided, instructions, fallback, serialize) == Ok(Lookup(provided, key).value)
    ensures Lookup(provided, key).None? && key in fallback ==>
      ResolveKey(key, provided, instructions, fallback, serialize) == Ok(fallback[key])
    ensures Lookup(provided, key).None? && key !in fallback ==>
      ResolveKey(key, provided, instructions, fallback, serialize) ==
        if key in ProgramIds(instructions) then Ok(STUB_PROGRAM_ACCOUNT)
        else if key == INSTRUCTIONS_SYSVAR_ID then Ok(InstructionsSysvarAccount(instructions, serialize))
        else Err(AccountMissing(key))
  {
  }

  /** A program id, and the instructions sysvar key, always resolve. */
  lemma ProgramIdNeverMissing(
    key: Pubkey, provided: seq<KeyedAccount>, instructions: seq<Instruction>,
    fallback: map<Pubkey, Account>, serialize: InstructionsSerializer)
    requires (exists ix :: ix in instructions && ix.programId == key) || key == INSTRUCTIONS_SYSVAR_ID
    ensures ResolveKey(key, provided, instructions, fallback, serialize).Ok?
  {
  }

  /** A key that is both a program id and the instructions sysvar is
      treated as a program id. */
  lemma ProgramIdBranchFirst(
    provided: seq<KeyedAccount>, instructions: seq<Instruction>,
    fallback: map<Pubkey, Account>, serialize: InstructionsSerializer)
    requires INSTRUCTIONS_SYSVAR_ID in ProgramIds(instructions)
    requires Lookup(provided, INSTRUCTIONS_SYSVAR_ID).None? && INSTRUCTIONS_SYSVAR_ID !in fallback
    ensures ResolveKey(INSTRUCTIONS_SYSVAR_ID, provided, instructions, fallback, serialize) == Ok(STUB_PROGRAM_ACCOUNT)
  {
  }

  /** The output follows the message keys one for one, so a provided
      account under any other key is dropped; the first provided entry
      under a key is the one used. */
  lemma BuildFollowsKeys(
    accountKeys: seq<Pubkey>, provided: seq<KeyedAccount>, instructions: seq<Instruction>,
    fallback: map<Pubkey, Account>, serialize: InstructionsSerializer)
    ensures var r := BuildTransactionAccounts(accountKeys, provided, instructions, fallback, serialize);
      r.Ok? ==> |r.value| == |accountKeys| && forall i :: 0 <= i < |accountKeys| ==> r.value[i].0 == accountKeys[i]
    ensures var r := BuildTransactionAccounts(accountKeys, provided, instructions, fallback, serialize);
      r.Ok? ==> forall e :: e in r.value ==> e.0 in accountKeys
    ensures var r := BuildTransactionAccounts(accountKeys, provided, instructions, fallback, serialize);
      r.Ok? ==> forall i, j :: (0 <= i < |accountKeys| && 0 <= j < |provided| && provided[j].0 == accountKeys[i]
                                && forall k :: 0 <= k < j ==> provided[k].0 != accountKeys[i]) ==>
        r.value[i].1 == provided[j].1
  {
    var r := BuildTransactionAccounts(accountKeys, provided, instructions, fallback, serialize);
    if r.Ok? {
      forall e | e in r.value ensures e.0 in accountKeys {
        var i :| 0 <= i < |r.value| && r.value[i] == e;
      }
      forall i, j | 0 <= i < |accountKeys| && 0 <= j < |provided| && provided[j].0 == accountKeys[i]
                    && forall k :: 0 <= k < j ==> provided[k].0 != accountKeys[i]
        ensures r.value[i].1 == provided[j].1
      {
        FirstEntryFound(provided, accountKeys[i], j);
      }
    }
  }

  /** `Lookup` returns the first entry with the key. */
  lemma {:induction false} FirstEntryFound(accounts: seq<KeyedAccount>, key: Pubkey, j: nat)
    requires j < |accounts| && accounts[j].0 == key
    requires forall k :: 0 <= k < j ==> accounts[k].0 != key
    ensures Lookup(accounts, key) == Some(accounts[j].1)
  {
    var r := Lookup(accounts, key);
    var i :| 0 <= i < |accounts| && accounts[i] == (key, r.value) && forall k :: 0 <= k < i ==> accounts[k].0 != key;
    assert !(i < j) && !(j < i);
  }

  /** Building fails exactly when some key is neither a program id nor the
      instructions sysvar and is neither provided nor a fallback; the fault
      names the first such key. */
  lemma BuildFailsOnlyForUnknownKeys(
    accountKeys: seq<Pubkey>, provided: seq<KeyedAccount>, instructions: seq<Instruction>,
    fallback: map<Pubkey, Account>, serialize: InstructionsSerializer)
    ensures BuildTransactionAccounts(accountKeys, provided, instructions, fallback, serialize).Err? <==>
      exists i :: 0 <= i < |accountKeys| && Unresolvable(accountKeys[i], provided, instructions, fallback)
    ensures var r := BuildTransactionAccounts(accountKeys, provided, instructions, fallback, serialize);
      r.Err? ==> exists i :: (0 <= i < |accountKeys| && r.error == AccountMissing(accountKeys[i])
                              && Unresolvable(accountKeys[i], provided, instructions, fallback)
                              && forall j :: 0 <= j < i ==> !Unresolvable(accountKeys[j], provided, instructions, fallback))
  {
    var resolve := key => ResolveKey(key, provided, instructions, fallback, serialize);
    assert forall key :: resolve(key).Err? <==> Unresolvable(key, provided, instructions, fallback);
  }

  predicate Unresolvable(key: Pubkey, provided: seq<KeyedAccount>, instructions: seq<Instruction>, fallback: map<Pubkey, Account>) {
    && key !in ProgramIds(instructions)
    && key != INSTRUCTIONS_SYSVAR_ID
    && Lookup(provided, key).None?
    && key !in fallback
  }
}
