/**
 * Instruction and transaction account compilation against a key map: an
 * instruction's program id and account metas become byte indices into the
 * key map, and the key map's keys are given accounts.
 */
module KeysAccounts {
  import opened Wrappers
  import opened Solana

  /** Rust `u8`. */
  type U8 = x: nat | x < 256

  /** `x as u8`: keeps the low eight bits. */
  function AsU8(x: nat): (r: U8)
    ensures x < 256 ==> r == x
    ensures (r - x) % 256 == 0
  {
    x % 256
  }

  /** One entry of the key map: a key and the merged privileges of every
      meta that names it. */
  datatype KeyEntry = KeyEntry(pubkey: Pubkey, isSigner: bool, isWritable: bool)

  /** `KeyMap`, an insertion-ordered map from key to privileges. How it is
      built (`KeyMap::compile`) is not part of this model; it is taken as
      given. */
  datatype KeyMap = KeyMap(entries: seq<KeyEntry>)
  {
    /** `keys()`, in map order. */
    function Keys(): (r: seq<Pubkey>)
      ensures |r| == |entries| && forall i :: 0 <= i < |entries| ==> r[i] == entries[i].pubkey
    {
      seq(|entries|, i requires 0 <= i < |entries| => entries[i].pubkey)
    }

    /** `position(key)`: the index of the key's entry. */
    function Position(key: Pubkey): (r: Option<nat>)
      ensures r.None? <==> forall i :: 0 <= i < |entries| ==> entries[i].pubkey != key
      ensures r.Some? ==> r.value < |entries| && entries[r.value].pubkey == key
      ensures r.Some? ==> forall j :: 0 <= j < r.value ==> entries[j].pubkey != key
    {
      PositionFrom(key, 0)
    }

    function PositionFrom(key: Pubkey, from: nat): (r: Option<nat>)
      requires from <= |entries|
      ensures r.None? <==> forall i :: from <= i < |entries| ==> entries[i].pubkey != key
      ensures r.Some? ==> from <= r.value < |entries| && entries[r.value].pubkey == key
      ensures r.Some? ==> forall j :: from <= j < r.value ==> entries[j].pubkey != key
      decreases |entries| - from
    {
      if from == |entries| then None
      else if entries[from].pubkey == key then Some(from)
      else PositionFrom(key, from + 1)
    }

    /** `is_signer_at_index`; an index past the end reads as not a signer. */
    predicate IsSignerAtIndex(index: nat) {
      index < |entries| && entries[index].isSigner
    }

    /** `is_writable_at_index`; an index past the end reads as not writable. */
    predicate IsWritableAtIndex(index: nat) {
      index < |entries| && entries[index].isWritable
    }
  }

  /** `CompiledInstructionWithoutData`. */
  datatype CompiledInstruction = CompiledInstruction(programIdIndex: U8, accounts: seq<U8>)

  /** `InstructionAccount`: an index into the transaction's accounts and the
      privileges the instruction has on it. */
  datatype InstructionAccount = InstructionAccount(indexInTransaction: nat, isSigner: bool, isWritable: bool)

  /** The key-map index of every meta, in meta order; the first meta whose
      key is not mapped stops the map (`unwrap` panics). */
  function MetaIndices(keyMap: KeyMap, metas: seq<AccountMeta>): (r: Result<seq<U8>, Fault>)
    ensures r.Ok? <==> forall i :: 0 <= i < |metas| ==> keyMap.Position(metas[i].pubkey).Some?
    ensures r.Ok? ==> |r.value| == |metas|
    ensures r.Ok? ==> forall i :: 0 <= i < |metas| ==> r.value[i] == AsU8(keyMap.Position(metas[i].pubkey).value)
    ensures r.Err? ==> exists i :: (0 <= i < |metas| && r.error == KeyNotMapped(metas[i].pubkey)
                                    && keyMap.Position(metas[i].pubkey).None?
                                    && forall j :: 0 <= j < i ==> keyMap.Position(metas[j].pubkey).Some?)
    decreases |metas|
  {
    if metas == [] then Ok([])
    else
      match keyMap.Position(metas[0].pubkey)
      case None => Err(KeyNotMapped(metas[0].pubkey))
      case Some(position) =>
        match MetaIndices(keyMap, metas[1..])
        case Err(fault) => Err(fault)
        case Ok(rest) => Ok([AsU8(position)] + rest)
  }

  /** `compile_instruction_without_data`. The program id is looked up first. */
  function CompileInstructionWithoutData(keyMap: KeyMap, instruction: Instruction): (r: Result<CompiledInstruction, Fault>)
    ensures r.Err? <==> (keyMap.Position(instruction.programId).None?
                         || exists i :: 0 <= i < |instruction.accounts| && keyMap.Position(instruction.accounts[i].pubkey).None?)
    ensures keyMap.Position(instruction.programId).None? ==> r == Err(KeyNotMapped(instruction.programId))
    ensures r.Ok? ==> r.value.programIdIndex == AsU8(keyMap.Position(instruction.programId).value)
    ensures r.Ok? ==> |r.value.accounts| == |instruction.accounts|
    ensures r.Ok? ==> forall i :: 0 <= i < |instruction.accounts| ==>
      r.value.accounts[i] == AsU8(keyMap.Position(instruction.accounts[i].pubkey).value)
  {
    match keyMap.Position(instruction.programId)
    case None => Err(KeyNotMapped(instruction.programId))
    case Some(programIdPosition) =>
      match MetaIndices(keyMap, instruction.accounts)
      case Err(fault) => Err(fault)
      case Ok(accounts) => Ok(CompiledInstruction(AsU8(programIdPosition), accounts))
  }

  /** `compile_instruction_accounts`: one instruction account per compiled
      index, its privileges read back from the key map at that index. */
  function CompileInstructionAccounts(keyMap: KeyMap, compiled: CompiledInstruction): (r: seq<InstructionAccount>)
    ensures |r| == |compiled.accounts|
    ensures forall i :: 0 <= i < |r| ==> r[i].indexInTransaction == compiled.accounts[i]
    ensures forall i :: 0 <= i < |r| ==>
      r[i].isSigner == keyMap.IsSignerAtIndex(compiled.accounts[i])
      && r[i].isWritable == keyMap.IsWritableAtIndex(compiled.accounts[i])
  {
    seq(|compiled.accounts|, i requires 0 <= i < |compiled.accounts| =>
      var index := compiled.accounts[i];
      InstructionAccount(index, keyMap.IsSignerAtIndex(index), keyMap.IsWritableAtIndex(index)))
  }

  /** The account of one key-map key: the first provided entry; else the
      stub, if there is one and `isProgramId` holds of the key; else missing. */
  function AccountForKey(
    key: Pubkey, accounts: seq<KeyedAccount>, stub: Option<Account>, isProgramId: bool): (r: Result<Account, Fault>)
    ensures Lookup(accounts, key).Some? ==> r == Ok(Lookup(accounts, key).value)
    ensures Lookup(accounts, key).None? && stub.Some? && isProgramId ==> r == Ok(stub.value)
    ensures r.Err? <==> Lookup(accounts, key).None? && (stub.None? || !isProgramId)
    ensures r.Err? ==> r.error == AccountMissing(key)
  {
    match Lookup(accounts, key)
    case Some(account) => Ok(account)
    case None =>
      if stub.Some? && isProgramId then Ok(stub.value) else Err(AccountMissing(key))
  }

  /** The shared body of both `compile_transaction_accounts*` functions:
      every key-map key in order, with its first provided account, or the
      stub when there is one and the key counts as a program id; the first
      key that is neither is `AccountMissing`. */
  function CompileKeyedAccounts(
    keyMap: KeyMap, accounts: seq<KeyedAccount>, stub: Option<Account>, isProgramId: Pubkey -> bool)
    : (r: Result<seq<KeyedAccount>, Fault>)
    ensures r.Ok? <==> forall i :: 0 <= i < |keyMap.entries| ==>
      Covered(keyMap.entries[i].pubkey, accounts, stub, isProgramId)
    ensures r.Ok? ==> |r.value| == |keyMap.entries|
    ensures r.Ok? ==> forall i :: 0 <= i < |r.value| ==> r.value[i].0 == keyMap.entries[i].pubkey
    ensures r.Ok? ==> forall i :: 0 <= i < |r.value| ==>
      if Lookup(accounts, keyMap.entries[i].pubkey).Some? then r.value[i].1 == Lookup(accounts, keyMap.entries[i].pubkey).value
      else stub.Some? && r.value[i].1 == stub.value
    ensures r.Err? ==> exists i :: (0 <= i < |keyMap.entries| && !Covered(keyMap.entries[i].pubkey, accounts, stub, isProgramId)
      && r.error == AccountMissing(keyMap.entries[i].pubkey)
      && forall j :: 0 <= j < i ==> Covered(keyMap.entries[j].pubkey, accounts, stub, isProgramId))
  {
    var keys := keyMap.Keys();
    var r := MapKeys(keys, key => AccountForKey(key, accounts, stub, isProgramId(key)));
    if r.Err? then
      var i :| 0 <= i < |keys| && AccountForKey(keys[i], accounts, stub, isProgramId(keys[i])) == Err(r.error)
        && forall j :: 0 <= j < i ==> AccountForKey(keys[j], accounts, stub, isProgramId(keys[j])).Ok?;
      assert !Covered(keyMap.entries[i].pubkey, accounts, stub, isProgramId);
      r
    else r
  }

  /** A key compiles: it is provided, or it can be stubbed. */
  predicate Covered(key: Pubkey, accounts: seq<KeyedAccount>, stub: Option<Account>, isProgramId: Pubkey -> bool) {
    Lookup(accounts, key).Some? || (stub.Some? && isProgramId(key))
  }

  /** `compile_transaction_accounts_for_instruction`: only this instruction's
      program id may be stubbed. The stub closure is modelled by the account
      it returns. */
  function CompileTransactionAccountsForInstruction(
    keyMap: KeyMap, instruction: Instruction, accounts: seq<KeyedAccount>, stub: Option<Account>)
    : (r: Result<seq<KeyedAccount>, Fault>)
    ensures r.Ok? <==> forall i :: 0 <= i < |keyMap.entries| ==>
      Lookup(accounts, keyMap.entries[i].pubkey).Some? || (stub.Some? && keyMap.entries[i].pubkey == instruction.programId)
    ensures r.Ok? ==> (|r.value| == |keyMap.entries|
      && forall i :: 0 <= i < |r.value| ==> r.value[i].0 == keyMap.entries[i].pubkey)
    ensures r.Err? ==> exists i :: (0 <= i < |keyMap.entries| && r.error == AccountMissing(keyMap.entries[i].pubkey)
      && Lookup(accounts, keyMap.entries[i].pubkey).None? && (stub.None? || keyMap.entries[i].pubkey != instruction.programId))
  {
    CompileKeyedAccounts(keyMap, accounts, stub, key => instruction.programId == key)
  }

  /** `compile_transaction_accounts`: any instruction's program id may be
      stubbed. */
  function CompileTransactionAccounts(
    keyMap: KeyMap, instructions: seq<Instruction>, accounts: seq<KeyedAccount>, stub: Option<Account>)
    : (r: Result<seq<KeyedAccount>, Fault>)
    ensures r.Ok? <==> forall i :: 0 <= i < |keyMap.entries| ==>
      Lookup(accounts, keyMap.entries[i].pubkey).Some?
      || (stub.Some? && exists ix :: ix in instructions && ix.programId == keyMap.entries[i].pubkey)
    ensures r.Ok? ==> (|r.value| == |keyMap.entries|
      && forall i :: 0 <= i < |r.value| ==> r.value[i].0 == keyMap.entries[i].pubkey)
    ensures r.Err? ==> exists i :: (0 <= i < |keyMap.entries| && r.error == AccountMissing(keyMap.entries[i].pubkey)
      && Lookup(accounts, keyMap.entries[i].pubkey).None?
      && (stub.None? || forall ix :: ix in instructions ==> ix.programId != keyMap.entries[i].pubkey))
  {
    CompileKeyedAccounts(keyMap, accounts, stub, key => exists ix :: ix in instructions && ix.programId == key)
  }

  // ---------------------------------------------------------------------
  // Properties.

  /** When every position fits in a byte, the compiled indices name exactly
      the program id and the metas' keys. */
  lemma CompiledIndicesExact(keyMap: KeyMap, instruction: Instruction)
    requires |keyMap.entries| <= 256
    ensures var r := CompileInstructionWithoutData(keyMap, instruction);
      r.Ok? ==> keyMap.Keys()[r.value.programIdIndex] == instruction.programId
    ensures var r := CompileInstructionWithoutData(keyMap, instruction);
      r.Ok? ==> forall i :: 0 <= i < |instruction.accounts| ==>
        r.value.accounts[i] < |keyMap.entries| && keyMap.Keys()[r.value.accounts[i]] == instruction.accounts[i].pubkey
  {
  }

  /** The `as u8` cast is silent: in a key map of more than 256 keys, the
      key at position 256 compiles to index 0, the first key's index. */
  lemma PositionPast255Wraps(keyMap: KeyMap, instruction: Instruction)
    requires |keyMap.entries| > 256
    requires instruction.accounts == [AccountMeta(keyMap.entries[256].pubkey, false, false)]
    requires keyMap.entries[0].pubkey == instruction.programId
    requires forall j :: 0 <= j < 256 ==> keyMap.entries[j].pubkey != keyMap.entries[256].pubkey
    ensures CompileInstructionWithoutData(keyMap, instruction) == Ok(CompiledInstruction(0, [0]))
  {
    assert keyMap.Position(keyMap.entries[256].pubkey) == Some(256);
    assert keyMap.Position(instruction.programId) == Some(0);
    assert AsU8(256) == 0;
    var metas := instruction.accounts;
    assert metas[1..] == [] && MetaIndices(keyMap, metas[1..]) == Ok([]);
    assert MetaIndices(keyMap, metas) == Ok([AsU8(256)] + []);
    assert [AsU8(256)] + [] == [0 as U8];
    assert AsU8(0) == 0;
  }

  /** Two metas naming the same key compile to the same index, and so to
      the same instruction account. */
  lemma DuplicateMetasShareIndex(keyMap: KeyMap, instruction: Instruction, i: nat, j: nat)
    requires i < |instruction.accounts| && j < |instruction.accounts|
    requires instruction.accounts[i].pubkey == instruction.accounts[j].pubkey
    requires CompileInstructionWithoutData(keyMap, instruction).Ok?
    ensures var c := CompileInstructionWithoutData(keyMap, instruction).value;
      c.accounts[i] == c.accounts[j] && CompileInstructionAccounts(keyMap, c)[i] == CompileInstructionAccounts(keyMap, c)[j]
  {
  }

  /** Compiled indices are always inside the key map, so the privileges are
      those of a real entry, the entry of the meta's own key when the map
      holds at most 256 keys. */
  lemma CompiledPrivilegesFromEntry(keyMap: KeyMap, instruction: Instruction, i: nat)
    requires i < |instruction.accounts|
    requires CompileInstructionWithoutData(keyMap, instruction).Ok?
    ensures var c := CompileInstructionWithoutData(keyMap, instruction).value;
      var ia := CompileInstructionAccounts(keyMap, c)[i];
      ia.indexInTransaction < |keyMap.entries|
      && ia.isSigner == keyMap.entries[ia.indexInTransaction].isSigner
      && ia.isWritable == keyMap.entries[ia.indexInTransaction].isWritable
    ensures |keyMap.entries| <= 256 ==>
      var c := CompileInstructionWithoutData(keyMap, instruction).value;
      var ia := CompileInstructionAccounts(keyMap, c)[i];
      keyMap.entries[ia.indexInTransaction].pubkey == instruction.accounts[i].pubkey
  {
    var c := CompileInstructionWithoutData(keyMap, instruction).value;
    var p := keyMap.Position(instruction.accounts[i].pubkey).value;
    assert c.accounts[i] == p % 256;
  }

  /** Across several instructions, what each compiled account holds: a
      provided key keeps its first provided account, and every other key is
      some instruction's program id and holds the stub account. */
  lemma StubCoversEveryProgramId(
    keyMap: KeyMap, instructions: seq<Instruction>, accounts: seq<KeyedAccount>, stub: Option<Account>)
    ensures var r := CompileTransactionAccounts(keyMap, instructions, accounts, stub);
      r.Ok? ==> forall k :: 0 <= k < |r.value| ==>
        if Lookup(accounts, keyMap.entries[k].pubkey).Some?
        then r.value[k].1 == Lookup(accounts, keyMap.entries[k].pubkey).value
        else (stub.Some? && r.value[k].1 == stub.value
              && exists ix :: ix in instructions && ix.programId == keyMap.entries[k].pubkey)
  {
    var any: Pubkey -> bool := key => exists ix :: ix in instructions && ix.programId == key;
    var r := CompileTransactionAccounts(keyMap, instructions, accounts, stub);
    assert r == CompileKeyedAccounts(keyMap, accounts, stub, any);
    if r.Ok? {
      forall k | 0 <= k < |r.value| && Lookup(accounts, keyMap.entries[k].pubkey).None?
        ensures exists ix :: ix in instructions && ix.programId == keyMap.entries[k].pubkey
      {
        assert Covered(keyMap.entries[k].pubkey, accounts, stub, any);
      }
    }
  }

  /** The several-instruction form extends the single one: wherever an
      instruction of the list compiles on its own, the list compiles to the
      same accounts; a key that is only another instruction's program id is
      stubbed for the list but missing for the single form. */
  lemma {:induction false} ManyExtendsSingle(
    keyMap: KeyMap, instructions: seq<Instruction>, instruction: Instruction,
    accounts: seq<KeyedAccount>, stub: Option<Account>)
    requires instruction in instructions
    ensures CompileTransactionAccountsForInstruction(keyMap, instruction, accounts, stub).Ok? ==>
      CompileTransactionAccounts(keyMap, instructions, accounts, stub)
      == CompileTransactionAccountsForInstruction(keyMap, instruction, accounts, stub)
  {
    var single := CompileTransactionAccountsForInstruction(keyMap, instruction, accounts, stub);
    if single.Ok? {
      var one: Pubkey -> bool := key => instruction.programId == key;
      var any: Pubkey -> bool := key => exists ix :: ix in instructions && ix.programId == key;
      var many := CompileTransactionAccounts(keyMap, instructions, accounts, stub);
      assert single == CompileKeyedAccounts(keyMap, accounts, stub, one);
      assert many == CompileKeyedAccounts(keyMap, accounts, stub, any);
      forall i | 0 <= i < |keyMap.entries| ensures Covered(keyMap.entries[i].pubkey, accounts, stub, any) {
        assert Covered(keyMap.entries[i].pubkey, accounts, stub, one);
      }
      assert |many.value| == |single.value|;
      forall i | 0 <= i < |single.value| ensures many.value[i] == single.value[i] {
      }
      assert many.value == single.value;
    }
  }
}
