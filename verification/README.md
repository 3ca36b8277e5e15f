# Mollusk, modelled in Dafny

Mollusk is a test harness for Solana programs. It runs one instruction, or a chain of
instructions, directly against the program runtime, without a validator or a
bank, and hands back an `InstructionResult`:

- the compute units consumed and the execution time;
- the program result and the raw result;
- the return data;
- the resulting accounts.

A test then validates that result against a list of declarative `Check`s. A
`MolluskContext` puts a persistent account store in front of the harness. It
loads the accounts each instruction names from the store, and it writes the
accounts back after a successful run. A small bencher writes compute-unit
tables to markdown, compares each run with the last table in the file, and can
lay several programs side by side.

This project models the core of the harness in Dafny and proves properties of
that model:

- `result_types.dfy` (module `ResultTypes`): the `ProgramResult` and
  `InstructionResult` values, the conversion of the raw invocation result,
  `get_account`, and `absorb`, the fold step of a chain.
- `result_check.dfy` (module `Checks`): the check language (`Check`, the
  account-check builder) and `run_checks`. A failed comparison is a
  `CheckFailure` record. In soft-fail mode every failure is reported; with
  `panic` set, the run stops at the first one.
- `compile_accounts.dfy` (module `CompileAccounts`): transaction account
  compilation. Each message key is resolved in this order:
  1. the caller's accounts;
  2. the fallback accounts (program cache and sysvars);
  3. a stub for program ids;
  4. the synthesized instructions sysvar.

  A key none of these resolves is `AccountMissing`.
- `keys_accounts.dfy` (module `KeysAccounts`): compiling an instruction
  against a key map. This covers the byte indices, including the silent
  `as u8` cast, the privileges read from the key map, and the transaction
  accounts with the optional program stub.
- `harness.dfy` (module `Harness`):
  - `get_loader_key`, then `process_instruction`, its validating variant, and
    the two chain runners, over an opaque executor and account compiler;
  - the ways each call can panic instead of returning: an uncached program,
    a missing account, an overflowing unit sum, or a failing check under
    `panic`;
  - the reconciliation of the caller's accounts with the executor's final
    state;
  - `MolluskContext` as a class over a `HashMap` account store, covering
    `with_context`, account loading, and writing results back.
- `account_store.dfy` (module `AccountStore`): the `HashMap` account store as
  a class.
- `epoch_stake.dfy` (module `EpochStakes`): the two stake queries the harness
  answers for the runtime, and `create_mock_epoch_stake`.
- `program.dfy` (module `Programs`):
  - the precompile test;
  - the builtin program accounts, with `str::as_bytes` written out as UTF-8;
  - the program and program-data accounts for each BPF loader.
- `bencher_result.dfy` (module `BencherResult`):
  - `write_results`, `md_header` and `parse_last_md_table`;
  - the matrix table (`MolluskComputeUnitMatrixBenchResult`,
    `mx_md_header`, `mx_write_results`);
  - `prepend_to_md_file`.

  A file is passed in as its contents, or `None` when it does not exist, and
  the new contents are returned. The main theorem is a round trip: a written
  table reads back as the results that produced it, whatever the file held
  before, provided the header and version hold no line break and every
  result name holds no `|`, no line break and no whitespace at its ends.
- `text.dfy` (module `Text`): the pieces of Rust's string API the tables are
  written and read with (`format!` of a `u64`, `parse::<u64>`, `trim`,
  `split`, `lines`).
- `solana.dfy`, `wrappers.dfy` and `seqs.dfy`: the SDK vocabulary, `Option`
  and `Result`, and sequence folds.

Foreign pieces enter the model as parameters:

- the virtual machine is an `Executor` function, which returns the consumed
  units, the time, the raw result, the return data and the final account
  state;
- the `compile_accounts` that `harness/src/lib.rs` calls is an
  `AccountCompiler` function, which either compiles the accounts or names the
  key it could not find;
- the program cache's loader lookup is a function from program id to the
  loader of the cached program, if there is one;
- `ProgramError::try_from`, `Rent::minimum_balance`, the rent sysvar's
  `is_exempt`, bincode serialisation, `find_program_address`,
  `construct_instructions_data` and the message's key ordering are each a
  function parameter;
- `Pubkey::new_unique` is a supply of distinct keys.

Public keys and the SDK error enums are opaque types compared only for
equality. Rust's `u64` is the subtype `U64` of `nat`. Where the code adds `u64`
values, the model checks the sum first: a chain's compute units and the epoch
stake total panic when they would leave `u64`, as a debug build does. The
delta cells of the bencher use the exact difference (see below).

Where the source files disagree with each other, the model follows the file it
models:

- `harness/src/compile_accounts.rs` takes the instructions, the accounts and a
  fallback map, and returns the sanitized message with the transaction
  accounts. `harness/src/lib.rs` calls it with another signature. The model
  follows `compile_accounts.rs`.
- `result/src/types.rs` declares `program_result` as a `bool` and
  `InstructionResult` without `execution_time`. The rest of the crate builds
  and checks a `ProgramResult` and an `execution_time`. The model uses
  `ProgramResult` and keeps `execution_time`, which `absorb` never changes.
- `CheckContext::is_rent_exempt` in `harness/src/lib.rs` takes an owner, but
  `run_checks` calls it with lamports and data length only. The checks
  therefore use the two-argument rent predicate, and the harness passes them
  the rent sysvar's `is_exempt`. `Harness.Mollusk.IsRentExempt` keeps the
  three-argument form.

Several behaviours are modelled as the code is written, even where a reader
might expect otherwise:

- `process_instruction_chain` gives every step the caller's original
  accounts. `process_and_validate_instruction_chain` gives each step the
  composite's current accounts.
- `create_program_account_loader_v4` makes an account owned by the v3 loader
  and not executable.

## Model

| member | source | states |
|---|---|---|
| Solana.Lookup | harness/src/compile_accounts.rs:69-72 | The first account stored under the key; none exactly when no entry has the key. |
| Solana.MapKeys | harness/src/compile_accounts.rs:40-78 | Collecting per-key results succeeds iff every key resolves. On success, entry i is (key i, its account). On failure, the error is that of some key that fails to resolve. |
| Text.ParseDigits | bencher/src/result.rs:125 | `parse::<u64>` reads back every number `format!` writes, with or without a leading `+`. |
| Text.ParseRejects | bencher/src/result.rs:125 | `parse::<u64>` rejects the empty string, a lone sign, any non-digit after the optional sign, and values of 2^64 or more. |
| Text.TrimPadded | bencher/src/result.rs:123 | A cell written with one space on each side trims back to its text, if that text has no whitespace at its ends. |
| Text.SplitCons | bencher/src/result.rs:123 | Splitting at the bar: a piece without a bar, a bar, then the rest splits into that piece followed by the pieces of the rest. |
| Text.LinesCons | bencher/src/result.rs:118 | `lines()` of `a\nrest` is `a`, without a final carriage return, followed by the lines of `rest`. |
| Text.LinesOfJoin | bencher/src/result.rs:118 | The lines of text written line by line are those lines, each stripped of a final carriage return, followed by the lines of what follows. |
| ResultTypes.FromRawResult | result/src/types.rs:31-44 | Success iff the raw result is `Ok`. An error is `Failure` when it converts to a `ProgramError`, and `UnknownError` otherwise. |
| ResultTypes.IsOkExactlySuccess | result/src/types.rs:19-29 | `is_ok` holds exactly for `Success`; `is_err` holds exactly for the two error variants. |
| ResultTypes.InstructionResult.GetAccount | result/src/types.rs:79-84 | None iff no resulting account has the key; otherwise the result is an account listed under that key. |
| ResultTypes.InstructionResult.Absorb | result/src/types.rs:86-92 | The units add up. Result, raw result, return data and accounts come from the absorbed step. Execution time is unchanged. |
| ResultTypes.DefaultResult | result/src/types.rs:65-75 | Zero units, a successful result, and no return data or accounts. |
| ResultTypes.AbsorbTwice | result/src/types.rs:86-92 | Absorbing two steps adds both steps' units and keeps everything else from the later step. |
| Checks.Check.ComputeUnits | result/src/check.rs:39-41 | The check passes iff the consumed units equal the given number. |
| Checks.Check.Time | result/src/check.rs:44-46 | The check passes iff the execution time equals the given time. |
| Checks.Check.Success | result/src/check.rs:49-51 | The check passes iff the program result is ok. |
| Checks.Check.Err | result/src/check.rs:54-56 | The check passes iff the result is `Failure` of that program error. |
| Checks.Check.InstructionErr | result/src/check.rs:59-61 | The check passes iff the result is `UnknownError` of that instruction error. |
| Checks.Check.ProgramResultIs | result/src/check.rs:64-66 | The check passes iff the program result equals the given one. |
| Checks.Check.ReturnData | result/src/check.rs:69-71 | The check passes iff the return data equals the given bytes. |
| Checks.Check.Account | result/src/check.rs:74-76 | A builder for the key with no assertion set. |
| Checks.Check.AllRentExempt | result/src/check.rs:79-81 | The check passes iff every resulting account is rent exempt. |
| Checks.AccountCheckBuilder.Closed | result/src/check.rs:126-129 | Sets the state slot to `Closed` and leaves every other slot unchanged. |
| Checks.AccountCheckBuilder.Data | result/src/check.rs:131-134 | Sets the data slot and leaves every other slot unchanged. |
| Checks.AccountCheckBuilder.Executable | result/src/check.rs:136-139 | Sets the executable slot and leaves every other slot unchanged. |
| Checks.AccountCheckBuilder.Lamports | result/src/check.rs:141-144 | Sets the lamports slot and leaves every other slot unchanged. |
| Checks.AccountCheckBuilder.Owner | result/src/check.rs:146-149 | Sets the owner slot and leaves every other slot unchanged. |
| Checks.AccountCheckBuilder.RentExempt | result/src/check.rs:151-154 | Sets the state slot to `RentExempt` and leaves every other slot unchanged. |
| Checks.AccountCheckBuilder.Space | result/src/check.rs:156-159 | Sets the space slot and leaves every other slot unchanged. |
| Checks.AccountCheckBuilder.DataSlice | result/src/check.rs:161-164 | Sets the slice slot to (offset, bytes) and leaves every other slot unchanged. |
| Checks.AccountCheckBuilder.Build | result/src/check.rs:166-168 | A resulting-account check carrying exactly the assertions set so far. |
| Checks.LaterStateCallWins | result/src/check.rs:126-154 | `closed()` and `rent_exempt()` share one slot, so whichever is called later wins. |
| Checks.SliceFailures | result/src/check.rs:262-279 | A slice reaching past the data is reported as out of range; the data is never indexed out of bounds. |
| Checks.RentFailuresExact | result/src/check.rs:281-296 | `AllRentExempt` reports nothing iff every account is exempt. It reports one failure, naming the account, for each account that is not exempt. |
| Checks.VerdictOf | result/src/check.rs:183-299 | The run passes iff nothing failed. Soft-fail mode completes and reports every failure. Panic mode stops at the first failure. |
| Checks.Compare | result/src/check.rs:187-191 | One `compare!`: a mismatch is reported, and it stops the run only in panic mode. |
| Checks.RunDataAssertion | result/src/check.rs:218-221 | Reports the data mismatch, if the data assertion is set. |
| Checks.RunExecutableAssertion | result/src/check.rs:222-226 | Reports the executable-flag mismatch, if the executable assertion is set. |
| Checks.RunLamportsAssertion | result/src/check.rs:227-230 | Reports the lamports mismatch, if the lamports assertion is set. |
| Checks.RunOwnerAssertion | result/src/check.rs:231-234 | Reports the owner mismatch, if the owner assertion is set. |
| Checks.RunSpaceAssertion | result/src/check.rs:235-238 | Reports a mismatch between the expected and actual data length, if the space assertion is set. |
| Checks.RunStateAssertion | result/src/check.rs:239-261 | `Closed` compares the account with the default account; `RentExempt` asks the rent predicate. |
| Checks.RunDataSliceAssertion | result/src/check.rs:262-279 | An out-of-range slice is reported. Otherwise the bytes at the offset are compared. |
| Checks.RunAccountCheck | result/src/check.rs:218-279 | Evaluates the assertions of one account check in source order and reports what `AccountFailures` specifies. |
| Checks.RunRentExemptCheck | result/src/check.rs:281-296 | Tests every resulting account and reports one failure per account that is not exempt. |
| Checks.RunCheck | result/src/check.rs:186-297 | Reports exactly the failures the specification of that one check lists. |
| Checks.RunChecks | result/src/check.rs:177-300 | The verdict is the one `VerdictOf` gives for the failures of all checks, taken in order. |
| Checks.AccountCheckLooksUpFirst | result/src/check.rs:207-217 | A missing account is one `AccountNotFound` failure. Otherwise the assertions run against the first account listed under the key. |
| Checks.RunChecksPassIff | result/src/check.rs:183-299 | `run_checks` completes with `true` iff every check passes; an empty list passes. |
| Checks.SoftFailReportsEveryCheck | result/src/check.rs:183-299 | Soft-fail mode reports at least one failure per failing check, and every failure of every check. |
| Checks.ClosedMeansDefault | result/src/check.rs:241-248 | A passing `closed()` assertion means the account has zero lamports, no data, the default owner, no executable flag and rent epoch zero. |
| CompileAccounts.Compile | harness/src/compile_accounts.rs:13-30 | The key list is the message's key list. The accounts follow it one for one. An error is `AccountMissing` of a message key. |
| CompileAccounts.ResolveKeyWaterfall | harness/src/compile_accounts.rs:43-76 | A provided account wins over a fallback. Without either, a program id gets the executable stub, the sysvar key gets the synthesized sysvar, and any other key is missing. |
| CompileAccounts.ProgramIdNeverMissing | harness/src/compile_accounts.rs:44-67 | A program id, and the instructions sysvar key, always resolve. |
| CompileAccounts.ProgramIdBranchFirst | harness/src/compile_accounts.rs:44-57 | A key that is both a program id and the instructions sysvar gets the program stub, not the sysvar. |
| CompileAccounts.BuildFollowsKeys | harness/src/compile_accounts.rs:32-79 | The output follows the message keys one for one, so a provided account is used at every position of its key. |
| CompileAccounts.FirstEntryFound | harness/src/compile_accounts.rs:69-72 | The lookup returns the first entry under the key. |
| CompileAccounts.BuildFailsOnlyForUnknownKeys | harness/src/compile_accounts.rs:69-74 | Building fails iff some key is not a program id, not the sysvar, not provided and not a fallback. The error names such a key. |
| KeysAccounts.AsU8 | keys/src/accounts.rs:23 | `as u8` keeps values below 256 and is congruent to its input modulo 256. |
| KeysAccounts.KeyMap.Keys | keys/src/accounts.rs:56-57 | The key map's keys, in map order. |
| KeysAccounts.KeyMap.Position | keys/src/accounts.rs:23 | None iff the key is absent; otherwise the index of the key's first entry. |
| KeysAccounts.MetaIndices | keys/src/accounts.rs:24-28 | Succeeds iff every meta's key is mapped. Entry i is the cast index of meta i. Otherwise it fails with the first unmapped key. |
| KeysAccounts.CompileInstructionWithoutData | keys/src/accounts.rs:18-30 | Looks up the program id first, then each meta. Fails iff a key is unmapped. Each index is the cast position. |
| KeysAccounts.CompileInstructionAccounts | keys/src/accounts.rs:32-48 | One instruction account per compiled index, with signer and writable flags read from the key map at that index. |
| KeysAccounts.AccountForKey | keys/src/accounts.rs:58-74 | A provided account wins. The stub covers only program ids. Anything else is `AccountMissing` of that key. |
| KeysAccounts.CompiledIndicesExact | keys/src/accounts.rs:18-30 | With at most 256 keys, the compiled indices name exactly the keys of the program id and of the metas. |
| KeysAccounts.PositionPast255Wraps | keys/src/accounts.rs:23-27 | In a key map of more than 256 keys, the key at position 256 compiles to index 0, the program id's index. |
| KeysAccounts.DuplicateMetasShareIndex | keys/src/accounts.rs:24-28 | Two metas naming one key compile to the same index, and so to the same privileges. |
| KeysAccounts.CompiledPrivilegesFromEntry | keys/src/accounts.rs:32-48 | Compiled indices lie inside the key map. With at most 256 keys, the privileges are those of the meta's own key. |
| KeysAccounts.CompileKeyedAccounts | keys/src/accounts.rs:56-76 | Succeeds iff every key-map key is provided or stubbable. The accounts follow the keys one for one, each the first provided account or else the stub. Otherwise `AccountMissing` of the first key that is neither. |
| KeysAccounts.CompileTransactionAccountsForInstruction | keys/src/accounts.rs:50-77 | The accounts follow the key map's keys one for one. Failure happens iff some key is neither provided nor this instruction's stubbed program id, and it names such a key. |
| KeysAccounts.CompileTransactionAccounts | keys/src/accounts.rs:79-106 | The accounts follow the key map's keys one for one. Failure happens iff some key is neither provided nor, with a stub, any instruction's program id, and it names such a key. |
| KeysAccounts.StubCoversEveryProgramId | keys/src/accounts.rs:79-106 | Across several instructions, a provided key holds its first provided account and every other key is some instruction's program id holding the stub account. |
| KeysAccounts.ManyExtendsSingle | keys/src/accounts.rs:50-106 | Wherever an instruction of the list compiles on its own, the list compiles to the same accounts. |
| AccountStore.StoreAllKeys | harness/src/lib.rs:1397-1399 | After writing entries, a key is present iff it was present before or some entry names it. |
| AccountStore.StoreAllKeepsUnwritten | harness/src/lib.rs:1397-1399 | Keys no entry names keep their accounts. |
| AccountStore.StoreAllLastWriteWins | harness/src/lib.rs:1397-1399 | A written key holds the account of the last entry written under it. |
| AccountStore.StoreTwiceKeepsLater | harness/src/account_store.rs:29-31 | Storing twice under one key keeps only the later account. |
| AccountStore.HashMapStore.constructor | harness/src/account_store.rs:24-32 | An empty store; every lookup finds nothing. |
| AccountStore.HashMapStore.DefaultAccount | harness/src/account_store.rs:13-15 | The default account, whatever the key. |
| AccountStore.HashMapStore.GetAccount | harness/src/account_store.rs:25-27 | None iff the key is not stored; otherwise the stored account. |
| AccountStore.HashMapStore.StoreAccount | harness/src/account_store.rs:29-31 | Inserts or replaces the key's account; every other key reads as before. |
| AccountStore.HashMapStore.StoreAccounts | harness/src/lib.rs:1396-1399 | Writes every entry in order, so the new store is `StoreAll` of the old one. |
| EpochStakes.TotalRemove | harness/src/lib.rs:594-596 | The sum of the stakes does not depend on the order the keys are visited in. |
| EpochStakes.GetEpochStake | harness/src/lib.rs:594-596 | The sum of every vote account's stake; an overflow panic iff that sum leaves `u64`. |
| EpochStakes.GetEpochStakeForVoteAccount | harness/src/lib.rs:598-600 | A known vote account's stake, and 0 for an unknown one. |
| EpochStakes.DivCeil | harness/src/epoch_stake.rs:18 | The least multiple count covering the input: (r-1)·b < a ≤ r·b, or 0 for 0. |
| EpochStakes.Shares | harness/src/epoch_stake.rs:18-28 | One share per started billion lamports. All shares but the last are the base, and the last adds the remainder. They sum to the target and none exceeds it. |
| EpochStakes.SplitFits | harness/src/epoch_stake.rs:20-25 | n base shares plus the remainder make up the target, and base plus remainder never exceeds the target. |
| EpochStakes.CreateMockEpochStake | harness/src/epoch_stake.rs:11-31 | Empty for 0. Otherwise one fresh vote account per share, each holding its share. The stakes sum exactly to the target and none exceeds it. |
| EpochStakes.InsertShares | harness/src/epoch_stake.rs:23-28 | The j-th share goes to the j-th fresh key. |
| Programs.IsPrecompileExactly | harness/src/program.rs:41-55 | With precompiles enabled, exactly the three precompile ids; with them disabled, nothing. |
| Programs.Utf8Char | harness/src/program.rs:208 | One to four bytes. ASCII is the single byte itself. Every later byte is a continuation byte. |
| Programs.Utf8OfAscii | harness/src/program.rs:208 | An ASCII name is encoded one byte per character. |
| Programs.CreateKeyedAccountForBuiltinProgram | harness/src/program.rs:204-218 | The name's bytes, owned by the native loader, executable, with rent-exempt lamports for that length. |
| Programs.KeyedAccountForSystemProgram | harness/src/program.rs:221-223 | The system program's builtin account: its name's bytes, native loader, executable, rent-exempt lamports for 14 bytes, rent epoch 0. |
| Programs.KeyedAccountForBpfLoaderV2Program | harness/src/program.rs:226-228 | The v2 loader's builtin account: its name's bytes, native loader, executable, rent-exempt lamports for that length, rent epoch 0. |
| Programs.KeyedAccountForBpfLoaderV3Program | harness/src/program.rs:231-233 | The upgradeable loader's builtin account: its name's bytes, native loader, executable, rent-exempt lamports for that length, rent epoch 0. |
| Programs.CreateProgramAccountLoaderV1 | harness/src/program.rs:238-247 | The ELF as data, owned by loader v1, executable, rent-exempt. |
| Programs.CreateProgramAccountLoaderV2 | harness/src/program.rs:250-259 | The ELF as data, owned by loader v2, executable, rent-exempt. |
| Programs.CreateProgramAccountLoaderV3 | harness/src/program.rs:262-277 | The serialized program state pointing at the derived program-data address, owned by loader v3, executable, rent-exempt. |
| Programs.LayOut | harness/src/program.rs:281-295 | A zero buffer of header room plus the ELF: the header at the start, zeros up to the offset, then the ELF. |
| Programs.CreateProgramDataAccountLoaderV3 | harness/src/program.rs:280-304 | 45 metadata bytes (the header, then zeros) followed by the ELF, owned by loader v3, not executable, rent-exempt. |
| Programs.CreateProgramAccountPairLoaderV3 | harness/src/program.rs:280-318 | The program account, and a program-data account holding the header, zeros up to the metadata size, then the ELF; owned by the upgradeable loader, not executable, rent epoch 0 and the rent-exempt minimum for its length. |
| Programs.CreateProgramAccountLoaderV4 | harness/src/program.rs:321-344 | The 48 state bytes followed by the ELF. The owner is loader v3 and the account is not executable, as the code writes it. The lamports are rent-exempt. |
| Harness.ReconcileAccounts | harness/src/lib.rs:811-834 | The caller's keys in the caller's order. On failure, the caller's accounts unchanged. On success, each account found in the final state is replaced by it, and the rest are kept. |
| Harness.ReconcileIdempotent | harness/src/lib.rs:811-834 | Reconciling twice against the same final state gives the same list as reconciling once. |
| Harness.Mollusk.IsRentExempt | harness/src/lib.rs:580-584 | An empty account owned by the default key is exempt; any other account is exempt iff the rent sysvar says so. |
| Harness.Mollusk.GetLoaderKey | harness/src/lib.rs:700-709 | The native loader for a precompile. Otherwise the cached program's loader, and a `ProgramNotCached` panic iff the program is not cached. |
| Harness.LoaderKeyCases | harness/src/lib.rs:700-709 | With precompiles on, the three precompile ids never panic. Without them, the lookup panics iff the program is not cached. |
| Harness.Mollusk.ProcessInstructionInner | harness/src/lib.rs:711-844 | Units and raw result come from the executor. Ok iff the raw result is ok. The caller's keys are kept, and the accounts are left unchanged on error. |
| Harness.Mollusk.RunStep | harness/src/lib.rs:855-876 | `ProgramNotCached` iff the loader lookup fails; `AccountMissing` iff the lookup succeeds and compilation fails; no other panic. A result keeps the caller's keys and, on error, the caller's accounts. |
| Harness.Mollusk.ProcessInstruction | harness/src/lib.rs:848-876 | Panics, at index 0, iff the loader lookup or the compilation does; otherwise returns the instruction's result with the caller's keys. |
| Harness.Mollusk.CheckPanic | harness/src/lib.rs:986 | `run_checks` panics iff `panic` is set and some check fails, with the first failure. |
| Harness.Mollusk.ValidatedInstruction | harness/src/lib.rs:953-988 | A panic of processing is kept. Otherwise it returns iff `panic` is off or every check passes, and then returns the processed result; a check panic carries the first failure. |
| Harness.Mollusk.ProcessAndValidateInstruction | harness/src/lib.rs:953-988 | The method's outcome is `ValidatedInstruction`. |
| Harness.Mollusk.ChainSteps | harness/src/lib.rs:898-919 | Step i runs instruction i of the chain on the caller's original accounts. |
| Harness.Mollusk.ProcessInstructionChain | harness/src/lib.rs:888-929 | The loop's outcome equals the fold `Chain` over the steps, starting from the default result holding the caller's accounts. |
| Harness.Mollusk.CheckedStep | harness/src/lib.rs:1025-1051 | A step's own panic is kept. Otherwise it is the step's result iff `panic` is off or every check passes, and a `CheckFailed` panic with the first failure iff `panic` is on and some check fails. |
| Harness.Mollusk.ProcessAndValidateInstructionChain | harness/src/lib.rs:1014-1061 | The loop's outcome equals `ValidatedChain`, the fold of the checked steps on the composite's accounts. |
| Harness.Trace | harness/src/lib.rs:1024-1058 | The steps run: none iff the chain is empty. Every step before the last neither panics nor fails, and a trace shorter than the chain ends in a step that does. |
| Harness.TraceSteps | harness/src/lib.rs:1024-1058 | The first step runs on the starting accounts, and each later step on the accounts the step before it left. |
| Harness.FoldOutcome | harness/src/lib.rs:1024-1060 | If the units of the steps run leave `u64`, the chain panics while absorbing one of them. Otherwise it ends in the last step's panic, or returns the units of all the steps run with the last one's outcome, return data and accounts; the execution time is untouched. |
| Harness.ValidatedChainOutcome | harness/src/lib.rs:1014-1061 | `process_and_validate_instruction_chain` from the caller's accounts: an empty chain returns them. If the units of the steps run leave `u64`, it panics with `UnitsOverflow`. Otherwise it ends in the last step's panic, or returns their total units, time 0, and the last step's outcome, return data and accounts. |
| Harness.ValidatedTraceSteps | harness/src/lib.rs:1024-1051 | Step j of the validated chain is the checked step j on the accounts that step j-1 left, the caller's for the first. |
| Harness.CheckFailureEndsValidatedChain | harness/src/lib.rs:1051-1057 | A failing check panics only with `panic` set, and its step is the last the chain runs. |
| Harness.StartOfChain | harness/src/lib.rs:893-896 | The default result holding the caller's accounts. |
| Harness.Executed | harness/src/lib.rs:921-925 | The chain runs up to and including the first step that panics or fails, or every step. |
| Harness.ChainOutcome | harness/src/lib.rs:898-928 | If the units of the steps run leave `u64`, the chain panics while absorbing one of them. Otherwise it ends in the last step's panic, or returns the units of all the steps run with the last one's outcome, return data and accounts; the execution time is untouched. |
| Harness.ChainKeepsCallerKeys | harness/src/lib.rs:898-928 | A chain that returns lists the caller's keys in order; a panic names a step of the chain. |
| Harness.SoftFailChainNeverPanicsInACheck | harness/src/lib.rs:1024-1060 | Without `panic`, a validated chain never panics in a check, only in the loader lookup, compilation or the unit sum of one of its steps; what it returns keeps its keys. |
| Harness.ResolveAccount | harness/src/lib.rs:1375-1385 | The store's account, else a sysvar, else a cached program, else the default account. |
| Harness.LoadedExactly | harness/src/lib.rs:1364-1389 | Loaded keys are distinct. A key is loaded iff some meta names it and it is not the instructions sysvar. Each loaded key carries its resolved account. |
| Harness.StoreMissingKeepsExisting | harness/src/lib.rs:1303-1310 | Stored accounts are never replaced. Every program key ends up present. No other key is added. |
| Harness.MolluskContext.WithContext | harness/src/lib.rs:1300-1316 | Hydration is on. The store gains each program account whose key it does not hold yet. |
| Harness.MolluskContext.LoadAccountsForInstructions | harness/src/lib.rs:1343-1391 | With hydration, program and sysvar accounts come first, then each new meta key with its resolved account. |
| Harness.MolluskContext.ConsumeMolluskResult | harness/src/lib.rs:1393-1401 | A successful result's accounts are written in order. A failed result changes nothing. |
| Harness.MolluskContext.Consume | harness/src/lib.rs:1393-1401 | A returned, successful result is written back; a panic or a failed result leaves the store as it was. |
| Harness.MolluskContext.ProcessInstruction | harness/src/lib.rs:1405-1410 | The outcome is `Mollusk.ProcessInstruction` on the loaded accounts. The store changes only for a returned, successful result. |
| Harness.MolluskContext.ProcessInstructionChain | harness/src/lib.rs:1414-1421 | The outcome is the chain on the loaded accounts. The store changes only for a returned, successful result. |
| Harness.MolluskContext.ProcessAndValidateInstruction | harness/src/lib.rs:1425-1436 | The outcome is `ValidatedInstruction` on the loaded accounts. The store changes only for a returned, successful result. |
| Harness.MolluskContext.ProcessAndValidateInstructionChain | harness/src/lib.rs:1440-1452 | The outcome is `ValidatedChain` on the loaded accounts, as `ValidatedChainOutcome` describes it. The store changes only for a returned, successful result. |
| BencherResult.NewBenchResult | bencher/src/result.rs:15-18 | Keeps the name and the result's consumed units. |
| BencherResult.AsI64 | bencher/src/result.rs:72 | `as i64` keeps values below 2^63 and wraps larger ones to negatives. |
| BencherResult.AsI64Injective | bencher/src/result.rs:72 | The cast maps different counts to different values. |
| BencherResult.Grouped | bencher/src/result.rs:78-80 | En-locale grouping is a non-empty string of digits and commas, starting with a digit. |
| BencherResult.GroupedReadsAsDigits | bencher/src/result.rs:78-80 | With its commas removed, the grouped delta is the plain decimal form of the number. |
| BencherResult.GroupedCommas | bencher/src/result.rs:78-80 | A comma stands exactly before each group of three digits counted from the right, never first. |
| BencherResult.DeltaLabelCases | bencher/src/result.rs:66-88 | The cell is `- new -` iff there is no previous row, and `--` iff the count is unchanged. A `+` appears iff the count grew. Shrinking gives a `-` and digits. Below 2^63, `+` means the count strictly increased. |
| BencherResult.DeltaLabelPlain | bencher/src/result.rs:66-88 | A delta cell holds no bar and no line break. |
| BencherResult.FindPreviousFirst | bencher/src/result.rs:66-70 | Nothing is found iff no previous row has the name; otherwise the first such row is found. |
| BencherResult.SplitOpen | bencher/src/result.rs:89-92 | Cells without bars split back out of their row. |
| BencherResult.CountBars | bencher/src/result.rs:89-92 | A row of n cells without bars has n + 1 bars. |
| BencherResult.RowLines | bencher/src/result.rs:89-92 | One row per result, in order, with its name, units and delta cell. |
| BencherResult.NoneChangedIff | bencher/src/result.rs:49-88 | `no_changes` stays set iff no result is new or changed. |
| BencherResult.Prepend | bencher/src/result.rs:194-209 | The new content comes first, followed by the old contents of the file, if there was one. |
| BencherResult.WriteResults | bencher/src/result.rs:40-100 | An unparsable file is an error. Otherwise a table is written iff some result is new or changed. The file's new contents are the table prepended to the old. |
| BencherResult.RenderRows | bencher/src/result.rs:60-93 | The loop builds the header plus one row per result, and `no_changes` equals `NoneChanged`. |
| BencherResult.Delta | bencher/src/result.rs:66-88 | Computes the delta cell. It marks a change iff the previous count differs or is absent, which is exactly when the cell is not `--`. |
| BencherResult.TableStep | bencher/src/result.rs:89-92 | One more result appends its row and updates `no_changes`. |
| BencherResult.ParseLastMdTable | bencher/src/result.rs:115-131 | Returns `ParseTable`: the rows after the six header lines, up to an empty or `####` line. |
| BencherResult.ReadTableRows | bencher/src/result.rs:118-128 | The loop reads the same rows, or the same error, as `ReadRows`. |
| BencherResult.ReadStep | bencher/src/result.rs:118-128 | One line either ends the table, or is rejected, or adds its row. |
| BencherResult.ParseRowLine | bencher/src/result.rs:123-125 | A written row reads back as its name and units, when the name has no bar and no whitespace at its ends. |
| BencherResult.ReadRowsUntilBlank | bencher/src/result.rs:118-128 | Rows followed by an empty line read back as exactly those rows. |
| BencherResult.RowLinePlain | bencher/src/result.rs:89-92 | A row has no line break and no final carriage return. |
| BencherResult.WrittenTableReadsBack | bencher/src/result.rs:40-131 | Parsing the file that `write_results` produces gives back exactly the results written, whatever the file held before, when the header and version have no line break and every name has no bar, no line break and no whitespace at its ends. |
| BencherResult.LinesAfterHeader | bencher/src/result.rs:118 | After six header lines, the lines are the rows, an empty line, and then the old file's lines. |
| BencherResult.MatrixBenchResult.constructor | bencher/src/result.rs:27-32 | A program's column with its name and no results. |
| BencherResult.MatrixBenchResult.AddResult | bencher/src/result.rs:34-37 | Appends one bench result. |
| BencherResult.HeaderCells | bencher/src/result.rs:173-177 | ` Name `, then one `` CU (`program`) `` cell per program, in order. |
| BencherResult.MxMdHeader | bencher/src/result.rs:167-192 | The loop builds the title, the version, the header row and the separator line. |
| BencherResult.HeaderMatchesSeparator | bencher/src/result.rs:172-180 | The header row and the separator have the same number of bars, n + 2 for n programs. |
| BencherResult.RowCells | bencher/src/result.rs:151-155 | At most one cell per program, none containing a bar. |
| BencherResult.RowCellsOfFullRow | bencher/src/result.rs:151-155 | When every program has a result at that index, cell i shows the units of program i's result there. |
| BencherResult.RowCellsFull | bencher/src/result.rs:151-155 | A row has a cell for every program iff every program has a result at that index. |
| BencherResult.MatrixRowAligned | bencher/src/result.rs:146-159 | A row lines up with the header (n + 2 bars) iff every program has a result at that row. |
| BencherResult.MatrixRows | bencher/src/result.rs:146-159 | One row per result of the first program. |
| BencherResult.MxWriteResults | bencher/src/result.rs:133-165 | Nothing is written for no programs. Otherwise the matrix table is prepended to the old file. |
| BencherResult.MxRow | bencher/src/result.rs:146-158 | The inner loop builds the first program's name, then the units of each program that has that row. |

## Left out

- The virtual machine, the program cache, the sysvar cache and the feature set are not part of this model. Their effect is passed in as functions. The executor is total: a panic inside the runtime itself is not modelled.
- The `compile_accounts` that `harness/src/lib.rs` calls (with an index and a loader key) is not part of this model. It is the `AccountCompiler` parameter, and its `AccountMissing` panic is its error result.
- Harness.Mollusk.ProcessInstructionInner does not model `TransactionContext`, the invoke context or the precompile dispatch. They are inside the executor parameter.
- Harness.Mollusk.ProcessInstructionChain: every step's execution time is kept out of the composite. `absorb` never sets it, so a chain reports time 0.
- ResultTypes.InstructionResult.Absorb requires the sum of units to stay below 2^64. The chain runners check the sum before absorbing and model its overflow as the panic of a debug build; a release build would wrap instead.
- Checks.RunStateAssertion, `Checks.RunRentExemptCheck`, `Checks.Check.AllRentExempt`, `Harness.Mollusk.ProcessAndValidateInstruction` and `Harness.Mollusk.ProcessAndValidateInstructionChain` ask the rent sysvar's two-argument `is_exempt`, as `result/src/check.rs` calls it. The exemption `Harness.Mollusk.IsRentExempt` gives an empty account with the default owner is therefore not applied by the checks.
- Checks.SliceFailures takes the offset as an unbounded number. The `usize` overflow of offset plus length, a panic in a debug build, is not modelled.
- EpochStakes.GetEpochStake models the overflow of the `u64` sum as the panic of a debug build; a release build would wrap instead.
- BencherResult.AsI64: the `i64` subtraction in the delta cannot overflow for counts below 2^63. Above that, the model computes the exact difference of the wrapped values, where the code would panic in debug builds.
- Fuzz fixtures, Firedancer fixtures, `process_fixture*`, `compare.rs`/`config.rs` printing and the CLI are not part of this model. `verbose` only affects printing.
- `Mollusk::new`, `add_program*`, `warp_to_slot` and the `Default` construction are not part of this model. They set up the cache and sysvars that the model takes as parameters.
- The `KeyMap` construction (merging privileges per key) is not part of this model. A key map is given as its list of entries.
- `is_signer_at_index` and `is_writable_at_index` past the end of the key map read as false. The key map's own code is not part of this model.
- Harness.LoadedExactly flattens the metas of all instructions into one key list before loading. The visiting order, and hence the result, is the same as the nested loops.
- Harness.ResolveAccount uses `Account::default()` for the store's `default_account`, which the `HashMap` store does not override.
- Programs.Utf8Char does not state the exact range of each leading byte, only the lengths and the continuation bytes.
- Programs.CreateProgramAccountLoaderV3, `Programs.CreateProgramDataAccountLoaderV3` and `Programs.CreateProgramAccountLoaderV4` take the bincode or `LoaderV4State` bytes and the program-data address as parameters. Serialisation and `find_program_address` are SDK code.
- `BUILTINS` is the list without the `all-builtins` feature.
- BencherResult.WriteResults, `BencherResult.MxWriteResults` and `BencherResult.Prepend` take the file's old contents as a parameter and return its new contents. Directory creation, reading and writing are file I/O.
- BencherResult.ParseLastMdTable: each `unwrap` panic becomes a `ParseFault` error.
- BencherResult.WrittenTableReadsBack covers names without a bar, a line break or whitespace at their ends, and a header and version without a line break. `write_results` accepts any name; a name such as ` a` reads back trimmed as `a`, and one with a bar or line break splits the row.
- The loop of `BencherResult.ParseLastMdTable` takes the row parser as a parameter, and `BencherResult.ReadTableRows` is proved for any parser.
- BencherResult.MdHeader: the format string is written as its six lines joined with line feeds, which is the same text.
- The bencher's driver (`bencher/src/lib.rs`), which runs instructions and collects results, is not part of this model.
