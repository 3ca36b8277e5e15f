/**
 * The harness: one instruction run by an opaque runtime after the loader
 * lookup and the account compilation, the reconciliation of the caller's
 * accounts with the runtime's final state, the two chain runners, the
 * panics each of them can end in, and the stateful `MolluskContext` over an
 * account store.
 */
module Harness {
  import opened Wrappers
  import opened Solana
  import opened ResultTypes
  import opened Checks
  import opened AccountStore
  import Programs

  /** What one invocation leaves behind: consumed units, the measured
      time, the raw outcome, the return data and, for each key, the final
      account if the transaction context loaded that key. */
  datatype Execution = Execution(
    computeUnits: U64,
    executionTime: U64,
    raw: RawResult,
    returnData: seq<Byte>,
    finalState: Pubkey -> Option<Account>)

  /** The program id index, instruction accounts and transaction accounts
      `compile_accounts` hands to the runtime. */
  type CompiledAccounts

  /** The `compile_accounts` that `harness/src/lib.rs` calls: the index of
      the instruction in the message, every instruction, the caller's
      accounts and the loader key. It fails with the key of an account it
      can neither find nor synthesize, the `AccountMissing` panic. */
  type AccountCompiler = (nat, seq<Instruction>, seq<KeyedAccount>, Pubkey) -> Result<CompiledAccounts, Pubkey>

  /** The runtime: runs one instruction of the message on the compiled
      accounts. */
  type Executor = (nat, Instruction, seq<KeyedAccount>, CompiledAccounts) -> Execution

  /** Why a harness call panics instead of returning: `ProgramNotCached`
      from `get_loader_key`, `AccountMissing` from `compile_accounts`, the
      `u64` addition in `absorb` overflowing (a debug build), or a check
      failing under `panic`. */
  datatype Panic =
    | ProgramNotCached(programId: Pubkey)
    | MissingAccount(key: Pubkey)
    | UnitsOverflow
    | CheckFailed(failure: CheckFailure)

  /** How a harness call ends: with its result, or in a panic during step
      `index` (0 for a single instruction). */
  datatype Outcome = Returned(result: InstructionResult) | Aborted(index: nat, cause: Panic)

  /** `resulting_accounts`: the caller's keys in the caller's order; on
      failure the caller's accounts unchanged, on success each key's final
      state if it was loaded and its original account otherwise. */
  function ReconcileAccounts(accounts: seq<KeyedAccount>, invokeOk: bool, finalState: Pubkey -> Option<Account>)
    : (r: seq<KeyedAccount>)
    ensures |r| == |accounts|
    ensures forall i :: 0 <= i < |r| ==> r[i].0 == accounts[i].0
    ensures !invokeOk ==> r == accounts
    ensures invokeOk ==> forall i :: 0 <= i < |r| && finalState(accounts[i].0).Some? ==>
      r[i].1 == finalState(accounts[i].0).value
    ensures invokeOk ==> forall i :: 0 <= i < |r| && finalState(accounts[i].0).None? ==> r[i] == accounts[i]
  {
    if invokeOk then
      seq(|accounts|, i requires 0 <= i < |accounts| => (accounts[i].0, finalState(accounts[i].0).GetOr(accounts[i].1)))
    else accounts
  }

  /** Reconciling is idempotent: a second pass over the same final state
      changes nothing. */
  lemma ReconcileIdempotent(accounts: seq<KeyedAccount>, invokeOk: bool, finalState: Pubkey -> Option<Account>)
    ensures ReconcileAccounts(ReconcileAccounts(accounts, invokeOk, finalState), invokeOk, finalState)
         == ReconcileAccounts(accounts, invokeOk, finalState)
  {
    var once := ReconcileAccounts(accounts, invokeOk, finalState);
    var twice := ReconcileAccounts(once, invokeOk, finalState);
    assert |twice| == |once|;
    forall i | 0 <= i < |once| ensures twice[i] == once[i] {
    }
  }

  /** The first components of a list of pairs: the keys of keyed
      accounts, the instructions of instruction-and-checks pairs. */
  function Firsts<A, B>(pairs: seq<(A, B)>): (r: seq<A>)
    ensures |r| == |pairs| && forall i :: 0 <= i < |r| ==> r[i] == pairs[i].0
  {
    seq(|pairs|, i requires 0 <= i < |pairs| => pairs[i].0)
  }

  /** A `Mollusk` instance, as far as the core uses it. */
  datatype Mollusk = Mollusk(
    config: Config,
    /** The crate's `precompiles` feature. */
    precompiles: bool,
    /** `program_cache.load_program(id)` and its `account_owner()`: the
        loader of a cached program, `None` for one that is not cached. */
    cachedLoader: Pubkey -> Option<Pubkey>,
    compile: AccountCompiler,
    execute: Executor,
    tryFrom: ProgramErrorConversion,
    /** `sysvars.rent.is_exempt`. */
    rentIsExempt: RentExemptPredicate,
    /** `program_cache.get_all_keyed_program_accounts()`. */
    programAccounts: seq<KeyedAccount>,
    /** `sysvars.get_all_keyed_sysvar_accounts()`. */
    sysvarAccounts: seq<KeyedAccount>,
    /** `sysvars.maybe_create_sysvar_account`. */
    maybeSysvarAccount: Pubkey -> Option<Account>,
    /** `program_cache.maybe_create_program_account`. */
    maybeProgramAccount: Pubkey -> Option<Account>)
  {
    /** `CheckContext::is_rent_exempt`: an empty account owned by the
        default key counts as exempt whatever the rent; any other account
        is exempt exactly when the rent sysvar says so. */
    function IsRentExempt(lamports: U64, space: nat, owner: Pubkey): (r: bool)
      ensures owner == DEFAULT_PUBKEY && lamports == 0 ==> r
      ensures owner != DEFAULT_PUBKEY || lamports != 0 ==> (r <==> rentIsExempt(lamports, space))
    {
      (owner == DEFAULT_PUBKEY && lamports == 0) || rentIsExempt(lamports, space)
    }

    /** `get_loader_key`: the native loader for a precompile, otherwise the
        loader of the cached program; a program that is not cached panics. */
    function GetLoaderKey(programId: Pubkey): (r: Result<Pubkey, Panic>)
      ensures Programs.IsPrecompile(precompiles, programId) ==> r == Ok(NATIVE_LOADER)
      ensures r.Err? <==> !Programs.IsPrecompile(precompiles, programId) && cachedLoader(programId).None?
      ensures r.Err? ==> r.error == ProgramNotCached(programId)
      ensures r.Ok? && !Programs.IsPrecompile(precompiles, programId) ==> cachedLoader(programId) == Some(r.value)
    {
      if Programs.IsPrecompile(precompiles, programId) then Ok(NATIVE_LOADER)
      else
        match cachedLoader(programId)
        case None => Err(ProgramNotCached(programId))
        case Some(loader) => Ok(loader)
    }

    /** `process_instruction_inner`. */
    function ProcessInstructionInner(index: nat, instruction: Instruction, accounts: seq<KeyedAccount>,
                                     compiled: CompiledAccounts): (r: InstructionResult)
      ensures r.computeUnitsConsumed == execute(index, instruction, accounts, compiled).computeUnits
      ensures r.programResult.IsOk() <==> execute(index, instruction, accounts, compiled).raw.RawOk?
      ensures r.rawResult == execute(index, instruction, accounts, compiled).raw
      ensures Firsts(r.resultingAccounts) == Firsts(accounts)
      ensures r.programResult.IsErr() ==> r.resultingAccounts == accounts
    {
      var e := execute(index, instruction, accounts, compiled);
      InstructionResult(
        e.computeUnits,
        e.executionTime,
        FromRawResult(e.raw, tryFrom),
        e.raw,
        e.returnData,
        ReconcileAccounts(accounts, e.raw.RawOk?, e.finalState))
    }

    /** One instruction of a message, as every entry point runs it:
        `get_loader_key`, `compile_accounts`, then
        `process_instruction_inner`. Only the first two can panic. */
    function RunStep(index: nat, instructions: seq<Instruction>, accounts: seq<KeyedAccount>)
      : (r: Result<InstructionResult, Panic>)
      requires index < |instructions|
      ensures var loader := GetLoaderKey(instructions[index].programId);
        (r.Err? && r.error.ProgramNotCached? <==> loader.Err?)
        && (r.Err? && r.error.MissingAccount? <==> loader.Ok? && compile(index, instructions, accounts, loader.value).Err?)
      ensures r.Err? ==> r.error.ProgramNotCached? || r.error.MissingAccount?
      ensures r.Ok? ==> Firsts(r.value.resultingAccounts) == Firsts(accounts)
      ensures r.Ok? && r.value.programResult.IsErr() ==> r.value.resultingAccounts == accounts
    {
      match GetLoaderKey(instructions[index].programId)
      case Err(cause) => Err(cause)
      case Ok(loader) =>
        match compile(index, instructions, accounts, loader)
        case Err(key) => Err(MissingAccount(key))
        case Ok(compiled) => Ok(ProcessInstructionInner(index, instructions[index], accounts, compiled))
    }

    /** `process_instruction`: the instruction alone, as index 0. */
    function ProcessInstruction(instruction: Instruction, accounts: seq<KeyedAccount>): (o: Outcome)
      ensures o.Aborted? <==> RunStep(0, [instruction], accounts).Err?
      ensures o.Aborted? ==> o.index == 0 && (o.cause.ProgramNotCached? || o.cause.MissingAccount?)
      ensures o.Returned? ==> Firsts(o.result.resultingAccounts) == Firsts(accounts)
      ensures o.Returned? && o.result.programResult.IsErr() ==> o.result.resultingAccounts == accounts
    {
      match RunStep(0, [instruction], accounts)
      case Err(cause) => Aborted(0, cause)
      case Ok(result) => Returned(result)
    }

    /** What `run_checks` panics with on a step's result, if it panics. */
    function CheckPanic(result: InstructionResult, checks: seq<Check>): (r: Option<CheckFailure>)
      ensures r.Some? <==> config.panic && Failures(result, checks, rentIsExempt) != []
      ensures r.Some? ==> r.value == Failures(result, checks, rentIsExempt)[0]
    {
      match VerdictOf(config, Failures(result, checks, rentIsExempt))
      case Panicked(failure) => Some(failure)
      case Completed(_, _) => None
    }

    /** The outcome of `process_and_validate_instruction`: the processed
        outcome, unless a check panics on the result. */
    function ValidatedInstruction(instruction: Instruction, accounts: seq<KeyedAccount>, checks: seq<Check>)
      : (o: Outcome)
      ensures ProcessInstruction(instruction, accounts).Aborted? ==> o == ProcessInstruction(instruction, accounts)
      ensures o.Returned? <==> (ProcessInstruction(instruction, accounts).Returned?
        && (!config.panic || Failures(ProcessInstruction(instruction, accounts).result, checks, rentIsExempt) == []))
      ensures o.Returned? ==> o == ProcessInstruction(instruction, accounts)
      ensures o.Aborted? && o.cause.CheckFailed? ==>
        ProcessInstruction(instruction, accounts).Returned? && o.index == 0
        && o.cause.failure == Failures(ProcessInstruction(instruction, accounts).result, checks, rentIsExempt)[0]
    {
      var processed := ProcessInstruction(instruction, accounts);
      if processed.Aborted? then processed
      else
        match CheckPanic(processed.result, checks)
        case Some(failure) => Aborted(0, CheckFailed(failure))
        case None => processed
    }

    /** `process_and_validate_instruction`. */
    method ProcessAndValidateInstruction(instruction: Instruction, accounts: seq<KeyedAccount>, checks: seq<Check>)
      returns (outcome: Outcome)
      ensures outcome == ValidatedInstruction(instruction, accounts, checks)
    {
      outcome := ProcessInstruction(instruction, accounts);
      if outcome.Returned? {
        var verdict := RunChecks(outcome.result, checks, config, rentIsExempt);
        if verdict.Panicked? {
          outcome := Aborted(0, CheckFailed(verdict.failure));
        }
      }
    }

    /** Every step of `process_instruction_chain`, as it would run: each
        step runs on the caller's original accounts. */
    function ChainSteps(instructions: seq<Instruction>, accounts: seq<KeyedAccount>)
      : (steps: seq<Result<InstructionResult, Panic>>)
      ensures |steps| == |instructions|
      ensures forall i :: 0 <= i < |steps| ==> steps[i] == RunStep(i, instructions, accounts)
    {
      seq(|instructions|, i requires 0 <= i < |instructions| => RunStep(i, instructions, accounts))
    }

    /** `process_instruction_chain`. */
    method ProcessInstructionChain(instructions: seq<Instruction>, accounts: seq<KeyedAccount>)
      returns (outcome: Outcome)
      ensures outcome == Chain(StartOfChain(accounts), 0, ChainSteps(instructions, accounts))
    {
      ghost var steps := ChainSteps(instructions, accounts);
      var composite := StartOfChain(accounts);
      var i := 0;
      while i < |instructions|
        invariant 0 <= i <= |instructions|
        invariant Chain(composite, i, steps) == Chain(StartOfChain(accounts), 0, steps)
      {
        var loader := GetLoaderKey(instructions[i].programId);
        if loader.Err? {
          return Aborted(i, loader.error);
        }
        var compiled := compile(i, instructions, accounts, loader.value);
        if compiled.Err? {
          return Aborted(i, MissingAccount(compiled.error));
        }
        var current := ProcessInstructionInner(i, instructions[i], accounts, compiled.value);
        if composite.computeUnitsConsumed + current.computeUnitsConsumed >= U64_LIMIT {
          return Aborted(i, UnitsOverflow);
        }
        composite := composite.Absorb(current);
        if composite.programResult.IsErr() {
          break;
        }
        i := i + 1;
      }
      outcome := Returned(composite);
    }

    /** One step of `process_and_validate_instruction_chain` on the given
        accounts, its checks included: a panic of the step, or of its
        checks, or the step's result. */
    function CheckedStep(index: nat, pairs: seq<(Instruction, seq<Check>)>, accounts: seq<KeyedAccount>)
      : (r: Result<InstructionResult, Panic>)
      requires index < |pairs|
      ensures RunStep(index, Firsts(pairs), accounts).Err? ==> r == RunStep(index, Firsts(pairs), accounts)
      ensures r.Ok? <==> (RunStep(index, Firsts(pairs), accounts).Ok?
        && (!config.panic || Failures(RunStep(index, Firsts(pairs), accounts).value, pairs[index].1, rentIsExempt) == []))
      ensures r.Ok? ==> r == RunStep(index, Firsts(pairs), accounts)
      ensures r.Err? && r.error.CheckFailed? <==> (RunStep(index, Firsts(pairs), accounts).Ok? && config.panic
        && Failures(RunStep(index, Firsts(pairs), accounts).value, pairs[index].1, rentIsExempt) != [])
      ensures r.Err? && r.error.CheckFailed? ==>
        r.error.failure == Failures(RunStep(index, Firsts(pairs), accounts).value, pairs[index].1, rentIsExempt)[0]
    {
      match RunStep(index, Firsts(pairs), accounts)
      case Err(cause) => Err(cause)
      case Ok(current) =>
        match CheckPanic(current, pairs[index].1)
        case Some(failure) => Err(CheckFailed(failure))
        case None => Ok(current)
    }

    /** The steps of `process_and_validate_instruction_chain`: step `i`,
        with its checks, on whatever accounts it is given. */
    function CheckedSteps(pairs: seq<(Instruction, seq<Check>)>): (step: StepFunction)
      ensures forall i: nat, accounts :: i < |pairs| ==> step.requires(i, accounts)
      ensures forall i: nat, accounts :: i < |pairs| ==> step(i, accounts) == CheckedStep(i, pairs, accounts)
    {
      (i: nat, accounts) requires i < |pairs| => CheckedStep(i, pairs, accounts)
    }

    /** The run of `process_and_validate_instruction_chain` from step
        `index` on, with `composite` absorbed so far: each step runs on the
        composite's current accounts, and its checks run before it is
        absorbed. */
    function ValidatedChain(composite: InstructionResult, index: nat, pairs: seq<(Instruction, seq<Check>)>)
      : Outcome
      requires index <= |pairs|
    {
      Fold(CheckedSteps(pairs), composite, index, |pairs|)
    }

    /** `process_and_validate_instruction_chain`. */
    method ProcessAndValidateInstructionChain(pairs: seq<(Instruction, seq<Check>)>, accounts: seq<KeyedAccount>)
      returns (outcome: Outcome)
      ensures outcome == ValidatedChain(StartOfChain(accounts), 0, pairs)
    {
      var instructions := Firsts(pairs);
      var composite := StartOfChain(accounts);
      var i := 0;
      while i < |pairs|
        invariant 0 <= i <= |pairs|
        invariant ValidatedChain(composite, i, pairs) == ValidatedChain(StartOfChain(accounts), 0, pairs)
      {
        var loader := GetLoaderKey(pairs[i].0.programId);
        if loader.Err? {
          return Aborted(i, loader.error);
        }
        var compiled := compile(i, instructions, composite.resultingAccounts, loader.value);
        if compiled.Err? {
          return Aborted(i, MissingAccount(compiled.error));
        }
        var current := ProcessInstructionInner(i, pairs[i].0, composite.resultingAccounts, compiled.value);
        var verdict := RunChecks(current, pairs[i].1, config, rentIsExempt);
        if verdict.Panicked? {
          return Aborted(i, CheckFailed(verdict.failure));
        }
        if composite.computeUnitsConsumed + current.computeUnitsConsumed >= U64_LIMIT {
          return Aborted(i, UnitsOverflow);
        }
        composite := composite.Absorb(current);
        if composite.programResult.IsErr() {
          break;
        }
        i := i + 1;
      }
      outcome := Returned(composite);
    }
  }

  /** The loader lookup never panics for a precompile while the feature
      is on; without the feature, it panics exactly for an uncached
      program. */
  lemma LoaderKeyCases(m: Mollusk, programId: Pubkey)
    ensures m.precompiles && programId in {ED25519_PROGRAM, SECP256K1_PROGRAM, SECP256R1_PROGRAM} ==>
      m.GetLoaderKey(programId) == Ok(NATIVE_LOADER)
    ensures !m.precompiles ==> (m.GetLoaderKey(programId).Err? <==> m.cachedLoader(programId).None?)
  {
    Programs.IsPrecompileExactly(m.precompiles, programId);
  }

  /** The composite a chain starts from: the default result holding the
      caller's accounts. */
  function StartOfChain(accounts: seq<KeyedAccount>): (r: InstructionResult)
    ensures r.computeUnitsConsumed == 0 && r.executionTime == 0 && r.programResult.IsOk()
    ensures r.resultingAccounts == accounts
  {
    DefaultResult().(resultingAccounts := accounts)
  }

  /** A chain of steps folded from `index` on: a step that panics ends the
      chain in its panic; otherwise its units are added, which panics if
      the sum leaves `u64`, and it is absorbed; the first step whose
      program fails ends the chain. */
  function Chain(composite: InstructionResult, index: nat, steps: seq<Result<InstructionResult, Panic>>): Outcome
    requires index <= |steps|
    decreases |steps| - index
  {
    if index == |steps| then Returned(composite)
    else
      match steps[index]
      case Err(cause) => Aborted(index, cause)
      case Ok(step) =>
        if composite.computeUnitsConsumed + step.computeUnitsConsumed >= U64_LIMIT then Aborted(index, UnitsOverflow)
        else
          var next := composite.Absorb(step);
          if next.programResult.IsErr() then Returned(next) else Chain(next, index + 1, steps)
  }

  /** A step after which a chain goes no further: it panics, or its
      program fails. */
  predicate Stops(step: Result<InstructionResult, Panic>) {
    step.Err? || step.value.programResult.IsErr()
  }

  /** The number of steps a chain runs from `index`: up to and including
      the first one that stops it, or all. */
  function Executed(index: nat, steps: seq<Result<InstructionResult, Panic>>): (k: nat)
    requires index <= |steps|
    ensures index + k <= |steps|
    ensures forall j :: index <= j < index + k - 1 ==> !Stops(steps[j])
    ensures index + k < |steps| ==> k > 0 && Stops(steps[index + k - 1])
    ensures index < |steps| ==> k > 0
    decreases |steps| - index
  {
    if index == |steps| then 0
    else if Stops(steps[index]) then 1
    else 1 + Executed(index + 1, steps)
  }

  /** The units of the steps from `from` up to `to` that ran to the end. */
  function UnitsBetween(steps: seq<Result<InstructionResult, Panic>>, from: nat, to: nat): nat
    requires from <= to <= |steps|
    decreases (to as int) - (from as int)
  {
    if from == to then 0
    else (if steps[from].Ok? then steps[from].value.computeUnitsConsumed else 0) + UnitsBetween(steps, from + 1, to)
  }

  /** A step of a chain run on the composite's accounts: the step's
      index and the accounts it runs on, to its panic or its result. */
  type StepFunction = (nat, seq<KeyedAccount>) --> Result<InstructionResult, Panic>

  /** A chain whose steps run on the composite's current accounts, folded
      from `index` on: a step that panics ends the chain in its panic;
      otherwise its units are added, which panics if the sum leaves `u64`,
      and it is absorbed; the first step whose program fails ends it. */
  function Fold(step: StepFunction, composite: InstructionResult, index: nat, n: nat): Outcome
    requires index <= n
    requires forall i, accounts :: index <= i < n ==> step.requires(i, accounts)
    decreases n - index
  {
    if index == n then Returned(composite)
    else
      match step(index, composite.resultingAccounts)
      case Err(cause) => Aborted(index, cause)
      case Ok(current) =>
        if composite.computeUnitsConsumed + current.computeUnitsConsumed >= U64_LIMIT then Aborted(index, UnitsOverflow)
        else
          var next := composite.Absorb(current);
          if next.programResult.IsErr() then Returned(next) else Fold(step, next, index + 1, n)
  }

  /** The steps such a chain runs from `index` on, starting on `accounts`:
      each on the accounts the one before it left, up to and including the
      first that panics or whose program fails, or all. */
  function Trace(step: StepFunction, accounts: seq<KeyedAccount>, index: nat, n: nat)
    : (t: seq<Result<InstructionResult, Panic>>)
    requires index <= n
    requires forall i, accounts :: index <= i < n ==> step.requires(i, accounts)
    ensures |t| <= n - index
    ensures |t| > 0 <==> index < n
    ensures forall j :: 0 <= j < |t| - 1 ==> !Stops(t[j])
    ensures 0 < |t| < n - index ==> Stops(t[|t| - 1])
    decreases n - index
  {
    if index == n then []
    else
      var first := step(index, accounts);
      if Stops(first) then [first]
      else
        var rest := Trace(step, first.value.resultingAccounts, index + 1, n);
        [first] + rest
  }

  /** What a chain on the composite's accounts ends in, by the steps it
      runs: when their units leave `u64` it panics while absorbing one of
      them; otherwise it ends in the panic of its last step, or returns with
      the units of every step it ran and the outcome, return data and
      accounts of the last of them, the execution time untouched. */
  lemma {:induction false} FoldOutcome(step: StepFunction, composite: InstructionResult, index: nat, n: nat)
    requires index <= n
    requires forall i, accounts :: index <= i < n ==> step.requires(i, accounts)
    ensures index == n ==> Fold(step, composite, index, n) == Returned(composite)
    ensures var t := Trace(step, composite.resultingAccounts, index, n);
      var o := Fold(step, composite, index, n);
      composite.computeUnitsConsumed + UnitsBetween(t, 0, |t|) >= U64_LIMIT ==>
        o.Aborted? && o.cause == UnitsOverflow && index <= o.index < index + |t|
    ensures var t := Trace(step, composite.resultingAccounts, index, n);
      composite.computeUnitsConsumed + UnitsBetween(t, 0, |t|) < U64_LIMIT && t != [] && t[|t| - 1].Err? ==>
        Fold(step, composite, index, n) == Aborted(index + |t| - 1, t[|t| - 1].error)
    ensures var t := Trace(step, composite.resultingAccounts, index, n);
      var o := Fold(step, composite, index, n);
      var total := composite.computeUnitsConsumed + UnitsBetween(t, 0, |t|);
      total < U64_LIMIT && t != [] && t[|t| - 1].Ok? ==>
        o.Returned? && o.result.computeUnitsConsumed == total && o.result.executionTime == composite.executionTime
        && o.result.programResult == t[|t| - 1].value.programResult && o.result.rawResult == t[|t| - 1].value.rawResult
        && o.result.returnData == t[|t| - 1].value.returnData
        && o.result.resultingAccounts == t[|t| - 1].value.resultingAccounts
    decreases n - index
  {
    if index < n {
      var t := Trace(step, composite.resultingAccounts, index, n);
      var first := step(index, composite.resultingAccounts);
      UnitsBetweenFirst(t);
      if first.Ok? && !Stops(first) && composite.computeUnitsConsumed + first.value.computeUnitsConsumed < U64_LIMIT {
        var next := composite.Absorb(first.value);
        var rest := Trace(step, next.resultingAccounts, index + 1, n);
        assert t == [first] + rest;
        UnitsBetweenShift(first, rest, 0, |rest|);
        FoldOutcome(step, next, index + 1, n);
      } else if Stops(first) {
        assert |t| == 1 && UnitsBetween(t, 1, 1) == 0;
      }
    }
  }

  /** What a chain ends in, by the steps it runs: when their units leave
      `u64` it panics while absorbing one of them; otherwise it ends in the
      panic of its last step, or returns with the units of every step it
      ran and the outcome, return data and accounts of the last of them
      (the starting composite when none runs), the execution time
      untouched. */
  lemma {:induction false} ChainOutcome(composite: InstructionResult, index: nat, steps: seq<Result<InstructionResult, Panic>>)
    requires index <= |steps|
    ensures index == |steps| ==> Chain(composite, index, steps) == Returned(composite)
    ensures var r := Chain(composite, index, steps);
      var total := composite.computeUnitsConsumed + UnitsBetween(steps, index, index + Executed(index, steps));
      total >= U64_LIMIT ==> r.Aborted? && r.cause == UnitsOverflow && index <= r.index < index + Executed(index, steps)
    ensures var r := Chain(composite, index, steps);
      var last := index + Executed(index, steps) - 1;
      var total := composite.computeUnitsConsumed + UnitsBetween(steps, index, index + Executed(index, steps));
      total < U64_LIMIT && index < |steps| && steps[last].Err? ==> r == Aborted(last, steps[last].error)
    ensures var r := Chain(composite, index, steps);
      var last := index + Executed(index, steps) - 1;
      var total := composite.computeUnitsConsumed + UnitsBetween(steps, index, index + Executed(index, steps));
      total < U64_LIMIT && index < |steps| && steps[last].Ok? ==>
        r.Returned? && r.result.computeUnitsConsumed == total && r.result.executionTime == composite.executionTime
        && r.result.programResult == steps[last].value.programResult && r.result.rawResult == steps[last].value.rawResult
        && r.result.returnData == steps[last].value.returnData
        && r.result.resultingAccounts == steps[last].value.resultingAccounts
    decreases |steps| - index
  {
    if index < |steps| && steps[index].Ok? {
      var step := steps[index].value;
      if composite.computeUnitsConsumed + step.computeUnitsConsumed < U64_LIMIT {
        var next := composite.Absorb(step);
        if next.programResult.IsOk() {
          ChainOutcome(next, index + 1, steps);
        }
      }
    }
  }

  /** `process_instruction_chain`: every step sees the caller's original
      accounts, so a chain that returns lists the caller's keys in order;
      a panic names a step of the chain. */
  lemma ChainKeepsCallerKeys(m: Mollusk, instructions: seq<Instruction>, accounts: seq<KeyedAccount>)
    ensures var o := Chain(StartOfChain(accounts), 0, m.ChainSteps(instructions, accounts));
      o.Returned? ==> Firsts(o.result.resultingAccounts) == Firsts(accounts)
    ensures var o := Chain(StartOfChain(accounts), 0, m.ChainSteps(instructions, accounts));
      o.Aborted? ==> o.index < |instructions|
  {
    var steps := m.ChainSteps(instructions, accounts);
    ChainOutcome(StartOfChain(accounts), 0, steps);
  }

  /** Without `panic`, checks only report: a validated chain panics only in
      the harness itself (an uncached program, a missing account or
      overflowing units), never in a check, and what it returns carries the
      keys it started with. */
  lemma {:induction false} SoftFailChainNeverPanicsInACheck(m: Mollusk, composite: InstructionResult, index: nat,
                                                            pairs: seq<(Instruction, seq<Check>)>)
    requires index <= |pairs|
    requires !m.config.panic
    ensures var o := m.ValidatedChain(composite, index, pairs);
      o.Aborted? ==> !o.cause.CheckFailed? && index <= o.index < |pairs|
    ensures var o := m.ValidatedChain(composite, index, pairs);
      o.Returned? ==> Firsts(o.result.resultingAccounts) == Firsts(composite.resultingAccounts)
    decreases |pairs| - index
  {
    if index < |pairs| {
      var step := m.CheckedStep(index, pairs, composite.resultingAccounts);
      if step.Ok? && composite.computeUnitsConsumed + step.value.computeUnitsConsumed < U64_LIMIT {
        var next := composite.Absorb(step.value);
        if next.programResult.IsOk() {
          SoftFailChainNeverPanicsInACheck(m, next, index + 1, pairs);
        }
      }
    }
  }

  /** `process_and_validate_instruction_chain`, by the steps it runs:
      when their units leave `u64` it panics while absorbing one of them;
      otherwise it ends in the panic of its last step, a failing check
      under `panic` included, or returns with the units of every step it ran
      and the outcome, return data and accounts of the last of them (the
      caller's accounts when there are no steps), the execution time 0. */
  lemma ValidatedChainOutcome(m: Mollusk, pairs: seq<(Instruction, seq<Check>)>, accounts: seq<KeyedAccount>)
    ensures pairs == [] ==> m.ValidatedChain(StartOfChain(accounts), 0, pairs) == Returned(StartOfChain(accounts))
    ensures var t := Trace(m.CheckedSteps(pairs), accounts, 0, |pairs|);
      var o := m.ValidatedChain(StartOfChain(accounts), 0, pairs);
      UnitsBetween(t, 0, |t|) >= U64_LIMIT ==> o.Aborted? && o.cause == UnitsOverflow && o.index < |t|
    ensures var t := Trace(m.CheckedSteps(pairs), accounts, 0, |pairs|);
      UnitsBetween(t, 0, |t|) < U64_LIMIT && t != [] && t[|t| - 1].Err? ==>
        m.ValidatedChain(StartOfChain(accounts), 0, pairs) == Aborted(|t| - 1, t[|t| - 1].error)
    ensures var t := Trace(m.CheckedSteps(pairs), accounts, 0, |pairs|);
      var o := m.ValidatedChain(StartOfChain(accounts), 0, pairs);
      UnitsBetween(t, 0, |t|) < U64_LIMIT && t != [] && t[|t| - 1].Ok? ==>
        o.Returned? && o.result.computeUnitsConsumed == UnitsBetween(t, 0, |t|) && o.result.executionTime == 0
        && o.result.programResult == t[|t| - 1].value.programResult && o.result.rawResult == t[|t| - 1].value.rawResult
        && o.result.returnData == t[|t| - 1].value.returnData
        && o.result.resultingAccounts == t[|t| - 1].value.resultingAccounts
  {
    FoldOutcome(m.CheckedSteps(pairs), StartOfChain(accounts), 0, |pairs|);
  }

  /** The steps a validated chain runs are its checked steps, each on the
      accounts the one before it left. */
  lemma ValidatedTraceSteps(m: Mollusk, pairs: seq<(Instruction, seq<Check>)>, accounts: seq<KeyedAccount>)
    ensures var t := Trace(m.CheckedSteps(pairs), accounts, 0, |pairs|);
      t != [] ==> t[0] == m.CheckedStep(0, pairs, accounts)
    ensures var t := Trace(m.CheckedSteps(pairs), accounts, 0, |pairs|);
      forall j {:trigger t[j]} :: 0 < j < |t| ==>
        t[j - 1].Ok? && t[j] == m.CheckedStep(j, pairs, t[j - 1].value.resultingAccounts)
  {
    TraceSteps(m.CheckedSteps(pairs), accounts, 0, |pairs|);
  }

  /** A failing check panics only with `panic` set, and the step it fails
      is the last the chain runs. */
  lemma CheckFailureEndsValidatedChain(m: Mollusk, pairs: seq<(Instruction, seq<Check>)>, accounts: seq<KeyedAccount>)
    ensures var t := Trace(m.CheckedSteps(pairs), accounts, 0, |pairs|);
      forall j :: 0 <= j < |t| && t[j].Err? && t[j].error.CheckFailed? ==> m.config.panic && j == |t| - 1
  {
    var t := Trace(m.CheckedSteps(pairs), accounts, 0, |pairs|);
    ValidatedTraceSteps(m, pairs, accounts);
    forall j | 0 <= j < |t| && t[j].Err? && t[j].error.CheckFailed? ensures m.config.panic && j == |t| - 1 {
      if j == 0 {
        assert t[0] == m.CheckedStep(0, pairs, accounts);
      } else {
        assert t[j] == m.CheckedStep(j, pairs, t[j - 1].value.resultingAccounts);
      }
    }
  }

  /** Each step of a trace is the step function applied to the accounts
      the step before it left. */
  lemma TraceSteps(step: StepFunction, accounts: seq<KeyedAccount>, index: nat, n: nat)
    requires index <= n
    requires forall i, accounts :: index <= i < n ==> step.requires(i, accounts)
    ensures var t := Trace(step, accounts, index, n);
      t != [] ==> t[0] == step(index, accounts)
    ensures var t := Trace(step, accounts, index, n);
      forall j {:trigger t[j]} :: 0 < j < |t| ==>
        t[j - 1].Ok? && t[j] == step(index + j, t[j - 1].value.resultingAccounts)
  {
    var t := Trace(step, accounts, index, n);
    forall j {:trigger t[j]} | 0 < j < |t|
      ensures t[j - 1].Ok? && t[j] == step(index + j, t[j - 1].value.resultingAccounts)
    {
      TraceAt(step, accounts, index, n, j);
    }
  }

  /** Step `j` of a trace, for `j > 0`: the step function on the accounts
      step `j - 1` left. */
  lemma {:induction false} TraceAt(step: StepFunction, accounts: seq<KeyedAccount>, index: nat, n: nat, j: nat)
    requires index <= n
    requires forall i, accounts :: index <= i < n ==> step.requires(i, accounts)
    requires 0 < j < |Trace(step, accounts, index, n)|
    ensures var t := Trace(step, accounts, index, n);
      t[j - 1].Ok? && t[j] == step(index + j, t[j - 1].value.resultingAccounts)
    decreases j
  {
    var t := Trace(step, accounts, index, n);
    var first := step(index, accounts);
    var rest := Trace(step, first.value.resultingAccounts, index + 1, n);
    assert t == [first] + rest;
    if j > 1 {
      TraceAt(step, first.value.resultingAccounts, index + 1, n, j - 1);
      assert t[j - 1] == rest[j - 2] && t[j] == rest[j - 1];
      assert (index + 1) + (j - 1) == index + j;
    }
  }

  /** The units of a nonempty run of steps: the first step's, then the rest. */
  lemma UnitsBetweenFirst(steps: seq<Result<InstructionResult, Panic>>)
    requires steps != []
    ensures UnitsBetween(steps, 0, |steps|)
      == (if steps[0].Ok? then steps[0].value.computeUnitsConsumed else 0) + UnitsBetween(steps, 1, |steps|)
  {
  }

  /** Dropping a first step shifts the units of a range of steps by one. */
  lemma {:induction false} UnitsBetweenShift(first: Result<InstructionResult, Panic>,
                                             rest: seq<Result<InstructionResult, Panic>>, from: nat, to: nat)
    requires from <= to <= |rest|
    ensures UnitsBetween([first] + rest, from + 1, to + 1) == UnitsBetween(rest, from, to)
    decreases (to as int) - (from as int)
  {
    if from < to {
      assert ([first] + rest)[from + 1] == rest[from];
      UnitsBetweenShift(first, rest, from + 1, to);
    }
  }

  // ---------------------------------------------------------------------
  // The stateful context.

  /** The account a loaded key gets: the store's, else a sysvar, else a
      cached program, else the store's default account. */
  function ResolveAccount(m: Mollusk, stored: map<Pubkey, Account>, key: Pubkey): (a: Account)
    ensures key in stored ==> a == stored[key]
    ensures key !in stored && m.maybeSysvarAccount(key).Some? ==> a == m.maybeSysvarAccount(key).value
    ensures key !in stored && m.maybeSysvarAccount(key).None? && m.maybeProgramAccount(key).Some? ==>
      a == m.maybeProgramAccount(key).value
    ensures key !in stored && m.maybeSysvarAccount(key).None? && m.maybeProgramAccount(key).None? ==>
      a == DEFAULT_ACCOUNT
  {
    if key in stored then stored[key]
    else m.maybeSysvarAccount(key).GetOr(m.maybeProgramAccount(key).GetOr(DEFAULT_ACCOUNT))
  }

  /** Every account meta key of the instructions, in order. */
  function MetaKeys(instructions: seq<Instruction>): seq<Pubkey>
    decreases |instructions|
  {
    if instructions == [] then []
    else
      var metas := instructions[|instructions| - 1].accounts;
      MetaKeys(instructions[..|instructions| - 1]) + seq(|metas|, j requires 0 <= j < |metas| => metas[j].pubkey)
  }

  /** The entries loaded for a list of meta keys: each key the first time
      it is seen, never the instructions sysvar, with its resolved account. */
  function Loaded(keys: seq<Pubkey>, resolve: Pubkey -> Account): seq<KeyedAccount>
    decreases |keys|
  {
    if keys == [] then []
    else
      var key := keys[|keys| - 1];
      var init := keys[..|keys| - 1];
      if key in init || key == INSTRUCTIONS_SYSVAR_ID then Loaded(init, resolve)
      else Loaded(init, resolve) + [(key, resolve(key))]
  }

  /** One more meta key is loaded unless it was seen before or is the
      instructions sysvar. */
  lemma LoadedStep(keys: seq<Pubkey>, i: nat, resolve: Pubkey -> Account)
    requires i < |keys|
    ensures Loaded(keys[..i + 1], resolve)
         == if keys[i] in keys[..i] || keys[i] == INSTRUCTIONS_SYSVAR_ID then Loaded(keys[..i], resolve)
            else Loaded(keys[..i], resolve) + [(keys[i], resolve(keys[i]))]
  {
    assert keys[..i + 1][..i] == keys[..i];
  }

  predicate DistinctKeys(entries: seq<KeyedAccount>) {
    forall i, j :: 0 <= i < j < |entries| ==> entries[i].0 != entries[j].0
  }

  /** The loaded entries have distinct keys, none of them the instructions
      sysvar; a key is loaded iff it is such a meta key; and each carries
      its resolved account. */
  lemma {:induction false} LoadedExactly(keys: seq<Pubkey>, resolve: Pubkey -> Account)
    ensures DistinctKeys(Loaded(keys, resolve))
    ensures forall k :: k in Firsts(Loaded(keys, resolve)) <==> k in keys && k != INSTRUCTIONS_SYSVAR_ID
    ensures forall e :: e in Loaded(keys, resolve) ==> e.1 == resolve(e.0)
    decreases |keys|
  {
    if keys != [] {
      var key := keys[|keys| - 1];
      var init := keys[..|keys| - 1];
      LoadedExactly(init, resolve);
      assert keys == init + [key];
      var before := Loaded(init, resolve);
      if !(key in init || key == INSTRUCTIONS_SYSVAR_ID) {
        assert Firsts(before + [(key, resolve(key))]) == Firsts(before) + [key];
        assert key !in Firsts(before);
        var loaded := before + [(key, resolve(key))];
        assert Loaded(keys, resolve) == loaded;
        forall i | 0 <= i < |before| ensures loaded[i].0 != key {
          assert Firsts(before)[i] == loaded[i].0;
        }
      } else {
        assert Loaded(keys, resolve) == before;
      }
    }
  }

  /** The account list `load_accounts_for_instructions` builds. */
  function LoadedAccounts(m: Mollusk, hydrate: bool, stored: map<Pubkey, Account>, instructions: seq<Instruction>)
    : seq<KeyedAccount>
  {
    (if hydrate then m.programAccounts + m.sysvarAccounts else [])
    + Loaded(MetaKeys(instructions), key => ResolveAccount(m, stored, key))
  }

  /** The store after `with_context`: each program account written only
      under a key the store does not hold yet. */
  function StoreMissing(m: map<Pubkey, Account>, entries: seq<KeyedAccount>): map<Pubkey, Account>
    decreases |entries|
  {
    if entries == [] then m
    else
      var before := StoreMissing(m, entries[..|entries| - 1]);
      var last := entries[|entries| - 1];
      if last.0 in before then before else before[last.0 := last.1]
  }

  /** Accounts already in the store are never replaced; every program key
      ends up present; no other key is added. */
  lemma {:induction false} StoreMissingKeepsExisting(m: map<Pubkey, Account>, entries: seq<KeyedAccount>)
    ensures forall k :: k in m ==> k in StoreMissing(m, entries) && StoreMissing(m, entries)[k] == m[k]
    ensures forall i :: 0 <= i < |entries| ==> entries[i].0 in StoreMissing(m, entries)
    ensures forall k :: k in StoreMissing(m, entries) ==> k in m || exists i :: 0 <= i < |entries| && entries[i].0 == k
    decreases |entries|
  {
    if entries != [] {
      var init := entries[..|entries| - 1];
      StoreMissingKeepsExisting(m, init);
      assert forall i :: 0 <= i < |init| ==> init[i] == entries[i];
    }
  }

  /** `MolluskContext` over a `HashMap` account store. */
  class MolluskContext {
    const mollusk: Mollusk
    const store: HashMapStore
    var hydrateStore: bool

    /** `Mollusk::with_context`. */
    constructor WithContext(mollusk: Mollusk, store: HashMapStore)
      modifies store
      ensures this.mollusk == mollusk && this.store == store && hydrateStore
      ensures store.accounts == StoreMissing(old(store.accounts), mollusk.programAccounts)
    {
      this.mollusk := mollusk;
      this.store := store;
      hydrateStore := true;
      new;
      var entries := mollusk.programAccounts;
      var i := 0;
      while i < |entries|
        invariant 0 <= i <= |entries|
        invariant hydrateStore
        invariant store.accounts == StoreMissing(old(store.accounts), entries[..i])
      {
        assert entries[..i + 1][..i] == entries[..i];
        if store.GetAccount(entries[i].0).None? {
          store.StoreAccount(entries[i].0, entries[i].1);
        }
        i := i + 1;
      }
      assert entries[..i] == entries;
    }

    /** `load_accounts_for_instructions`. */
    method LoadAccountsForInstructions(instructions: seq<Instruction>) returns (accounts: seq<KeyedAccount>)
      ensures accounts == LoadedAccounts(mollusk, hydrateStore, store.accounts, instructions)
    {
      var stored := store.accounts;
      var resolve := key => ResolveAccount(mollusk, stored, key);
      accounts := if hydrateStore then mollusk.programAccounts + mollusk.sysvarAccounts else [];
      ghost var prefix := accounts;
      var keys := MetaKeys(instructions);
      var seen: set<Pubkey> := {};
      var i := 0;
      while i < |keys|
        invariant 0 <= i <= |keys|
        invariant forall k :: k in seen <==> k in keys[..i]
        invariant accounts == prefix + Loaded(keys[..i], resolve)
      {
        var key := keys[i];
        LoadedStep(keys, i, resolve);
        if key !in seen && key != INSTRUCTIONS_SYSVAR_ID {
          accounts := accounts + [(key, ResolveAccount(mollusk, stored, key))];
        }
        seen := seen + {key};
        i := i + 1;
      }
      assert keys[..i] == keys;
    }

    /** `consume_mollusk_result`: a successful result's accounts are all
        written back; a failed one leaves the store untouched. */
    method ConsumeMolluskResult(result: InstructionResult)
      modifies store
      ensures result.programResult.IsOk() ==> store.accounts == StoreAll(old(store.accounts), result.resultingAccounts)
      ensures result.programResult.IsErr() ==> store.accounts == old(store.accounts)
    {
      if result.programResult.IsOk() {
        store.StoreAccounts(result.resultingAccounts);
      }
    }

    /** Writes back what a call returned; a panic ends the call before
        anything is written. */
    method Consume(outcome: Outcome)
      modifies store
      ensures outcome.Returned? && outcome.result.programResult.IsOk() ==>
        store.accounts == StoreAll(old(store.accounts), outcome.result.resultingAccounts)
      ensures outcome.Aborted? || outcome.result.programResult.IsErr() ==> store.accounts == old(store.accounts)
    {
      if outcome.Returned? {
        ConsumeMolluskResult(outcome.result);
      }
    }

    /** `MolluskContext::process_instruction`. */
    method ProcessInstruction(instruction: Instruction) returns (outcome: Outcome)
      modifies store
      ensures outcome == mollusk.ProcessInstruction(instruction,
                           LoadedAccounts(mollusk, hydrateStore, old(store.accounts), [instruction]))
      ensures outcome.Returned? && outcome.result.programResult.IsOk() ==>
        store.accounts == StoreAll(old(store.accounts), outcome.result.resultingAccounts)
      ensures outcome.Aborted? || outcome.result.programResult.IsErr() ==> store.accounts == old(store.accounts)
    {
      var accounts := LoadAccountsForInstructions([instruction]);
      outcome := mollusk.ProcessInstruction(instruction, accounts);
      Consume(outcome);
    }

    /** `MolluskContext::process_instruction_chain`. */
    method ProcessInstructionChain(instructions: seq<Instruction>) returns (outcome: Outcome)
      modifies store
      ensures var accounts := LoadedAccounts(mollusk, hydrateStore, old(store.accounts), instructions);
        outcome == Chain(StartOfChain(accounts), 0, mollusk.ChainSteps(instructions, accounts))
      ensures outcome.Returned? && outcome.result.programResult.IsOk() ==>
        store.accounts == StoreAll(old(store.accounts), outcome.result.resultingAccounts)
      ensures outcome.Aborted? || outcome.result.programResult.IsErr() ==> store.accounts == old(store.accounts)
    {
      var accounts := LoadAccountsForInstructions(instructions);
      outcome := mollusk.ProcessInstructionChain(instructions, accounts);
      Consume(outcome);
    }

    /** `MolluskContext::process_and_validate_instruction`. */
    method ProcessAndValidateInstruction(instruction: Instruction, checks: seq<Check>) returns (outcome: Outcome)
      modifies store
      ensures var accounts := LoadedAccounts(mollusk, hydrateStore, old(store.accounts), [instruction]);
        outcome == mollusk.ValidatedInstruction(instruction, accounts, checks)
      ensures outcome.Returned? && outcome.result.programResult.IsOk() ==>
        store.accounts == StoreAll(old(store.accounts), outcome.result.resultingAccounts)
      ensures outcome.Aborted? || outcome.result.programResult.IsErr() ==> store.accounts == old(store.accounts)
    {
      var accounts := LoadAccountsForInstructions([instruction]);
      outcome := mollusk.ProcessAndValidateInstruction(instruction, accounts, checks);
      Consume(outcome);
    }

    /** `MolluskContext::process_and_validate_instruction_chain`. */
    method ProcessAndValidateInstructionChain(pairs: seq<(Instruction, seq<Check>)>) returns (outcome: Outcome)
      modifies store
      ensures var accounts := LoadedAccounts(mollusk, hydrateStore, old(store.accounts), Firsts(pairs));
        outcome == mollusk.ValidatedChain(StartOfChain(accounts), 0, pairs)
      ensures outcome.Returned? && outcome.result.programResult.IsOk() ==>
        store.accounts == StoreAll(old(store.accounts), outcome.result.resultingAccounts)
      ensures outcome.Aborted? || outcome.result.programResult.IsErr() ==> store.accounts == old(store.accounts)
    {
      var accounts := LoadAccountsForInstructions(Firsts(pairs));
      outcome := mollusk.ProcessAndValidateInstructionChain(pairs, accounts);
      Consume(outcome);
    }
  }
}
