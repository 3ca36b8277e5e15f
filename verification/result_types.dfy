/**
 * The result of executing one instruction (or a chain of them), and the
 * fold step that accumulates a chain.
 */
module ResultTypes {
  import opened Wrappers
  import opened Solana

  /** The outcome code of a program invocation. */
  datatype ProgramResult =
    | Success
    | Failure(programError: ProgramError)
    | UnknownError(instructionError: InstructionError)
  {
    predicate IsOk() {
      Success?
    }

    predicate IsErr() {
      !IsOk()
    }
  }

  /** `Result<(), InstructionError>`, the raw outcome of the invocation. */
  datatype RawResult = RawOk | RawErr(error: InstructionError)

  /** `ProgramError::try_from(InstructionError)` is an SDK conversion; it is a
      parameter of type `ProgramErrorConversion`. */
  type ProgramErrorConversion = InstructionError -> Option<ProgramError>

  /** `impl From<Result<(), InstructionError>> for ProgramResult`. */
  function FromRawResult(raw: RawResult, tryFrom: ProgramErrorConversion): (r: ProgramResult)
    ensures raw.RawOk? <==> r.IsOk()
    ensures raw.RawErr? && tryFrom(raw.error).Some? ==> r == Failure(tryFrom(raw.error).value)
    ensures raw.RawErr? && tryFrom(raw.error).None? ==> r == UnknownError(raw.error)
  {
    match raw
    case RawOk => Success
    case RawErr(err) =>
      match tryFrom(err)
      case Some(programError) => Failure(programError)
      case None => UnknownError(err)
  }

  datatype InstructionResult = InstructionResult(
    computeUnitsConsumed: U64,
    executionTime: U64,
    programResult: ProgramResult,
    rawResult: RawResult,
    returnData: seq<Byte>,
    resultingAccounts: seq<KeyedAccount>)
  {
    /** `get_account`: the first resulting account under `pubkey`. */
    function GetAccount(pubkey: Pubkey): (r: Option<Account>)
      ensures r.None? <==> forall i :: 0 <= i < |resultingAccounts| ==> resultingAccounts[i].0 != pubkey
      ensures r.Some? ==> exists i :: 0 <= i < |resultingAccounts| && resultingAccounts[i] == (pubkey, r.value)
                                     && forall j :: 0 <= j < i ==> resultingAccounts[j].0 != pubkey
    {
      Lookup(resultingAccounts, pubkey)
    }

    /** `absorb`: fold the next step of a chain into this composite. The
        compute units are added (the caller keeps the sum within `u64`);
        everything else except the execution time is replaced. */
    function Absorb(other: InstructionResult): (r: InstructionResult)
      requires computeUnitsConsumed + other.computeUnitsConsumed < U64_LIMIT
      ensures r.computeUnitsConsumed == computeUnitsConsumed + other.computeUnitsConsumed
      ensures r.executionTime == executionTime
      ensures r.programResult == other.programResult && r.rawResult == other.rawResult
      ensures r.returnData == other.returnData && r.resultingAccounts == other.resultingAccounts
    {
      this.(computeUnitsConsumed := computeUnitsConsumed + other.computeUnitsConsumed,
            programResult := other.programResult,
            rawResult := other.rawResult,
            returnData := other.returnData,
            resultingAccounts := other.resultingAccounts)
    }
  }

  /** `InstructionResult::default()`. */
  function DefaultResult(): (r: InstructionResult)
    ensures r.computeUnitsConsumed == 0 && r.executionTime == 0
    ensures r.programResult.IsOk() && r.rawResult == RawOk
    ensures r.returnData == [] && r.resultingAccounts == []
  {
    InstructionResult(0, 0, Success, RawOk, [], [])
  }

  /** `is_err` is the negation of `is_ok`, and `is_ok` holds exactly for `Success`. */
  lemma IsOkExactlySuccess(p: ProgramResult)
    ensures p.IsOk() <==> p == Success
    ensures p.IsErr() <==> (p.Failure? || p.UnknownError?)
  {
  }

  /** Absorbing twice adds both steps' units and keeps the later step's outcome. */
  lemma AbsorbTwice(base: InstructionResult, a: InstructionResult, b: InstructionResult)
    requires base.computeUnitsConsumed + a.computeUnitsConsumed + b.computeUnitsConsumed < U64_LIMIT
    ensures base.Absorb(a).Absorb(b).computeUnitsConsumed
            == base.computeUnitsConsumed + a.computeUnitsConsumed + b.computeUnitsConsumed
    ensures base.Absorb(a).Absorb(b) == base.Absorb(b).(computeUnitsConsumed := base.Absorb(a).Absorb(b).computeUnitsConsumed)
  {
  }
}
