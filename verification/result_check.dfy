/**
 * The check language: declarative assertions about one instruction result,
 * and the evaluator that runs them under a panic-or-report configuration.
 */
module Checks {
  import opened Wrappers
  import opened Solana
  import opened ResultTypes
  import opened Seqs

  /** The injected rent rule: is an account with these lamports and this
      data length rent exempt? */
  type RentExemptPredicate = (U64, nat) -> bool

  /** The validation policy. `verbose` only controls printing. */
  datatype Config = Config(panic: bool, verbose: bool)

  datatype AccountStateCheck = Closed | RentExempt

  /** The optional assertions about one resulting account. */
  datatype AccountCheck = AccountCheck(
    pubkey: Pubkey,
    checkData: Option<seq<Byte>>,
    checkExecutable: Option<bool>,
    checkLamports: Option<U64>,
    checkOwner: Option<Pubkey>,
    checkSpace: Option<nat>,
    checkState: Option<AccountStateCheck>,
    checkDataSlice: Option<(nat, seq<Byte>)>)

  datatype CheckType =
    | ComputeUnitsConsumed(units: U64)
    | ExecutionTime(time: U64)
    | ProgramResultEquals(result: ProgramResult)
    | ReturnDataEquals(returnData: seq<Byte>)
    | ResultingAccount(account: AccountCheck)
    | AllAccountsRentExempt

  datatype Check = Check(check: CheckType)
  {
    /** `Check::compute_units`. */
    static function ComputeUnits(units: U64): (c: Check)
      ensures forall res, rent :: Passes(res, c, rent) <==> res.computeUnitsConsumed == units
    {
      Check(ComputeUnitsConsumed(units))
    }

    /** `Check::time`. */
    static function Time(time: U64): (c: Check)
      ensures forall res, rent :: Passes(res, c, rent) <==> res.executionTime == time
    {
      Check(ExecutionTime(time))
    }

    /** `Check::success`. */
    static function Success(): (c: Check)
      ensures c.check == ProgramResultEquals(ProgramResult.Success)
      ensures forall res, rent :: Passes(res, c, rent) <==> res.programResult.IsOk()
    {
      Check(ProgramResultEquals(ProgramResult.Success))
    }

    /** `Check::err`. */
    static function Err(error: ProgramError): (c: Check)
      ensures c.check == ProgramResultEquals(Failure(error))
      ensures forall res, rent :: Passes(res, c, rent) <==> res.programResult == Failure(error)
    {
      Check(ProgramResultEquals(Failure(error)))
    }

    /** `Check::instruction_err`. */
    static function InstructionErr(error: InstructionError): (c: Check)
      ensures c.check == ProgramResultEquals(UnknownError(error))
      ensures forall res, rent :: Passes(res, c, rent) <==> res.programResult == UnknownError(error)
    {
      Check(ProgramResultEquals(UnknownError(error)))
    }

    /** `Check::program_result`. */
    static function ProgramResultIs(result: ProgramResult): (c: Check)
      ensures forall res, rent :: Passes(res, c, rent) <==> res.programResult == result
    {
      Check(ProgramResultEquals(result))
    }

    /** `Check::return_data`. */
    static function ReturnData(returnData: seq<Byte>): (c: Check)
      ensures forall res, rent :: Passes(res, c, rent) <==> res.returnData == returnData
    {
      Check(ReturnDataEquals(returnData))
    }

    /** `Check::account`: a builder with no assertion set yet. */
    static function Account(pubkey: Pubkey): (b: AccountCheckBuilder)
      ensures b.check.pubkey == pubkey && NoAssertions(b.check)
    {
      AccountCheckBuilder(AccountCheck(pubkey, None, None, None, None, None, None, None))
    }

    /** `Check::all_rent_exempt`. */
    static function AllRentExempt(): (c: Check)
      ensures forall res, rent :: Passes(res, c, rent) <==>
        forall i :: 0 <= i < |res.resultingAccounts| ==> IsExempt(rent, res.resultingAccounts[i].1)
    {
      assert forall res: InstructionResult, rent: RentExemptPredicate ::
        RentFailures(res.resultingAccounts, rent) == [] <==>
        forall i :: 0 <= i < |res.resultingAccounts| ==> IsExempt(rent, res.resultingAccounts[i].1)
      by {
        forall res: InstructionResult, rent: RentExemptPredicate {
          RentFailuresExact(res.resultingAccounts, rent);
        }
      }
      Check(AllAccountsRentExempt)
    }
  }

  predicate NoAssertions(ac: AccountCheck) {
    && ac.checkData.None? && ac.checkExecutable.None? && ac.checkLamports.None?
    && ac.checkOwner.None? && ac.checkSpace.None? && ac.checkState.None? && ac.checkDataSlice.None?
  }

  /** The fluent builder; every setter fills one slot and leaves the rest. */
  datatype AccountCheckBuilder = AccountCheckBuilder(check: AccountCheck)
  {
    function Closed(): (b: AccountCheckBuilder)
      ensures b.check.checkState == Some(AccountStateCheck.Closed)
      ensures b.check == check.(checkState := b.check.checkState)
    {
      AccountCheckBuilder(check.(checkState := Some(AccountStateCheck.Closed)))
    }

    function Data(data: seq<Byte>): (b: AccountCheckBuilder)
      ensures b.check.checkData == Some(data)
      ensures b.check == check.(checkData := b.check.checkData)
    {
      AccountCheckBuilder(check.(checkData := Some(data)))
    }

    function Executable(executable: bool): (b: AccountCheckBuilder)
      ensures b.check.checkExecutable == Some(executable)
      ensures b.check == check.(checkExecutable := b.check.checkExecutable)
    {
      AccountCheckBuilder(check.(checkExecutable := Some(executable)))
    }

    function Lamports(lamports: U64): (b: AccountCheckBuilder)
      ensures b.check.checkLamports == Some(lamports)
      ensures b.check == check.(checkLamports := b.check.checkLamports)
    {
      AccountCheckBuilder(check.(checkLamports := Some(lamports)))
    }

    function Owner(owner: Pubkey): (b: AccountCheckBuilder)
      ensures b.check.checkOwner == Some(owner)
      ensures b.check == check.(checkOwner := b.check.checkOwner)
    {
      AccountCheckBuilder(check.(checkOwner := Some(owner)))
    }

    function RentExempt(): (b: AccountCheckBuilder)
      ensures b.check.checkState == Some(AccountStateCheck.RentExempt)
      ensures b.check == check.(checkState := b.check.checkState)
    {
      AccountCheckBuilder(check.(checkState := Some(AccountStateCheck.RentExempt)))
    }

    function Space(space: nat): (b: AccountCheckBuilder)
      ensures b.check.checkSpace == Some(space)
      ensures b.check == check.(checkSpace := b.check.checkSpace)
    {
      AccountCheckBuilder(check.(checkSpace := Some(space)))
    }

    function DataSlice(offset: nat, data: seq<Byte>): (b: AccountCheckBuilder)
      ensures b.check.checkDataSlice == Some((offset, data))
      ensures b.check == check.(checkDataSlice := b.check.checkDataSlice)
    {
      AccountCheckBuilder(check.(checkDataSlice := Some((offset, data))))
    }

    function Build(): (c: Check)
      ensures c.check.ResultingAccount? && c.check.account == check
    {
      Check(ResultingAccount(check))
    }
  }

  /** `closed()` and `rent_exempt()` share one slot: the later call wins. */
  lemma LaterStateCallWins(b: AccountCheckBuilder)
    ensures b.Closed().RentExempt() == b.RentExempt()
    ensures b.RentExempt().Closed() == b.Closed()
  {
  }

  // ---------------------------------------------------------------------
  // What one check reports. A failure is one `compare!` mismatch (named by
  // the label the source passes to the macro) or one `throw!`.

  datatype CheckFailure =
    | Mismatch(field: string)
    | AccountNotFound(pubkey: Pubkey)
    | DataSliceOutOfBounds(offset: nat, length: nat, dataLength: nat)
    | NotRentExempt(pubkey: Pubkey, lamports: U64, dataLength: nat)

  function Expect(ok: bool, f: CheckFailure): seq<CheckFailure> {
    if ok then [] else [f]
  }

  predicate IsExempt(rent: RentExemptPredicate, a: Account) {
    rent(a.lamports, |a.data|)
  }

  function DataFailures(ac: AccountCheck, a: Account): seq<CheckFailure> {
    if ac.checkData.Some? then Expect(ac.checkData.value == a.data, Mismatch("account_data")) else []
  }

  function ExecutableFailures(ac: AccountCheck, a: Account): seq<CheckFailure> {
    if ac.checkExecutable.Some? then Expect(ac.checkExecutable.value == a.executable, Mismatch("account_executable")) else []
  }

  function LamportsFailures(ac: AccountCheck, a: Account): seq<CheckFailure> {
    if ac.checkLamports.Some? then Expect(ac.checkLamports.value == a.lamports, Mismatch("account_lamports")) else []
  }

  function OwnerFailures(ac: AccountCheck, a: Account): seq<CheckFailure> {
    if ac.checkOwner.Some? then Expect(ac.checkOwner.value == a.owner, Mismatch("account_owner")) else []
  }

  function SpaceFailures(ac: AccountCheck, a: Account): seq<CheckFailure> {
    if ac.checkSpace.Some? then Expect(ac.checkSpace.value == |a.data|, Mismatch("account_space")) else []
  }

  function StateFailures(ac: AccountCheck, a: Account, rent: RentExemptPredicate): seq<CheckFailure> {
    match ac.checkState
    case None => []
    case Some(Closed) => Expect(a == DEFAULT_ACCOUNT, Mismatch("account_closed"))
    case Some(RentExempt) => Expect(IsExempt(rent, a), Mismatch("account_rent_exempt"))
  }

  /** The slice assertion never indexes past the data: an out-of-range
      window is its own failure. */
  function SliceFailures(ac: AccountCheck, a: Account): (r: seq<CheckFailure>)
    ensures ac.checkDataSlice.Some? && ac.checkDataSlice.value.0 + |ac.checkDataSlice.value.1| > |a.data|
            ==> r == [DataSliceOutOfBounds(ac.checkDataSlice.value.0, |ac.checkDataSlice.value.1|, |a.data|)]
  {
    match ac.checkDataSlice
    case None => []
    case Some((offset, expected)) =>
      if offset + |expected| > |a.data| then [DataSliceOutOfBounds(offset, |expected|, |a.data|)]
      else Expect(a.data[offset..offset + |expected|] == expected, Mismatch("account_data_slice"))
  }

  /** Every assertion of an account check, in the order the source evaluates them. */
  function AccountFailures(ac: AccountCheck, a: Account, rent: RentExemptPredicate): seq<CheckFailure>
  {
    DataFailures(ac, a) + ExecutableFailures(ac, a) + LamportsFailures(ac, a) + OwnerFailures(ac, a)
    + SpaceFailures(ac, a) + StateFailures(ac, a, rent) + SliceFailures(ac, a)
  }

  /** What the rent assertion reports about one resulting account. */
  function RentFailure(ka: KeyedAccount, rent: RentExemptPredicate): seq<CheckFailure> {
    Expect(IsExempt(rent, ka.1), NotRentExempt(ka.0, ka.1.lamports, |ka.1.data|))
  }

  function RentParts(accounts: seq<KeyedAccount>, rent: RentExemptPredicate): (r: seq<seq<CheckFailure>>)
    ensures |r| == |accounts| && forall i :: 0 <= i < |accounts| ==> r[i] == RentFailure(accounts[i], rent)
  {
    seq(|accounts|, i requires 0 <= i < |accounts| => RentFailure(accounts[i], rent))
  }

  /** One `NotRentExempt` per account that is not rent exempt, in order. */
  function RentFailures(accounts: seq<KeyedAccount>, rent: RentExemptPredicate): seq<CheckFailure> {
    Flatten(RentParts(accounts, rent))
  }

  /** `AllRentExempt` reports nothing exactly when every account is exempt;
      each account that is not exempt is reported, and nothing else is. */
  lemma RentFailuresExact(accounts: seq<KeyedAccount>, rent: RentExemptPredicate)
    ensures RentFailures(accounts, rent) == [] <==> forall i :: 0 <= i < |accounts| ==> IsExempt(rent, accounts[i].1)
    ensures forall i :: 0 <= i < |accounts| && !IsExempt(rent, accounts[i].1) ==>
      NotRentExempt(accounts[i].0, accounts[i].1.lamports, |accounts[i].1.data|) in RentFailures(accounts, rent)
    ensures forall f :: f in RentFailures(accounts, rent) ==>
      exists i :: (0 <= i < |accounts| && !IsExempt(rent, accounts[i].1)
                   && f == NotRentExempt(accounts[i].0, accounts[i].1.lamports, |accounts[i].1.data|))
  {
    var parts := RentParts(accounts, rent);
    FlattenEmptyIff(parts);
    FlattenKeepsParts(parts);
    FlattenFromParts(parts);
    forall f | f in RentFailures(accounts, rent)
      ensures exists i :: (0 <= i < |accounts| && !IsExempt(rent, accounts[i].1)
                           && f == NotRentExempt(accounts[i].0, accounts[i].1.lamports, |accounts[i].1.data|))
    {
      var i :| 0 <= i < |parts| && f in parts[i];
      assert !IsExempt(rent, accounts[i].1);
    }
  }

  /** The failures one check reports against a result. */
  function CheckFailures(res: InstructionResult, c: Check, rent: RentExemptPredicate): seq<CheckFailure>
  {
    match c.check
    case ComputeUnitsConsumed(units) => Expect(units == res.computeUnitsConsumed, Mismatch("compute_units"))
    case ExecutionTime(time) => Expect(time == res.executionTime, Mismatch("execution_time"))
    case ProgramResultEquals(result) => Expect(result == res.programResult, Mismatch("program_result"))
    case ReturnDataEquals(data) => Expect(data == res.returnData, Mismatch("return_data"))
    case ResultingAccount(ac) =>
      (match res.GetAccount(ac.pubkey)
       case None => [AccountNotFound(ac.pubkey)]
       case Some(a) => AccountFailures(ac, a, rent))
    case AllAccountsRentExempt => RentFailures(res.resultingAccounts, rent)
  }

  predicate Passes(res: InstructionResult, c: Check, rent: RentExemptPredicate) {
    CheckFailures(res, c, rent) == []
  }

  /** What each check of the list reports, check by check. */
  function CheckParts(res: InstructionResult, checks: seq<Check>, rent: RentExemptPredicate): (r: seq<seq<CheckFailure>>)
    ensures |r| == |checks| && forall i :: 0 <= i < |checks| ==> r[i] == CheckFailures(res, checks[i], rent)
  {
    seq(|checks|, i requires 0 <= i < |checks| => CheckFailures(res, checks[i], rent))
  }

  /** Everything a list of checks reports, check after check. */
  function Failures(res: InstructionResult, checks: seq<Check>, rent: RentExemptPredicate): seq<CheckFailure> {
    Flatten(CheckParts(res, checks, rent))
  }

  /** What `run_checks` does with the failures: nothing to report passes;
      under `panic` the first failure aborts; otherwise all are reported
      and the result is `false`. */
  datatype Verdict = Completed(pass: bool, reported: seq<CheckFailure>) | Panicked(failure: CheckFailure)

  function VerdictOf(config: Config, failures: seq<CheckFailure>): (v: Verdict)
    ensures v.Completed? && v.pass <==> failures == []
    ensures !config.panic ==> v.Completed? && v.reported == failures
    ensures config.panic && failures != [] ==> v == Panicked(failures[0])
  {
    if failures == [] then Completed(true, [])
    else if config.panic then Panicked(failures[0])
    else Completed(false, failures)
  }

  // ---------------------------------------------------------------------
  // The evaluator.

  /** `compare!` / `throw!`: `ok` is the comparison; a mismatch is reported,
      and aborts when the configuration says to panic. */
  method Compare(config: Config, ok: bool, f: CheckFailure) returns (stop: bool, fs: seq<CheckFailure>)
    ensures fs == Expect(ok, f)
    ensures stop <==> config.panic && !ok
  {
    if ok {
      stop, fs := false, [];
    } else {
      stop, fs := config.panic, [f];
    }
  }

  /** The shape every evaluator step promises about the failures `spec` it
      should report: all of them, or under `panic` only the first, then stop. */
  predicate Reported(config: Config, spec: seq<CheckFailure>, stop: bool, fs: seq<CheckFailure>) {
    && (stop <==> config.panic && spec != [])
    && (stop ==> fs == [spec[0]])
    && (!stop ==> fs == spec)
  }

  lemma ReportedConcat(config: Config, a: seq<CheckFailure>, fa: seq<CheckFailure>,
                        b: seq<CheckFailure>, stop: bool, fb: seq<CheckFailure>)
    requires Reported(config, a, false, fa) && Reported(config, b, stop, fb)
    ensures Reported(config, a + b, stop, fa + fb)
  {
  }

  lemma ReportedPrefix(config: Config, a: seq<CheckFailure>, spec: seq<CheckFailure>, fs: seq<CheckFailure>)
    requires Reported(config, a, true, fs) && a <= spec
    ensures Reported(config, spec, true, fs)
  {
  }

  // One method per optional assertion of an account check: absent, it
  // reports nothing; present, it is one `compare!` (or `throw!`).

  method RunDataAssertion(config: Config, ac: AccountCheck, a: Account) returns (s: bool, f: seq<CheckFailure>)
    ensures Reported(config, DataFailures(ac, a), s, f)
  {
    s, f := false, [];
    if ac.checkData.Some? {
      s, f := Compare(config, ac.checkData.value == a.data, Mismatch("account_data"));
    }
  }

  method RunExecutableAssertion(config: Config, ac: AccountCheck, a: Account) returns (s: bool, f: seq<CheckFailure>)
    ensures Reported(config, ExecutableFailures(ac, a), s, f)
  {
    s, f := false, [];
    if ac.checkExecutable.Some? {
      s, f := Compare(config, ac.checkExecutable.value == a.executable, Mismatch("account_executable"));
    }
  }

  method RunLamportsAssertion(config: Config, ac: AccountCheck, a: Account) returns (s: bool, f: seq<CheckFailure>)
    ensures Reported(config, LamportsFailures(ac, a), s, f)
  {
    s, f := false, [];
    if ac.checkLamports.Some? {
      s, f := Compare(config, ac.checkLamports.value == a.lamports, Mismatch("account_lamports"));
    }
  }

  method RunOwnerAssertion(config: Config, ac: AccountCheck, a: Account) returns (s: bool, f: seq<CheckFailure>)
    ensures Reported(config, OwnerFailures(ac, a), s, f)
  {
    s, f := false, [];
    if ac.checkOwner.Some? {
      s, f := Compare(config, ac.checkOwner.value == a.owner, Mismatch("account_owner"));
    }
  }

  method RunSpaceAssertion(config: Config, ac: AccountCheck, a: Account) returns (s: bool, f: seq<CheckFailure>)
    ensures Reported(config, SpaceFailures(ac, a), s, f)
  {
    s, f := false, [];
    if ac.checkSpace.Some? {
      s, f := Compare(config, ac.checkSpace.value == |a.data|, Mismatch("account_space"));
    }
  }

  method RunStateAssertion(config: Config, ac: AccountCheck, a: Account, rent: RentExemptPredicate)
    returns (s: bool, f: seq<CheckFailure>)
    ensures Reported(config, StateFailures(ac, a, rent), s, f)
  {
    s, f := false, [];
    if ac.checkState.Some? {
      match ac.checkState.value {
        case Closed =>
          s, f := Compare(config, a == DEFAULT_ACCOUNT, Mismatch("account_closed"));
        case RentExempt =>
          s, f := Compare(config, rent(a.lamports, |a.data|), Mismatch("account_rent_exempt"));
      }
    }
  }

  method RunDataSliceAssertion(config: Config, ac: AccountCheck, a: Account) returns (s: bool, f: seq<CheckFailure>)
    ensures Reported(config, SliceFailures(ac, a), s, f)
  {
    s, f := false, [];
    if ac.checkDataSlice.Some? {
      var (offset, expected) := ac.checkDataSlice.value;
      if offset + |expected| > |a.data| {
        s, f := Compare(config, false, DataSliceOutOfBounds(offset, |expected|, |a.data|));
        return;
      }
      s, f := Compare(config, a.data[offset..offset + |expected|] == expected, Mismatch("account_data_slice"));
    }
  }

  /** The assertions of one account check against the account found for it,
      in source order; under `panic` the first mismatch ends the check. */
  method RunAccountCheck(config: Config, ac: AccountCheck, a: Account, rent: RentExemptPredicate)
    returns (stop: bool, fs: seq<CheckFailure>)
    ensures Reported(config, AccountFailures(ac, a, rent), stop, fs)
  {
    ghost var spec := AccountFailures(ac, a, rent);
    var s: bool, f: seq<CheckFailure>;

    s, f := RunDataAssertion(config, ac, a);
    ghost var done := DataFailures(ac, a);
    fs := f;
    if s { ReportedPrefix(config, done, spec, fs); return true, fs; }

    s, f := RunExecutableAssertion(config, ac, a);
    ReportedConcat(config, done, fs, ExecutableFailures(ac, a), s, f);
    done, fs := done + ExecutableFailures(ac, a), fs + f;
    if s { ReportedPrefix(config, done, spec, fs); return true, fs; }

    s, f := RunLamportsAssertion(config, ac, a);
    ReportedConcat(config, done, fs, LamportsFailures(ac, a), s, f);
    done, fs := done + LamportsFailures(ac, a), fs + f;
    if s { ReportedPrefix(config, done, spec, fs); return true, fs; }

    s, f := RunOwnerAssertion(config, ac, a);
    ReportedConcat(config, done, fs, OwnerFailures(ac, a), s, f);
    done, fs := done + OwnerFailures(ac, a), fs + f;
    if s { ReportedPrefix(config, done, spec, fs); return true, fs; }

    s, f := RunSpaceAssertion(config, ac, a);
    ReportedConcat(config, done, fs, SpaceFailures(ac, a), s, f);
    done, fs := done + SpaceFailures(ac, a), fs + f;
    if s { ReportedPrefix(config, done, spec, fs); return true, fs; }

    s, f := RunStateAssertion(config, ac, a, rent);
    ReportedConcat(config, done, fs, StateFailures(ac, a, rent), s, f);
    done, fs := done + StateFailures(ac, a, rent), fs + f;
    if s { ReportedPrefix(config, done, spec, fs); return true, fs; }

    s, f := RunDataSliceAssertion(config, ac, a);
    ReportedConcat(config, done, fs, SliceFailures(ac, a), s, f);
    fs := fs + f;
    stop := s;
  }

  /** `AllRentExempt`: every resulting account is tested; each one that is
      not exempt is reported on its own. */
  method RunRentExemptCheck(config: Config, accounts: seq<KeyedAccount>, rent: RentExemptPredicate)
    returns (stop: bool, fs: seq<CheckFailure>)
    ensures Reported(config, RentFailures(accounts, rent), stop, fs)
  {
    ghost var parts := RentParts(accounts, rent);
    fs := [];
    var i := 0;
    while i < |accounts|
      invariant 0 <= i <= |accounts|
      invariant fs == Flatten(parts[..i])
      invariant config.panic ==> fs == []
    {
      FlattenPrefixStep(parts, i);
      var (pubkey, account) := accounts[i];
      var exempt := rent(account.lamports, |account.data|);
      if !exempt {
        var s, f := Compare(config, false, NotRentExempt(pubkey, account.lamports, |account.data|));
        fs := fs + f;
        if s {
          FlattenPrefix(parts, i + 1);
          return true, fs;
        }
      }
      i := i + 1;
    }
    assert parts[..i] == parts;
    stop := false;
  }

  /** One check of `run_checks`: its comparisons, in order. */
  method RunCheck(res: InstructionResult, c: Check, config: Config, rent: RentExemptPredicate)
    returns (stop: bool, fs: seq<CheckFailure>)
    ensures Reported(config, CheckFailures(res, c, rent), stop, fs)
  {
    match c.check {
      case ComputeUnitsConsumed(units) =>
        stop, fs := Compare(config, units == res.computeUnitsConsumed, Mismatch("compute_units"));
      case ExecutionTime(time) =>
        stop, fs := Compare(config, time == res.executionTime, Mismatch("execution_time"));
      case ProgramResultEquals(result) =>
        stop, fs := Compare(config, result == res.programResult, Mismatch("program_result"));
      case ReturnDataEquals(data) =>
        stop, fs := Compare(config, data == res.returnData, Mismatch("return_data"));
      case ResultingAccount(ac) =>
        var found := res.GetAccount(ac.pubkey);
        if found.None? {
          stop, fs := Compare(config, false, AccountNotFound(ac.pubkey));
        } else {
          stop, fs := RunAccountCheck(config, ac, found.value, rent);
        }
      case AllAccountsRentExempt =>
        stop, fs := RunRentExemptCheck(config, res.resultingAccounts, rent);
    }
  }

  /** `InstructionResult::run_checks`. */
  method RunChecks(res: InstructionResult, checks: seq<Check>, config: Config, rent: RentExemptPredicate)
    returns (v: Verdict)
    ensures v == VerdictOf(config, Failures(res, checks, rent))
  {
    ghost var parts := CheckParts(res, checks, rent);
    var pass := true;
    var log: seq<CheckFailure> := [];
    var i := 0;
    while i < |checks|
      invariant 0 <= i <= |checks|
      invariant log == Flatten(parts[..i])
      invariant config.panic ==> log == []
      invariant pass <==> log == []
    {
      var stop, fs := RunCheck(res, checks[i], config, rent);
      FlattenPrefixStep(parts, i);
      if stop {
        FlattenPrefix(parts, i + 1);
        return Panicked(fs[0]);
      }
      log := log + fs;
      pass := pass && fs == [];
      i := i + 1;
    }
    assert parts[..i] == parts;
    v := Completed(pass, log);
  }

  // ---------------------------------------------------------------------
  // Properties of the evaluation.

  /** An account check whose key is not among the resulting accounts
      reports that alone, and none of its assertions; otherwise its
      assertions run against the first entry with that key. */
  lemma AccountCheckLooksUpFirst(res: InstructionResult, ac: AccountCheck, rent: RentExemptPredicate)
    ensures (forall j :: 0 <= j < |res.resultingAccounts| ==> res.resultingAccounts[j].0 != ac.pubkey) ==>
      CheckFailures(res, Check(ResultingAccount(ac)), rent) == [AccountNotFound(ac.pubkey)]
    ensures forall j :: (0 <= j < |res.resultingAccounts| && res.resultingAccounts[j].0 == ac.pubkey
                         && forall k :: 0 <= k < j ==> res.resultingAccounts[k].0 != ac.pubkey) ==>
      CheckFailures(res, Check(ResultingAccount(ac)), rent) == AccountFailures(ac, res.resultingAccounts[j].1, rent)
  {
    var accounts := res.resultingAccounts;
    forall j | 0 <= j < |accounts| && accounts[j].0 == ac.pubkey && forall k :: 0 <= k < j ==> accounts[k].0 != ac.pubkey
      ensures CheckFailures(res, Check(ResultingAccount(ac)), rent) == AccountFailures(ac, accounts[j].1, rent)
    {
      var found := res.GetAccount(ac.pubkey);
      var i :| 0 <= i < |accounts| && accounts[i] == (ac.pubkey, found.value)
               && forall k :: 0 <= k < i ==> accounts[k].0 != ac.pubkey;
      assert !(i < j) && !(j < i);
    }
  }

  /** `run_checks` completes with `true` iff every check passes (an empty
      list passes); in either mode a failing check never yields `true`. */
  lemma RunChecksPassIff(res: InstructionResult, checks: seq<Check>, config: Config, rent: RentExemptPredicate)
    ensures VerdictOf(config, Failures(res, checks, rent)) == Completed(true, [])
      <==> forall i :: 0 <= i < |checks| ==> Passes(res, checks[i], rent)
    ensures checks == [] ==> VerdictOf(config, Failures(res, checks, rent)) == Completed(true, [])
  {
    FlattenEmptyIff(CheckParts(res, checks, rent));
  }

  /** The number of checks in the list that fail. */
  function CountFailing(res: InstructionResult, checks: seq<Check>, rent: RentExemptPredicate): nat
    decreases |checks|
  {
    if checks == [] then 0
    else CountFailing(res, checks[..|checks| - 1], rent) + (if Passes(res, checks[|checks| - 1], rent) then 0 else 1)
  }

  /** Soft-fail mode reports at least one failure per failing check, and
      each failing check's own failures appear in the report. */
  lemma {:induction false} SoftFailReportsEveryCheck(res: InstructionResult, checks: seq<Check>, rent: RentExemptPredicate)
    ensures |Failures(res, checks, rent)| >= CountFailing(res, checks, rent)
    ensures forall i :: 0 <= i < |checks| ==>
      forall f :: f in CheckFailures(res, checks[i], rent) ==> f in Failures(res, checks, rent)
  {
    var parts := CheckParts(res, checks, rent);
    FlattenKeepsParts(parts);
    CountFailingIsCountNonEmpty(res, checks, rent);
  }

  lemma {:induction false} CountFailingIsCountNonEmpty(res: InstructionResult, checks: seq<Check>, rent: RentExemptPredicate)
    ensures CountFailing(res, checks, rent) == CountNonEmpty(CheckParts(res, checks, rent))
    decreases |checks|
  {
    if checks != [] {
      var init := checks[..|checks| - 1];
      CountFailingIsCountNonEmpty(res, init, rent);
      assert CheckParts(res, checks, rent)[..|checks| - 1] == CheckParts(res, init, rent);
    }
  }

  /** The closed assertion accepts exactly the default account. */
  lemma ClosedMeansDefault(ac: AccountCheck, a: Account, rent: RentExemptPredicate)
    requires ac.checkState == Some(AccountStateCheck.Closed)
    requires AccountFailures(ac, a, rent) == []
    ensures a.lamports == 0 && a.data == [] && a.owner == DEFAULT_PUBKEY && !a.executable && a.rentEpoch == 0
  {
  }
}
