/**
 * Program accounts: the precompile test, the builtin program accounts and
 * the account constructors for programs owned by each BPF loader.
 *
 * Rent is the SDK's default `Rent`; its `minimum_balance` is the parameter
 * `minimumBalance`. Byte layouts the SDK serializes (bincode, the v4 state
 * struct) are parameters too.
 */
module Programs {
  import opened Solana

  /** `Rent::default().minimum_balance(data_len)`. */
  type MinimumBalance = nat -> U64

  /** `UpgradeableLoaderState::size_of_programdata_metadata()`. */
  const PROGRAMDATA_METADATA_SIZE: nat := 45

  /** `LoaderV4State::program_data_offset()`. */
  const LOADER_V4_PROGRAM_DATA_OFFSET: nat := 48

  // ---------------------------------------------------------------------
  // Precompiles.

  /** `precompile_keys::is_precompile`; `precompilesEnabled` is the crate's
      `precompiles` feature. */
  predicate IsPrecompile(precompilesEnabled: bool, programId: Pubkey) {
    precompilesEnabled && (programId == ED25519_PROGRAM || programId == SECP256K1_PROGRAM || programId == SECP256R1_PROGRAM)
  }

  lemma IsPrecompileExactly(precompilesEnabled: bool, programId: Pubkey)
    ensures !precompilesEnabled ==> !IsPrecompile(precompilesEnabled, programId)
    ensures precompilesEnabled ==>
      (IsPrecompile(precompilesEnabled, programId) <==> programId in {ED25519_PROGRAM, SECP256K1_PROGRAM, SECP256R1_PROGRAM})
  {
  }

  // ---------------------------------------------------------------------
  // UTF-8, for `str::as_bytes`.

  /** A continuation byte `10xxxxxx` carrying the low six bits of `x`. */
  function Continuation(x: nat): (b: Byte)
    ensures 0x80 <= b as int < 0xC0
  {
    (0x80 + x % 0x40) as Byte
  }

  /** A leading byte: `marker` plus the high bits `q`, which fit under it. */
  function Lead(marker: nat, q: nat): Byte
    requires marker + q < 0x100
  {
    (marker + q) as Byte
  }

  /** The UTF-8 encoding of one Unicode scalar value: one byte below
      U+0080, then two, three or four bytes. */
  function Utf8Char(c: char): (r: seq<Byte>)
    ensures 1 <= |r| <= 4
    ensures (c as int < 0x80) <==> |r| == 1
    ensures c as int < 0x80 ==> r == [c as int as Byte]
    ensures forall i :: 1 <= i < |r| ==> 0x80 <= r[i] as int < 0xC0
  {
    var v := c as int;
    if v < 0x80 then [v as Byte]
    else if v < 0x800 then [Lead(0xC0, v / 0x40), Continuation(v)]
    else if v < 0x1_0000 then [Lead(0xE0, v / 0x1000), Continuation(v / 0x40), Continuation(v)]
    else [Lead(0xF0, v / 0x4_0000), Continuation(v / 0x1000), Continuation(v / 0x40), Continuation(v)]
  }

  /** `str::as_bytes`: the UTF-8 encoding of a string. */
  function Utf8(s: string): (r: seq<Byte>)
    ensures |r| >= |s|
    decreases |s|
  {
    if s == [] then [] else Utf8(s[..|s| - 1]) + Utf8Char(s[|s| - 1])
  }

  predicate IsAscii(s: string) {
    forall i :: 0 <= i < |s| ==> s[i] as int < 0x80
  }

  /** An ASCII string is encoded one byte per character. */
  lemma {:induction false} Utf8OfAscii(s: string)
    requires IsAscii(s)
    ensures |Utf8(s)| == |s|
    ensures forall i :: 0 <= i < |s| ==> Utf8(s)[i] == s[i] as int as Byte
    decreases |s|
  {
    if s != [] {
      var init := s[..|s| - 1];
      assert IsAscii(init) by {
        forall i | 0 <= i < |init| ensures init[i] as int < 0x80 {
          assert init[i] == s[i];
        }
      }
      Utf8OfAscii(init);
    }
  }

  // ---------------------------------------------------------------------
  // Builtin programs.

  datatype Builtin = Builtin(programId: Pubkey, name: string)

  /** `BUILTINS` without the `all-builtins` feature. */
  const BUILTINS: seq<Builtin> := [
    Builtin(SYSTEM_PROGRAM_ID, "system_program"),
    Builtin(LOADER_V2, "solana_bpf_loader_program"),
    Builtin(LOADER_V3, "solana_bpf_loader_upgradeable_program")
  ]

  /** `create_keyed_account_for_builtin_program`: the name's bytes, owned
      by the native loader, executable, rent exempt for its length. */
  function CreateKeyedAccountForBuiltinProgram(programId: Pubkey, name: string, minimumBalance: MinimumBalance)
    : (r: KeyedAccount)
    ensures r.0 == programId
    ensures r.1.data == Utf8(name) && r.1.owner == NATIVE_LOADER && r.1.executable
    ensures r.1.lamports == minimumBalance(|r.1.data|) && r.1.rentEpoch == 0
  {
    var data := Utf8(name);
    (programId, Account(minimumBalance(|data|), data, NATIVE_LOADER, true, 0))
  }

  /** `keyed_account_for_system_program`: `BUILTINS[0]`. */
  function KeyedAccountForSystemProgram(minimumBalance: MinimumBalance): (r: KeyedAccount)
    ensures r.0 == SYSTEM_PROGRAM_ID && r.1.owner == NATIVE_LOADER && r.1.executable
    ensures r.1.data == Utf8("system_program") && |r.1.data| == |"system_program"|
    ensures r.1.lamports == minimumBalance(|"system_program"|) && r.1.rentEpoch == 0
  {
    Utf8OfAscii("system_program");
    CreateKeyedAccountForBuiltinProgram(BUILTINS[0].programId, BUILTINS[0].name, minimumBalance)
  }

  /** `keyed_account_for_bpf_loader_v2_program`: `BUILTINS[1]`. */
  function KeyedAccountForBpfLoaderV2Program(minimumBalance: MinimumBalance): (r: KeyedAccount)
    ensures r.0 == LOADER_V2 && r.1.owner == NATIVE_LOADER && r.1.executable
    ensures r.1.data == Utf8("solana_bpf_loader_program") && |r.1.data| == |"solana_bpf_loader_program"|
    ensures r.1.lamports == minimumBalance(|"solana_bpf_loader_program"|) && r.1.rentEpoch == 0
  {
    Utf8OfAscii("solana_bpf_loader_program");
    CreateKeyedAccountForBuiltinProgram(BUILTINS[1].programId, BUILTINS[1].name, minimumBalance)
  }

  /** `keyed_account_for_bpf_loader_v3_program`: `BUILTINS[2]`. */
  function KeyedAccountForBpfLoaderV3Program(minimumBalance: MinimumBalance): (r: KeyedAccount)
    ensures r.0 == LOADER_V3 && r.1.owner == NATIVE_LOADER && r.1.executable
    ensures r.1.data == Utf8("solana_bpf_loader_upgradeable_program")
    ensures |r.1.data| == |"solana_bpf_loader_upgradeable_program"|
    ensures r.1.lamports == minimumBalance(|"solana_bpf_loader_upgradeable_program"|) && r.1.rentEpoch == 0
  {
    Utf8OfAscii("solana_bpf_loader_upgradeable_program");
    CreateKeyedAccountForBuiltinProgram(BUILTINS[2].programId, BUILTINS[2].name, minimumBalance)
  }

  // ---------------------------------------------------------------------
  // Loader-owned program accounts.

  /** `create_program_account_loader_v1`. */
  function CreateProgramAccountLoaderV1(elf: seq<Byte>, minimumBalance: MinimumBalance): (a: Account)
    ensures a.data == elf && a.owner == LOADER_V1 && a.executable
    ensures a.lamports == minimumBalance(|elf|) && a.rentEpoch == 0
  {
    Account(minimumBalance(|elf|), elf, LOADER_V1, true, 0)
  }

  /** `create_program_account_loader_v2`. */
  function CreateProgramAccountLoaderV2(elf: seq<Byte>, minimumBalance: MinimumBalance): (a: Account)
    ensures a.data == elf && a.owner == LOADER_V2 && a.executable
    ensures a.lamports == minimumBalance(|elf|) && a.rentEpoch == 0
  {
    Account(minimumBalance(|elf|), elf, LOADER_V2, true, 0)
  }

  /** `create_program_account_loader_v3`. The program-data address is the
      SDK's `find_program_address(&[program_id], &LOADER_V3)` and the data
      is bincode's serialization of `UpgradeableLoaderState::Program`; both
      are parameters. */
  function CreateProgramAccountLoaderV3(
    programId: Pubkey,
    findProgramDataAddress: Pubkey -> Pubkey,
    serializeProgramState: Pubkey -> seq<Byte>,
    minimumBalance: MinimumBalance): (a: Account)
    ensures a.data == serializeProgramState(findProgramDataAddress(programId))
    ensures a.owner == LOADER_V3 && a.executable
    ensures a.lamports == minimumBalance(|a.data|) && a.rentEpoch == 0
  {
    var data := serializeProgramState(findProgramDataAddress(programId));
    Account(minimumBalance(|data|), data, LOADER_V3, true, 0)
  }

  /** `vec![0; offset + elf.len()]`, the header written over its start,
      and `data[offset..].copy_from_slice(elf)`. */
  method LayOut(offset: nat, header: seq<Byte>, elf: seq<Byte>) returns (data: seq<Byte>)
    requires |header| <= offset
    ensures |data| == offset + |elf|
    ensures data[..|header|] == header
    ensures forall i :: |header| <= i < offset ==> data[i] == 0
    ensures data[offset..] == elf
  {
    var buffer := new Byte[offset + |elf|](_ => 0);
    var i := 0;
    while i < |header|
      invariant 0 <= i <= |header|
      invariant forall j :: 0 <= j < i ==> buffer[j] == header[j]
      invariant forall j :: i <= j < buffer.Length ==> buffer[j] == 0
    {
      buffer[i] := header[i];
      i := i + 1;
    }
    var k := 0;
    while k < |elf|
      invariant 0 <= k <= |elf|
      invariant forall j :: 0 <= j < |header| ==> buffer[j] == header[j]
      invariant forall j :: |header| <= j < offset ==> buffer[j] == 0
      invariant forall j :: 0 <= j < k ==> buffer[offset + j] == elf[j]
    {
      buffer[offset + k] := elf[k];
      k := k + 1;
    }
    data := buffer[..];
    assert data[offset..] == elf by {
      forall j | 0 <= j < |elf| ensures data[offset..][j] == elf[j] {
        assert data[offset + j] == buffer[offset + j];
      }
    }
  }

  /** `create_program_data_account_loader_v3`: the serialized
      `ProgramData { slot: 0, upgrade_authority_address: None }` header
      (`header`) in the zeroed metadata area, then the ELF. */
  method CreateProgramDataAccountLoaderV3(elf: seq<Byte>, header: seq<Byte>, minimumBalance: MinimumBalance)
    returns (a: Account)
    requires |header| <= PROGRAMDATA_METADATA_SIZE
    ensures |a.data| == PROGRAMDATA_METADATA_SIZE + |elf|
    ensures a.data[..|header|] == header
    ensures forall i :: |header| <= i < PROGRAMDATA_METADATA_SIZE ==> a.data[i] == 0
    ensures a.data[PROGRAMDATA_METADATA_SIZE..] == elf
    ensures a.owner == LOADER_V3 && !a.executable
    ensures a.lamports == minimumBalance(|a.data|) && a.rentEpoch == 0
  {
    var data := LayOut(PROGRAMDATA_METADATA_SIZE, header, elf);
    a := Account(minimumBalance(|data|), data, LOADER_V3, false, 0);
  }

  /** `create_program_account_pair_loader_v3`: (program, program data). */
  method CreateProgramAccountPairLoaderV3(
    programId: Pubkey,
    elf: seq<Byte>,
    findProgramDataAddress: Pubkey -> Pubkey,
    serializeProgramState: Pubkey -> seq<Byte>,
    header: seq<Byte>,
    minimumBalance: MinimumBalance) returns (program: Account, programData: Account)
    requires |header| <= PROGRAMDATA_METADATA_SIZE
    ensures program == CreateProgramAccountLoaderV3(programId, findProgramDataAddress, serializeProgramState, minimumBalance)
    ensures program.executable && !programData.executable
    ensures |programData.data| == PROGRAMDATA_METADATA_SIZE + |elf|
    ensures programData.data[..|header|] == header
    ensures forall i :: |header| <= i < PROGRAMDATA_METADATA_SIZE ==> programData.data[i] == 0
    ensures programData.data[PROGRAMDATA_METADATA_SIZE..] == elf && programData.owner == LOADER_V3
    ensures programData.lamports == minimumBalance(|programData.data|) && programData.rentEpoch == 0
  {
    program := CreateProgramAccountLoaderV3(programId, findProgramDataAddress, serializeProgramState, minimumBalance);
    programData := CreateProgramDataAccountLoaderV3(elf, header, minimumBalance);
  }

  /** `create_program_account_loader_v4`: the `LoaderV4State` bytes
      (`state`, exactly the program-data offset long) then the ELF. The
      owner is `LOADER_V3`, as the source writes it. */
  method CreateProgramAccountLoaderV4(elf: seq<Byte>, state: seq<Byte>, minimumBalance: MinimumBalance)
    returns (a: Account)
    requires |state| == LOADER_V4_PROGRAM_DATA_OFFSET
    ensures |a.data| == LOADER_V4_PROGRAM_DATA_OFFSET + |elf|
    ensures a.data[..LOADER_V4_PROGRAM_DATA_OFFSET] == state
    ensures a.data[LOADER_V4_PROGRAM_DATA_OFFSET..] == elf
    ensures a.owner == LOADER_V3 && !a.executable
    ensures a.lamports == minimumBalance(|a.data|) && a.rentEpoch == 0
  {
    var data := LayOut(LOADER_V4_PROGRAM_DATA_OFFSET, state, elf);
    a := Account(minimumBalance(|data|), data, LOADER_V3, false, 0);
  }
}
