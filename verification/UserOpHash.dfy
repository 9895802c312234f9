/**
 The hash that an ERC-4337 wallet signs, and what it binds.
 */
module UserOpHash {
  import opened Common
  import opened Bytes
  import opened UserOp

  function HashInner(inner: Result<seq<byte>, Error>, entryPoint: Address, chainId: BigInt, keccak: Keccak)
    : Result<Word, Error> {
    match inner
    case Err(e) => Err(e)
    case Ok(bytes) =>
      match Outer(keccak(bytes), entryPoint, chainId)
      case Err(e) => Err(e)
      case Ok(outer) => Ok(keccak(outer))
  }

  function HashV06(op: UserOperation, entryPoint: Address, chainId: BigInt, keccak: Keccak): Result<Word, Error> {
    HashInner(InnerV06(op, keccak), entryPoint, chainId, keccak)
  }

  function HashV07(op: PackedUserOperation, entryPoint: Address, chainId: BigInt, keccak: Keccak): Result<Word, Error> {
    HashInner(InnerV07(op, keccak), entryPoint, chainId, keccak)
  }

  /** The entry point decides which form of the operation is hashed. */
  function GetUserOpHash(op: Option<UserOperation>, entryPoint: Address, chainId: BigInt, keccak: Keccak)
    : Result<Word, Error> {
    if op.None? then Err(NilUserOp)
    else if entryPoint == ZERO_ADDRESS then Err(InvalidEntryPoint)
    else if chainId.None? || chainId.value <= 0 then Err(InvalidChainId)
    else if entryPoint == ENTRY_POINT_V07 then
      match ToPacked(op.value)
      case Err(e) => Err(e)
      case Ok(packed) => HashV07(packed, entryPoint, chainId, keccak)
    else HashV06(op.value, entryPoint, chainId, keccak)
  }

  // ---- Version by version ------------------------------------------------------------------------------------

  /** Everything in an operation that is hashed as it is; the three byte strings are hashed on their own. */
  ghost predicate SameNumbers(a: UserOperation, b: UserOperation) {
    && a.sender == b.sender && a.nonce == b.nonce
    && a.callGasLimit == b.callGasLimit && a.verificationGasLimit == b.verificationGasLimit
    && a.preVerificationGas == b.preVerificationGas
    && a.maxFeePerGas == b.maxFeePerGas && a.maxPriorityFeePerGas == b.maxPriorityFeePerGas
  }

  ghost predicate SameHashes(keccak: Keccak, a: UserOperation, b: UserOperation) {
    && keccak(a.initCode) == keccak(b.initCode) && keccak(a.callData) == keccak(b.callData)
    && keccak(a.paymasterAndData) == keccak(b.paymasterAndData)
  }

  /** Version 0.6: equal bytes mean equal numbers and equal inner hashes, and conversely. */
  lemma InnerV06Determines(a: UserOperation, b: UserOperation, keccak: Keccak)
    requires Valid(a) && Valid(b)
    ensures InnerV06(a, keccak).Ok? && InnerV06(b, keccak).Ok?
    ensures InnerV06(a, keccak) == InnerV06(b, keccak) <==> SameNumbers(a, b) && SameHashes(keccak, a, b)
  {
    ValidateAccepts(a);
    ValidateAccepts(b);
    var all, all' := FieldsV06(a, keccak), FieldsV06(b, keccak);
    if Encode(all) == Encode(all') {
      EncodeInjective(all, all');
      SameFields06(a, b, keccak, all, all');
    }
  }

  lemma SameFields06(a: UserOperation, b: UserOperation, keccak: Keccak, all: seq<Abi>, all': seq<Abi>)
    requires Valid(a) && Valid(b) && all == FieldsV06(a, keccak) && all' == FieldsV06(b, keccak) && all == all'
    ensures SameNumbers(a, b) && SameHashes(keccak, a, b)
  {
    assert forall i :: 0 <= i < 10 ==> all[i] == all'[i];
    assert all[0] == AbiAddress(a.sender) && all'[0] == AbiAddress(b.sender);
    assert all[2] == AbiBytes32(keccak(a.initCode)) && all'[2] == AbiBytes32(keccak(b.initCode));
    assert all[3] == AbiBytes32(keccak(a.callData)) && all'[3] == AbiBytes32(keccak(b.callData));
    assert all[9] == AbiBytes32(keccak(a.paymasterAndData)) && all'[9] == AbiBytes32(keccak(b.paymasterAndData));
  }

  ghost predicate SamePacked(keccak: Keccak, a: PackedUserOperation, b: PackedUserOperation) {
    && a.sender == b.sender && a.nonce == b.nonce && a.preVerificationGas == b.preVerificationGas
    && a.accountGasLimits == b.accountGasLimits && a.gasFees == b.gasFees
    && keccak(a.initCode) == keccak(b.initCode) && keccak(a.callData) == keccak(b.callData)
    && keccak(a.paymasterAndData) == keccak(b.paymasterAndData)
  }

  ghost predicate ValidPacked(op: PackedUserOperation) {
    op.sender != ZERO_ADDRESS && Fits(op.nonce, 32) && Fits(op.preVerificationGas, 32)
  }

  /** Version 0.7 likewise. */
  lemma InnerV07Determines(a: PackedUserOperation, b: PackedUserOperation, keccak: Keccak)
    requires ValidPacked(a) && ValidPacked(b)
    ensures InnerV07(a, keccak).Ok? && InnerV07(b, keccak).Ok?
    ensures InnerV07(a, keccak) == InnerV07(b, keccak) <==> SamePacked(keccak, a, b)
  {
    ValidatePackedAccepts(a);
    ValidatePackedAccepts(b);
    var all, all' := FieldsV07(a, keccak), FieldsV07(b, keccak);
    if Encode(all) == Encode(all') {
      EncodeInjective(all, all');
      SameFields07(a, b, keccak, all, all');
    }
  }

  lemma SameFields07(a: PackedUserOperation, b: PackedUserOperation, keccak: Keccak, all: seq<Abi>, all': seq<Abi>)
    requires ValidPacked(a) && ValidPacked(b)
    requires all == FieldsV07(a, keccak) && all' == FieldsV07(b, keccak) && all == all'
    ensures SamePacked(keccak, a, b)
  {
    assert forall i :: 0 <= i < 8 ==> all[i] == all'[i];
    assert all[0] == AbiAddress(a.sender) && all'[0] == AbiAddress(b.sender);
    assert all[2] == AbiBytes32(keccak(a.initCode)) && all'[2] == AbiBytes32(keccak(b.initCode));
    assert all[3] == AbiBytes32(keccak(a.callData)) && all'[3] == AbiBytes32(keccak(b.callData));
    assert all[4] == AbiBytes32(a.accountGasLimits) && all'[4] == AbiBytes32(b.accountGasLimits);
    assert all[6] == AbiBytes32(a.gasFees) && all'[6] == AbiBytes32(b.gasFees);
    assert all[7] == AbiBytes32(keccak(a.paymasterAndData)) && all'[7] == AbiBytes32(keccak(b.paymasterAndData));
  }

  lemma OuterDetermines(inner: Word, entryPoint: Address, chainId: BigInt, inner': Word, entryPoint': Address,
                        chainId': BigInt)
    requires Outer(inner, entryPoint, chainId).Ok?
      && Outer(inner, entryPoint, chainId) == Outer(inner', entryPoint', chainId')
    ensures inner == inner' && entryPoint == entryPoint' && chainId == chainId'
  {
    var all, all' := FieldsOuter(inner, entryPoint, chainId.value), FieldsOuter(inner', entryPoint', chainId'.value);
    EncodeInjective(all, all');
    assert all[0] == all'[0] && all[1] == all'[1] && all[2] == all'[2];
  }

  /** Where a reader of the 320 bytes finds each field. */
  lemma InnerV06Reads(op: UserOperation, keccak: Keccak)
    requires Valid(op)
    ensures InnerV06(op, keccak).Ok?
    ensures var bytes := InnerV06(op, keccak).value;
      && |bytes| == 320 && bytes[12..32] == op.sender && ValueOf(bytes[32..64]) == op.nonce.value
      && bytes[64..96] == keccak(op.initCode) && bytes[96..128] == keccak(op.callData)
      && ValueOf(bytes[128..160]) == op.callGasLimit.value && ValueOf(bytes[160..192]) == op.verificationGasLimit.value
      && ValueOf(bytes[192..224]) == op.preVerificationGas.value && ValueOf(bytes[224..256]) == op.maxFeePerGas.value
      && ValueOf(bytes[256..288]) == op.maxPriorityFeePerGas.value && bytes[288..320] == keccak(op.paymasterAndData)
  {
    ValidateAccepts(op);
    var all := FieldsV06(op, keccak);
    WordAt(all, 0);
    AddressInWord(Encode(all), 0, op.sender);
    UintAt(all, 1);
    WordAt(all, 2);
    WordAt(all, 3);
    UintAt(all, 4);
    UintAt(all, 5);
    UintAt(all, 6);
    UintAt(all, 7);
    UintAt(all, 8);
    WordAt(all, 9);
  }

  /** And of the 256 bytes of version 0.7. */
  lemma InnerV07Reads(op: PackedUserOperation, keccak: Keccak)
    requires ValidPacked(op)
    ensures InnerV07(op, keccak).Ok?
    ensures var bytes := InnerV07(op, keccak).value;
      && |bytes| == 256 && bytes[12..32] == op.sender && ValueOf(bytes[32..64]) == op.nonce.value
      && bytes[64..96] == keccak(op.initCode) && bytes[96..128] == keccak(op.callData)
      && bytes[128..160] == op.accountGasLimits && ValueOf(bytes[160..192]) == op.preVerificationGas.value
      && bytes[192..224] == op.gasFees && bytes[224..256] == keccak(op.paymasterAndData)
  {
    ValidatePackedAccepts(op);
    var all := FieldsV07(op, keccak);
    WordAt(all, 0);
    AddressInWord(Encode(all), 0, op.sender);
    UintAt(all, 1);
    WordAt(all, 2);
    WordAt(all, 3);
    WordAt(all, 4);
    UintAt(all, 5);
    WordAt(all, 6);
    WordAt(all, 7);
  }

  /** And of the 96 bytes around it. */
  lemma OuterReads(inner: Word, entryPoint: Address, chainId: BigInt)
    requires Outer(inner, entryPoint, chainId).Ok?
    ensures var bytes := Outer(inner, entryPoint, chainId).value;
      && |bytes| == 96 && bytes[0..32] == inner && bytes[44..64] == entryPoint && bytes[32..44] == Zeros(12)
      && ValueOf(bytes[64..96]) == chainId.value
  {
    var all := FieldsOuter(inner, entryPoint, chainId.value);
    WordAt(all, 0);
    WordAt(all, 1);
    AddressInWord(Encode(all), 32, entryPoint);
    UintAt(all, 2);
  }

  // ---- What the hash binds ---------------------------------------------------------------------------------------

  function InnerBytes(op: UserOperation, entryPoint: Address, keccak: Keccak): Result<seq<byte>, Error> {
    if entryPoint == ENTRY_POINT_V07 then
      match ToPacked(op)
      case Err(e) => Err(e)
      case Ok(packed) => InnerV07(packed, keccak)
    else InnerV06(op, keccak)
  }

  /** The hash succeeds exactly for a real entry point, a chain ID of 1 to 256 bits, and an operation that is
      valid or, at the 0.7 entry point, packable. */
  lemma HashExists(op: UserOperation, entryPoint: Address, chainId: BigInt, keccak: Keccak)
    ensures GetUserOpHash(Some(op), entryPoint, chainId, keccak).Ok? <==>
      && entryPoint != ZERO_ADDRESS && Fits(chainId, 32) && chainId.value > 0
      && (if entryPoint == ENTRY_POINT_V07 then Packable(op) else Valid(op))
    ensures GetUserOpHash(Some(op), entryPoint, chainId, keccak).Ok? ==>
      var inner := InnerBytes(op, entryPoint, keccak);
      inner.Ok? && Outer(keccak(inner.value), entryPoint, chainId).Ok?
      && GetUserOpHash(Some(op), entryPoint, chainId, keccak).value
        == keccak(Outer(keccak(inner.value), entryPoint, chainId).value)
  {
    ValidateAccepts(op);
    ToPackedAccepts(op);
    if ToPacked(op).Ok? {
      ValidatePackedAccepts(ToPacked(op).value);
    }
  }

  /** Everything that is hashed on the way: three fields, the inner and the outer encoding. */
  function Preimages(op: UserOperation, entryPoint: Address, chainId: BigInt, keccak: Keccak): set<seq<byte>> {
    var inner := InnerBytes(op, entryPoint, keccak);
    {op.initCode, op.callData, op.paymasterAndData}
    + (if inner.Ok? then {inner.value} else {})
    + (if inner.Ok? && Outer(keccak(inner.value), entryPoint, chainId).Ok?
       then {Outer(keccak(inner.value), entryPoint, chainId).value} else {})
  }

  ghost predicate CollisionFree(keccak: Keccak, inputs: set<seq<byte>>) {
    forall x, y | x in inputs && y in inputs && keccak(x) == keccak(y) :: x == y
  }

  /** Unless two of the hashed strings collide, equal hashes mean the same entry point, the same chain and
      the same operation in every field but the signature. */
  lemma HashBinds(a: UserOperation, entryPoint: Address, chainId: BigInt, b: UserOperation, entryPoint': Address,
                  chainId': BigInt,
                  keccak: Keccak)
    requires GetUserOpHash(Some(a), entryPoint, chainId, keccak).Ok?
    requires GetUserOpHash(Some(a), entryPoint, chainId, keccak)
      == GetUserOpHash(Some(b), entryPoint', chainId', keccak)
    requires CollisionFree(keccak,
                           Preimages(a, entryPoint, chainId, keccak) + Preimages(b, entryPoint', chainId', keccak))
    ensures entryPoint == entryPoint' && chainId == chainId'
    ensures a == b.(signature := a.signature)
  {
    HashExists(a, entryPoint, chainId, keccak);
    HashExists(b, entryPoint', chainId', keccak);
    var inner, inner' := InnerBytes(a, entryPoint, keccak).value, InnerBytes(b, entryPoint', keccak).value;
    assert inner in Preimages(a, entryPoint, chainId, keccak) && inner' in Preimages(b, entryPoint', chainId', keccak);
    OuterDetermines(keccak(inner), entryPoint, chainId, keccak(inner'), entryPoint', chainId');
    assert inner == inner';
    SameInner(a, b, entryPoint, keccak);
  }

  lemma SameInner(a: UserOperation, b: UserOperation, entryPoint: Address, keccak: Keccak)
    requires InnerBytes(a, entryPoint, keccak).Ok?
      && InnerBytes(a, entryPoint, keccak) == InnerBytes(b, entryPoint, keccak)
    ensures SameNumbers(a, b) && SameHashes(keccak, a, b)
  {
    ValidateAccepts(a);
    ValidateAccepts(b);
    if entryPoint == ENTRY_POINT_V07 {
      ToPackedAccepts(a);
      ToPackedAccepts(b);
      var p, p' := ToPacked(a).value, ToPacked(b).value;
      InnerV07Determines(p, p', keccak);
      UnpackUndoesToPacked(a);
      UnpackUndoesToPacked(b);
    } else {
      InnerV06Determines(a, b, keccak);
    }
  }

  /** The signature itself is not hashed. */
  lemma SignatureIsFree(op: UserOperation, signature: seq<byte>, entryPoint: Address, chainId: BigInt, keccak: Keccak)
    ensures GetUserOpHash(Some(op.(signature := signature)), entryPoint, chainId, keccak)
      == GetUserOpHash(Some(op), entryPoint, chainId, keccak)
  {
    var other := op.(signature := signature);
    ValidateAccepts(op);
    ValidateAccepts(other);
    ToPackedAccepts(op);
    ToPackedAccepts(other);
    if Valid(op) {
      InnerV06Determines(op, other, keccak);
    }
    if Packable(op) {
      ValidatePackedAccepts(ToPacked(op).value);
      ValidatePackedAccepts(ToPacked(other).value);
      InnerV07Determines(ToPacked(op).value, ToPacked(other).value, keccak);
    }
  }

  /** The error of a hash that cannot be made is that of the first of these that applies. */
  lemma HashErrors(op: UserOperation, entryPoint: Address, chainId: BigInt, keccak: Keccak)
    ensures GetUserOpHash(Some(op), entryPoint, chainId, keccak).Err? ==>
      GetUserOpHash(Some(op), entryPoint, chainId, keccak).error ==
        if entryPoint == ZERO_ADDRESS then InvalidEntryPoint
        else if chainId.None? || chainId.value <= 0 then InvalidChainId
        else if entryPoint == ENTRY_POINT_V07 && ToPacked(op).Err? then ToPacked(op).error
        else if Validate(op).Some? then Validate(op).value
        else Uint256Overflow
    ensures GetUserOpHash(None, entryPoint, chainId, keccak) == Err(NilUserOp)
  {
    ValidateAccepts(op);
    ToPackedAccepts(op);
    if ToPacked(op).Ok? {
      ValidatePackedAccepts(ToPacked(op).value);
    }
  }
}
