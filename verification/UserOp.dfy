/**
 ERC-4337 operations: validation, the packed form, and the bytes that are hashed (ERC-4337, "EntryPoint
 definition"; Solidity ABI, "Formal Specification of the Encoding").
 */
module UserOp {
  import opened Common
  import opened Bytes

  type Address = a: seq<byte> | |a| == 20 witness Zeros(20)
  type Word = w: seq<byte> | |w| == 32 witness Zeros(32)
  type Keccak = seq<byte> -> Word

  const ZERO_ADDRESS: Address := Zeros(20)
  const ENTRY_POINT_V07: Address :=
    [0x00, 0x00, 0x00, 0x00, 0x71, 0x72, 0x7d, 0xe2, 0x2e, 0x5e, 0x9d, 0x8b, 0xaf, 0x0e, 0xda, 0xc6, 0xf3, 0x7d, 0xa0,
     0x32]
  const PAYMASTER_PREFIX: nat := 52

  /** A number may be missing, negative or too wide. */
  type BigInt = Option<int>

  datatype UserOperation = UserOperation(
    sender: Address, nonce: BigInt, initCode: seq<byte>, callData: seq<byte>,
    callGasLimit: BigInt, verificationGasLimit: BigInt, preVerificationGas: BigInt,
    maxFeePerGas: BigInt, maxPriorityFeePerGas: BigInt, paymasterAndData: seq<byte>, signature: seq<byte>)

  datatype PackedUserOperation = PackedUserOperation(
    sender: Address, nonce: BigInt, initCode: seq<byte>, callData: seq<byte>,
    accountGasLimits: Word, preVerificationGas: BigInt, gasFees: Word,
    paymasterAndData: seq<byte>, signature: seq<byte>)

  datatype Error =
    | NilUserOp | NilPackedUserOp | InvalidSender | NilField | NegativeValue | Uint256Overflow | GasFeeInconsistent
    | GasLimitOverflow | GasFeeOverflow | InvalidPaymasterLength | InvalidEntryPoint | InvalidChainId

  // ---- Validation ------------------------------------------------------------------------------------------

  predicate Fits(v: BigInt, width: nat) {
    v.Some? && 0 <= v.value < Pow256(width)
  }

  /** The checks on a list of numbers: all there, then none negative, then none over 256 bits. */
  function CheckNumbers(numbers: seq<BigInt>): (e: Option<Error>)
    ensures e.None? <==> forall n <- numbers :: Fits(n, 32)
  {
    if exists n <- numbers :: n.None? then Some(NilField)
    else if exists n <- numbers :: n.value < 0 then Some(NegativeValue)
    else if exists n <- numbers :: n.value >= Pow256(32) then Some(Uint256Overflow)
    else None
  }

  function Validate(op: UserOperation): Option<Error> {
    var numbers := [op.nonce, op.callGasLimit, op.verificationGasLimit, op.preVerificationGas, op.maxFeePerGas,
                    op.maxPriorityFeePerGas];
    if op.sender == ZERO_ADDRESS then Some(InvalidSender)
    else if CheckNumbers(numbers).Some? then CheckNumbers(numbers)
    else
      assert numbers[4] in numbers && numbers[5] in numbers;
      if op.maxPriorityFeePerGas.value > op.maxFeePerGas.value then Some(GasFeeInconsistent)
      else None
  }

  function ValidatePacked(op: PackedUserOperation): Option<Error> {
    if op.sender == ZERO_ADDRESS then Some(InvalidSender)
    else CheckNumbers([op.nonce, op.preVerificationGas])
  }

  ghost predicate Valid(op: UserOperation) {
    && op.sender != ZERO_ADDRESS
    && Fits(op.nonce, 32) && Fits(op.callGasLimit, 32) && Fits(op.verificationGasLimit, 32)
    && Fits(op.preVerificationGas, 32) && Fits(op.maxFeePerGas, 32) && Fits(op.maxPriorityFeePerGas, 32)
    && op.maxPriorityFeePerGas.value <= op.maxFeePerGas.value
  }

  lemma ValidateAccepts(op: UserOperation)
    ensures Validate(op).None? <==> Valid(op)
  {
    var numbers := [op.nonce, op.callGasLimit, op.verificationGasLimit, op.preVerificationGas, op.maxFeePerGas,
                    op.maxPriorityFeePerGas];
    assert (forall n <- numbers :: Fits(n, 32)) <==>
      && Fits(numbers[0], 32) && Fits(numbers[1], 32) && Fits(numbers[2], 32)
      && Fits(numbers[3], 32) && Fits(numbers[4], 32) && Fits(numbers[5], 32);
  }

  predicate Missing(op: UserOperation) {
    op.nonce.None? || op.callGasLimit.None? || op.verificationGasLimit.None?
    || op.preVerificationGas.None? || op.maxFeePerGas.None? || op.maxPriorityFeePerGas.None?
  }

  predicate Negative(op: UserOperation)
    requires !Missing(op)
  {
    op.nonce.value < 0 || op.callGasLimit.value < 0 || op.verificationGasLimit.value < 0
    || op.preVerificationGas.value < 0 || op.maxFeePerGas.value < 0 || op.maxPriorityFeePerGas.value < 0
  }

  predicate TooWide(op: UserOperation)
    requires !Missing(op)
  {
    var limit := Pow256(32);
    op.nonce.value >= limit || op.callGasLimit.value >= limit || op.verificationGasLimit.value >= limit
    || op.preVerificationGas.value >= limit || op.maxFeePerGas.value >= limit || op.maxPriorityFeePerGas.value >= limit
  }

  /** The list holds the six numbers of the operation and nothing else. */
  ghost predicate Six(op: UserOperation, numbers: seq<BigInt>) {
    && op.nonce in numbers && op.callGasLimit in numbers && op.verificationGasLimit in numbers
    && op.preVerificationGas in numbers && op.maxFeePerGas in numbers && op.maxPriorityFeePerGas in numbers
    && forall n <- numbers ::
         n == op.nonce || n == op.callGasLimit || n == op.verificationGasLimit
         || n == op.preVerificationGas || n == op.maxFeePerGas || n == op.maxPriorityFeePerGas
  }

  lemma NumberErrors(op: UserOperation, numbers: seq<BigInt>)
    requires Six(op, numbers)
    ensures CheckNumbers(numbers) ==
      if Missing(op) then Some(NilField)
      else if Negative(op) then Some(NegativeValue)
      else if TooWide(op) then Some(Uint256Overflow)
      else None
  {
    if !Missing(op) && !Negative(op) {
      WideNumbers(op, numbers, Pow256(32));
    }
  }

  lemma WideNumbers(op: UserOperation, numbers: seq<BigInt>, limit: nat)
    requires Six(op, numbers) && !Missing(op)
    ensures (exists n <- numbers :: n.Some? && n.value >= limit) <==>
      op.nonce.value >= limit || op.callGasLimit.value >= limit || op.verificationGasLimit.value >= limit
      || op.preVerificationGas.value >= limit || op.maxFeePerGas.value >= limit
        || op.maxPriorityFeePerGas.value >= limit
  {
  }

  /** The error of an invalid operation is that of the first of these that applies. */
  lemma ValidateErrors(op: UserOperation)
    ensures Validate(op) ==
      if op.sender == ZERO_ADDRESS then Some(InvalidSender)
      else if Missing(op) then Some(NilField)
      else if Negative(op) then Some(NegativeValue)
      else if TooWide(op) then Some(Uint256Overflow)
      else if op.maxFeePerGas.value < op.maxPriorityFeePerGas.value then Some(GasFeeInconsistent)
      else None
  {
    var numbers := [op.nonce, op.callGasLimit, op.verificationGasLimit, op.preVerificationGas, op.maxFeePerGas,
                    op.maxPriorityFeePerGas];
    assert numbers[0] in numbers && numbers[1] in numbers && numbers[2] in numbers;
    assert numbers[3] in numbers && numbers[4] in numbers && numbers[5] in numbers;
    assert Six(op, numbers);
    NumberErrors(op, numbers);
  }

  /** And what keeps a valid operation from being packed. */
  lemma ToPackedErrors(op: UserOperation)
    requires Valid(op)
    ensures ToPacked(op).Err? ==>
      ToPacked(op).error ==
        if !Fits(op.verificationGasLimit, 16) || !Fits(op.callGasLimit, 16) then GasLimitOverflow
        else if !Fits(op.maxPriorityFeePerGas, 16) || !Fits(op.maxFeePerGas, 16) then GasFeeOverflow
        else InvalidPaymasterLength
  {
    ValidateAccepts(op);
  }

  lemma ValidatePackedAccepts(op: PackedUserOperation)
    ensures ValidatePacked(op).None?
      <==> op.sender != ZERO_ADDRESS && Fits(op.nonce, 32) && Fits(op.preVerificationGas, 32)
  {
    var numbers := [op.nonce, op.preVerificationGas];
    assert (forall n <- numbers :: Fits(n, 32)) <==> Fits(numbers[0], 32) && Fits(numbers[1], 32);
  }

  lemma ValidatePackedErrors(op: PackedUserOperation)
    ensures ValidatePacked(op) ==
      if op.sender == ZERO_ADDRESS then Some(InvalidSender)
      else if op.nonce.None? || op.preVerificationGas.None? then Some(NilField)
      else if op.nonce.value < 0 || op.preVerificationGas.value < 0 then Some(NegativeValue)
      else if op.nonce.value >= Pow256(32) || op.preVerificationGas.value >= Pow256(32) then Some(Uint256Overflow)
      else None
  {
    var numbers := [op.nonce, op.preVerificationGas];
    assert numbers[0] in numbers && numbers[1] in numbers;
    assert forall n <- numbers :: n == op.nonce || n == op.preVerificationGas;
  }

  // ---- Pairs of 128-bit numbers ------------------------------------------------------------------------------

  /** Big-endian without leading zeros; empty for zero. */
  function MinimalBytes(n: nat): (bytes: seq<byte>) {
    if n == 0 then [] else MinimalBytes(n / 256) + [n % 256]
  }

  lemma {:induction false} MinimalBytesPadded(n: nat, width: nat)
    requires n < Pow256(width)
    ensures |MinimalBytes(n)| <= width
    ensures Zeros(width - |MinimalBytes(n)|) + MinimalBytes(n) == BigEndian(n, width)
    decreases width
  {
    if n == 0 {
      ZeroIsZeros(width);
    } else {
      MinimalBytesPadded(n / 256, width - 1);
    }
  }

  lemma {:induction false} ZeroIsZeros(width: nat)
    ensures BigEndian(0, width) == Zeros(width)
  {
    if width > 0 {
      ZeroIsZeros(width - 1);
    }
  }

  function PairError(high: BigInt, low: BigInt): (e: Option<Error>)
    ensures e.None? <==> Fits(high, 16) && Fits(low, 16)
  {
    if high.None? || low.None? then Some(NilField)
    else if high.value < 0 || low.value < 0 then Some(NegativeValue)
    else if high.value >= Pow256(16) || low.value >= Pow256(16) then Some(GasLimitOverflow)
    else None
  }

  /** The error of a pair that cannot be packed is that of the first of these that applies. */
  lemma PairErrors(high: BigInt, low: BigInt)
    ensures PairError(high, low) ==
      if high.None? || low.None? then Some(NilField)
      else if high.value < 0 || low.value < 0 then Some(NegativeValue)
      else if high.value < Pow256(16) && low.value < Pow256(16) then None
      else Some(GasLimitOverflow)
  {
  }

  function Pair(high: nat, low: nat): Word {
    BigEndian(high, 16) + BigEndian(low, 16)
  }

  /** Copies a byte string into an array, byte by byte. */
  method Copy(buf: array<byte>, start: nat, src: seq<byte>)
    requires start + |src| <= buf.Length
    modifies buf
    ensures buf[..] == Placed(old(buf[..]), start, src)
  {
    var i := 0;
    while i < |src|
      invariant 0 <= i <= |src|
      invariant buf[..] == Placed(old(buf[..]), start, src[..i])
    {
      buf[start + i] := src[i];
      i := i + 1;
    }
    assert src[..|src|] == src;
  }

  function Placed(old_: seq<byte>, start: nat, src: seq<byte>): (s: seq<byte>)
    requires start + |src| <= |old_|
    ensures |s| == |old_|
  {
    old_[..start] + src + old_[start + |src|..]
  }

  /** What is written, a blank, and what follows. */
  function Blank(done: seq<byte>, size: nat, rest: seq<byte>): seq<byte> {
    done + Zeros(size) + rest
  }

  /** Filling the right end of a blank. */
  lemma FillBlank(done: seq<byte>, pad: nat, src: seq<byte>, rest: seq<byte>)
    ensures Placed(Blank(done, pad + |src|, rest), |done| + pad, src) == done + (Zeros(pad) + src) + rest
  {
  }

  /** The pair in 32 bytes, each half right-aligned in its own 16. */
  method PackUint128Pair(high: BigInt, low: BigInt) returns (r: Result<Word, Error>)
    ensures r == if PairError(high, low).Some? then Err(PairError(high, low).value) else Ok(Pair(high.value, low.value))
  {
    var e := PairError(high, low);
    if e.Some? {
      return Err(e.value);
    }
    var out := new byte[32](_ => 0);
    MinimalBytesPadded(high.value, 16);
    MinimalBytesPadded(low.value, 16);
    var highBytes, lowBytes := MinimalBytes(high.value), MinimalBytes(low.value);
    assert out[..] == Blank([], 16, Zeros(16));
    FillBlank([], 16 - |highBytes|, highBytes, Zeros(16));
    Copy(out, 16 - |highBytes|, highBytes);
    assert out[..] == Blank(BigEndian(high.value, 16), 16, []);
    FillBlank(BigEndian(high.value, 16), 16 - |lowBytes|, lowBytes, []);
    Copy(out, 32 - |lowBytes|, lowBytes);
    assert out[..] == Pair(high.value, low.value);
    r := Ok(out[..]);
  }

  function UnpackPair(packed: Word): (nat, nat) {
    (ValueOf(packed[..16]), ValueOf(packed[16..]))
  }

  /** Unpacking undoes packing, on every pair. */
  lemma PairRoundTrip(high: nat, low: nat)
    requires high < Pow256(16) && low < Pow256(16)
    ensures UnpackPair(Pair(high, low)) == (high, low)
  {
    ValueOfBigEndian(high, 16);
    ValueOfBigEndian(low, 16);
    assert Pair(high, low)[..16] == BigEndian(high, 16) && Pair(high, low)[16..] == BigEndian(low, 16);
  }

  /** And packing undoes unpacking, on every word. */
  lemma WordRoundTrip(packed: Word)
    ensures var (h, l) := UnpackPair(packed); h < Pow256(16) && l < Pow256(16) && Pair(h, l) == packed
  {
    BigEndianOfValue(packed[..16]);
    BigEndianOfValue(packed[16..]);
    assert packed == packed[..16] + packed[16..];
  }

  // ---- The packed form -----------------------------------------------------------------------------------------

  function ToPacked(op: UserOperation): Result<PackedUserOperation, Error> {
    ValidateAccepts(op);
    if Validate(op).Some? then Err(Validate(op).value)
    else if op.verificationGasLimit.value >= Pow256(16) || op.callGasLimit.value >= Pow256(16)
      then Err(GasLimitOverflow)
    else if op.maxPriorityFeePerGas.value >= Pow256(16) || op.maxFeePerGas.value >= Pow256(16) then Err(GasFeeOverflow)
    else if 0 < |op.paymasterAndData| < PAYMASTER_PREFIX then Err(InvalidPaymasterLength)
    else
      Ok(PackedUserOperation(
           op.sender, op.nonce, op.initCode, op.callData,
           Pair(op.verificationGasLimit.value, op.callGasLimit.value), op.preVerificationGas,
           Pair(op.maxPriorityFeePerGas.value, op.maxFeePerGas.value), op.paymasterAndData, op.signature))
  }

  function Unpack(p: PackedUserOperation): Result<UserOperation, Error> {
    if ValidatePacked(p).Some? then Err(ValidatePacked(p).value)
    else
      var (verificationGasLimit, callGasLimit) := UnpackPair(p.accountGasLimits);
      var (maxPriorityFeePerGas, maxFeePerGas) := UnpackPair(p.gasFees);
      Ok(UserOperation(
           p.sender, p.nonce, p.initCode, p.callData, Some(callGasLimit), Some(verificationGasLimit),
           p.preVerificationGas, Some(maxFeePerGas), Some(maxPriorityFeePerGas), p.paymasterAndData, p.signature))
  }

  /** Unpack undoes ToPacked on every operation that ToPacked accepts. */
  lemma UnpackUndoesToPacked(op: UserOperation)
    requires ToPacked(op).Ok?
    ensures Unpack(ToPacked(op).value) == Ok(op)
  {
    ValidateAccepts(op);
    ValidatePackedAccepts(ToPacked(op).value);
    PairRoundTrip(op.verificationGasLimit.value, op.callGasLimit.value);
    PairRoundTrip(op.maxPriorityFeePerGas.value, op.maxFeePerGas.value);
  }

  /** The layout: verification gas above call gas, the tip above the fee cap; the rest as it was. */
  lemma PackedLayout(op: UserOperation)
    requires ToPacked(op).Ok?
    ensures var p := ToPacked(op).value;
      && ValueOf(p.accountGasLimits[..16]) == op.verificationGasLimit.value
      && ValueOf(p.accountGasLimits[16..]) == op.callGasLimit.value
      && ValueOf(p.gasFees[..16]) == op.maxPriorityFeePerGas.value
      && ValueOf(p.gasFees[16..]) == op.maxFeePerGas.value
      && p.sender == op.sender && p.nonce == op.nonce && p.preVerificationGas == op.preVerificationGas
      && p.initCode == op.initCode && p.callData == op.callData
      && p.paymasterAndData == op.paymasterAndData && p.signature == op.signature
  {
    ToPackedAccepts(op);
    PairRoundTrip(op.verificationGasLimit.value, op.callGasLimit.value);
    PairRoundTrip(op.maxPriorityFeePerGas.value, op.maxFeePerGas.value);
  }

  /** Unpack does not look at the fees or at the paymaster: ToPacked undoes it exactly when those are in order. */
  lemma ToPackedUndoesUnpack(p: PackedUserOperation)
    requires Unpack(p).Ok?
    ensures var back := ToPacked(Unpack(p).value);
      && (back.Ok? ==> back.value == p)
      && (back.Ok? <==>
            UnpackPair(p.gasFees).0 <= UnpackPair(p.gasFees).1 && !(0 < |p.paymasterAndData| < PAYMASTER_PREFIX))
  {
    ValidatePackedAccepts(p);
    WordRoundTrip(p.accountGasLimits);
    WordRoundTrip(p.gasFees);
    UnpackedIsNarrow(p);
    ToPackedAccepts(Unpack(p).value);
  }

  /** Such an operation, for every tip above every fee cap: Unpack accepts it and ToPacked does not. */
  lemma UnpackAcceptsMore(tip: nat, cap: nat) returns (p: PackedUserOperation)
    requires cap < tip < Pow256(16)
    ensures UnpackPair(p.gasFees) == (tip, cap)
    ensures Unpack(p).Ok? && ToPacked(Unpack(p).value).Err?
  {
    var sender: Address := ENTRY_POINT_V07;
    PairRoundTrip(tip, cap);
    assert sender[4] == 0x71 && ZERO_ADDRESS[4] == 0;
    p := OfFees(sender, Pair(tip, cap));
    ToPackedUndoesUnpack(p);
  }

  lemma OfFees(sender: Address, fees: Word) returns (p: PackedUserOperation)
    requires sender != ZERO_ADDRESS
    ensures p.gasFees == fees && Unpack(p).Ok?
  {
    p := PackedUserOperation(sender, Some(0), [], [], Zeros(32), Some(0), fees, [], []);
    ValidatePackedAccepts(p);
    Pow256Grows(0, 32);
    assert Pow256(0) == 1;
    assert Fits(Some(0), 32);
  }

  lemma UnpackedIsNarrow(p: PackedUserOperation)
    requires Unpack(p).Ok?
    ensures var op := Unpack(p).value;
      && Fits(op.callGasLimit, 16) && Fits(op.verificationGasLimit, 16)
      && Fits(op.maxFeePerGas, 16) && Fits(op.maxPriorityFeePerGas, 16)
  {
    WordRoundTrip(p.accountGasLimits);
    WordRoundTrip(p.gasFees);
  }

  ghost predicate Packable(op: UserOperation) {
    && op.sender != ZERO_ADDRESS && Fits(op.nonce, 32) && Fits(op.preVerificationGas, 32)
    && Fits(op.callGasLimit, 16) && Fits(op.verificationGasLimit, 16)
    && Fits(op.maxFeePerGas, 16) && Fits(op.maxPriorityFeePerGas, 16)
    && op.maxPriorityFeePerGas.value <= op.maxFeePerGas.value
    && !(0 < |op.paymasterAndData| < PAYMASTER_PREFIX)
  }

  /** The packed form exists for exactly these operations. */
  lemma ToPackedAccepts(op: UserOperation)
    ensures ToPacked(op).Ok? <==> Packable(op)
  {
    ValidateAccepts(op);
    if Packable(op) {
      Wider(op.callGasLimit.value);
      Wider(op.verificationGasLimit.value);
      Wider(op.maxFeePerGas.value);
      Wider(op.maxPriorityFeePerGas.value);
    }
  }

  lemma Wider(n: nat)
    requires n < Pow256(16)
    ensures n < Pow256(32)
  {
    Pow256Grows(16, 16);
  }

  lemma {:induction false} Pow256Grows(a: nat, b: nat)
    ensures Pow256(a) <= Pow256(a + b)
  {
    if b > 0 {
      Pow256Grows(a, b - 1);
    }
  }

  // ---- The bytes that are hashed -------------------------------------------------------------------------------

  /** A static value of the Solidity ABI, and its one word. */
  datatype Abi = AbiAddress(address: Address) | AbiUint(value: nat) | AbiBytes32(word: Word)

  predicate InRange(v: Abi) {
    v.AbiUint? ==> v.value < Pow256(32)
  }

  function EncodeWord(v: Abi): Word {
    match v
    case AbiAddress(address) => Zeros(12) + address
    case AbiUint(value) => BigEndian(value, 32)
    case AbiBytes32(word) => word
  }

  function Encode(values: seq<Abi>): (bytes: seq<byte>)
    ensures |bytes| == 32 * |values|
  {
    if values == [] then [] else Encode(values[..|values| - 1]) + EncodeWord(values[|values| - 1])
  }

  /** The k-th value fills the k-th word. */
  lemma {:induction false} WordAt(values: seq<Abi>, k: nat)
    requires k < |values|
    ensures Encode(values)[32 * k..32 * k + 32] == EncodeWord(values[k])
  {
    var n := |values| - 1;
    if k < n {
      WordAt(values[..n], k);
      assert Encode(values)[..32 * n] == Encode(values[..n]);
      assert Encode(values)[32 * k..32 * k + 32] == Encode(values[..n])[32 * k..32 * k + 32];
    }
  }

  /** What a word reads as. */
  lemma UintAt(values: seq<Abi>, k: nat)
    requires k < |values| && values[k].AbiUint? && InRange(values[k])
    ensures ValueOf(Encode(values)[32 * k..32 * k + 32]) == values[k].value
  {
    WordAt(values, k);
    ValueOfBigEndian(values[k].value, 32);
  }

  lemma AddressInWord(bytes: seq<byte>, i: nat, address: Address)
    requires i + 32 <= |bytes| && bytes[i..i + 32] == Zeros(12) + address
    ensures bytes[i + 12..i + 32] == address && bytes[i..i + 12] == Zeros(12)
  {
    var word := bytes[i..i + 32];
    assert word[12..] == bytes[i + 12..i + 32] && word[..12] == bytes[i..i + 12];
  }

  predicate SameKind(a: Abi, b: Abi) {
    a.AbiAddress? == b.AbiAddress? && a.AbiUint? == b.AbiUint?
  }

  lemma EncodeWordInjective(a: Abi, b: Abi)
    requires SameKind(a, b) && InRange(a) && InRange(b) && EncodeWord(a) == EncodeWord(b)
    ensures a == b
  {
    if a.AbiAddress? {
      assert EncodeWord(a)[12..] == a.address && EncodeWord(b)[12..] == b.address;
    } else if a.AbiUint? {
      BigEndianInjective(a.value, b.value, 32);
    }
  }

  /** Values of the same types are determined by their encoding. */
  lemma EncodeInjective(a: seq<Abi>, b: seq<Abi>)
    requires |a| == |b| && (forall i :: 0 <= i < |a| ==> SameKind(a[i], b[i]) && InRange(a[i]) && InRange(b[i]))
    requires Encode(a) == Encode(b)
    ensures a == b
  {
    forall k | 0 <= k < |a|
      ensures a[k] == b[k]
    {
      WordAt(a, k);
      WordAt(b, k);
      EncodeWordInjective(a[k], b[k]);
    }
  }

  function FieldsV06(op: UserOperation, keccak: Keccak): seq<Abi>
    requires Valid(op)
  {
    [AbiAddress(op.sender), AbiUint(op.nonce.value), AbiBytes32(keccak(op.initCode)), AbiBytes32(keccak(op.callData)),
     AbiUint(op.callGasLimit.value), AbiUint(op.verificationGasLimit.value), AbiUint(op.preVerificationGas.value),
     AbiUint(op.maxFeePerGas.value), AbiUint(op.maxPriorityFeePerGas.value), AbiBytes32(keccak(op.paymasterAndData))]
  }

  function FieldsV07(op: PackedUserOperation, keccak: Keccak): seq<Abi>
    requires Fits(op.nonce, 32) && Fits(op.preVerificationGas, 32)
  {
    [AbiAddress(op.sender), AbiUint(op.nonce.value), AbiBytes32(keccak(op.initCode)), AbiBytes32(keccak(op.callData)),
     AbiBytes32(op.accountGasLimits), AbiUint(op.preVerificationGas.value), AbiBytes32(op.gasFees),
     AbiBytes32(keccak(op.paymasterAndData))]
  }

  function FieldsOuter(inner: Word, entryPoint: Address, chainId: nat): seq<Abi> {
    [AbiBytes32(inner), AbiAddress(entryPoint), AbiUint(chainId)]
  }

  function InnerV06(op: UserOperation, keccak: Keccak): Result<seq<byte>, Error> {
    ValidateAccepts(op);
    if Validate(op).Some? then Err(Validate(op).value) else Ok(Encode(FieldsV06(op, keccak)))
  }

  function InnerV07(op: PackedUserOperation, keccak: Keccak): Result<seq<byte>, Error> {
    ValidatePackedAccepts(op);
    if ValidatePacked(op).Some? then Err(ValidatePacked(op).value) else Ok(Encode(FieldsV07(op, keccak)))
  }

  function Outer(inner: Word, entryPoint: Address, chainId: BigInt): Result<seq<byte>, Error> {
    if entryPoint == ZERO_ADDRESS then Err(InvalidEntryPoint)
    else if chainId.None? || chainId.value <= 0 then Err(InvalidChainId)
    else if chainId.value >= Pow256(32) then Err(Uint256Overflow)
    else Ok(Encode(FieldsOuter(inner, entryPoint, chainId.value)))
  }

  // ---- Filling the buffers by offset -----------------------------------------------------------------------------

  /** The first k words are filled and the rest is still zero. */
  ghost predicate Filled(bytes: seq<byte>, all: seq<Abi>, k: nat) {
    k <= |all| && bytes == Encode(all[..k]) + Zeros(32 * (|all| - k))
  }

  /** The offset at which a value's own bytes begin, after the zeros that its word starts with. */
  function Own(v: Abi): (bytes: seq<byte>)
    ensures |bytes| == if v.AbiAddress? then 20 else 32
    ensures Zeros(32 - |bytes|) + bytes == EncodeWord(v)
  {
    if v.AbiAddress? then v.address else EncodeWord(v)
  }

  lemma FillWord(bytes: seq<byte>, all: seq<Abi>, k: nat)
    requires k < |all| && Filled(bytes, all, k)
    ensures var own := Own(all[k]);
      |bytes| == 32 * |all| && Filled(Placed(bytes, 32 * k + 32 - |own|, own), all, k + 1)
  {
    var own, rest := Own(all[k]), Zeros(32 * (|all| - k - 1));
    assert Zeros(32 * (|all| - k)) == Zeros(32) + rest;
    assert bytes == Blank(Encode(all[..k]), 32, rest);
    FillBlank(Encode(all[..k]), 32 - |own|, own, rest);
    assert all[..k + 1][..k] == all[..k];
  }

  lemma FilledStart(all: seq<Abi>)
    ensures Filled(Zeros(32 * |all|), all, 0)
  {
    assert Encode(all[..0]) == [];
  }

  lemma FilledEnd(bytes: seq<byte>, all: seq<Abi>)
    requires Filled(bytes, all, |all|)
    ensures bytes == Encode(all)
  {
    assert all[..|all|] == all;
  }

  /** The k-th word of a buffer: an address goes to its last 20 bytes. */
  method Put(buf: array<byte>, start: nat, own: seq<byte>, ghost all: seq<Abi>, ghost k: nat)
    requires k < |all| && Filled(buf[..], all, k)
    requires own == Own(all[k]) && start == 32 * k + 32 - |own|
    modifies buf
    ensures Filled(buf[..], all, k + 1)
  {
    FillWord(buf[..], all, k);
    Copy(buf, start, own);
  }

  method PutAddress(buf: array<byte>, start: nat, address: Address, ghost all: seq<Abi>, ghost k: nat)
    requires k < |all| && Filled(buf[..], all, k) && all[k] == AbiAddress(address) && start == 32 * k + 12
    modifies buf
    ensures Filled(buf[..], all, k + 1)
  {
    Put(buf, start, address, all, k);
  }

  method PutUint(buf: array<byte>, start: nat, value: nat, ghost all: seq<Abi>, ghost k: nat)
    requires k < |all| && Filled(buf[..], all, k) && all[k] == AbiUint(value) && start == 32 * k
    modifies buf
    ensures Filled(buf[..], all, k + 1)
  {
    Put(buf, start, BigEndian(value, 32), all, k);
  }

  method PutWord(buf: array<byte>, start: nat, word: Word, ghost all: seq<Abi>, ghost k: nat)
    requires k < |all| && Filled(buf[..], all, k) && all[k] == AbiBytes32(word) && start == 32 * k
    modifies buf
    ensures Filled(buf[..], all, k + 1)
  {
    Put(buf, start, word, all, k);
  }

  /** Words 0 to 3, which both versions share. */
  method PutHead(buf: array<byte>, sender: Address, nonce: nat, initCode: Word, callData: Word, ghost all: seq<Abi>)
    requires 4 <= |all| && Filled(buf[..], all, 0)
    requires all[0] == AbiAddress(sender) && all[1] == AbiUint(nonce)
    requires all[2] == AbiBytes32(initCode) && all[3] == AbiBytes32(callData)
    modifies buf
    ensures Filled(buf[..], all, 4)
  {
    PutAddress(buf, 12, sender, all, 0);
    PutUint(buf, 32, nonce, all, 1);
    PutWord(buf, 64, initCode, all, 2);
    PutWord(buf, 96, callData, all, 3);
  }

  /** Words 4 to 9 of version 0.6. */
  method PutGasV06(buf: array<byte>, callGas: nat, verificationGas: nat, preGas: nat, fee: nat, tip: nat,
                   paymaster: Word,
                   ghost all: seq<Abi>)
    requires |all| == 10 && Filled(buf[..], all, 4)
    requires all[4] == AbiUint(callGas) && all[5] == AbiUint(verificationGas) && all[6] == AbiUint(preGas)
    requires all[7] == AbiUint(fee) && all[8] == AbiUint(tip) && all[9] == AbiBytes32(paymaster)
    modifies buf
    ensures Filled(buf[..], all, 10)
  {
    PutUint(buf, 128, callGas, all, 4);
    PutUint(buf, 160, verificationGas, all, 5);
    PutUint(buf, 192, preGas, all, 6);
    PutUint(buf, 224, fee, all, 7);
    PutUint(buf, 256, tip, all, 8);
    PutWord(buf, 288, paymaster, all, 9);
  }

  /** Words 4 to 7 of version 0.7. */
  method PutGasV07(buf: array<byte>, gasLimits: Word, preGas: nat, gasFees: Word, paymaster: Word, ghost all: seq<Abi>)
    requires |all| == 8 && Filled(buf[..], all, 4)
    requires all[4] == AbiBytes32(gasLimits) && all[5] == AbiUint(preGas)
    requires all[6] == AbiBytes32(gasFees) && all[7] == AbiBytes32(paymaster)
    modifies buf
    ensures Filled(buf[..], all, 8)
  {
    PutWord(buf, 128, gasLimits, all, 4);
    PutUint(buf, 160, preGas, all, 5);
    PutWord(buf, 192, gasFees, all, 6);
    PutWord(buf, 224, paymaster, all, 7);
  }

  /** A buffer of zeros, one word for each value. */
  method NewBuffer(size: nat, ghost all: seq<Abi>) returns (buf: array<byte>)
    requires size == 32 * |all|
    ensures fresh(buf) && Filled(buf[..], all, 0)
  {
    buf := new byte[size](_ => 0);
    FilledStart(all);
    assert buf[..] == Zeros(32 * |all|);
  }

  method PackUserOp(op: Option<UserOperation>, keccak: Keccak) returns (r: Result<seq<byte>, Error>)
    ensures r == if op.None? then Err(NilUserOp) else InnerV06(op.value, keccak)
  {
    if op.None? {
      return Err(NilUserOp);
    }
    var o := op.value;
    ValidateAccepts(o);
    var e := Validate(o);
    if e.Some? {
      return Err(e.value);
    }
    var bytes := FillV06(o, keccak);
    r := Ok(bytes);
  }

  method FillV06(o: UserOperation, keccak: Keccak) returns (bytes: seq<byte>)
    requires Valid(o)
    ensures bytes == Encode(FieldsV06(o, keccak))
  {
    ghost var all := FieldsV06(o, keccak);
    var buf := NewBuffer(320, all);
    PutHead(buf, o.sender, o.nonce.value, keccak(o.initCode), keccak(o.callData), all);
    PutGasV06(buf, o.callGasLimit.value, o.verificationGasLimit.value, o.preVerificationGas.value,
              o.maxFeePerGas.value, o.maxPriorityFeePerGas.value, keccak(o.paymasterAndData), all);
    FilledEnd(buf[..], all);
    bytes := buf[..];
  }

  method PackPackedUserOp(p: Option<PackedUserOperation>, keccak: Keccak) returns (r: Result<seq<byte>, Error>)
    ensures r == if p.None? then Err(NilPackedUserOp) else InnerV07(p.value, keccak)
  {
    if p.None? {
      return Err(NilPackedUserOp);
    }
    var op := p.value;
    ValidatePackedAccepts(op);
    var e := ValidatePacked(op);
    if e.Some? {
      return Err(e.value);
    }
    ghost var all := FieldsV07(op, keccak);
    var buf := NewBuffer(256, all);
    PutHead(buf, op.sender, op.nonce.value, keccak(op.initCode), keccak(op.callData), all);
    PutGasV07(buf, op.accountGasLimits, op.preVerificationGas.value, op.gasFees, keccak(op.paymasterAndData), all);
    FilledEnd(buf[..], all);
    r := Ok(buf[..]);
  }

  method PackUserOpHashData(inner: Word, entryPoint: Address, chainId: BigInt) returns (r: Result<seq<byte>, Error>)
    ensures r == Outer(inner, entryPoint, chainId)
  {
    if entryPoint == ZERO_ADDRESS {
      return Err(InvalidEntryPoint);
    }
    if chainId.None? || chainId.value <= 0 {
      return Err(InvalidChainId);
    }
    if chainId.value >= Pow256(32) {
      return Err(Uint256Overflow);
    }
    ghost var all := FieldsOuter(inner, entryPoint, chainId.value);
    var buf := NewBuffer(96, all);
    PutWord(buf, 0, inner, all, 0);
    PutAddress(buf, 44, entryPoint, all, 1);
    PutUint(buf, 64, chainId.value, all, 2);
    FilledEnd(buf[..], all);
    r := Ok(buf[..]);
  }
}
