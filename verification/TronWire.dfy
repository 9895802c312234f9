/**
 The hand-written Protocol Buffers encoder whose output is signed, against a standard decoder
 (Protocol Buffers, "Encoding": "Base 128 Varints", "Length-Delimited Records").
 */
module TronWire {
  import opened Common
  import opened Bytes

  // ---- The wire format -------------------------------------------------------------------------------

  const TWO64: nat := 0x1_0000_0000_0000_0000
  const TWO63: nat := 0x8000_0000_0000_0000

  predicate Int64(v: int) {
    0 - TWO63 <= v < TWO63
  }

  /** The conversion from int64 to uint64, and back. */
  function ToUint64(v: int): (u: nat)
    requires Int64(v)
    ensures u < TWO64
  {
    if v < 0 then v + TWO64 else v
  }

  function FromUint64(u: nat): int {
    if u < TWO63 then u else u - TWO64
  }

  function Uvarint(n: nat): (bytes: seq<byte>)
    ensures bytes != []
  {
    if n < 128 then [n] else [n % 128 + 128] + Uvarint(n / 128)
  }

  /** The decoder's varint: the value and the bytes after it. */
  function ReadUvarint(bytes: seq<byte>): (r: Option<(nat, seq<byte>)>)
    ensures r.Some? ==> |r.value.1| < |bytes|
  {
    if bytes == [] then None
    else if bytes[0] < 128 then Some((bytes[0], bytes[1..]))
    else
      match ReadUvarint(bytes[1..])
      case None => None
      case Some((high, rest)) => Some((bytes[0] - 128 + 128 * high, rest))
  }

  lemma {:induction false} UvarintRoundTrip(n: nat, rest: seq<byte>)
    ensures ReadUvarint(Uvarint(n) + rest) == Some((n, rest))
    decreases n
  {
    var bytes := Uvarint(n) + rest;
    if n < 128 {
      assert bytes[1..] == rest;
    } else {
      UvarintRoundTrip(n / 128, rest);
      assert bytes[1..] == Uvarint(n / 128) + rest;
    }
  }

  function Pow128(k: nat): nat {
    if k == 0 then 1 else 128 * Pow128(k - 1)
  }

  lemma {:induction false} UvarintLength(n: nat, k: nat)
    requires 0 < k && n < Pow128(k)
    ensures |Uvarint(n)| <= k
    decreases k
  {
    if n >= 128 {
      assert k > 1;
      UvarintLength(n / 128, k - 1);
    }
  }

  datatype Field = IntField(number: nat, value: nat) | BytesField(number: nat, bytes: seq<byte>)

  /** The standard decoder, for all four wire types; a fixed-width field counts as its bytes. */
  function Parse(bytes: seq<byte>): Option<seq<Field>>
    decreases |bytes|, 0
  {
    if bytes == [] then Some([])
    else
      match ReadUvarint(bytes)
      case None => None
      case Some((tag, rest)) =>
        var number := tag / 8;
        match tag % 8
        case 0 =>
          (match ReadUvarint(rest)
           case None => None
           case Some((value, rest)) => ParseMore(IntField(number, value), rest))
        case 1 => if |rest| < 8 then None else ParseMore(BytesField(number, rest[..8]), rest[8..])
        case 2 =>
          (match ReadUvarint(rest)
           case None => None
           case Some((size, rest)) =>
             if |rest| < size then None else ParseMore(BytesField(number, rest[..size]), rest[size..]))
        case 5 => if |rest| < 4 then None else ParseMore(BytesField(number, rest[..4]), rest[4..])
        case _ => None
  }

  function ParseMore(field: Field, rest: seq<byte>): Option<seq<Field>>
    decreases |rest|, 1
  {
    match Parse(rest)
    case None => None
    case Some(fields) => Some([field] + fields)
  }

  // ---- The encoder -------------------------------------------------------------------------------------

  function TronBytes(dst: seq<byte>, field: nat, value: seq<byte>): seq<byte> {
    dst + Uvarint(field * 8 + 2) + Uvarint(|value|) + value
  }

  /** A zero is not written at all. */
  function TronInt(dst: seq<byte>, field: nat, value: int): seq<byte>
    requires Int64(value)
  {
    if value == 0 then dst else dst + Uvarint(field * 8) + Uvarint(ToUint64(value))
  }

  function Emit(field: Field): seq<byte> {
    match field
    case IntField(number, value) => Uvarint(number * 8) + Uvarint(value)
    case BytesField(number, bytes) => Uvarint(number * 8 + 2) + Uvarint(|bytes|) + bytes
  }

  function Flat(f: Field -> seq<byte>, fields: seq<Field>): seq<byte> {
    if fields == [] then [] else f(fields[0]) + Flat(f, fields[1..])
  }

  function EmitAll(fields: seq<Field>): seq<byte> {
    Flat(Emit, fields)
  }

  lemma Associative(a: seq<byte>, b: seq<byte>, c: seq<byte>)
    ensures (a + b) + c == a + (b + c)
  {
  }

  lemma ParseEmitInt(number: nat, value: nat, rest: seq<byte>)
    ensures Parse(Emit(IntField(number, value)) + rest) == ParseMore(IntField(number, value), rest)
  {
    var tail := Uvarint(value) + rest;
    Associative(Uvarint(number * 8), Uvarint(value), rest);
    UvarintRoundTrip(number * 8, tail);
    UvarintRoundTrip(value, rest);
    assert number * 8 % 8 == 0 && number * 8 / 8 == number;
    assert Uvarint(number * 8) + tail != [];
  }

  lemma ParseBytesAt(number: nat, size: nat, tail: seq<byte>)
    requires size <= |tail|
    ensures Parse(Uvarint(number * 8 + 2) + (Uvarint(size) + tail))
      == ParseMore(BytesField(number, tail[..size]), tail[size..])
  {
    var more := Uvarint(size) + tail;
    UvarintRoundTrip(number * 8 + 2, more);
    UvarintRoundTrip(size, tail);
    assert (number * 8 + 2) % 8 == 2 && (number * 8 + 2) / 8 == number;
    assert Uvarint(number * 8 + 2) + more != [];
  }

  lemma ParseEmitBytes(number: nat, bytes: seq<byte>, rest: seq<byte>)
    ensures Parse(Emit(BytesField(number, bytes)) + rest) == ParseMore(BytesField(number, bytes), rest)
  {
    var tag, size, tail := Uvarint(number * 8 + 2), Uvarint(|bytes|), bytes + rest;
    assert (tag + size + bytes) + rest == tag + (size + tail);
    assert tail[..|bytes|] == bytes && tail[|bytes|..] == rest;
    ParseBytesAt(number, |bytes|, tail);
  }

  lemma ParseEmit(field: Field, rest: seq<byte>)
    ensures Parse(Emit(field) + rest) == ParseMore(field, rest)
  {
    match field
    case IntField(number, value) => ParseEmitInt(number, value, rest);
    case BytesField(number, bytes) => ParseEmitBytes(number, bytes, rest);
  }

  /** The decoder gives back exactly the fields that were written, in order. */
  lemma {:induction false} ParseEmitAll(fields: seq<Field>)
    ensures Parse(EmitAll(fields)) == Some(fields)
  {
    if fields != [] {
      ParseEmit(fields[0], EmitAll(fields[1..]));
      ParseEmitAll(fields[1..]);
      assert [fields[0]] + fields[1..] == fields;
    }
  }

  lemma {:induction false} FlatConcat(f: Field -> seq<byte>, a: seq<Field>, b: seq<Field>)
    ensures Flat(f, a + b) == Flat(f, a) + Flat(f, b)
  {
    if a == [] {
      assert a + b == b;
    } else {
      FlatConcat(f, a[1..], b);
      assert (a + b)[1..] == a[1..] + b;
    }
  }

  lemma EmitAllConcat(a: seq<Field>, b: seq<Field>)
    ensures EmitAll(a + b) == EmitAll(a) + EmitAll(b)
  {
    FlatConcat(Emit, a, b);
  }

  function IntFields(field: nat, value: int): seq<Field>
    requires Int64(value)
  {
    if value == 0 then [] else [IntField(field, ToUint64(value))]
  }

  lemma EmitOne(field: Field)
    ensures EmitAll([field]) == Emit(field)
  {
    assert [field][1..] == [];
    assert EmitAll([field]) == Emit(field) + Flat(Emit, []);
  }

  /** Both writers append one field to what is already there. */
  lemma AppendBytes(fields: seq<Field>, field: nat, value: seq<byte>)
    ensures TronBytes(EmitAll(fields), field, value) == EmitAll(fields + [BytesField(field, value)])
  {
    EmitAllConcat(fields, [BytesField(field, value)]);
    EmitOne(BytesField(field, value));
    Associative(EmitAll(fields), Uvarint(field * 8 + 2), Uvarint(|value|));
    Associative(EmitAll(fields), Uvarint(field * 8 + 2) + Uvarint(|value|), value);
  }

  lemma AppendInt(fields: seq<Field>, field: nat, value: int)
    requires Int64(value)
    ensures TronInt(EmitAll(fields), field, value) == EmitAll(fields + IntFields(field, value))
  {
    EmitAllConcat(fields, IntFields(field, value));
    if value == 0 {
      assert EmitAll(fields) + [] == EmitAll(fields);
    } else {
      EmitOne(IntField(field, ToUint64(value)));
      Associative(EmitAll(fields), Uvarint(field * 8), Uvarint(ToUint64(value)));
    }
  }

  // ---- Reading a message --------------------------------------------------------------------------------

  /** The last field with this number counts; an absent one is zero, or empty. */
  function IntOf(fields: seq<Field>, number: nat): int {
    if fields == [] then 0
    else
      var last := fields[|fields| - 1];
      if last.IntField? && last.number == number then FromUint64(last.value)
      else IntOf(fields[..|fields| - 1], number)
  }

  function BytesOf(fields: seq<Field>, number: nat): seq<byte> {
    if fields == [] then []
    else
      var last := fields[|fields| - 1];
      if last.BytesField? && last.number == number then last.bytes
      else BytesOf(fields[..|fields| - 1], number)
  }

  lemma IntOfSnoc(fields: seq<Field>, field: nat, value: int, number: nat)
    requires Int64(value)
    ensures field != number ==> IntOf(fields + IntFields(field, value), number) == IntOf(fields, number)
    ensures IntOf(fields, number) == 0 && field == number ==> IntOf(fields + IntFields(field, value), number) == value
    ensures BytesOf(fields + IntFields(field, value), number) == BytesOf(fields, number)
  {
    if value == 0 {
      assert fields + IntFields(field, value) == fields;
    } else {
      var all := fields + IntFields(field, value);
      assert all[..|all| - 1] == fields;
    }
  }

  lemma BytesOfSnoc(fields: seq<Field>, field: nat, value: seq<byte>, number: nat)
    ensures var all := fields + [BytesField(field, value)];
      && IntOf(all, number) == IntOf(fields, number)
      && BytesOf(all, number) == if field == number then value else BytesOf(fields, number)
  {
    var all := fields + [BytesField(field, value)];
    assert all[..|all| - 1] == fields;
  }

  // ---- Transactions ------------------------------------------------------------------------------------

  function Ascii(c: char): byte {
    c as int % 256
  }

  function AsciiAll(s: string): (bytes: seq<byte>)
    ensures |bytes| == |s|
  {
    seq(|s|, i requires 0 <= i < |s| => Ascii(s[i]))
  }

  const TRANSFER_URL: seq<byte> := AsciiAll("type.googleapis.com/protocol.TransferContract")
  const TRIGGER_URL: seq<byte> := AsciiAll("type.googleapis.com/protocol.TriggerSmartContract")
  const TRANSFER_KIND: int := 1
  const TRIGGER_KIND: int := 31

  /** The call data of transfer(address,uint256): selector, padded address, amount. */
  function TransferCall(to: seq<byte>, amount: nat): (data: seq<byte>)
    requires |to| == 21
    ensures |data| == 68
  {
    [0xa9, 0x05, 0x9c, 0xbb] + Zeros(12) + to[1..] + BigEndian(amount, 32)
  }

  /** The low 64 bits of a big integer, as an int64. */
  function LowInt64(v: nat): (low: int)
    ensures Int64(low)
    ensures v < TWO63 ==> low == v
  {
    FromUint64(v % TWO64)
  }

  function Payload(owner: seq<byte>, to: seq<byte>, amount: nat, contract: seq<byte>): seq<byte>
    requires |to| == 21
  {
    var payload := TronBytes([], 1, owner);
    if contract == [] then TronInt(TronBytes(payload, 2, to), 3, LowInt64(amount))
    else TronBytes(TronBytes(payload, 2, contract), 4, TransferCall(to, amount))
  }

  /** The bytes that are signed, or none when the block ID is not 32 bytes of hex. */
  function TronRaw(owner: seq<byte>, to: seq<byte>, amount: nat, contract: seq<byte>, blockId: Option<seq<byte>>,
                   now: int, expires: int, feeLimit: int): Option<seq<byte>>
    requires |to| == 21 && Int64(now) && Int64(expires) && Int64(feeLimit)
  {
    if blockId.None? || |blockId.value| != 32 then None
    else
      var block := blockId.value;
      var operation := OperationBytes(KindOf(contract), UrlOf(contract), Payload(owner, to, amount, contract));
      Some(RawBytes(block[6..8], block[8..16], expires, operation, now, feeLimit))
  }

  function KindOf(contract: seq<byte>): (kind: int)
    ensures 0 < kind < 128
  {
    if contract == [] then TRANSFER_KIND else TRIGGER_KIND
  }

  function UrlOf(contract: seq<byte>): (url: seq<byte>)
    ensures |url| < 50
  {
    if contract == [] then TRANSFER_URL else TRIGGER_URL
  }

  function ParameterBytes(url: seq<byte>, payload: seq<byte>): seq<byte> {
    TronBytes(TronBytes([], 1, url), 2, payload)
  }

  function OperationBytes(kind: int, url: seq<byte>, payload: seq<byte>): seq<byte>
    requires Int64(kind)
  {
    TronBytes(TronInt([], 1, kind), 2, ParameterBytes(url, payload))
  }

  function RawBytes(blockBytes: seq<byte>, blockHash: seq<byte>, expires: int, operation: seq<byte>,
                    now: int, feeLimit: int): seq<byte>
    requires Int64(expires) && Int64(now) && Int64(feeLimit)
  {
    var raw := TronBytes([], 1, blockBytes);
    var raw := TronBytes(raw, 4, blockHash);
    var raw := TronInt(raw, 8, expires);
    var raw := TronBytes(raw, 11, operation);
    var raw := TronInt(raw, 14, now);
    TronInt(raw, 18, feeLimit)
  }

  datatype Contract =
    | Transfer(owner: seq<byte>, to: seq<byte>, amount: int)
    | Trigger(owner: seq<byte>, contract: seq<byte>, callData: seq<byte>)
    | Other

  datatype Message = Message(
    refBlockBytes: seq<byte>, refBlockHash: seq<byte>, expiration: int, timestamp: int, feeLimit: int,
    contract: Contract)

  function DecodeContract(operation: seq<byte>): Option<Contract> {
    match Parse(operation)
    case None => None
    case Some(fields) =>
      match Parse(BytesOf(fields, 2))
      case None => None
      case Some(parameter) =>
        match Parse(BytesOf(parameter, 2))
        case None => None
        case Some(payload) =>
          Some(ReadContract(IntOf(fields, 1), BytesOf(parameter, 1), payload))
  }

  /** Which kind of contract the payload is, by the operation's kind and the parameter's type URL. */
  function ReadContract(kind: int, url: seq<byte>, payload: seq<Field>): Contract {
    if kind == TRANSFER_KIND && url == TRANSFER_URL then
      Transfer(BytesOf(payload, 1), BytesOf(payload, 2), IntOf(payload, 3))
    else if kind == TRIGGER_KIND && url == TRIGGER_URL then
      Trigger(BytesOf(payload, 1), BytesOf(payload, 2), BytesOf(payload, 4))
    else Other
  }

  function Decode(raw: seq<byte>): Option<Message> {
    match Parse(raw)
    case None => None
    case Some(fields) =>
      match DecodeContract(BytesOf(fields, 11))
      case None => None
      case Some(contract) =>
        Some(Message(BytesOf(fields, 1), BytesOf(fields, 4), IntOf(fields, 8), IntOf(fields, 14), IntOf(fields, 18),
                     contract))
  }

  function PayloadFields(owner: seq<byte>, to: seq<byte>, amount: nat, contract: seq<byte>): seq<Field>
    requires |to| == 21
  {
    var fields := [BytesField(1, owner)];
    if contract == [] then fields + [BytesField(2, to)] + IntFields(3, LowInt64(amount))
    else fields + [BytesField(2, contract)] + [BytesField(4, TransferCall(to, amount))]
  }

  lemma PayloadIs(owner: seq<byte>, to: seq<byte>, amount: nat, contract: seq<byte>)
    requires |to| == 21
    ensures Payload(owner, to, amount, contract) == EmitAll(PayloadFields(owner, to, amount, contract))
    ensures var fields := PayloadFields(owner, to, amount, contract);
      && BytesOf(fields, 1) == owner
      && (if contract == [] then BytesOf(fields, 2) == to && IntOf(fields, 3) == LowInt64(amount)
          else BytesOf(fields, 2) == contract && BytesOf(fields, 4) == TransferCall(to, amount))
  {
    AppendBytes([], 1, owner);
    BytesOfSnoc([], 1, owner, 1);
    BytesOfSnoc([], 1, owner, 3);
    var first := [BytesField(1, owner)];
    assert [] + first == first;
    if contract == [] {
      AppendBytes(first, 2, to);
      var two := first + [BytesField(2, to)];
      AppendInt(two, 3, LowInt64(amount));
      BytesOfSnoc(first, 2, to, 1);
      BytesOfSnoc(first, 2, to, 2);
      BytesOfSnoc(first, 2, to, 3);
      IntOfSnoc(two, 3, LowInt64(amount), 1);
      IntOfSnoc(two, 3, LowInt64(amount), 2);
      IntOfSnoc(two, 3, LowInt64(amount), 3);
    } else {
      AppendBytes(first, 2, contract);
      var two := first + [BytesField(2, contract)];
      AppendBytes(two, 4, TransferCall(to, amount));
      BytesOfSnoc(first, 2, contract, 1);
      BytesOfSnoc(first, 2, contract, 2);
      BytesOfSnoc(two, 4, TransferCall(to, amount), 1);
      BytesOfSnoc(two, 4, TransferCall(to, amount), 2);
      BytesOfSnoc(two, 4, TransferCall(to, amount), 4);
    }
  }

  function ParameterFields(url: seq<byte>, payload: seq<byte>): seq<Field> {
    [BytesField(1, url)] + [BytesField(2, payload)]
  }

  lemma ParameterIs(url: seq<byte>, payload: seq<byte>)
    ensures ParameterBytes(url, payload) == EmitAll(ParameterFields(url, payload))
    ensures BytesOf(ParameterFields(url, payload), 1) == url && BytesOf(ParameterFields(url, payload), 2) == payload
  {
    AppendBytes([], 1, url);
    var first := [BytesField(1, url)];
    assert [] + first == first;
    AppendBytes(first, 2, payload);
    BytesOfSnoc([], 1, url, 1);
    BytesOfSnoc(first, 2, payload, 1);
    BytesOfSnoc(first, 2, payload, 2);
  }

  function OperationFields(kind: int, parameter: seq<byte>): seq<Field>
    requires Int64(kind)
  {
    IntFields(1, kind) + [BytesField(2, parameter)]
  }

  lemma OperationIs(kind: int, parameter: seq<byte>)
    requires Int64(kind)
    ensures TronBytes(TronInt([], 1, kind), 2, parameter) == EmitAll(OperationFields(kind, parameter))
    ensures IntOf(OperationFields(kind, parameter), 1) == kind
    ensures BytesOf(OperationFields(kind, parameter), 2) == parameter
  {
    AppendInt([], 1, kind);
    assert [] + IntFields(1, kind) == IntFields(1, kind);
    AppendBytes(IntFields(1, kind), 2, parameter);
    IntOfSnoc([], 1, kind, 1);
    BytesOfSnoc(IntFields(1, kind), 2, parameter, 1);
    BytesOfSnoc(IntFields(1, kind), 2, parameter, 2);
  }

  function RawFields(blockBytes: seq<byte>, blockHash: seq<byte>, expires: int, operation: seq<byte>,
                     now: int, feeLimit: int): seq<Field>
    requires Int64(expires) && Int64(now) && Int64(feeLimit)
  {
    [BytesField(1, blockBytes)] + [BytesField(4, blockHash)] + IntFields(8, expires)
    + [BytesField(11, operation)] + IntFields(14, now) + IntFields(18, feeLimit)
  }

  lemma RawEmits(blockBytes: seq<byte>, blockHash: seq<byte>, expires: int, operation: seq<byte>, now: int,
                 feeLimit: int)
    requires Int64(expires) && Int64(now) && Int64(feeLimit)
    ensures RawBytes(blockBytes, blockHash, expires, operation, now, feeLimit)
      == EmitAll(RawFields(blockBytes, blockHash, expires, operation, now, feeLimit))
  {
    AppendBytes([], 1, blockBytes);
    var f1 := [BytesField(1, blockBytes)];
    assert [] + f1 == f1;
    AppendBytes(f1, 4, blockHash);
    var f2 := f1 + [BytesField(4, blockHash)];
    AppendInt(f2, 8, expires);
    var f3 := f2 + IntFields(8, expires);
    AppendBytes(f3, 11, operation);
    var f4 := f3 + [BytesField(11, operation)];
    AppendInt(f4, 14, now);
    AppendInt(f4 + IntFields(14, now), 18, feeLimit);
  }

  /** What every field of the outer message reads as, number by number. */
  lemma RawReads(blockBytes: seq<byte>, blockHash: seq<byte>, expires: int, operation: seq<byte>, now: int,
                 feeLimit: int, k: nat)
    requires Int64(expires) && Int64(now) && Int64(feeLimit)
    ensures var fields := RawFields(blockBytes, blockHash, expires, operation, now, feeLimit);
      && (k == 1 ==> BytesOf(fields, k) == blockBytes)
      && (k == 4 ==> BytesOf(fields, k) == blockHash)
      && (k == 8 ==> IntOf(fields, k) == expires)
      && (k == 11 ==> BytesOf(fields, k) == operation)
      && (k == 14 ==> IntOf(fields, k) == now)
      && (k == 18 ==> IntOf(fields, k) == feeLimit)
  {
    var f1 := [BytesField(1, blockBytes)];
    BytesOfSnoc([], 1, blockBytes, k);
    assert [] + f1 == f1;
    BytesOfSnoc(f1, 4, blockHash, k);
    var f2 := f1 + [BytesField(4, blockHash)];
    IntOfSnoc(f2, 8, expires, k);
    var f3 := f2 + IntFields(8, expires);
    BytesOfSnoc(f3, 11, operation, k);
    var f4 := f3 + [BytesField(11, operation)];
    IntOfSnoc(f4, 14, now, k);
    IntOfSnoc(f4 + IntFields(14, now), 18, feeLimit, k);
  }

  function ContractOf(owner: seq<byte>, to: seq<byte>, amount: nat, contract: seq<byte>): Contract
    requires |to| == 21
  {
    if contract == [] then Transfer(owner, to, LowInt64(amount))
    else Trigger(owner, contract, TransferCall(to, amount))
  }

  lemma OperationReads(kind: int, url: seq<byte>, payload: seq<Field>)
    requires Int64(kind)
    ensures DecodeContract(OperationBytes(kind, url, EmitAll(payload))) == Some(ReadContract(kind, url, payload))
  {
    var body := EmitAll(payload);
    var parameter := ParameterBytes(url, body);
    OperationIs(kind, parameter);
    ParseEmitAll(OperationFields(kind, parameter));
    ParameterIs(url, body);
    ParseEmitAll(ParameterFields(url, body));
    ParseEmitAll(payload);
  }

  lemma ContractRoundTrip(owner: seq<byte>, to: seq<byte>, amount: nat, contract: seq<byte>)
    requires |to| == 21
    ensures DecodeContract(OperationBytes(KindOf(contract), UrlOf(contract), Payload(owner, to, amount, contract)))
      == Some(ContractOf(owner, to, amount, contract))
  {
    var fields := PayloadFields(owner, to, amount, contract);
    PayloadIs(owner, to, amount, contract);
    OperationReads(KindOf(contract), UrlOf(contract), fields);
    PayloadReads(owner, to, amount, contract);
  }

  lemma PayloadReads(owner: seq<byte>, to: seq<byte>, amount: nat, contract: seq<byte>)
    requires |to| == 21
    ensures ReadContract(KindOf(contract), UrlOf(contract), PayloadFields(owner, to, amount, contract))
      == ContractOf(owner, to, amount, contract)
  {
    PayloadIs(owner, to, amount, contract);
  }

  /** A standard decoder recovers every field that was encoded, an omitted zero as its default. The
      amount comes back as its low 64 bits, so exactly when it is an int64 (which Quote demands). */
  lemma TronRawRoundTrip(owner: seq<byte>, to: seq<byte>, amount: nat, contract: seq<byte>, blockId: Option<seq<byte>>,
                         now: int, expires: int, feeLimit: int)
    requires |to| == 21 && Int64(now) && Int64(expires) && Int64(feeLimit)
    ensures var raw := TronRaw(owner, to, amount, contract, blockId, now, expires, feeLimit);
      && (raw.Some? <==> blockId.Some? && |blockId.value| == 32)
      && (raw.Some? ==>
            Decode(raw.value) == Some(Message(blockId.value[6..8], blockId.value[8..16], expires, now, feeLimit,
                                              ContractOf(owner, to, amount, contract))))
    ensures LowInt64(amount) == amount <==> amount < TWO63
  {
    if blockId.Some? && |blockId.value| == 32 {
      var blockBytes, blockHash := blockId.value[6..8], blockId.value[8..16];
      var operation := OperationBytes(KindOf(contract), UrlOf(contract), Payload(owner, to, amount, contract));
      ContractRoundTrip(owner, to, amount, contract);
      RawDecodes(blockBytes, blockHash, expires, operation, now, feeLimit);
    }
  }

  lemma RawDecodes(blockBytes: seq<byte>, blockHash: seq<byte>, expires: int, operation: seq<byte>, now: int,
                   feeLimit: int)
    requires Int64(expires) && Int64(now) && Int64(feeLimit)
    requires DecodeContract(operation).Some?
    ensures Decode(RawBytes(blockBytes, blockHash, expires, operation, now, feeLimit))
      == Some(Message(blockBytes, blockHash, expires, now, feeLimit, DecodeContract(operation).value))
  {
    RawEmits(blockBytes, blockHash, expires, operation, now, feeLimit);
    ParseEmitAll(RawFields(blockBytes, blockHash, expires, operation, now, feeLimit));
    RawReads(blockBytes, blockHash, expires, operation, now, feeLimit, 1);
    RawReads(blockBytes, blockHash, expires, operation, now, feeLimit, 4);
    RawReads(blockBytes, blockHash, expires, operation, now, feeLimit, 8);
    RawReads(blockBytes, blockHash, expires, operation, now, feeLimit, 11);
    RawReads(blockBytes, blockHash, expires, operation, now, feeLimit, 14);
    RawReads(blockBytes, blockHash, expires, operation, now, feeLimit, 18);
  }

  /** The call data of a token transfer: the selector, the recipient's 20 bytes in one word, the whole amount
      in the next. */
  lemma TransferCallReads(to: seq<byte>, amount: nat)
    requires |to| == 21 && amount < Pow256(32)
    ensures var data := TransferCall(to, amount);
      && data[..4] == [0xa9, 0x05, 0x9c, 0xbb] && data[4..16] == Zeros(12) && data[16..36] == to[1..]
      && ValueOf(data[36..68]) == amount
  {
    ValueOfBigEndian(amount, 32);
    assert TransferCall(to, amount)[36..68] == BigEndian(amount, 32);
  }

  // ---- Length ------------------------------------------------------------------------------------------

  lemma SmallUvarint(n: nat)
    ensures n < 128 ==> |Uvarint(n)| == 1
    ensures n < 16384 ==> |Uvarint(n)| <= 2
    ensures n < TWO64 ==> |Uvarint(n)| <= 10
  {
    if n < TWO64 {
      assert Pow128(5) == 0x8_0000_0000;
      assert Pow128(10) == 0x40_0000_0000_0000_0000;
      UvarintLength(n, 10);
    }
    assert Pow128(2) == 16384;
    if n < 16384 {
      UvarintLength(n, 2);
    }
  }

  lemma TronBytesLength(dst: seq<byte>, field: nat, value: seq<byte>)
    requires field < 16 && |value| < 16384
    ensures |TronBytes(dst, field, value)| <= |dst| + 1 + (if |value| < 128 then 1 else 2) + |value|
  {
    SmallUvarint(field * 8 + 2);
    SmallUvarint(|value|);
  }

  lemma TronIntLength(dst: seq<byte>, field: nat, value: int)
    requires Int64(value) && field < 2048
    ensures |TronInt(dst, field, value)| <= |dst| + (if field < 16 then 1 else 2) + 10
    ensures 0 <= value < 128 && field < 16 ==> |TronInt(dst, field, value)| <= |dst| + 2
  {
    SmallUvarint(field * 8);
    SmallUvarint(ToUint64(value));
  }

  const MAX_RAW: nat := 225

  /** The signed part is never longer than 225 bytes. */
  lemma TronRawLength(owner: seq<byte>, to: seq<byte>, amount: nat, contract: seq<byte>, blockId: Option<seq<byte>>,
                      now: int, expires: int, feeLimit: int)
    requires |owner| == 21 && |to| == 21 && (contract == [] || |contract| == 21)
    requires Int64(now) && Int64(expires) && Int64(feeLimit)
    ensures var raw := TronRaw(owner, to, amount, contract, blockId, now, expires, feeLimit);
      raw.Some? ==> |raw.value| <= MAX_RAW
  {
    var payload := Payload(owner, to, amount, contract);
    PayloadLength(owner, to, amount, contract);
    OperationLength(KindOf(contract), UrlOf(contract), payload);
    if blockId.Some? && |blockId.value| == 32 {
      RawBytesLength(blockId.value[6..8], blockId.value[8..16], expires,
                     OperationBytes(KindOf(contract), UrlOf(contract), payload), now, feeLimit);
    }
  }

  lemma OperationLength(kind: int, url: seq<byte>, payload: seq<byte>)
    requires 0 <= kind < 128 && |url| < 50 && |payload| <= 116
    ensures |OperationBytes(kind, url, payload)| <= 174
  {
    TronBytesLength([], 1, url);
    TronBytesLength(TronBytes([], 1, url), 2, payload);
    TronIntLength([], 1, kind);
    TronBytesLength(TronInt([], 1, kind), 2, ParameterBytes(url, payload));
  }

  lemma RawBytesLength(blockBytes: seq<byte>, blockHash: seq<byte>, expires: int, operation: seq<byte>, now: int,
                       feeLimit: int)
    requires |blockBytes| == 2 && |blockHash| == 8 && |operation| <= 174
    requires Int64(expires) && Int64(now) && Int64(feeLimit)
    ensures |RawBytes(blockBytes, blockHash, expires, operation, now, feeLimit)| <= MAX_RAW
  {
    TronBytesLength([], 1, blockBytes);
    var two := TronBytes([], 1, blockBytes);
    TronBytesLength(two, 4, blockHash);
    var three := TronBytes(two, 4, blockHash);
    TronIntLength(three, 8, expires);
    var four := TronInt(three, 8, expires);
    TronBytesLength(four, 11, operation);
    var five := TronBytes(four, 11, operation);
    TronIntLength(five, 14, now);
    TronIntLength(TronInt(five, 14, now), 18, feeLimit);
  }

  lemma PayloadLength(owner: seq<byte>, to: seq<byte>, amount: nat, contract: seq<byte>)
    requires |owner| == 21 && |to| == 21 && (contract == [] || |contract| == 21)
    ensures |Payload(owner, to, amount, contract)| <= 116
  {
    TronBytesLength([], 1, owner);
    var first := TronBytes([], 1, owner);
    if contract == [] {
      TronBytesLength(first, 2, to);
      TronIntLength(TronBytes(first, 2, to), 3, LowInt64(amount));
    } else {
      TronBytesLength(first, 2, contract);
      TronBytesLength(TronBytes(first, 2, contract), 4, TransferCall(to, amount));
    }
  }

  // ---- The signed frame -----------------------------------------------------------------------------------

  const SIGNATURE: nat := 65

  /** What Send stores and broadcasts. */
  function Frame(raw: seq<byte>, signature: seq<byte>): seq<byte> {
    TronBytes(TronBytes([], 1, raw), 2, signature)
  }

  /** What the loader accepts as a frame for the stored raw bytes, signature checks aside. */
  predicate LoadsAs(raw: seq<byte>, signed: seq<byte>) {
    var prefix := TronBytes([], 1, raw);
    |signed| == |prefix| + 67 && TronBytes(prefix, 2, signed[|signed| - SIGNATURE..]) == signed
  }

  /** The loader accepts exactly the frames that Send can have stored, and finds their signature. */
  lemma LoaderAcceptsFrames(raw: seq<byte>, signed: seq<byte>)
    ensures LoadsAs(raw, signed)
      <==> exists signature: seq<byte> :: |signature| == SIGNATURE && signed == Frame(raw, signature)
    ensures LoadsAs(raw, signed) ==> signed == Frame(raw, signed[|signed| - SIGNATURE..])
  {
    forall signature: seq<byte> | |signature| == SIGNATURE
      ensures |Frame(raw, signature)| == |TronBytes([], 1, raw)| + 67
      ensures var framed := Frame(raw, signature); framed[|framed| - SIGNATURE..] == signature
    {
      assert Uvarint(18) == [18] && Uvarint(65) == [65];
    }
    if LoadsAs(raw, signed) {
      var signature := signed[|signed| - SIGNATURE..];
      assert |signature| == SIGNATURE && signed == Frame(raw, signature);
    }
  }

  /** A standard decoder reads the raw bytes and the signature back from a frame. */
  lemma FrameReads(raw: seq<byte>, signature: seq<byte>)
    ensures Parse(Frame(raw, signature)) == Some([BytesField(1, raw), BytesField(2, signature)])
  {
    AppendBytes([], 1, raw);
    assert [] + [BytesField(1, raw)] == [BytesField(1, raw)];
    AppendBytes([BytesField(1, raw)], 2, signature);
    var fields := [BytesField(1, raw)] + [BytesField(2, signature)];
    ParseEmitAll(fields);
    assert fields == [BytesField(1, raw), BytesField(2, signature)];
  }

  /** No two transactions share a frame. */
  lemma FrameInjective(raw: seq<byte>, signature: seq<byte>, raw': seq<byte>, signature': seq<byte>)
    requires Frame(raw, signature) == Frame(raw', signature')
    ensures raw == raw' && signature == signature'
  {
    FrameReads(raw, signature);
    FrameReads(raw', signature');
  }

  lemma FrameLength(raw: seq<byte>, signature: seq<byte>)
    requires |raw| <= MAX_RAW && |signature| == SIGNATURE
    ensures |Frame(raw, signature)| <= MAX_RAW + 70
  {
    TronBytesLength([], 1, raw);
    TronBytesLength(TronBytes([], 1, raw), 2, signature);
  }
}
