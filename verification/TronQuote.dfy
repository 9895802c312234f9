/**
 The arithmetic of a TRON quote, in the source's signed 64-bit integers.
 */
module TronQuote {
  import opened Common
  import opened Bytes
  import opened TronWire

  /** Every 64-bit operation wraps. */
  function Wrap(v: int): (w: int)
    ensures Int64(w)
    ensures Int64(v) ==> w == v
  {
    FromUint64(v % TWO64)
  }

  const MAX_COST: int := 100_000_000
  const MAX_FEE_LIMIT: int := 100_000_000
  const MAX_ENERGY: int := 10_000_000
  const RECEIPT_OVERHEAD: int := 64

  /** The chain parameters; one that the node does not name is zero. */
  datatype Costs = Costs(transaction: int, energy: int, newAccount: int, createAccount: int)

  predicate Supported(c: Costs) {
    && 0 < c.transaction <= MAX_COST && 0 < c.energy <= MAX_COST
    && 0 < c.newAccount <= MAX_COST && 0 < c.createAccount <= MAX_COST
  }

  /** What the node answers about the asset: a plain account, or a token with a simulated transfer. */
  datatype Asset =
    | Coin(recipientExists: bool)
    | Token(contract: seq<byte>, balance: nat, simulated: bool, energy: int)

  datatype Offer = Offer(
    owner: seq<byte>, to: seq<byte>, asset: Asset, units: nat, balance: int, costs: Costs,
    blockId: Option<seq<byte>>, now: int, expires: int)

  datatype Refusal =
    | UnsupportedCosts | NotPositive | OutOfRange | InsufficientFunds | SimulationFailed | FeeLimitTooHigh | NoBlock

  datatype Priced = Priced(raw: seq<byte>, energy: int, feeLimit: int, bandwidth: int, reserve: int, required: int)

  /** What an offer must be for the program to be able to state it at all. */
  ghost predicate Stated(o: Offer) {
    && |o.owner| == 21 && |o.to| == 21
    && (o.asset.Token? ==> |o.asset.contract| == 21 && Int64(o.asset.energy))
    && Int64(o.balance) && Int64(o.now) && Int64(o.expires)
    && Int64(o.costs.transaction) && Int64(o.costs.energy)
    && Int64(o.costs.newAccount) && Int64(o.costs.createAccount)
  }

  function ContractBytes(a: Asset): seq<byte> {
    if a.Coin? then [] else a.contract
  }

  function Price(o: Offer): Result<Priced, Refusal>
    requires Stated(o)
  {
    if !Supported(o.costs) then Err(UnsupportedCosts)
    else if o.units == 0 then Err(NotPositive)
    else if o.asset.Coin? then
      if o.units >= TWO63 then Err(OutOfRange)
      else
        var activation := if o.asset.recipientExists then 0 else Wrap(o.costs.newAccount + o.costs.createAccount);
        Reserve(o, Encoded(o, 0), o.units, activation, 0, 0)
    else if o.asset.balance < o.units then Err(InsufficientFunds)
    else if !o.asset.simulated || o.asset.energy <= 0 || o.asset.energy > MAX_ENERGY then Err(SimulationFailed)
    else
      var feeLimit := Wrap(Wrap(o.asset.energy * o.costs.energy) * 2);
      if feeLimit > MAX_FEE_LIMIT then Err(FeeLimitTooHigh)
      else Reserve(o, Encoded(o, feeLimit), 0, 0, o.asset.energy, feeLimit)
  }

  function Encoded(o: Offer, feeLimit: int): Option<seq<byte>>
    requires Stated(o) && Int64(feeLimit)
  {
    TronRaw(o.owner, o.to, o.units, ContractBytes(o.asset), o.blockId, o.now, o.expires, feeLimit)
  }

  function Reserve(o: Offer, raw: Option<seq<byte>>, value: int, activation: int, energy: int, feeLimit: int)
    : Result<Priced, Refusal>
  {
    if raw.None? then Err(NoBlock)
    else
      var bandwidth := Wrap(Wrap(|Frame(raw.value, Zeros(SIGNATURE))|) + RECEIPT_OVERHEAD);
      Afford(raw.value, bandwidth, Wrap(bandwidth * o.costs.transaction), value, o.balance, activation, energy,
             feeLimit)
  }

  function Afford(raw: seq<byte>, bandwidth: int, burn: int, value: int, balance: int, activation: int, energy: int,
                  feeLimit: int)
    : Result<Priced, Refusal>
  {
    var reserve := Wrap(Wrap(burn + activation) + feeLimit);
    if value > balance || reserve > Wrap(balance - value) then Err(InsufficientFunds)
    else Ok(Priced(raw, energy, feeLimit, bandwidth, reserve, Wrap(value + reserve)))
  }

  // ---- The exact amounts, in unbounded integers --------------------------------------------------------

  function Value(o: Offer): nat {
    if o.asset.Coin? then o.units else 0
  }

  function Activation(o: Offer): int {
    if o.asset.Coin? && !o.asset.recipientExists then o.costs.newAccount + o.costs.createAccount else 0
  }

  function FeeLimit(o: Offer): int {
    if o.asset.Token? then o.asset.energy * o.costs.energy * 2 else 0
  }

  /** Bytes charged for: the signed transaction, whatever its signature, and the receipt. */
  function Bandwidth(raw: seq<byte>): nat {
    |Frame(raw, Zeros(SIGNATURE))| + RECEIPT_OVERHEAD
  }

  function Needs(o: Offer, raw: seq<byte>): int {
    Value(o) + Bandwidth(raw) * o.costs.transaction + Activation(o) + FeeLimit(o)
  }

  ghost predicate Acceptable(o: Offer) {
    && Supported(o.costs) && 0 < o.units
    && (o.asset.Coin? ==> o.units < TWO63)
    && (o.asset.Token? ==>
          o.units <= o.asset.balance && o.asset.simulated && 0 < o.asset.energy <= MAX_ENERGY
            && FeeLimit(o) <= MAX_FEE_LIMIT)
    && o.blockId.Some? && |o.blockId.value| == 32
  }

  lemma ProductBounds(a: int, b: int, maxA: int, maxB: int)
    requires 0 <= a <= maxA && 0 <= b <= maxB
    ensures 0 <= a * b <= maxA * maxB
  {
    assert a * b <= maxA * b <= maxA * maxB;
  }

  /** Under the guards no step leaves the 64-bit range, so the amounts are exact. */
  lemma AffordIsExact(raw: seq<byte>, bandwidth: int, burn: int, value: int, balance: int, activation: int,
                      energy: int, feeLimit: int)
    requires 0 <= burn <= 359 * MAX_COST && 0 <= value < TWO63 && Int64(balance)
    requires 0 <= activation <= 2 * MAX_COST && 0 <= feeLimit <= MAX_FEE_LIMIT
    ensures var reserve := burn + activation + feeLimit;
      Afford(raw, bandwidth, burn, value, balance, activation, energy, feeLimit)
      == (if value + reserve > balance then Err(InsufficientFunds)
          else Ok(Priced(raw, energy, feeLimit, bandwidth, reserve, value + reserve)))
  {
    assert Wrap(burn + activation) == burn + activation;
  }

  lemma FrameFits(o: Offer, feeLimit: int, raw: seq<byte>)
    requires Stated(o) && Int64(feeLimit)
    requires Encoded(o, feeLimit) == Some(raw)
    ensures |Frame(raw, Zeros(SIGNATURE))| <= MAX_RAW + 70
  {
    TronRawLength(o.owner, o.to, o.units, ContractBytes(o.asset), o.blockId, o.now, o.expires, feeLimit);
    FrameLength(raw, Zeros(SIGNATURE));
  }

  /** The bytes fit the bound that the arithmetic needs. */
  lemma ReserveIsExact(o: Offer, raw: seq<byte>, value: int, activation: int, energy: int, feeLimit: int)
    requires Supported(o.costs) && Int64(o.balance) && |Frame(raw, Zeros(SIGNATURE))| <= MAX_RAW + 70
    requires 0 <= value < TWO63 && 0 <= activation <= 2 * MAX_COST && 0 <= feeLimit <= MAX_FEE_LIMIT
    ensures var reserve := Bandwidth(raw) * o.costs.transaction + activation + feeLimit;
      && 0 < reserve && Bandwidth(raw) <= 359
      && Reserve(o, Some(raw), value, activation, energy, feeLimit)
         == (if value + reserve > o.balance then Err(InsufficientFunds)
             else Ok(Priced(raw, energy, feeLimit, Bandwidth(raw), reserve, value + reserve)))
  {
    BurnIsExact(Bandwidth(raw), o.costs.transaction);
    ReserveForm(o, raw, value, activation, energy, feeLimit);
    AffordIsExact(raw, Bandwidth(raw), Bandwidth(raw) * o.costs.transaction, value, o.balance, activation, energy,
                  feeLimit);
  }

  lemma BurnIsExact(bandwidth: nat, fee: int)
    requires 0 < bandwidth <= 359 && 0 < fee <= MAX_COST
    ensures 0 < bandwidth * fee <= 359 * MAX_COST && Wrap(bandwidth * fee) == bandwidth * fee
  {
    ProductBounds(bandwidth, fee, 359, MAX_COST);
    assert bandwidth * fee >= bandwidth * 1;
  }

  lemma ReserveForm(o: Offer, raw: seq<byte>, value: int, activation: int, energy: int, feeLimit: int)
    requires Supported(o.costs) && |Frame(raw, Zeros(SIGNATURE))| <= MAX_RAW + 70
    ensures Reserve(o, Some(raw), value, activation, energy, feeLimit)
      == Afford(raw, Bandwidth(raw), Wrap(Bandwidth(raw) * o.costs.transaction), value, o.balance, activation, energy,
                feeLimit)
  {
  }

  /** A quote is priced exactly when the offer is acceptable and the exact need is within the balance;
      the stored requirement is then that need, to the last unit. */
  lemma PriceIsExact(o: Offer)
    requires Stated(o)
    ensures Price(o).Ok? <==> Acceptable(o) && Needs(o, RawOf(o)) <= o.balance
    ensures Price(o).Ok? ==>
      var p := Price(o).value;
      && p.raw == RawOf(o)
      && p.required == Needs(o, p.raw) == Value(o) + p.reserve
      && 0 < p.reserve && p.required <= o.balance
      && p.feeLimit == FeeLimit(o) && p.bandwidth == Bandwidth(p.raw) <= 359
  {
    if Acceptable(o) {
      var raw, p := RawOf(o), Price(o);
      PriceReserves(o);
      FrameFits(o, FeeLimit(o), raw);
      NeedsAreExact(o, raw, p);
    } else {
      Rejected(o);
    }
  }

  function EnergyOf(o: Offer): int {
    if o.asset.Token? then o.asset.energy else 0
  }

  lemma PriceReserves(o: Offer)
    requires Stated(o) && Acceptable(o)
    ensures Int64(FeeLimit(o)) && Encoded(o, FeeLimit(o)) == Some(RawOf(o))
    ensures Price(o) == Reserve(o, Some(RawOf(o)), Value(o), Activation(o), EnergyOf(o), FeeLimit(o))
  {
    if o.asset.Token? {
      ProductBounds(o.asset.energy, o.costs.energy, MAX_ENERGY, MAX_COST);
    }
    EncodedExists(o, FeeLimit(o));
  }

  lemma EncodedExists(o: Offer, feeLimit: int)
    requires Stated(o) && Int64(feeLimit)
    ensures Encoded(o, feeLimit).Some? <==> o.blockId.Some? && |o.blockId.value| == 32
  {
  }

  lemma NeedsAreExact(o: Offer, raw: seq<byte>, p: Result<Priced, Refusal>)
    requires Acceptable(o) && Int64(o.balance) && |Frame(raw, Zeros(SIGNATURE))| <= MAX_RAW + 70
    requires p == Reserve(o, Some(raw), Value(o), Activation(o), EnergyOf(o), FeeLimit(o))
    ensures p.Ok? <==> Needs(o, raw) <= o.balance
    ensures p.Ok? ==>
      && p.value.raw == raw && p.value.required == Needs(o, raw) == Value(o) + p.value.reserve
      && 0 < p.value.reserve && p.value.feeLimit == FeeLimit(o) && p.value.bandwidth == Bandwidth(raw) <= 359
  {
    if o.asset.Token? {
      ProductBounds(o.asset.energy, o.costs.energy, MAX_ENERGY, MAX_COST);
    }
    ReserveIsExact(o, raw, Value(o), Activation(o), EnergyOf(o), FeeLimit(o));
  }

  lemma Rejected(o: Offer)
    requires Stated(o) && !Acceptable(o)
    ensures Price(o).Err?
  {
    if Supported(o.costs) && o.asset.Token? && 0 < o.asset.energy <= MAX_ENERGY {
      ProductBounds(o.asset.energy, o.costs.energy, MAX_ENERGY, MAX_COST);
    }
  }

  /** The bytes to sign for an offer with the exact energy limit. */
  function RawOf(o: Offer): seq<byte>
    requires Stated(o)
  {
    if !Int64(FeeLimit(o)) then []
    else
      match Encoded(o, FeeLimit(o))
      case None => []
      case Some(raw) => raw
  }

  /** The stored bytes say what was quoted: a standard decoder reads back the sender, the recipient, the
      amount, the energy limit and the deadline; and any signature gives the size that was charged for. */
  lemma PricedSaysWhatWasOffered(o: Offer)
    requires Stated(o) && Price(o).Ok?
    ensures Decode(Price(o).value.raw).Some?
    ensures var m := Decode(Price(o).value.raw).value;
      && m.expiration == o.expires && m.timestamp == o.now && m.feeLimit == FeeLimit(o)
      && (o.asset.Coin? ==> m.contract == Transfer(o.owner, o.to, o.units))
      && (o.asset.Token? ==> m.contract == Trigger(o.owner, o.asset.contract, TransferCall(o.to, o.units)))
    ensures forall signature: seq<byte> | |signature| == SIGNATURE ::
      |Frame(Price(o).value.raw, signature)| + RECEIPT_OVERHEAD == Price(o).value.bandwidth
  {
    PriceIsExact(o);
    TronRawRoundTrip(o.owner, o.to, o.units, ContractBytes(o.asset), o.blockId, o.now, o.expires, FeeLimit(o));
  }

  /** A reason that pricing gives is true. */
  predicate IsTrue(o: Offer, reason: Refusal) {
    match reason
    case UnsupportedCosts => !Supported(o.costs)
    case NotPositive => o.units == 0
    case OutOfRange => o.asset.Coin? && TWO63 <= o.units
    case InsufficientFunds => o.asset.Token? && o.asset.balance < o.units
    case SimulationFailed => o.asset.Token? && !(o.asset.simulated && 0 < o.asset.energy <= MAX_ENERGY)
    case FeeLimitTooHigh => o.asset.Token? && MAX_FEE_LIMIT < FeeLimit(o)
    case NoBlock => o.blockId.None? || |o.blockId.value| != 32
  }

  /** An acceptable offer is refused only for the funds that it needs; any other for a reason that is true of it. */
  lemma RefusalIsTrue(o: Offer)
    requires Stated(o) && Price(o).Err?
    ensures if Acceptable(o) then Price(o).error == InsufficientFunds && o.balance < Needs(o, RawOf(o))
            else IsTrue(o, Price(o).error)
  {
    if Acceptable(o) {
      PriceIsExact(o);
      PriceReserves(o);
      OnlyFunds(o, RawOf(o), Value(o), Activation(o), EnergyOf(o), FeeLimit(o));
    } else {
      UnacceptableReason(o);
    }
  }

  lemma OnlyFunds(o: Offer, raw: seq<byte>, value: int, activation: int, energy: int, feeLimit: int)
    ensures var p := Reserve(o, Some(raw), value, activation, energy, feeLimit); p.Ok? || p.error == InsufficientFunds
  {
  }

  lemma UnacceptableReason(o: Offer)
    requires Stated(o) && !Acceptable(o) && Price(o).Err?
    ensures IsTrue(o, Price(o).error)
  {
    if o.asset.Coin? {
      EncodedExists(o, 0);
    } else if Supported(o.costs) && 0 < o.asset.energy <= MAX_ENERGY {
      ProductBounds(o.asset.energy, o.costs.energy, MAX_ENERGY, MAX_COST);
      EncodedExists(o, FeeLimit(o));
    }
  }
}
