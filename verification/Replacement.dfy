/**
 The price of a replacement: a fold over every record of the nonce that raises tip and fee cap by
 a fifth (rounded up), and the ladder that successive replacements climb.
 */
module Replacement {
  import opened JournalModel

  function BumpFee(price: nat): nat {
    (price * 120 + 99) / 100
  }

  function BumpTip(price: nat): nat {
    if BumpFee(price) == 0 then 1 else BumpFee(price)
  }

  function Max(a: nat, b: nat): nat {
    if a < b then b else a
  }

  /** The running maxima over the first records of the nonce. */
  function Bids(rs: seq<Record>, tip: nat): (nat, nat) {
    if rs == [] then (tip, 0)
    else
      var (t, f) := Bids(rs[..|rs| - 1], tip);
      var prior := rs[|rs| - 1].id.signed;
      (Max(t, BumpTip(prior.tip)), Max(f, BumpFee(prior.feeCap)))
  }

  datatype Price = Price(tip: nat, feeCap: nat)

  function PriceOf(rs: seq<Record>, suggestedTip: nat, baseFee: nat): Price {
    var (tip, fee) := Bids(rs, suggestedTip);
    Price(tip, Max(fee, 2 * baseFee + tip))
  }

  /** The source's loop. */
  method PriceReplacement(records: seq<Record>, suggestedTip: nat, baseFee: nat) returns (price: Price)
    ensures price == PriceOf(records, suggestedTip, baseFee)
  {
    var tip, fee := suggestedTip, 0;
    var i := 0;
    while i < |records|
      invariant 0 <= i <= |records|
      invariant (tip, fee) == Bids(records[..i], suggestedTip)
    {
      var prior := records[i].id.signed;
      var bumpTip := (prior.tip * 120 + 99) / 100;
      var bumpFee := (prior.feeCap * 120 + 99) / 100;
      if bumpTip == 0 {
        bumpTip := 1;
      }
      if tip < bumpTip {
        tip := bumpTip;
      }
      if fee < bumpFee {
        fee := bumpFee;
      }
      assert records[..i + 1][..i] == records[..i];
      i := i + 1;
    }
    assert records[..i] == records;
    var suggested := baseFee * 2 + tip;
    if fee < suggested {
      fee := suggested;
    }
    price := Price(tip, fee);
  }

  // ---- What the price promises ---------------------------------------------------------------

  /** A bid outbids another: both prices are strictly higher and at least a fifth higher. */
  predicate Outbids(tip: nat, feeCap: nat, prior: SignedTx) {
    && prior.tip < tip && 6 * prior.tip <= 5 * tip
    && prior.feeCap < feeCap && 6 * prior.feeCap <= 5 * feeCap
  }

  ghost function SignedOf(rs: seq<Record>): set<SignedTx> {
    set r <- rs :: r.id.signed
  }

  /** The bids are the least prices that cover the suggestion and every bump. */
  lemma {:induction false} BidsAreMaxima(rs: seq<Record>, suggestedTip: nat)
    ensures var (tip, fee) := Bids(rs, suggestedTip);
      && suggestedTip <= tip
      && (forall s <- SignedOf(rs) :: BumpTip(s.tip) <= tip && BumpFee(s.feeCap) <= fee)
      && (tip == suggestedTip || exists s <- SignedOf(rs) :: tip == BumpTip(s.tip))
      && (fee == 0 || exists s <- SignedOf(rs) :: fee == BumpFee(s.feeCap))
  {
    if rs != [] {
      var init, last := rs[..|rs| - 1], rs[|rs| - 1];
      BidsAreMaxima(init, suggestedTip);
      assert rs == init + [last];
      assert SignedOf(rs) == SignedOf(init) + {last.id.signed};
    }
  }

  /** A replacement outbids every record of its nonce, and its tip never exceeds its fee cap. */
  lemma PriceOutbids(rs: seq<Record>, suggestedTip: nat, baseFee: nat)
    ensures var p := PriceOf(rs, suggestedTip, baseFee);
      p.tip <= p.feeCap && forall r <- rs :: Outbids(p.tip, p.feeCap, r.id.signed)
  {
    BidsAreMaxima(rs, suggestedTip);
    forall r <- rs ensures r.id.signed in SignedOf(rs) { }
  }

  /** The price depends on which transactions are at the nonce, not on their order or state. */
  lemma PriceIgnoresOrder(a: seq<Record>, b: seq<Record>, suggestedTip: nat, baseFee: nat)
    requires SignedOf(a) == SignedOf(b)
    ensures PriceOf(a, suggestedTip, baseFee) == PriceOf(b, suggestedTip, baseFee)
  {
    BidsAreMaxima(a, suggestedTip);
    BidsAreMaxima(b, suggestedTip);
  }

  // ---- The ladder ----------------------------------------------------------------------------

  function Pow(base: nat, exp: nat): nat {
    if exp == 0 then 1 else base * Pow(base, exp - 1)
  }

  /** Each rung is at least a fifth above the one before. */
  ghost predicate Rungs(fees: seq<nat>) {
    forall i | 0 <= i < |fees| - 1 :: 6 * fees[i] <= 5 * fees[i + 1]
  }

  /** After k replacements, 5^k times the fee is at least 6^k times the original fee. */
  lemma {:induction false} LadderGrows(fees: seq<nat>)
    requires fees != [] && Rungs(fees)
    ensures var k := |fees| - 1; Pow(6, k) * fees[0] <= Pow(5, k) * fees[k]
  {
    var k := |fees| - 1;
    if k > 0 {
      LadderGrows(fees[..k]);
      ClimbOneRung(Pow(6, k - 1), Pow(5, k - 1), fees[0], fees[k - 1], fees[k]);
      assert Pow(6, k) == 6 * Pow(6, k - 1) && Pow(5, k) == 5 * Pow(5, k - 1);
    }
  }

  lemma ClimbOneRung(six: nat, five: nat, first: nat, lower: nat, upper: nat)
    requires six * first <= five * lower && 6 * lower <= 5 * upper
    ensures (6 * six) * first <= (5 * five) * upper
  {
    calc {
      (6 * six) * first;
      6 * (six * first);
    <=
      6 * (five * lower);
      five * (6 * lower);
    <= { assert five * (5 * upper - 6 * lower) >= 0; }
      five * (5 * upper);
      (5 * five) * upper;
    }
  }

  // ---- The price is the least that does ------------------------------------------------------------

  /** A fifth more, rounded up. */
  lemma BumpIsLeast(price: nat, other: nat)
    ensures 120 * price <= 100 * BumpFee(price) && (120 * price <= 100 * other ==> BumpFee(price) <= other)
    ensures 1 <= BumpTip(price) && 120 * price <= 100 * BumpTip(price)
    ensures 1 <= other && 120 * price <= 100 * other ==> BumpTip(price) <= other
  {
  }

  /** A tip and a fee cap that a replacement may carry: the tip covers the suggestion and a fifth more than each
      record's, the fee cap twice the base fee and the tip, and a fifth more than each record's. */
  ghost predicate Suffices(rs: seq<Record>, suggestedTip: nat, baseFee: nat, tip: nat, feeCap: nat) {
    && suggestedTip <= tip && 2 * baseFee + tip <= feeCap
    && (forall r <- rs :: 1 <= tip && 120 * r.id.signed.tip <= 100 * tip && 120 * r.id.signed.feeCap <= 100 * feeCap)
  }

  /** The price suffices, and both of its parts are the least that do. */
  lemma PriceIsLeast(rs: seq<Record>, suggestedTip: nat, baseFee: nat, tip: nat, feeCap: nat)
    ensures var p := PriceOf(rs, suggestedTip, baseFee); Suffices(rs, suggestedTip, baseFee, p.tip, p.feeCap)
    ensures Suffices(rs, suggestedTip, baseFee, tip, feeCap) ==>
      var p := PriceOf(rs, suggestedTip, baseFee); p.tip <= tip && p.feeCap <= feeCap
  {
    BidsAreMaxima(rs, suggestedTip);
    var (t, f) := Bids(rs, suggestedTip);
    forall r <- rs
      ensures r.id.signed in SignedOf(rs) && 1 <= t
      ensures 120 * r.id.signed.tip <= 100 * t && 120 * r.id.signed.feeCap <= 100 * f
    {
      BumpIsLeast(r.id.signed.tip, 0);
      BumpIsLeast(r.id.signed.feeCap, 0);
    }
    if Suffices(rs, suggestedTip, baseFee, tip, feeCap) {
      forall s <- SignedOf(rs)
        ensures BumpTip(s.tip) <= tip && BumpFee(s.feeCap) <= feeCap
      {
        var r :| r in rs && r.id.signed == s;
        BumpIsLeast(s.tip, tip);
        BumpIsLeast(s.feeCap, feeCap);
      }
    }
  }
}
