/**
 The TRON chain as a node shows it: blocks with rising timestamps whose head may be reorganised while
 the solidified prefix only grows, and where no block holds a transaction whose expiration an earlier
 block has already passed.
 */
module TronChain {
  import opened Common
  import opened Bytes

  datatype Block = Block(id: seq<byte>, timestamp: int, txs: set<seq<byte>>)

  /** Blocks by height; those up to `solid` are solidified. */
  datatype Chain = Chain(blocks: seq<Block>, solid: nat)

  /** The expiration that the bytes of a transaction carry, if they are one. */
  type Deadlines = seq<byte> -> Option<int>

  ghost predicate WellFormed(c: Chain, deadline: Deadlines) {
    && c.solid < |c.blocks|
    && (forall i, j | 0 <= i < j < |c.blocks| :: c.blocks[i].timestamp < c.blocks[j].timestamp)
    && (forall i, j, raw | 0 <= i < j < |c.blocks| && raw in c.blocks[j].txs && deadline(raw).Some? ::
          c.blocks[i].timestamp <= deadline(raw).value)
  }

  ghost predicate Advances(c: Chain, c': Chain) {
    && c.solid <= c'.solid
    && c.solid < |c.blocks| && c.solid < |c'.blocks|
    && c'.blocks[..c.solid + 1] == c.blocks[..c.solid + 1]
  }

  ghost predicate IsHistory(chain: nat -> Chain, deadline: Deadlines) {
    forall t: nat :: WellFormed(chain(t), deadline) && Advances(chain(t), chain(t + 1))
  }

  lemma {:induction false} SolidGrows(chain: nat -> Chain, deadline: Deadlines, t: nat, u: nat)
    requires IsHistory(chain, deadline) && t <= u
    ensures Advances(chain(t), chain(u))
    decreases u - t
  {
    assert WellFormed(chain(t), deadline) && WellFormed(chain(u), deadline);
    if t < u {
      SolidGrows(chain, deadline, t, u - 1);
      var a, b, c := chain(t), chain(u - 1), chain(u);
      assert Advances(b, chain(u - 1 + 1));
      assert c.blocks[..a.solid + 1] == c.blocks[..b.solid + 1][..a.solid + 1];
      assert b.blocks[..a.solid + 1] == b.blocks[..b.solid + 1][..a.solid + 1];
    }
  }

  ghost predicate Holds(c: Chain, raw: seq<byte>, limit: nat) {
    exists n | 0 <= n < limit && n < |c.blocks| :: raw in c.blocks[n].txs
  }

  /** No chain from time t on holds these bytes, on any fork. */
  ghost predicate Buried(chain: nat -> Chain, raw: seq<byte>, t: nat) {
    forall u: nat | t <= u :: !Holds(chain(u), raw, |chain(u).blocks|)
  }

  /** Every chain from time t on holds these bytes among its solidified blocks. */
  ghost predicate HeldFrom(chain: nat -> Chain, raw: seq<byte>, t: nat) {
    forall u: nat | t <= u :: Holds(chain(u), raw, chain(u).solid + 1)
  }

  ghost predicate Settled(chain: nat -> Chain, digest: seq<byte> -> seq<byte>, hash: seq<byte>, t: nat) {
    exists raw :: digest(raw) == hash && HeldFrom(chain, raw, t)
  }

  /** Head first, receipt second: a deadline behind the solidified head and no receipt after that
      means that the transaction is never included, on any fork, from then on. */
  lemma ExpiryIsFinal(chain: nat -> Chain, deadline: Deadlines, raw: seq<byte>, headAt: nat, receiptAt: nat)
    requires IsHistory(chain, deadline) && headAt <= receiptAt && deadline(raw).Some?
    requires var c := chain(headAt); c.solid < |c.blocks| && c.blocks[c.solid].timestamp > deadline(raw).value
    requires !Holds(chain(receiptAt), raw, chain(receiptAt).solid + 1)
    ensures Buried(chain, raw, receiptAt)
  {
    var a, b := chain(headAt), chain(receiptAt);
    SolidGrows(chain, deadline, headAt, receiptAt);
    forall u: nat | receiptAt <= u
      ensures !Holds(chain(u), raw, |chain(u).blocks|)
    {
      var c := chain(u);
      SolidGrows(chain, deadline, receiptAt, u);
      assert WellFormed(c, deadline);
      forall n | 0 <= n < |c.blocks|
        ensures raw !in c.blocks[n].txs
      {
        if n <= b.solid {
          assert c.blocks[n] == c.blocks[..b.solid + 1][n] == b.blocks[n];
        } else {
          assert c.blocks[a.solid] == c.blocks[..b.solid + 1][a.solid] == b.blocks[a.solid];
          assert b.blocks[a.solid] == b.blocks[..a.solid + 1][a.solid] == a.blocks[a.solid];
        }
      }
    }
  }

  /** A receipt from the solidified chain stays. */
  lemma ReceiptIsFinal(chain: nat -> Chain, deadline: Deadlines, raw: seq<byte>, t: nat)
    requires IsHistory(chain, deadline) && Holds(chain(t), raw, chain(t).solid + 1)
    ensures HeldFrom(chain, raw, t)
  {
    forall u: nat | t <= u
      ensures Holds(chain(u), raw, chain(u).solid + 1)
    {
      SolidGrows(chain, deadline, t, u);
      var b, c := chain(t), chain(u);
      var n :| 0 <= n < b.solid + 1 && n < |b.blocks| && raw in b.blocks[n].txs;
      assert c.blocks[n] == c.blocks[..b.solid + 1][n] == b.blocks[n];
    }
  }

  /** Reading the receipt before the head would not do: for every transaction there is a chain that
      includes it for good although both answers looked like an expiry. */
  lemma ReceiptFirstIsUnsound(raw: seq<byte>, deadline: Deadlines) returns (chain: nat -> Chain)
    requires deadline(raw).Some?
    ensures IsHistory(chain, deadline)
    ensures !Holds(chain(0), raw, chain(0).solid + 1)
    ensures var c := chain(1); c.solid < |c.blocks| && c.blocks[c.solid].timestamp > deadline(raw).value
    ensures forall u: nat | 1 <= u :: Holds(chain(u), raw, chain(u).solid + 1)
  {
    var d := deadline(raw).value;
    var genesis, block, next := Block([], d - 1, {}), Block([1], d, {raw}), Block([2], d + 1, {});
    var early, late := Chain([genesis], 0), Chain([genesis, block, next], 2);
    chain := (t: nat) => if t == 0 then early else late;
    assert early.blocks[..1] == late.blocks[..1];
    assert WellFormed(early, deadline) && WellFormed(late, deadline) && Advances(early, late) && Advances(late, late);
    assert raw in late.blocks[1].txs;
  }
}
