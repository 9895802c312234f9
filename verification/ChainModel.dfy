/**
 A chain whose head may be reorganised at any time while its finalized prefix only grows, as a
 sequence of states; a remote read sees one of them.
 */
module ChainModel {
  import opened Common

  type Hash = string
  type Address = nat

  /** An executed transaction inside a block. */
  datatype Execution = Execution(hash: Hash, sender: Address, nonce: nat, success: bool)

  datatype Block = Block(hash: Hash, txs: seq<Execution>)

  /** Blocks by height; those up to `final` are finalized. */
  datatype Chain = Chain(blocks: seq<Block>, final: nat)

  /** A chain executes a transaction once, and a sender's nonce once. */
  ghost predicate WellFormed(c: Chain) {
    && c.final < |c.blocks|
    && (forall m, n, a, b | 0 <= m < |c.blocks| && 0 <= n < |c.blocks| && a in c.blocks[m].txs
      && b in c.blocks[n].txs ::
          (a.hash == b.hash || (a.sender == b.sender && a.nonce == b.nonce)) ==> a == b && m == n)
  }

  /** The head may change in any way, but nothing up to the finalized height does. */
  ghost predicate Advances(c: Chain, c': Chain) {
    && c.final <= c'.final
    && c.final < |c.blocks| && c.final < |c'.blocks|
    && (forall n | 0 <= n <= c.final :: c'.blocks[n] == c.blocks[n])
  }

  ghost predicate IsHistory(run: seq<Chain>) {
    && (forall i | 0 <= i < |run| :: WellFormed(run[i]))
    && (forall i {:trigger run[i]} | 0 < i < |run| :: Advances(run[i - 1], run[i]))
    && (forall i, j, m, n | 0 <= i < |run| && 0 <= j < |run| && 0 <= m < |run[i].blocks| && 0 <= n < |run[j].blocks| ::
          run[i].blocks[m].hash == run[j].blocks[n].hash ==> run[i].blocks[m] == run[j].blocks[n] && m == n)
  }

  lemma {:induction false} FinalityLasts(run: seq<Chain>, i: nat, j: nat)
    requires IsHistory(run) && i <= j < |run|
    ensures run[i].final <= run[j].final
    ensures forall n | 0 <= n <= run[i].final ::
      n < |run[i].blocks| && n < |run[j].blocks| && run[j].blocks[n] == run[i].blocks[n]
    decreases j - i
  {
    if i < j {
      FinalityLasts(run, i, j - 1);
    }
  }
}
