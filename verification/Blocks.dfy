/** Blocks, transactions and conflicts, reduced to the fields the pipeline reads. */
module Blocks {
  import opened Options
  import opened Elections

  type Digest = nat
  type RefHash = nat
  type Address = nat

  const U128: nat := 0x1_0000_0000_0000_0000_0000_0000_0000_0000

  type u128 = x: nat | x < U128 witness 0

  /** A validator is named by a string that may or may not parse as an address. */
  datatype ValidatorKey = ValidatorKey(name: nat, address: Option<Address>)

  datatype Txn = Txn(
    id: Digest, sender: Address, receiver: Address, token: nat, amount: u128, nonce: u128,
    validators: Option<map<ValidatorKey, bool>>, validatorFeeShare: u128, proposerFeeShare: u128)

  datatype ProposalBlock = ProposalBlock(
    refBlock: RefHash, round: nat, epoch: nat, txns: map<Digest, Txn>, claims: map<U256, Claim>,
    from: Claim, hash: RefHash, signature: nat)

  datatype ConvergenceBlock = ConvergenceBlock(
    refHashes: seq<RefHash>, txns: map<RefHash, set<Digest>>, claims: map<RefHash, set<U256>>)

  /** Blocks in the DAG are told apart by their hashes. */
  ghost predicate DistinctBlocks(blocks: seq<ProposalBlock>) {
    forall i, j :: 0 <= i < j < |blocks| ==> blocks[i].hash != blocks[j].hash
  }

  /** A block that keeps only some of its transactions. */
  function Keeping(b: ProposalBlock, keep: set<Digest>): ProposalBlock {
    b.(txns := map d | d in b.txns && d in keep :: b.txns[d])
  }

  /** `b` is `a` without some of its transactions; nothing else differs. */
  ghost predicate Thinned(a: ProposalBlock, b: ProposalBlock) {
    && b == a.(txns := b.txns)
    && (forall d <- b.txns :: d in a.txns && b.txns[d] == a.txns[d])
  }
}
