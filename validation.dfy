/**
 * What `is_chain_valid` accepts, what a mining step produces, and the facts
 * that connect the two: mining keeps a valid chain valid, every chain grown
 * from genesis by mining is valid, and a rewrite of a buried block can only
 * go unnoticed through a hash collision.
 */
module Validation {
  import opened Blocks

  /** The check `is_chain_valid` makes on the pair (c[i-1], c[i]): hash link, then proof. */
  predicate PairOk(env: Primitives, c: seq<Block>, i: int)
    requires 1 <= i < |c|
  {
    && c[i].previousHash == BlockHash(env, c[i - 1])
    && ProofOk(env, c[i - 1].proof, c[i].proof)
  }

  /**
   * The verdict of `is_chain_valid`: every adjacent pair passes. The first
   * block is never checked on its own. A chain must have a block, since the
   * code reads `chain[0]`.
   */
  predicate ChainValid(env: Primitives, c: seq<Block>)
    requires |c| >= 1
  {
    forall i | 1 <= i < |c| :: PairOk(env, c, i)
  }

  /** Indices run 1, 2, 3, ... as `create_block` numbers them. */
  predicate Indexed(c: seq<Block>)
  {
    forall i | 0 <= i < |c| :: c[i].index == i + 1
  }

  /** The block the constructor creates: index 1, proof 1, previous hash "0", no transactions. */
  predicate IsGenesis(b: Block)
  {
    b.index == 1 && b.proof == 1 && b.previousHash == "0" && b.transactions == []
  }

  /** What `proof_of_work(previousProof)` returns: the least candidate from 1 up that passes. */
  ghost predicate IsLeastProof(env: Primitives, previousProof: int, p: int)
  {
    && p >= 1
    && ProofOk(env, previousProof, p)
    && forall q | 1 <= q < p :: !ProofOk(env, previousProof, q)
  }

  /** b is what one mining step appends to c: the next index, the tip's hash and the tip's least proof. */
  ghost predicate MinedOn(env: Primitives, c: seq<Block>, b: Block)
    requires |c| >= 1
  {
    && b.index == |c| + 1
    && b.previousHash == BlockHash(env, c[|c| - 1])
    && IsLeastProof(env, c[|c| - 1].proof, b.proof)
  }

  /** c is a genesis block followed by mining steps only. */
  ghost predicate MinedChain(env: Primitives, c: seq<Block>)
    decreases |c|
  {
    && |c| >= 1
    && if |c| == 1 then IsGenesis(c[0])
       else MinedChain(env, c[..|c| - 1]) && MinedOn(env, c[..|c| - 1], c[|c| - 1])
  }

  /** Every one-block chain is valid: `is_chain_valid` takes the first block on trust. */
  lemma SingleBlockValid(env: Primitives, b: Block)
    ensures ChainValid(env, [b])
  {
  }

  /** Appending a block that links to the tip and passes the proof test keeps a chain valid. */
  lemma AppendKeepsValid(env: Primitives, c: seq<Block>, b: Block)
    requires |c| >= 1 && ChainValid(env, c)
    requires b.previousHash == BlockHash(env, c[|c| - 1])
    requires ProofOk(env, c[|c| - 1].proof, b.proof)
    ensures ChainValid(env, c + [b])
  {
    var d := c + [b];
    forall i | 1 <= i < |d|
      ensures PairOk(env, d, i)
    {
      if i < |c| {
        assert PairOk(env, c, i);
      }
    }
  }

  /** A chain grown from genesis by mining steps alone is valid, numbered 1.. and starts at genesis. */
  lemma {:induction false} MinedChainIsValid(env: Primitives, c: seq<Block>)
    requires MinedChain(env, c)
    ensures ChainValid(env, c) && Indexed(c) && IsGenesis(c[0])
    decreases |c|
  {
    if |c| > 1 {
      var prefix, tip := c[..|c| - 1], c[|c| - 1];
      MinedChainIsValid(env, prefix);
      AppendKeepsValid(env, prefix, tip);
      assert c == prefix + [tip];
    }
  }

  /**
   * If both a valid chain and the chain with block k (not the tip) replaced
   * by b are valid, then b hashes to the same digest as the block it
   * replaced: an undetected rewrite is a hash collision.
   */
  lemma UndetectedRewriteCollides(env: Primitives, c: seq<Block>, k: nat, b: Block)
    requires k + 1 < |c|
    requires ChainValid(env, c) && ChainValid(env, c[k := b])
    ensures BlockHash(env, b) == BlockHash(env, c[k])
  {
    assert PairOk(env, c, k + 1);
    assert PairOk(env, c[k := b], k + 1);
  }

  /** Block hashing that never collides: distinct blocks have distinct hashes. */
  ghost predicate CollisionFree(env: Primitives)
  {
    forall a: Block, b: Block :: BlockHash(env, a) == BlockHash(env, b) ==> a == b
  }

  /** With collision-free hashing, changing any field of a block below the tip makes the chain invalid. */
  lemma RewriteDetected(env: Primitives, c: seq<Block>, k: nat, b: Block)
    requires CollisionFree(env)
    requires k + 1 < |c| && ChainValid(env, c) && b != c[k]
    ensures !ChainValid(env, c[k := b])
  {
    if ChainValid(env, c[k := b]) {
      UndetectedRewriteCollides(env, c, k, b);
      assert false;
    }
  }

  /**
   * The tip is protected by nothing after it: a rewrite that keeps its
   * proof and previous hash (a changed amount, say) leaves the chain valid.
   */
  lemma TipRewriteUndetected(env: Primitives, c: seq<Block>, b: Block)
    requires |c| >= 1 && ChainValid(env, c)
    requires b.proof == c[|c| - 1].proof && b.previousHash == c[|c| - 1].previousHash
    ensures ChainValid(env, c[|c| - 1 := b])
  {
    var d := c[|c| - 1 := b];
    forall i | 1 <= i < |d|
      ensures PairOk(env, d, i)
    {
      assert PairOk(env, c, i);
    }
  }
}
