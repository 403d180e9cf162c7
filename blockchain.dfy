/**
 * The `Blockchain` class: the chain, the pending transactions and the peer
 * set as fields that its methods update, with mining and reconciliation
 * built on the specifications of the other modules.
 */
module Node {
  import opened Outcomes
  import opened Blocks
  import opened Validation
  import opened Reconciliation

  /** Some candidate from 1 up passes the difficulty test, so `proof_of_work` stops. */
  ghost predicate Solvable(env: Primitives, previousProof: int)
  {
    exists w :: w >= 1 && ProofOk(env, previousProof, w)
  }

  /** The answers the peers give, in the order the peers are visited. */
  function Responses(order: seq<string>, fetch: string -> PeerResponse): seq<PeerResponse>
  {
    seq(|order|, i requires 0 <= i < |order| => fetch(order[i]))
  }

  class Blockchain {
    const env: Primitives
    var chain: seq<Block>
    var transactions: seq<Transaction>
    var nodes: set<string>

    /** The chain is never empty, so its tip always exists. */
    ghost predicate Valid()
      reads this
    {
      |chain| >= 1
    }

    /** A fresh ledger: the genesis block alone, nothing pending, no peers. */
    constructor (env: Primitives, genesisTime: string)
      ensures this.env == env && Valid()
      ensures chain == [Block(1, genesisTime, 1, "0", [])]
      ensures transactions == [] && nodes == {}
      ensures MinedChain(env, chain)
    {
      this.env := env;
      chain := [];
      transactions := [];
      nodes := {};
      new;
      var _ := CreateBlock(1, "0", genesisTime);
    }

    /**
     * Appends one block numbered after the last, carrying the pending
     * transactions, and empties the pending list.
     */
    method CreateBlock(proof: int, previousHash: string, timestamp: string) returns (b: Block)
      modifies this
      ensures b.index == |old(chain)| + 1 && b.timestamp == timestamp
      ensures b.proof == proof && b.previousHash == previousHash
      ensures b.transactions == old(transactions)
      ensures chain == old(chain) + [b]
      ensures transactions == [] && nodes == old(nodes)
      ensures Valid()
      ensures Indexed(old(chain)) ==> Indexed(chain)
    {
      b := Block(|chain| + 1, timestamp, proof, previousHash, transactions);
      transactions := [];
      chain := chain + [b];
    }

    /** The tip of the chain. */
    method GetPreviousBlock() returns (b: Block)
      requires Valid()
      ensures b == chain[|chain| - 1]
    {
      b := chain[|chain| - 1];
    }

    /** Counts up from 1 and returns the first candidate that passes the difficulty test. */
    method ProofOfWork(previousProof: int) returns (p: int)
      requires Solvable(env, previousProof)
      ensures IsLeastProof(env, previousProof, p)
    {
      ghost var w :| w >= 1 && ProofOk(env, previousProof, w);
      var newProof := 1;
      var checkProof := false;
      while !checkProof
        invariant 1 <= newProof <= w
        invariant forall q | 1 <= q < newProof :: !ProofOk(env, previousProof, q)
        invariant checkProof ==> ProofOk(env, previousProof, newProof)
        decreases w - newProof, if checkProof then 0 else 1
      {
        var hashOperation := env.hexDigest(ProofText(previousProof, newProof));
        if LeadingZeros(hashOperation) {
          checkProof := true;
        } else {
          newProof := newProof + 1;
        }
      }
      p := newProof;
    }

    /**
     * Walks the adjacent pairs of c and answers false at the first pair
     * whose hash link or proof fails. `examined` is the index of the last
     * block looked at: the failing one, or |c| when every pair passed.
     */
    method IsChainValid(c: seq<Block>) returns (valid: bool, ghost examined: nat)
      requires |c| >= 1
      ensures valid == ChainValid(env, c)
      ensures valid ==> examined == |c|
      ensures !valid ==>
                && 1 <= examined < |c| && !PairOk(env, c, examined)
                && forall i | 1 <= i < examined :: PairOk(env, c, i)
    {
      var previousBlock := c[0];
      var blockIndex := 1;
      while blockIndex < |c|
        invariant 1 <= blockIndex <= |c|
        invariant previousBlock == c[blockIndex - 1]
        invariant forall i | 1 <= i < blockIndex :: PairOk(env, c, i)
      {
        var block := c[blockIndex];
        if block.previousHash != BlockHash(env, previousBlock) {
          assert !PairOk(env, c, blockIndex);
          return false, blockIndex;
        }
        var previousProof := previousBlock.proof;
        var proof := block.proof;
        var hashOperation := env.hexDigest(ProofText(previousProof, proof));
        if !LeadingZeros(hashOperation) {
          assert !PairOk(env, c, blockIndex);
          return false, blockIndex;
        }
        previousBlock := block;
        blockIndex := blockIndex + 1;
      }
      return true, blockIndex;
    }

    /**
     * `add_transaction` as written: the transaction is appended, then
     * `self.get_previous_block()+1` adds 1 to a dictionary and raises
     * TypeError, so no index is ever returned.
     */
    method AddTransaction(sender: string, receiver: string, amount: int) returns (r: Result<int>)
      requires Valid()
      modifies this
      ensures transactions == old(transactions) + [Transaction(sender, receiver, amount)]
      ensures chain == old(chain) && nodes == old(nodes)
      ensures r == Raised(TypeError)
    {
      transactions := transactions + [Transaction(sender, receiver, amount)];
      var previousBlock := GetPreviousBlock();
      r := Raised(TypeError);
    }

    /**
     * `add_transaction` as intended: after appending, return one past the
     * tip's index, which on a chain numbered 1.. is the index the next
     * `create_block` gives the block that takes the transaction.
     */
    method AddTransactionIntended(sender: string, receiver: string, amount: int) returns (target: int)
      requires Valid()
      modifies this
      ensures transactions == old(transactions) + [Transaction(sender, receiver, amount)]
      ensures chain == old(chain) && nodes == old(nodes)
      ensures target == chain[|chain| - 1].index + 1
      ensures Indexed(chain) ==> target == |chain| + 1
    {
      transactions := transactions + [Transaction(sender, receiver, amount)];
      var previousBlock := GetPreviousBlock();
      target := previousBlock.index + 1;
    }

    /** Records the address's network location; recording one already known changes nothing. */
    method AddNode(address: string)
      modifies this
      ensures nodes == old(nodes) + {env.netloc(address)}
      ensures env.netloc(address) in old(nodes) ==> nodes == old(nodes)
      ensures chain == old(chain) && transactions == old(transactions)
    {
      var parsedNetloc := env.netloc(address);
      nodes := nodes + {parsedNetloc};
    }

    /**
     * One mining step: the least proof over the tip's proof, the tip's
     * hash, then `create_block`. A valid chain stays valid, and a chain
     * mined from genesis stays so.
     */
    method Mine(timestamp: string) returns (b: Block)
      requires Valid() && Solvable(env, chain[|chain| - 1].proof)
      modifies this
      ensures chain == old(chain) + [b] && Valid()
      ensures transactions == [] && nodes == old(nodes)
      ensures b.transactions == old(transactions) && b.timestamp == timestamp
      ensures MinedOn(env, old(chain), b)
      ensures ChainValid(env, old(chain)) ==> ChainValid(env, chain)
      ensures MinedChain(env, old(chain)) ==> MinedChain(env, chain)
    {
      var previousBlock := GetPreviousBlock();
      var previousProof := previousBlock.proof;
      var proof := ProofOfWork(previousProof);
      var previousHash := BlockHash(env, previousBlock);
      b := CreateBlock(proof, previousHash, timestamp);
      assert chain[..|chain| - 1] == old(chain);
      if ChainValid(env, old(chain)) {
        AppendKeepsValid(env, old(chain), b);
      }
    }

    /**
     * Visits every peer once, in the given order, and keeps the chain of
     * the first strictly longest valid reply; adopts it if there is one.
     * The result and the new chain are those of Scan over the replies.
     */
    method ReplaceChain(order: seq<string>, fetch: string -> PeerResponse) returns (r: Result<bool>)
      requires Valid()
      requires forall n :: n in order <==> n in nodes
      requires forall i, j | 0 <= i < j < |order| :: order[i] != order[j]
      modifies this
      ensures Valid() && transactions == old(transactions) && nodes == old(nodes)
      ensures var outcome := Scan(env, |old(chain)|, Responses(order, fetch));
              if outcome.Raised? then r == Raised(outcome.error) && chain == old(chain)
              else
                && r == Ok(outcome.value.longest.Some?)
                && chain == if outcome.value.longest.Some? then outcome.value.longest.value else old(chain)
      ensures r == Ok(true) ==> ChainValid(env, chain)
    {
      ghost var rs := Responses(order, fetch);
      var longestChain: Option<seq<Block>> := None;
      var maxLength := |chain|;
      for i := 0 to |order|
        invariant chain == old(chain) && transactions == old(transactions) && nodes == old(nodes)
        invariant Scan(env, |chain|, rs[..i]) == Ok(ScanState(maxLength, longestChain))
        invariant longestChain.Some? ==> |longestChain.value| >= 1 && ChainValid(env, longestChain.value)
      {
        assert rs[..i + 1][..i] == rs[..i];
        var response := fetch(order[i]);
        if response.RequestFailed? {
          RaisedPrefixRaises(env, |chain|, rs, i + 1);
          return Raised(RequestError);
        }
        if response.status == 200 {
          var length := response.length;
          var peerChain := response.chain;
          if length > maxLength {
            if |peerChain| == 0 {
              RaisedPrefixRaises(env, |chain|, rs, i + 1);
              return Raised(IndexError);
            }
            var ok;
            ghost var examined;
            ok, examined := IsChainValid(peerChain);
            if ok {
              maxLength := length;
              longestChain := Some(peerChain);
            }
          }
        }
      }
      assert rs[..|order|] == rs;
      if longestChain.Some? && longestChain.value != [] {
        chain := longestChain.value;
        return Ok(true);
      }
      return Ok(false);
    }
  }

  /**
   * Two mining steps from a fresh ledger give three blocks, each linked to
   * the one before, and a chain that validates.
   */
  method MineTwoFromGenesis(env: Primitives, t0: string, t1: string, t2: string) returns (c: seq<Block>)
    requires forall previousProof :: Solvable(env, previousProof)
    ensures |c| == 3 && Indexed(c) && IsGenesis(c[0])
    ensures c[1].previousHash == BlockHash(env, c[0]) && c[2].previousHash == BlockHash(env, c[1])
    ensures ChainValid(env, c)
  {
    var node := new Blockchain(env, t0);
    var _ := node.Mine(t1);
    var _ := node.Mine(t2);
    c := node.chain;
    MinedChainIsValid(env, c);
    assert PairOk(env, c, 1) && PairOk(env, c, 2);
  }

  /**
   * On a fresh ledger `add_transaction` as written raises, while the
   * intended version answers 2: the index of the first block mined next.
   */
  method TransactionTargetOnFreshLedger(env: Primitives, t0: string) returns (asWritten: Result<int>, intended: int)
    ensures asWritten == Raised(TypeError)
    ensures intended == 2
  {
    var first := new Blockchain(env, t0);
    asWritten := first.AddTransaction("a", "b", 1);
    var second := new Blockchain(env, t0);
    intended := second.AddTransactionIntended("a", "b", 1);
  }
}
