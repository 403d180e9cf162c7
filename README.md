# jgcoin ledger in Dafny

A model of the `Blockchain` class of the jgcoin node, written in Dafny,
with proofs about it. `jgcoin.py` and `jgcoin_node_5003.py` define the same
class. The node file adds `replace_chain`, the longest-chain rule run against
the other peers. One Dafny class, `Node.Blockchain`, covers both files. Its
fields are the ones the Python methods update in place:

- `chain`, the list of blocks;
- `transactions`, the pending list, also called the mempool;
- `nodes`, the set of peer network locations.

Modules, leaf to root:

- `Outcomes` (outcomes.dfy): `Option`, and `Result` for methods that raise a
  Python exception (`TypeError`, `IndexError`, or a failed request).
- `Blocks` (blocks.dfy): `Transaction` and `Block`. It also holds the library
  calls as the uninterpreted fields of `Primitives`:
  - `hexDigest`: SHA-256 hex digest of a text;
  - `sortedJson`: `json.dumps(..., sort_keys=True)` of a block;
  - `netloc`: `urlparse(...).netloc`.

  From these it builds `BlockHash` and the difficulty test `ProofOk`. That test
  asks whether the digest of `str(proof**2 - previous_proof**2)` starts with
  `"0000"`. Python's `str` on integers and the `[:4]` slice are written out.
  `BlockHash` takes a `Block` value, which has no key order. So equal blocks
  always hash alike, which is what `sort_keys=True` provides.
- `Validation` (validation.dfy): `ChainValid`, the verdict of `is_chain_valid`.
  `MinedOn` describes one mining step and `MinedChain` a chain grown from
  genesis by mining steps. The lemmas prove:
  - mining keeps a chain valid;
  - every mined chain is valid;
  - rewriting a block below the tip goes unnoticed only through a hash
    collision;
  - rewriting the tip can go unnoticed.
- `Reconciliation` (reconciliation.dfy): the loop of `replace_chain` as a fold,
  `Scan`, over the peers' answers in visiting order. The lemmas cover what the
  fold keeps and when it raises.
- `Node` (blockchain.dfy): the class, whose methods mirror the Python ones
  loop for loop, and two small client methods.

Nothing here hashes or fetches anything. Clock readings, the peers' answers
and the order the peer set is visited in are all parameters.

`is_chain_valid` checks neither the genesis block nor any block's `index`. So
after `replace_chain` the chain is valid and non-empty, but its indices need
not run 1, 2, 3, …. Only chains built by `create_block` keep that numbering
(`Indexed`).

Three behaviours of the code are kept as written:

- `replace_chain` raises when `requests.get` fails for a peer, so an
  unreachable peer aborts the whole call.
- A peer that reports a length above the running maximum but sends an empty
  chain makes `is_chain_valid` raise `IndexError`.
- `add_transaction` raises `TypeError` instead of returning a block index
  (see Findings).

## Model

| member | source | states |
|---|---|---|
| `Blocks.Take` | jgcoin.py:45 | Python's `s[:n]`: a prefix of s, of length n or all of s when shorter |
| `Blocks.IntText` | jgcoin.py:44 | Python's `str` of an int: non-empty, and starts with '-' exactly when the number is negative |
| `Blocks.NatTextValue` | jgcoin.py:44 | the digits `str` gives for a natural number denote that number |
| `Blocks.IntTextDenotes` | jgcoin.py:44 | `str(n)` is the decimal numeral of n: '-' and the digits of −n when n is negative, the digits of n otherwise |
| `Blocks.IntTextInjective` | jgcoin.py:44 | distinct integers give distinct texts, so the text hashed by the difficulty test determines `proof² − prev²` |
| `Blocks.ProofOk` | jgcoin_node_5003.py:44-45 | the difficulty test (also lines 65-66) holds exactly when the hex digest of `str(proof² − previous_proof²)` has "0000" as a prefix; a digest shorter than four characters fails |
| `Blocks.BlockHash` | jgcoin_node_5003.py:51-54 | `hash` is the digest of the block's sorted-key JSON, a function of the block's field values only; when neither the digest nor the serialisation maps two inputs to one output, the hash identifies the block |
| `Node.Blockchain.constructor` | jgcoin.py:16-22 | a fresh ledger holds exactly the genesis block (index 1, proof 1, previous hash "0", no transactions), nothing pending and no peers; that chain counts as mined from genesis |
| `Node.Blockchain.CreateBlock` | jgcoin_node_5003.py:24-35 | appends exactly one block and keeps every earlier block; the new block has index old length + 1, the given proof, previous hash and timestamp, and exactly the transactions pending before the call; afterwards nothing is pending; numbering 1.. is kept |
| `Node.Blockchain.GetPreviousBlock` | jgcoin.py:37-38 | returns the last block; it always exists, because the constructor makes the chain non-empty and every method keeps it so |
| `Node.Blockchain.ProofOfWork` | jgcoin_node_5003.py:40-49 | returns the least p ≥ 1 whose digest of `str(p² − prev²)` starts with "0000" (the difference may be negative); every candidate 1..p−1 fails |
| `Node.Blockchain.IsChainValid` | jgcoin_node_5003.py:56-70 | answers true exactly when every adjacent pair has the right hash link and passes the proof test; on false, the pair it stopped at fails, every earlier pair passes, and no later pair was looked at |
| `Node.Blockchain.AddTransaction` | jgcoin.py:72-75 | as written: appends exactly one `{sender, receiver, amount}` at the end of the pending list, leaves the chain and peers alone, then raises TypeError |
| `Node.Blockchain.AddTransactionIntended` | jgcoin.py:72-75 | corrected: the same append, then returns one past the tip's index, which on a chain numbered 1.. is len(chain)+1, the index of the next block created |
| `Node.Blockchain.AddNode` | jgcoin_node_5003.py:77-80 | the peer set becomes the old set plus the address's netloc; adding a netloc already present changes nothing |
| `Node.Blockchain.Mine` | jgcoin.py:95-99 | appends one block with the least proof over the tip's proof, the tip's hash and the pending transactions; a valid chain stays valid and a chain mined from genesis stays so |
| `Node.Blockchain.ReplaceChain` | jgcoin_node_5003.py:82-101 | visits every peer once in any order; raises when `Scan` raises and then leaves the chain unchanged; otherwise reports true exactly when `Scan` found a candidate, adopts that candidate, and the adopted chain is valid; the pending list and peers are unchanged |
| `Node.MineTwoFromGenesis` | jgcoin.py:95-99 | two mining steps from a fresh ledger give three blocks numbered 1..3 from genesis, each linked to the hash of the one before, and a valid chain |
| `Node.TransactionTargetOnFreshLedger` | jgcoin.py:74 | on a fresh ledger the code as written raises TypeError where the intended version answers 2 |
| `Validation.SingleBlockValid` | jgcoin_node_5003.py:57-59 | any one-block chain is valid: the first block is taken on trust |
| `Validation.AppendKeepsValid` | jgcoin_node_5003.py:59-69 | appending a block that links to the tip's hash and passes the proof test over the tip's proof keeps a chain valid |
| `Validation.MinedChainIsValid` | jgcoin.py:95-99 | every chain built from the genesis block of the constructor (jgcoin.py:16-22) by mining steps alone is valid, starts with the genesis block and is numbered 1, 2, 3, … |
| `Validation.UndetectedRewriteCollides` | jgcoin_node_5003.py:61 | if a valid chain stays valid after block k below the tip is replaced, the replacement has the same block hash as the original |
| `Validation.RewriteDetected` | jgcoin_node_5003.py:51-54 | when distinct blocks hash differently, changing any field of a block below the tip makes the chain invalid |
| `Validation.TipRewriteUndetected` | jgcoin_node_5003.py:56-70 | changing the tip's transactions or timestamp, keeping its proof and previous hash, leaves a valid chain valid: nothing after the tip covers it |
| `Reconciliation.Scan` | jgcoin_node_5003.py:87-96 | the `for` loop over the peers' answers in visiting order; when it raises nothing, `max_length` ends at or above the local length, and a candidate, if any, is a non-empty valid chain reported strictly longer than the local one |
| `Reconciliation.Step` | jgcoin_node_5003.py:89-96 | one loop turn: `max_length` never decreases; the candidate changes only to a non-empty valid chain from a status-200 reply whose reported length beats the running maximum, so a tie never replaces; it raises only on a failed request or an empty chain reported as longer |
| `Reconciliation.RaisedPrefixRaises` | jgcoin_node_5003.py:87-96 | an exception in any turn ends `replace_chain` with that exception |
| `Reconciliation.FailedRequestRaises` | jgcoin_node_5003.py:88 | one unreachable peer makes the whole `replace_chain` raise |
| `Reconciliation.MaxLengthMonotone` | jgcoin_node_5003.py:85-96 | `max_length` starts at the local length and never decreases from one turn to the next |
| `Reconciliation.ScanPicksFirstLongest` | jgcoin_node_5003.py:94-99 | without an exception, the final maximum is the greatest reported length among qualifying replies (status 200, reported length above the local length, non-empty valid chain), or the local length when none qualifies; there is a candidate exactly when some reply qualifies, and it is the chain of the first qualifying reply, in visiting order, that reports that maximum |
| `Reconciliation.ScanRaisedCause` | jgcoin_node_5003.py:88-94 | `replace_chain` raises only because a peer was unreachable or a status-200 reply sent an empty chain with a reported length above the local one |
| `Reconciliation.LongestPeerWinsEitherOrder` | jgcoin_node_5003.py:87-96 | local length 3, valid peer chains reported at 5 and 4: the one reported at 5 is adopted whichever peer is visited first |
| `Reconciliation.ReportedLengthIsTrusted` | jgcoin_node_5003.py:90-96 | the peer's reported `length` is compared, not the length of its chain: a one-block chain reported at 10 replaces a local chain of 3 |

## Left out

- Flask routing, response building and `app.run` (jgcoin.py:85-129 and
  jgcoin_node_5003.py:106-195) are network plumbing. Two notes on them:
  - the `/is_valid` expression `X if 'Good' else 'Bad'` always yields the real
    verdict X;
  - the node file's `/mine_block` calls `add_transaction` before
    `create_block`, so it raises and never mines.
- `requests.get`: the peers' answers are the input `fetch`. The set's
  unspecified iteration order is the input `order`, which may list the peers
  in any order. A 200 reply whose body is not JSON, or lacks `length` or
  `chain`, is not modelled. Peer blocks are assumed to have the `Block` field
  types.
- SHA-256, `json.dumps` and `urlparse` are library calls. They are
  uninterpreted fields of `Primitives`, with no digest, serialisation or URL
  internals.
- Validation.RewriteDetected: assumes block hashing never collides. This
  idealises SHA-256. Without that assumption,
  `Validation.UndetectedRewriteCollides` states what is left.
- `datetime.now()` readings are parameters. `uuid4` node identities and the
  `print` in `hash` are not modelled.
- Node.Blockchain.ProofOfWork: requires that some candidate passes the
  difficulty test. Whether the loop stops depends on digest values, and the
  Python loop runs forever when none passes.
- Amounts, indices and proofs are integers. Python would also carry floats
  or other JSON values in those fields.
- Blocks are values. Python blocks are dictionaries that other code could
  mutate in place after they join the chain. The model has no such aliasing,
  neither for the block `create_block` returns nor for the list
  `replace_chain` adopts.

## Findings

| source | as written | input that shows it | evidently intended | confidence | as-written member | corrected member |
|---|---|---|---|---|---|---|
| jgcoin.py:74 | `self.get_previous_block()+1` adds 1 to the tip block, a dictionary. This raises TypeError after the transaction has been appended. jgcoin_node_5003.py:74 is the same line. | any call, e.g. `add_transaction('a', 'b', 1)` on a fresh ledger | take the tip block and return its index + 1: 2 on a fresh ledger, the index of the block that will carry the transaction | high; not executed | `Node.Blockchain.AddTransaction` | `Node.Blockchain.AddTransactionIntended` |
