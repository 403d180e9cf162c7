/**
 * The values the ledger stores, the library calls it makes, and the two
 * digests built from them: the block hash and the proof-of-work test.
 */
module Blocks {

  /** One pending payment, the dictionary `{'sender', 'receiver', 'amount'}`. */
  datatype Transaction = Transaction(sender: string, receiver: string, amount: int)

  /**
   * A block as `create_block` lays it out. `timestamp` is the text of the
   * clock reading taken when the block was built.
   */
  datatype Block = Block(
    index: int,
    timestamp: string,
    proof: int,
    previousHash: string,
    transactions: seq<Transaction>)

  /**
   * The library calls, kept uninterpreted:
   * - hexDigest(t) is `hashlib.sha256(t.encode()).hexdigest()`;
   * - sortedJson(b) is `json.dumps(b, sort_keys=True)`. It takes the block's
   *   field values and nothing else, which is what sorting the keys buys;
   * - netloc(a) is `urlparse(a).netloc`.
   */
  datatype Primitives = Primitives(
    hexDigest: string -> string,
    sortedJson: Block -> string,
    netloc: string -> string)

  /** Python's slice `s[:n]`: the first n characters, or all of s when it is shorter. */
  function Take(s: string, n: nat): (r: string)
    ensures |r| == if |s| < n then |s| else n
    ensures r <= s
  {
    if |s| <= n then s else s[..n]
  }

  function DigitChar(d: nat): (c: char)
    requires d < 10
    ensures '0' <= c <= '9'
  {
    ('0' as int + d) as char
  }

  /** Python's `str(n)` for a natural number: its decimal digits, most significant first. */
  function NatText(n: nat): (s: string)
    ensures |s| >= 1
    ensures forall i | 0 <= i < |s| :: '0' <= s[i] <= '9'
    decreases n
  {
    if n < 10 then [DigitChar(n)] else NatText(n / 10) + [DigitChar(n % 10)]
  }

  /** Python's `str(n)` for an int: a minus sign before the digits of -n when n is negative. */
  function IntText(n: int): (s: string)
    ensures |s| >= 1
    ensures s[0] == '-' <==> n < 0
  {
    if n < 0 then "-" + NatText(-n) else NatText(n)
  }

  /** The number a string of decimal digits denotes, most significant digit first. */
  function DigitsValue(s: string): nat
    requires forall i | 0 <= i < |s| :: '0' <= s[i] <= '9'
    decreases |s|
  {
    if s == [] then 0 else DigitsValue(s[..|s| - 1]) * 10 + (s[|s| - 1] as int - '0' as int)
  }

  /** The digits NatText produces denote n. */
  lemma {:induction false} NatTextValue(n: nat)
    ensures DigitsValue(NatText(n)) == n
    decreases n
  {
    if n >= 10 {
      NatTextValue(n / 10);
      var s := NatText(n);
      assert s[..|s| - 1] == NatText(n / 10);
    }
  }

  /** IntText(n) is the decimal numeral of n: a minus sign and the digits of -n, or the digits of n. */
  lemma IntTextDenotes(n: int)
    ensures var s := IntText(n);
            if n < 0 then s[0] == '-' && DigitsValue(s[1..]) == -n
            else DigitsValue(s) == n
  {
    if n < 0 {
      NatTextValue(-n);
      assert IntText(n)[1..] == NatText(-n);
    } else {
      NatTextValue(n);
    }
  }

  /** Distinct integers have distinct texts, so the difficulty test hashes a text that determines the difference. */
  lemma IntTextInjective(a: int, b: int)
    requires IntText(a) == IntText(b)
    ensures a == b
  {
    IntTextDenotes(a);
    IntTextDenotes(b);
  }

  /**
   * The difficulty test of `proof_of_work` and `is_chain_valid`: the hex
   * digest of `str(proof**2 - previous_proof**2)` starts with "0000". The
   * difference may be negative, and then its text starts with '-'.
   */
  predicate ProofOk(env: Primitives, previousProof: int, proof: int): (ok: bool)
    ensures ok <==> "0000" <= env.hexDigest(ProofText(previousProof, proof))
  {
    LeadingZeros(env.hexDigest(ProofText(previousProof, proof)))
  }

  /** The text the difficulty test hashes: `str(proof**2 - previous_proof**2)`. */
  function ProofText(previousProof: int, proof: int): string
  {
    IntText(proof * proof - previousProof * previousProof)
  }

  /** `hash_operation[:4] == '0000'`. */
  predicate LeadingZeros(hashOperation: string)
  {
    Take(hashOperation, 4) == "0000"
  }

  /**
   * `Blockchain.hash`: the digest of the block's sorted-key JSON text. When
   * neither the digest nor the serialisation ever maps two inputs to one
   * output, the hash identifies the block.
   */
  function BlockHash(env: Primitives, b: Block): (h: string)
    ensures (forall x, y :: env.hexDigest(x) == env.hexDigest(y) ==> x == y) &&
            (forall a, c :: env.sortedJson(a) == env.sortedJson(c) ==> a == c) ==>
            forall c :: env.hexDigest(env.sortedJson(c)) == h ==> c == b
  {
    env.hexDigest(env.sortedJson(b))
  }
}
