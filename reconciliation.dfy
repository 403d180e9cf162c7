/**
 * The decision `replace_chain` makes from the peers' answers, as a fold over
 * the answers in the order the peers were visited, and what that fold picks.
 */
module Reconciliation {
  import opened Outcomes
  import opened Blocks
  import opened Validation

  /**
   * What `requests.get(f'http://{node}/get_chain')` gave for one peer: a
   * reply with its status code and, parsed from its JSON body, the
   * reported `length` and `chain`; or a request that raised.
   */
  datatype PeerResponse =
    | Reply(status: int, length: int, chain: seq<Block>)
    | RequestFailed

  /** The loop variables `max_length` and `longest_chain`. */
  datatype ScanState = ScanState(maxLength: int, longest: Option<seq<Block>>)

  /**
   * One turn of the loop. A failed request raises; a status other than 200
   * is skipped; a reported length above the running maximum triggers
   * `is_chain_valid`, which raises on an empty chain and otherwise decides
   * whether the peer's chain becomes the candidate.
   */
  function Step(env: Primitives, st: ScanState, r: PeerResponse): (out: Result<ScanState>)
    ensures out.Ok? ==> out.value.maxLength >= st.maxLength
    ensures out.Ok? && out.value != st ==>
              && r.Reply? && r.status == 200 && r.length > st.maxLength
              && |r.chain| >= 1 && ChainValid(env, r.chain)
              && out.value == ScanState(r.length, Some(r.chain))
    ensures out.Raised? ==>
              r.RequestFailed? || (r.status == 200 && r.length > st.maxLength && r.chain == [])
  {
    match r
    case RequestFailed => Raised(RequestError)
    case Reply(status, length, chain) =>
      if status != 200 then Ok(st)
      else if length > st.maxLength then
        if |chain| == 0 then Raised(IndexError)
        else if ChainValid(env, chain) then Ok(ScanState(length, Some(chain)))
        else Ok(st)
      else Ok(st)
  }

  /** The loop run over rs, starting from the local chain's length and no candidate. */
  function Scan(env: Primitives, localLength: int, rs: seq<PeerResponse>): (out: Result<ScanState>)
    ensures out.Ok? ==> out.value.maxLength >= localLength
    ensures out.Ok? && out.value.longest.Some? ==>
              && out.value.maxLength > localLength
              && |out.value.longest.value| >= 1 && ChainValid(env, out.value.longest.value)
    decreases |rs|
  {
    if rs == [] then Ok(ScanState(localLength, None))
    else
      match Scan(env, localLength, rs[..|rs| - 1])
      case Raised(e) => Raised(e)
      case Ok(st) => Step(env, st, rs[|rs| - 1])
  }

  /** A peer whose chain can win: status 200, a reported length above the local one, a non-empty valid chain. */
  ghost predicate Qualifies(env: Primitives, localLength: int, r: PeerResponse)
  {
    && r.Reply? && r.status == 200 && r.length > localLength
    && |r.chain| >= 1 && ChainValid(env, r.chain)
  }

  /** rs[j] is the first qualifying response that reports length m. */
  ghost predicate FirstOfLength(env: Primitives, localLength: int, rs: seq<PeerResponse>, j: int, m: int)
    requires 0 <= j < |rs|
  {
    && Qualifies(env, localLength, rs[j]) && rs[j].length == m
    && forall i | 0 <= i < j :: !(Qualifies(env, localLength, rs[i]) && rs[i].length == m)
  }

  /**
   * The outcome st of a scan that raised nothing: its maximum is the
   * greatest reported length among qualifying responses (the local length
   * when none qualifies), and its candidate is the chain of the first
   * qualifying response reporting that maximum, or none at all.
   */
  ghost predicate PicksFirstLongest(env: Primitives, localLength: int, rs: seq<PeerResponse>, st: ScanState)
  {
    && st.maxLength >= localLength
    && (forall j | 0 <= j < |rs| && Qualifies(env, localLength, rs[j]) :: rs[j].length <= st.maxLength)
    && (st.longest.None? <==> st.maxLength == localLength)
    && (st.longest.None? <==> forall j | 0 <= j < |rs| :: !Qualifies(env, localLength, rs[j]))
    && (st.longest.Some? ==>
          exists j | 0 <= j < |rs| ::
            FirstOfLength(env, localLength, rs, j, st.maxLength) && st.longest.value == rs[j].chain)
  }

  /** Once a prefix of the answers raises, the whole scan raises the same exception. */
  lemma {:induction false} RaisedPrefixRaises(env: Primitives, localLength: int, rs: seq<PeerResponse>, k: nat)
    requires k <= |rs| && Scan(env, localLength, rs[..k]).Raised?
    ensures Scan(env, localLength, rs) == Scan(env, localLength, rs[..k])
    decreases |rs|
  {
    if k == |rs| {
      assert rs[..k] == rs;
    } else {
      var prefix := rs[..|rs| - 1];
      assert prefix[..k] == rs[..k];
      RaisedPrefixRaises(env, localLength, prefix, k);
    }
  }

  /** A peer that cannot be reached makes the whole scan raise: it is not skipped. */
  lemma {:induction false} FailedRequestRaises(env: Primitives, localLength: int, rs: seq<PeerResponse>, j: nat)
    requires j < |rs| && rs[j] == RequestFailed
    ensures Scan(env, localLength, rs).Raised?
  {
    if Scan(env, localLength, rs[..j]).Raised? {
      RaisedPrefixRaises(env, localLength, rs, j);
    } else {
      assert rs[..j + 1][..j] == rs[..j];
      assert Scan(env, localLength, rs[..j + 1]).Raised?;
      RaisedPrefixRaises(env, localLength, rs, j + 1);
    }
  }

  /** `max_length` never decreases: every prefix of a scan that raised nothing ends at a lower or equal maximum. */
  lemma {:induction false} MaxLengthMonotone(env: Primitives, localLength: int, rs: seq<PeerResponse>, k: nat)
    requires k <= |rs| && Scan(env, localLength, rs).Ok?
    ensures Scan(env, localLength, rs[..k]).Ok?
    ensures localLength <= Scan(env, localLength, rs[..k]).value.maxLength
                        <= Scan(env, localLength, rs).value.maxLength
    decreases |rs|
  {
    if rs != [] {
      var prefix := rs[..|rs| - 1];
      if k == |rs| {
        assert rs[..k] == rs;
        MaxLengthMonotone(env, localLength, prefix, |prefix|);
        assert prefix[..|prefix|] == prefix;
      } else {
        assert prefix[..k] == rs[..k];
        MaxLengthMonotone(env, localLength, prefix, k);
      }
    }
  }

  /** A scan that raised nothing keeps the first of the longest qualifying chains: a tie never replaces. */
  lemma {:induction false} ScanPicksFirstLongest(env: Primitives, localLength: int, rs: seq<PeerResponse>)
    requires Scan(env, localLength, rs).Ok?
    ensures PicksFirstLongest(env, localLength, rs, Scan(env, localLength, rs).value)
    decreases |rs|
  {
    if rs != [] {
      var prefix, r := rs[..|rs| - 1], rs[|rs| - 1];
      ScanPicksFirstLongest(env, localLength, prefix);
      var st0 := Scan(env, localLength, prefix).value;
      var st := Scan(env, localLength, rs).value;
      assert st == Step(env, st0, r).value;
      forall j | 0 <= j < |prefix|
        ensures rs[j] == prefix[j]
      {
      }
      if st == st0 {
        if Qualifies(env, localLength, r) {
          assert r.length <= st0.maxLength;
        }
        if st.longest.Some? {
          var j :| 0 <= j < |prefix| && FirstOfLength(env, localLength, prefix, j, st.maxLength)
                   && st.longest.value == prefix[j].chain;
          assert FirstOfLength(env, localLength, rs, j, st.maxLength);
        }
      } else {
        var last := |rs| - 1;
        assert Qualifies(env, localLength, rs[last]);
        assert FirstOfLength(env, localLength, rs, last, st.maxLength);
      }
    }
  }

  /** A scan raises only because some peer was unreachable, or sent an empty chain with a reported length above the local one. */
  lemma {:induction false} ScanRaisedCause(env: Primitives, localLength: int, rs: seq<PeerResponse>)
    requires Scan(env, localLength, rs).Raised?
    ensures exists j | 0 <= j < |rs| ::
              || rs[j].RequestFailed?
              || (rs[j].status == 200 && rs[j].chain == [] && rs[j].length > localLength)
    decreases |rs|
  {
    var prefix, r := rs[..|rs| - 1], rs[|rs| - 1];
    if Scan(env, localLength, prefix).Raised? {
      ScanRaisedCause(env, localLength, prefix);
      var j :| 0 <= j < |prefix| &&
               (|| prefix[j].RequestFailed?
                || (prefix[j].status == 200 && prefix[j].chain == [] && prefix[j].length > localLength));
      assert rs[j] == prefix[j];
    } else {
      ScanPicksFirstLongest(env, localLength, prefix);
      assert rs[|rs| - 1] == r;
    }
  }

  /**
   * Local length 3, one peer with a valid chain reported at 5 and one at 4:
   * the chain reported at 5 is adopted, whichever peer is visited first.
   */
  lemma LongestPeerWinsEitherOrder(env: Primitives, a: seq<Block>, b: seq<Block>)
    requires |a| >= 1 && ChainValid(env, a) && |b| >= 1 && ChainValid(env, b)
    ensures Scan(env, 3, [Reply(200, 5, a), Reply(200, 4, b)]) == Ok(ScanState(5, Some(a)))
    ensures Scan(env, 3, [Reply(200, 4, b), Reply(200, 5, a)]) == Ok(ScanState(5, Some(a)))
  {
    var ab, ba := [Reply(200, 5, a), Reply(200, 4, b)], [Reply(200, 4, b), Reply(200, 5, a)];
    assert ab[..1] == [Reply(200, 5, a)] && ab[..1][..0] == [];
    assert Scan(env, 3, ab[..1]) == Ok(ScanState(5, Some(a)));
    assert ba[..1] == [Reply(200, 4, b)] && ba[..1][..0] == [];
    assert Scan(env, 3, ba[..1]) == Ok(ScanState(4, Some(b)));
  }

  /**
   * The comparison uses the length the peer reports, not the length of the
   * chain it sends: a one-block chain reported at 10 replaces a local chain
   * of 3 blocks.
   */
  lemma ReportedLengthIsTrusted(env: Primitives, g: Block)
    ensures Scan(env, 3, [Reply(200, 10, [g])]) == Ok(ScanState(10, Some([g])))
  {
    assert [Reply(200, 10, [g])][..0] == [];
  }
}
