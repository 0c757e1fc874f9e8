/** The address page (`handle_address`): the per-chain balance, received and
    sent totals gathered by `adj_balance` over the address's transaction
    points, and the history table's running balance. */
module AddressHistory {
  import opened Prelude

  /** One row of the address history: an output paying the address
      (`is_in` 0, positive value) or an input spending from it (`is_in` 1,
      the spent output's value negated). */
  datatype TxPoint = TxPoint(nTime: int, chainId: int, height: int, isIn: bool,
                             blkHash: string, txHash: string, pos: int, value: int)

  /** The chains of some points, in order. */
  function ChainIds(points: seq<TxPoint>): (ids: seq<int>)
    ensures |ids| == |points| && forall k :: 0 <= k < |points| ==> ids[k] == points[k].chainId
  {
    if points == [] then [] else ChainIds(points[..|points| - 1]) + [points[|points| - 1].chainId]
  }

  /** The net value of the points on chain `c`. */
  function ChainSum(points: seq<TxPoint>, c: int): int
  {
    if points == [] then 0
    else
      var p := points[|points| - 1];
      ChainSum(points[..|points| - 1], c) + (if p.chainId == c then p.value else 0)
  }

  /** The positive values on chain `c`. */
  function Received(points: seq<TxPoint>, c: int): int
  {
    if points == [] then 0
    else
      var p := points[|points| - 1];
      Received(points[..|points| - 1], c) + (if p.chainId == c && p.value > 0 then p.value else 0)
  }

  /** The other values on chain `c`, negated. */
  function Sent(points: seq<TxPoint>, c: int): int
  {
    if points == [] then 0
    else
      var p := points[|points| - 1];
      Sent(points[..|points| - 1], c) + (if p.chainId == c && p.value <= 0 then -p.value else 0)
  }

  /** The number of points that are inputs (`isIn`) or outputs (`!isIn`). */
  function Count(points: seq<TxPoint>, isIn: bool): nat
  {
    if points == [] then 0
    else Count(points[..|points| - 1], isIn) + (if points[|points| - 1].isIn == isIn then 1 else 0)
  }

  /** The balance is what was received less what was sent, and neither of
      those is negative. */
  lemma {:induction false} BalanceIsReceivedLessSent(points: seq<TxPoint>, c: int)
    ensures ChainSum(points, c) == Received(points, c) - Sent(points, c)
    ensures Received(points, c) >= 0 && Sent(points, c) >= 0
  {
    if points != [] {
      BalanceIsReceivedLessSent(points[..|points| - 1], c);
    }
  }

  /** The points of chain `c` after the last one of that chain add nothing. */
  lemma {:induction false} LaterChainsAddNothing(points: seq<TxPoint>, c: int, n: nat)
    requires n <= |points|
    requires forall k :: n <= k < |points| ==> points[k].chainId != c
    ensures ChainSum(points, c) == ChainSum(points[..n], c)
    decreases |points|
  {
    if |points| > n {
      var p := points[..|points| - 1];
      assert p[..n] == points[..n];
      LaterChainsAddNothing(p, c, n);
    } else {
      assert points[..n] == points;
    }
  }

  /** The history table's balance column on a chain's last row is that
      chain's balance shown at the top of the page. */
  lemma LastRowShowsBalance(points: seq<TxPoint>, k: nat)
    requires k < |points|
    requires forall j :: k < j < |points| ==> points[j].chainId != points[k].chainId
    ensures ChainSum(points[..k + 1], points[k].chainId) == ChainSum(points, points[k].chainId)
  {
    LaterChainsAddNothing(points, points[k].chainId, k + 1);
  }

  /** A dictionary as `adj_balance` finds it for chain `c`: as it was when
      the chain is known, with a zero entry added when it is new. */
  function Listed(m: map<int, int>, known: bool, c: int): map<int, int>
    requires known ==> c in m
  {
    if known then m else m[c := 0]
  }

  /** `m[c] += v` on the dictionary as `adj_balance` finds it. */
  function Credit(m: map<int, int>, known: bool, c: int, v: int): map<int, int>
    requires known ==> c in m
  {
    var l := Listed(m, known, c);
    l[c := l[c] + v]
  }

  /** Crediting changes no key of the dictionary as found. */
  lemma CreditKeys(m: map<int, int>, known: bool, c: int, v: int)
    requires known ==> c in m
    ensures forall x :: x in Credit(m, known, c, v) <==> x in Listed(m, known, c)
  {
  }

  /** The chains listed are those of the points, in first-seen order. */
  ghost predicate Listing(points: seq<TxPoint>, chainIds: seq<int>)
  {
    chainIds == FirstSeen(ChainIds(points))
  }

  /** Each dictionary has an entry for exactly the listed chains. */
  ghost predicate KeyedBy(chainIds: seq<int>, balance: map<int, int>, received: map<int, int>, sent: map<int, int>)
  {
    && (forall c :: c in balance <==> c in chainIds)
    && (forall c :: c in received <==> c in chainIds)
    && (forall c :: c in sent <==> c in chainIds)
  }

  ghost predicate BalancesOf(points: seq<TxPoint>, balance: map<int, int>)
  {
    forall c :: c in balance ==> balance[c] == ChainSum(points, c)
  }

  ghost predicate ReceivedOf(points: seq<TxPoint>, received: map<int, int>)
  {
    forall c :: c in received ==> received[c] == Received(points, c)
  }

  ghost predicate SentOf(points: seq<TxPoint>, sent: map<int, int>)
  {
    forall c :: c in sent ==> sent[c] == Sent(points, c)
  }

  lemma {:induction false} ListingStep(seen: seq<TxPoint>, p: TxPoint, chainIds: seq<int>, balance: map<int, int>)
    requires Listing(seen, chainIds)
    requires p.chainId in balance <==> p.chainId in chainIds
    ensures Listing(seen + [p], if p.chainId in balance then chainIds else chainIds + [p.chainId])
  {
    var ids := ChainIds(seen + [p]);
    PointAdded(seen, p);
    assert ids[..|ids| - 1] == ChainIds(seen);
  }

  lemma KeyedStep(chainIds: seq<int>, balance: map<int, int>, received: map<int, int>, sent: map<int, int>,
                  c: int, v: int)
    requires KeyedBy(chainIds, balance, received, sent)
    ensures KeyedBy(if c in balance then chainIds else chainIds + [c],
                    Credit(balance, c in balance, c, v),
                    if v > 0 then Credit(received, c in balance, c, v) else Listed(received, c in balance, c),
                    if v > 0 then Listed(sent, c in balance, c) else Credit(sent, c in balance, c, -v))
  {
    CreditKeys(balance, c in balance, c, v);
    CreditKeys(received, c in balance, c, v);
    CreditKeys(sent, c in balance, c, -v);
  }

  /** A chain not yet listed has no points before this one. */
  lemma {:induction false} NewChain(seen: seq<TxPoint>, chainIds: seq<int>, balance: map<int, int>,
                                    received: map<int, int>, sent: map<int, int>, c: int)
    requires Listing(seen, chainIds) && KeyedBy(chainIds, balance, received, sent)
    ensures c !in balance ==> ChainSum(seen, c) == 0 && Received(seen, c) == 0 && Sent(seen, c) == 0
  {
    if c !in balance {
      UnseenChain(seen, c);
    }
  }

  lemma {:induction false} BalancesStep(seen: seq<TxPoint>, p: TxPoint, balance: map<int, int>)
    requires BalancesOf(seen, balance)
    requires p.chainId !in balance ==> ChainSum(seen, p.chainId) == 0
    ensures BalancesOf(seen + [p], Credit(balance, p.chainId in balance, p.chainId, p.value))
  {
    PointAdded(seen, p);
  }

  lemma {:induction false} ReceivedStep(seen: seq<TxPoint>, p: TxPoint, balance: map<int, int>, received: map<int, int>)
    requires ReceivedOf(seen, received)
    requires p.chainId in balance ==> p.chainId in received
    requires p.chainId !in balance ==> Received(seen, p.chainId) == 0
    ensures ReceivedOf(seen + [p], if p.value > 0 then Credit(received, p.chainId in balance, p.chainId, p.value)
                                   else Listed(received, p.chainId in balance, p.chainId))
  {
    PointAdded(seen, p);
  }

  lemma {:induction false} SentStep(seen: seq<TxPoint>, p: TxPoint, balance: map<int, int>, sent: map<int, int>)
    requires SentOf(seen, sent)
    requires p.chainId in balance ==> p.chainId in sent
    requires p.chainId !in balance ==> Sent(seen, p.chainId) == 0
    ensures SentOf(seen + [p], if p.value > 0 then Listed(sent, p.chainId in balance, p.chainId)
                               else Credit(sent, p.chainId in balance, p.chainId, -p.value))
  {
    PointAdded(seen, p);
  }

  /** The dictionaries and counts hold the totals of exactly these points:
      an entry per listed chain, per chain the net, received and sent
      values, and the numbers of outputs and inputs. */
  ghost predicate Tracks(points: seq<TxPoint>, chainIds: seq<int>, balance: map<int, int>,
                         received: map<int, int>, sent: map<int, int>, outCount: nat, inCount: nat)
  {
    && KeyedBy(chainIds, balance, received, sent)
    && BalancesOf(points, balance)
    && ReceivedOf(points, received)
    && SentOf(points, sent)
    && outCount == Count(points, false)
    && inCount == Count(points, true)
  }

  /** One `adj_balance` step keeps the dictionaries tracking the points. */
  lemma {:induction false} AdjTracks(seen: seq<TxPoint>, p: TxPoint, chainIds: seq<int>, balance: map<int, int>,
                                     received: map<int, int>, sent: map<int, int>, outCount: nat, inCount: nat)
    requires Listing(seen, chainIds)
    requires Tracks(seen, chainIds, balance, received, sent, outCount, inCount)
    ensures Tracks(seen + [p], if p.chainId in balance then chainIds else chainIds + [p.chainId],
                   Credit(balance, p.chainId in balance, p.chainId, p.value),
                   if p.value > 0 then Credit(received, p.chainId in balance, p.chainId, p.value)
                   else Listed(received, p.chainId in balance, p.chainId),
                   if p.value > 0 then Listed(sent, p.chainId in balance, p.chainId)
                   else Credit(sent, p.chainId in balance, p.chainId, -p.value),
                   outCount + (if p.isIn then 0 else 1), inCount + (if p.isIn then 1 else 0))
  {
    NewChain(seen, chainIds, balance, received, sent, p.chainId);
    KeyedStep(chainIds, balance, received, sent, p.chainId, p.value);
    BalancesStep(seen, p, balance);
    ReceivedStep(seen, p, balance, received);
    SentStep(seen, p, balance, sent);
    CountStep(seen, p);
  }

  /** A chain with no points has nothing on it. */
  lemma {:induction false} UnseenChain(points: seq<TxPoint>, c: int)
    requires c !in FirstSeen(ChainIds(points))
    ensures ChainSum(points, c) == 0 && Received(points, c) == 0 && Sent(points, c) == 0
  {
    if points != [] {
      var p := points[..|points| - 1];
      PointAdded(p, points[|points| - 1]);
      LastSplit(points);
      UnseenChain(p, c);
    }
  }

  /** `adj_balance(txpoint)`: a chain seen for the first time is listed and
      gets zero entries; then the value is added to its balance and to what
      it received (a positive value) or sent (any other), and the point's
      kind is counted. The dictionaries go on tracking the points seen. */
  method AdjBalance(ghost seen: seq<TxPoint>, p: TxPoint, chainIds: seq<int>, balance: map<int, int>,
                    received: map<int, int>, sent: map<int, int>, outCount: nat, inCount: nat)
    returns (chainIds': seq<int>, balance': map<int, int>, received': map<int, int>, sent': map<int, int>,
             outCount': nat, inCount': nat)
    requires Listing(seen, chainIds)
    requires Tracks(seen, chainIds, balance, received, sent, outCount, inCount)
    ensures Listing(seen + [p], chainIds')
    ensures Tracks(seen + [p], chainIds', balance', received', sent', outCount', inCount')
  {
    ListingStep(seen, p, chainIds, balance);
    AdjTracks(seen, p, chainIds, balance, received, sent, outCount, inCount);
    var c, known := p.chainId, p.chainId in balance;
    chainIds' := if known then chainIds else chainIds + [c];
    balance' := Credit(balance, known, c, p.value);
    if p.value > 0 {
      received', sent' := Credit(received, known, c, p.value), Listed(sent, known, c);
    } else {
      received', sent' := Listed(received, known, c), Credit(sent, known, c, -p.value);
    }
    if p.isIn {
      outCount', inCount' := outCount, inCount + 1;
    } else {
      outCount', inCount' := outCount + 1, inCount;
    }
  }

  /** The first pass of the address page: every point, in order, through
      `adj_balance`, starting from an empty `chain_ids` list, empty
      `balance`, `received` and `sent` dictionaries and a zero `count`. */
  method Summarize(points: seq<TxPoint>)
    returns (chainIds: seq<int>, balance: map<int, int>, received: map<int, int>, sent: map<int, int>,
             outCount: nat, inCount: nat)
    ensures Listing(points, chainIds)
    ensures Tracks(points, chainIds, balance, received, sent, outCount, inCount)
  {
    chainIds, balance, received, sent := [], map[], map[], map[];
    outCount, inCount := 0, 0;
    var i := 0;
    while i < |points|
      invariant 0 <= i <= |points|
      invariant Listing(points[..i], chainIds)
      invariant Tracks(points[..i], chainIds, balance, received, sent, outCount, inCount)
    {
      chainIds, balance, received, sent, outCount, inCount :=
        AdjBalance(points[..i], points[i], chainIds, balance, received, sent, outCount, inCount);
      PrefixSnoc(points, i);
      i := i + 1;
    }
    AppendEmpty(points);
  }

  /** `balance[chain_id] = 0` for every listed chain, before the history
      traversal. */
  method ResetBalances(chainIds: seq<int>, balance: map<int, int>) returns (reset: map<int, int>)
    ensures forall c :: c in reset <==> c in balance || c in chainIds
    ensures forall c :: c in reset ==> reset[c] == if c in chainIds then 0 else balance[c]
  {
    reset := balance;
    var j := 0;
    while j < |chainIds|
      invariant 0 <= j <= |chainIds|
      invariant forall c :: c in reset <==> c in balance || c in chainIds[..j]
      invariant forall c :: c in reset ==> reset[c] == if c in chainIds[..j] then 0 else balance[c]
    {
      PrefixSnoc(chainIds, j);
      reset := reset[chainIds[j] := 0];
      j := j + 1;
    }
    AppendEmpty(chainIds);
  }

  /** The second pass: the listed chains' balances are reset to zero, then
      each point is added again and its row shows its chain's balance so
      far. */
  method History(points: seq<TxPoint>, chainIds: seq<int>, balance: map<int, int>)
    returns (shown: seq<int>, final: map<int, int>)
    requires forall k :: 0 <= k < |points| ==> points[k].chainId in chainIds
    ensures |shown| == |points|
    ensures forall k :: 0 <= k < |points| ==> shown[k] == ChainSum(points[..k + 1], points[k].chainId)
    ensures forall c :: c in final <==> c in balance || c in chainIds
    ensures forall c :: c in chainIds ==> final[c] == ChainSum(points, c)
  {
    final := ResetBalances(chainIds, balance);
    shown := [];
    var i := 0;
    while i < |points|
      invariant 0 <= i <= |points|
      invariant forall c :: c in final <==> c in balance || c in chainIds
      invariant forall c :: c in chainIds ==> final[c] == ChainSum(points[..i], c)
      invariant |shown| == i
      invariant forall k :: 0 <= k < i ==> shown[k] == ChainSum(points[..k + 1], points[k].chainId)
    {
      var c := points[i].chainId;
      ChainSumStep(points, i);
      final := final[c := final[c] + points[i].value];
      shown := shown + [final[c]];
      i := i + 1;
    }
    AppendEmpty(points);
  }

  /** The address page's totals and history column: the first pass, the
      reset, and the second pass; each chain's running balance ends where
      the balance at the top of the page says. */
  method AddressPage(points: seq<TxPoint>)
    returns (chainIds: seq<int>, balance: map<int, int>, received: map<int, int>, sent: map<int, int>,
             outCount: nat, inCount: nat, shown: seq<int>, after: map<int, int>)
    ensures Listing(points, chainIds)
    ensures Tracks(points, chainIds, balance, received, sent, outCount, inCount)
    ensures |shown| == |points|
    ensures forall k :: 0 <= k < |points| ==> shown[k] == ChainSum(points[..k + 1], points[k].chainId)
    ensures forall c :: c in balance ==> received[c] - sent[c] == balance[c]
    ensures forall c :: c in after <==> c in balance
    ensures forall c :: c in balance ==> after[c] == balance[c]
  {
    chainIds, balance, received, sent, outCount, inCount := Summarize(points);
    forall k | 0 <= k < |points|
      ensures points[k].chainId in chainIds
    {
      ChainListed(points, k);
    }
    shown, after := History(points, chainIds, balance);
    forall c | c in balance
      ensures received[c] - sent[c] == balance[c]
    {
      BalanceIsReceivedLessSent(points, c);
    }
  }

  lemma {:induction false} ChainSumStep(points: seq<TxPoint>, i: nat)
    requires i < |points|
    ensures forall c :: ChainSum(points[..i + 1], c) == ChainSum(points[..i], c) + (if points[i].chainId == c then points[i].value else 0)
  {
    PrefixSnoc(points, i);
    PointAdded(points[..i], points[i]);
  }

  /** The page reports the address as not seen on the network exactly
      when it has no points: no chain is listed then. */
  lemma NoChainsIffNoPoints(points: seq<TxPoint>)
    ensures FirstSeen(ChainIds(points)) == [] <==> points == []
  {
    if points != [] {
      assert ChainIds(points)[0] in FirstSeen(ChainIds(points));
    }
  }

  /** How one more point changes the totals. */
  lemma {:induction false} PointAdded(seen: seq<TxPoint>, p: TxPoint)
    ensures ChainIds(seen + [p]) == ChainIds(seen) + [p.chainId]
    ensures forall c :: ChainSum(seen + [p], c) == ChainSum(seen, c) + (if p.chainId == c then p.value else 0)
    ensures forall c :: Received(seen + [p], c) == Received(seen, c) + (if p.chainId == c && p.value > 0 then p.value else 0)
    ensures forall c :: Sent(seen + [p], c) == Sent(seen, c) + (if p.chainId == c && p.value <= 0 then -p.value else 0)
    ensures Count(seen + [p], true) == Count(seen, true) + (if p.isIn then 1 else 0)
    ensures Count(seen + [p], false) == Count(seen, false) + (if p.isIn then 0 else 1)
  {
    var s := seen + [p];
    assert s[..|s| - 1] == seen;
  }

  lemma {:induction false} CountStep(seen: seq<TxPoint>, p: TxPoint)
    ensures Count(seen + [p], true) == Count(seen, true) + (if p.isIn then 1 else 0)
    ensures Count(seen + [p], false) == Count(seen, false) + (if p.isIn then 0 else 1)
  {
    LastSplit(seen + [p]);
    assert (seen + [p])[..|seen|] == seen;
  }

  /** Every point's chain is among the first-seen chains. */
  lemma {:induction false} ChainListed(points: seq<TxPoint>, i: nat)
    requires i < |points|
    ensures points[i].chainId in FirstSeen(ChainIds(points))
  {
    assert ChainIds(points)[i] == points[i].chainId;
  }
}
