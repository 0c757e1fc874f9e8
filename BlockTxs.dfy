/** The transaction table of the block page (`_show_block`): output and input
    rows grouped by transaction in first-seen order with per-transaction
    totals, the fee column with its proof-of-stake rule, and `sum_values` of
    the transaction page. */
module BlockTxs {
  import opened Prelude
  import opened Hex

  // ---------------------------------------------------------------------------
  // Rows and transactions

  /** One row of `txout_detail` for the block, in `tx_pos, txout_pos` order. */
  datatype OutRow = OutRow(txId: int, hash: string, size: int, value: int, pubkeyHash: Option<seq<byte>>)

  /** One row of `txin_detail`; the value is NULL for a coinbase input. */
  datatype InRow = InRow(txId: int, value: Option<int>, pubkeyHash: Option<seq<byte>>)

  /** An entry of a transaction's `out` or `in` list. */
  datatype Leg = Leg(value: int, pubkeyHash: Option<seq<byte>>)

  /** The dictionary `txs[tx_id]`. */
  datatype Tx = Tx(hash: string, totalOut: int, totalIn: int, outs: seq<Leg>, ins: seq<Leg>, size: int)

  /** The hash shown for a transaction that has inputs in the block but no outputs. */
  const NoOutputHash: string := "AssertionFailedTxInputNoOutput"

  /** The entry created for such a transaction, before its inputs are added. */
  const InputsOnly: Tx := Tx(NoOutputHash, 0, 0, [], [], -1)

  /** `0 if row[1] is None else int(row[1])`. */
  function InValue(r: InRow): int
  {
    GetOr(r.value, 0)
  }

  function OutLeg(r: OutRow): Leg
  {
    Leg(r.value, r.pubkeyHash)
  }

  function InLeg(r: InRow): Leg
  {
    Leg(InValue(r), r.pubkeyHash)
  }

  /** The sum of the values of some legs. */
  function Total(legs: seq<Leg>): int
  {
    if legs == [] then 0 else Total(legs[..|legs| - 1]) + legs[|legs| - 1].value
  }

  /** The sum of all output values, `block_out`. */
  function OutSum(rows: seq<OutRow>): int
  {
    if rows == [] then 0 else OutSum(rows[..|rows| - 1]) + rows[|rows| - 1].value
  }

  /** The sum of all input values, `block_in`. */
  function InSum(rows: seq<InRow>): int
  {
    if rows == [] then 0 else InSum(rows[..|rows| - 1]) + InValue(rows[|rows| - 1])
  }

  /** The outputs of one transaction, in row order. */
  function OutLegs(rows: seq<OutRow>, id: int): (legs: seq<Leg>)
    ensures |legs| <= |rows|
  {
    if rows == [] then []
    else OutLegs(rows[..|rows| - 1], id) + (if rows[|rows| - 1].txId == id then [OutLeg(rows[|rows| - 1])] else [])
  }

  /** The inputs of one transaction, in row order. */
  function InLegs(rows: seq<InRow>, id: int): (legs: seq<Leg>)
    ensures |legs| <= |rows|
  {
    if rows == [] then []
    else InLegs(rows[..|rows| - 1], id) + (if rows[|rows| - 1].txId == id then [InLeg(rows[|rows| - 1])] else [])
  }

  /** The first output row of a transaction, which supplies its hash and size. */
  function FirstOut(rows: seq<OutRow>, id: int): (r: Option<OutRow>)
    ensures r.None? <==> OutLegs(rows, id) == []
    ensures r.Some? ==> r.value.txId == id
  {
    if rows == [] then None
    else match FirstOut(rows[..|rows| - 1], id)
      case Some(f) => Some(f)
      case None => if rows[|rows| - 1].txId == id then Some(rows[|rows| - 1]) else None
  }

  /** What `txs[id]` holds once every row has been read. */
  function TxOf(outs: seq<OutRow>, ins: seq<InRow>, id: int): Tx
  {
    var o := OutLegs(outs, id);
    var i := InLegs(ins, id);
    match FirstOut(outs, id)
    case Some(f) => Tx(f.hash, Total(o), Total(i), o, i, f.size)
    case None => Tx(NoOutputHash, Total(o), Total(i), o, i, -1)
  }

  function OutIds(rows: seq<OutRow>): (ids: seq<int>)
    ensures |ids| == |rows| && forall k :: 0 <= k < |rows| ==> ids[k] == rows[k].txId
  {
    if rows == [] then [] else OutIds(rows[..|rows| - 1]) + [rows[|rows| - 1].txId]
  }

  function InIds(rows: seq<InRow>): (ids: seq<int>)
    ensures |ids| == |rows| && forall k :: 0 <= k < |rows| ==> ids[k] == rows[k].txId
  {
    if rows == [] then [] else InIds(rows[..|rows| - 1]) + [rows[|rows| - 1].txId]
  }

  // ---------------------------------------------------------------------------
  // Grouping

  /** The `txs` entry after one more output row of its transaction. */
  function WithOut(tx: Tx, r: OutRow): Tx
  {
    tx.(totalOut := tx.totalOut + r.value, outs := tx.outs + [OutLeg(r)])
  }

  /** The `txs` entry after one more input row of its transaction. */
  function WithIn(tx: Tx, r: InRow): Tx
  {
    tx.(totalIn := tx.totalIn + InValue(r), ins := tx.ins + [InLeg(r)])
  }

  /** The two passes of `_show_block` over the output and input rows: the
      identifiers in first-seen order, each transaction's entry as `TxOf`
      describes it, and the block totals, which the entries partition. */
  method GroupTxs(outs: seq<OutRow>, ins: seq<InRow>)
      returns (txIds: seq<int>, txs: map<int, Tx>, blockOut: int, blockIn: int)
    ensures txIds == FirstSeen(OutIds(outs) + InIds(ins))
    ensures forall id :: id in txs <==> id in txIds
    ensures forall id :: id in txs ==> txs[id] == TxOf(outs, ins, id)
    ensures blockOut == OutSum(outs) && blockIn == InSum(ins)
    ensures forall k :: 0 <= k < |txIds| ==> txIds[k] in txs
    ensures OutTotal(txIds, txs, |txIds|) == blockOut && InTotal(txIds, txs, |txIds|) == blockIn
  {
    txIds, txs, blockOut := GroupOutputs(outs);
    txIds, txs, blockIn := GroupInputs(outs, ins, txIds, txs);
    BlockPartition(outs, ins, txIds, txs);
  }

  /** The identifiers listed so far, in `tx_ids`, and the `txs` dictionary. */
  datatype Table = Table(txIds: seq<int>, txs: map<int, Tx>)

  /** One output row read into the table: a new transaction gets an entry
      with the row's hash and size, then the output is added to its entry. */
  function AddOutput(t: Table, r: OutRow): Table
  {
    var tx := if r.txId in t.txs then t.txs[r.txId] else Tx(r.hash, 0, 0, [], [], r.size);
    Table(if r.txId in t.txs then t.txIds else t.txIds + [r.txId], t.txs[r.txId := WithOut(tx, r)])
  }

  /** One input row read into the table: a transaction without outputs gets
      an `InputsOnly` entry, then the input is added to its entry. */
  function AddInput(t: Table, r: InRow): Table
  {
    var tx := if r.txId in t.txs then t.txs[r.txId] else InputsOnly;
    Table(if r.txId in t.txs then t.txIds else t.txIds + [r.txId], t.txs[r.txId := WithIn(tx, r)])
  }

  /** The table after the output rows, one at a time. */
  function ReadOutputs(rows: seq<OutRow>): Table
  {
    if rows == [] then Table([], map[]) else AddOutput(ReadOutputs(rows[..|rows| - 1]), rows[|rows| - 1])
  }

  /** The table after some input rows, one at a time. */
  function ReadInputs(t: Table, rows: seq<InRow>): Table
  {
    if rows == [] then t else AddInput(ReadInputs(t, rows[..|rows| - 1]), rows[|rows| - 1])
  }

  /** The pass over the output rows. */
  method GroupOutputs(outs: seq<OutRow>) returns (txIds: seq<int>, txs: map<int, Tx>, blockOut: int)
    ensures txIds == FirstSeen(OutIds(outs))
    ensures forall id :: id in txs <==> id in txIds
    ensures forall id :: id in txs ==> txs[id] == TxOf(outs, [], id)
    ensures forall id :: id !in txs ==> TxOf(outs, [], id) == InputsOnly
    ensures blockOut == OutSum(outs)
    ensures Table(txIds, txs) == ReadOutputs(outs)
  {
    txIds, txs, blockOut := [], map[], 0;
    var i := 0;
    while i < |outs|
      invariant 0 <= i <= |outs|
      invariant Table(txIds, txs) == ReadOutputs(outs[..i])
      invariant blockOut == OutSum(outs[..i])
    {
      var r := outs[i];
      ghost var before := Table(txIds, txs);
      if r.txId !in txs {
        txIds := txIds + [r.txId];
        txs := txs[r.txId := Tx(r.hash, 0, 0, [], [], r.size)];
      }
      txs := txs[r.txId := WithOut(txs[r.txId], r)];
      assert Table(txIds, txs) == AddOutput(before, r);
      blockOut := blockOut + r.value;
      ReadOutputsStep(outs, i);
      i := i + 1;
    }
    AppendEmpty(outs);
    ReadOutputsDescribes(outs);
  }

  /** The pass over the input rows, continuing from the output pass. */
  method GroupInputs(outs: seq<OutRow>, ins: seq<InRow>, txIds0: seq<int>, txs0: map<int, Tx>)
      returns (txIds: seq<int>, txs: map<int, Tx>, blockIn: int)
    requires Table(txIds0, txs0) == ReadOutputs(outs)
    ensures txIds == FirstSeen(OutIds(outs) + InIds(ins))
    ensures forall id :: id in txs <==> id in txIds
    ensures forall id :: id in txs ==> txs[id] == TxOf(outs, ins, id)
    ensures blockIn == InSum(ins)
  {
    txIds, txs, blockIn := txIds0, txs0, 0;
    var j := 0;
    while j < |ins|
      invariant 0 <= j <= |ins|
      invariant Table(txIds, txs) == ReadInputs(ReadOutputs(outs), ins[..j])
      invariant blockIn == InSum(ins[..j])
    {
      var r := ins[j];
      ghost var before := Table(txIds, txs);
      if r.txId !in txs {
        txIds := txIds + [r.txId];
        txs := txs[r.txId := InputsOnly];
      }
      txs := txs[r.txId := WithIn(txs[r.txId], r)];
      assert Table(txIds, txs) == AddInput(before, r);
      blockIn := blockIn + InValue(r);
      ReadInputsStep(ReadOutputs(outs), ins, j);
      j := j + 1;
    }
    AppendEmpty(ins);
    ReadInputsDescribes(outs, ins);
  }

  /** What the table holds after some output rows. */
  ghost predicate OutsRead(rows: seq<OutRow>, t: Table)
  {
    && t.txIds == FirstSeen(OutIds(rows))
    && (forall id :: id in t.txs <==> id in t.txIds)
    && (forall id :: id in t.txs <==> FirstOut(rows, id).Some?)
    && (forall id :: id in t.txs ==> t.txs[id] == TxOf(rows, [], id))
  }

  /** What the table holds after the output rows and some input rows. */
  ghost predicate InsRead(outs: seq<OutRow>, rows: seq<InRow>, t: Table)
  {
    && t.txIds == FirstSeen(OutIds(outs) + InIds(rows))
    && (forall id :: id in t.txs <==> id in t.txIds)
    && (forall id :: id in t.txs ==> t.txs[id] == TxOf(outs, rows, id))
    && (forall id :: id !in t.txs ==> TxOf(outs, rows, id) == InputsOnly)
  }

  lemma {:induction false} ReadOutputsDescribes(rows: seq<OutRow>)
    ensures OutsRead(rows, ReadOutputs(rows))
    ensures forall id :: id !in ReadOutputs(rows).txs ==> TxOf(rows, [], id) == InputsOnly
  {
    if rows != [] {
      var p := rows[..|rows| - 1];
      ReadOutputsDescribes(p);
      LastSplit(rows);
      OutsReadStep(p, rows[|rows| - 1], ReadOutputs(p));
    }
    forall id | id !in ReadOutputs(rows).txs ensures TxOf(rows, [], id) == InputsOnly {
      assert OutLegs(rows, id) == [];
    }
  }

  lemma {:induction false} ReadInputsDescribes(outs: seq<OutRow>, rows: seq<InRow>)
    ensures InsRead(outs, rows, ReadInputs(ReadOutputs(outs), rows))
  {
    if rows == [] {
      ReadOutputsDescribes(outs);
      AppendEmpty(OutIds(outs));
    } else {
      var p := rows[..|rows| - 1];
      ReadInputsDescribes(outs, p);
      LastSplit(rows);
      InsReadStep(outs, p, rows[|rows| - 1], ReadInputs(ReadOutputs(outs), p));
    }
  }

  lemma {:induction false} OutsReadStep(rows: seq<OutRow>, r: OutRow, t: Table)
    requires OutsRead(rows, t)
    ensures OutsRead(rows + [r], AddOutput(t, r))
  {
    var t' := AddOutput(t, r);
    OutIdsStep(rows, r);
    forall id ensures id in t'.txs <==> FirstOut(rows + [r], id).Some? {
      OutStep(rows, r, id);
    }
    forall id | id in t'.txs ensures t'.txs[id] == TxOf(rows + [r], [], id) {
      OutStep(rows, r, id);
    }
  }

  lemma {:induction false} InsReadStep(outs: seq<OutRow>, rows: seq<InRow>, r: InRow, t: Table)
    requires InsRead(outs, rows, t)
    ensures InsRead(outs, rows + [r], AddInput(t, r))
  {
    InIdsStep(rows, r);
    AppendAssoc(OutIds(outs), InIds(rows), [r.txId]);
    InsEntriesStep(outs, rows, r, t);
  }

  lemma {:induction false} InsEntriesStep(outs: seq<OutRow>, rows: seq<InRow>, r: InRow, t: Table)
    requires forall id :: id in t.txs ==> t.txs[id] == TxOf(outs, rows, id)
    requires forall id :: id !in t.txs ==> TxOf(outs, rows, id) == InputsOnly
    ensures forall id :: id in AddInput(t, r).txs ==> AddInput(t, r).txs[id] == TxOf(outs, rows + [r], id)
    ensures forall id :: id !in AddInput(t, r).txs ==> TxOf(outs, rows + [r], id) == InputsOnly
  {
    var t' := AddInput(t, r);
    forall id
      ensures (id in t'.txs ==> t'.txs[id] == TxOf(outs, rows + [r], id))
           && (id !in t'.txs ==> TxOf(outs, rows + [r], id) == InputsOnly)
    {
      InStep(outs, rows, r, id);
    }
  }

  /** How one more output row changes one entry. */
  lemma {:induction false} OutStep(rows: seq<OutRow>, r: OutRow, id: int)
    ensures FirstOut(rows + [r], id).Some? <==> FirstOut(rows, id).Some? || id == r.txId
    ensures TxOf(rows + [r], [], id)
            == if id != r.txId then TxOf(rows, [], id)
               else if FirstOut(rows, id).Some? then WithOut(TxOf(rows, [], id), r)
               else WithOut(Tx(r.hash, 0, 0, [], [], r.size), r)
  {
    var s := rows + [r];
    assert s[..|s| - 1] == rows;
    var extra := if r.txId == id then [OutLeg(r)] else [];
    TotalAppend(OutLegs(rows, id), extra);
    assert [] + extra == extra;
  }

  /** How one more input row changes one entry. */
  lemma {:induction false} InStep(outs: seq<OutRow>, rows: seq<InRow>, r: InRow, id: int)
    ensures TxOf(outs, rows + [r], id) == if id != r.txId then TxOf(outs, rows, id) else WithIn(TxOf(outs, rows, id), r)
  {
    var s := rows + [r];
    assert s[..|s| - 1] == rows;
    var extra := if r.txId == id then [InLeg(r)] else [];
    TotalAppend(InLegs(rows, id), extra);
  }

  lemma {:induction false} OutIdsStep(rows: seq<OutRow>, r: OutRow)
    ensures OutIds(rows + [r]) == OutIds(rows) + [r.txId]
    ensures OutSum(rows + [r]) == OutSum(rows) + r.value
  {
    var s := rows + [r];
    assert s[..|s| - 1] == rows;
  }

  /** Reading one more output row is one more `AddOutput`. */
  lemma ReadOutputsStep(outs: seq<OutRow>, i: nat)
    requires i < |outs|
    ensures ReadOutputs(outs[..i + 1]) == AddOutput(ReadOutputs(outs[..i]), outs[i])
    ensures OutSum(outs[..i + 1]) == OutSum(outs[..i]) + outs[i].value
  {
    PrefixSnoc(outs, i);
    OutIdsStep(outs[..i], outs[i]);
  }

  /** Reading one more input row is one more `AddInput`. */
  lemma ReadInputsStep(t: Table, ins: seq<InRow>, j: nat)
    requires j < |ins|
    ensures ReadInputs(t, ins[..j + 1]) == AddInput(ReadInputs(t, ins[..j]), ins[j])
    ensures InSum(ins[..j + 1]) == InSum(ins[..j]) + InValue(ins[j])
  {
    PrefixSnoc(ins, j);
    InIdsStep(ins[..j], ins[j]);
  }

  lemma {:induction false} InIdsStep(rows: seq<InRow>, r: InRow)
    ensures InIds(rows + [r]) == InIds(rows) + [r.txId]
    ensures InSum(rows + [r]) == InSum(rows) + InValue(r)
  {
    var s := rows + [r];
    assert s[..|s| - 1] == rows;
  }

  lemma {:induction false} TotalAppend(a: seq<Leg>, b: seq<Leg>)
    requires |b| <= 1
    ensures Total(a + b) == Total(a) + Total(b)
  {
    if b != [] {
      assert (a + b)[..|a + b| - 1] == a;
      assert b[..0] == [];
    } else {
      assert a + b == a;
    }
  }

  // ---------------------------------------------------------------------------
  // Block totals

  /** The sum of `total_out` over the first `n` listed transactions. */
  function OutTotal(txIds: seq<int>, txs: map<int, Tx>, n: nat): int
    requires n <= |txIds| && forall k :: 0 <= k < |txIds| ==> txIds[k] in txs
  {
    if n == 0 then 0 else OutTotal(txIds, txs, n - 1) + txs[txIds[n - 1]].totalOut
  }

  /** The sum of `total_in` over the first `n` listed transactions. */
  function InTotal(txIds: seq<int>, txs: map<int, Tx>, n: nat): int
    requires n <= |txIds| && forall k :: 0 <= k < |txIds| ==> txIds[k] in txs
  {
    if n == 0 then 0 else InTotal(txIds, txs, n - 1) + txs[txIds[n - 1]].totalIn
  }

  /** The output values, summed per listed transaction. */
  function OutsOver(ids: seq<int>, rows: seq<OutRow>): int
  {
    if ids == [] then 0 else OutsOver(ids[..|ids| - 1], rows) + Total(OutLegs(rows, ids[|ids| - 1]))
  }

  /** The input values, summed per listed transaction. */
  function InsOver(ids: seq<int>, rows: seq<InRow>): int
  {
    if ids == [] then 0 else InsOver(ids[..|ids| - 1], rows) + Total(InLegs(rows, ids[|ids| - 1]))
  }

  /** The per-transaction totals add up to the block totals: every row
      belongs to exactly one listed transaction. */
  lemma {:induction false} BlockPartition(outs: seq<OutRow>, ins: seq<InRow>, txIds: seq<int>, txs: map<int, Tx>)
    requires txIds == FirstSeen(OutIds(outs) + InIds(ins))
    requires forall id :: id in txs <==> id in txIds
    requires forall id :: id in txs ==> txs[id] == TxOf(outs, ins, id)
    requires forall k :: 0 <= k < |txIds| ==> txIds[k] in txs
    ensures OutTotal(txIds, txs, |txIds|) == OutSum(outs)
    ensures InTotal(txIds, txs, |txIds|) == InSum(ins)
  {
    RowsListed(outs, ins);
    OutsPartition(txIds, outs);
    InsPartition(txIds, ins);
    AppendEmpty(txIds);
    TotalsOver(outs, ins, txIds, txs, |txIds|);
  }

  /** Every row's transaction is listed. */
  lemma {:induction false} RowsListed(outs: seq<OutRow>, ins: seq<InRow>)
    ensures forall k :: 0 <= k < |outs| ==> outs[k].txId in FirstSeen(OutIds(outs) + InIds(ins))
    ensures forall k :: 0 <= k < |ins| ==> ins[k].txId in FirstSeen(OutIds(outs) + InIds(ins))
  {
    var a := OutIds(outs);
    var b := InIds(ins);
    var f := FirstSeen(a + b);
    forall k | 0 <= k < |outs| ensures outs[k].txId in f {
      assert a[k] == outs[k].txId && (a + b)[k] == a[k];
    }
    forall k | 0 <= k < |ins| ensures ins[k].txId in f {
      assert b[k] == ins[k].txId && (a + b)[|a| + k] == b[k];
    }
  }

  lemma {:induction false} TotalsOver(outs: seq<OutRow>, ins: seq<InRow>, txIds: seq<int>, txs: map<int, Tx>, n: nat)
    requires n <= |txIds|
    requires forall k :: 0 <= k < |txIds| ==> txIds[k] in txs && txs[txIds[k]] == TxOf(outs, ins, txIds[k])
    ensures OutTotal(txIds, txs, n) == OutsOver(txIds[..n], outs)
    ensures InTotal(txIds, txs, n) == InsOver(txIds[..n], ins)
  {
    if n > 0 {
      TotalsOver(outs, ins, txIds, txs, n - 1);
      assert txIds[..n][..n - 1] == txIds[..n - 1];
    } else {
      assert txIds[..n] == [];
    }
  }

  lemma {:induction false} OutsPartition(ids: seq<int>, rows: seq<OutRow>)
    requires Distinct(ids)
    requires forall k :: 0 <= k < |rows| ==> rows[k].txId in ids
    ensures OutsOver(ids, rows) == OutSum(rows)
    decreases |rows|
  {
    if rows != [] {
      var p := rows[..|rows| - 1];
      var r := rows[|rows| - 1];
      forall k | 0 <= k < |p| ensures p[k].txId in ids {
        assert p[k] == rows[k];
      }
      OutsPartition(ids, p);
      LastSplit(rows);
      OutsOverStep(ids, p, r);
    } else {
      OutsOverEmpty(ids, rows);
    }
  }

  lemma {:induction false} OutsOverEmpty(ids: seq<int>, rows: seq<OutRow>)
    requires rows == []
    ensures OutsOver(ids, rows) == 0
  {
    if ids != [] {
      OutsOverEmpty(ids[..|ids| - 1], rows);
    }
  }

  /** One more row adds its value to the one listed transaction it belongs to. */
  lemma {:induction false} OutsOverStep(ids: seq<int>, rows: seq<OutRow>, r: OutRow)
    requires Distinct(ids)
    ensures OutsOver(ids, rows + [r]) == OutsOver(ids, rows) + (if r.txId in ids then r.value else 0)
  {
    var s := rows + [r];
    assert s[..|s| - 1] == rows;
    if ids != [] {
      var p := ids[..|ids| - 1];
      var last := ids[|ids| - 1];
      assert Distinct(p);
      OutsOverStep(p, rows, r);
      TotalAppend(OutLegs(rows, last), if r.txId == last then [OutLeg(r)] else []);
      if r.txId == last {
        assert r.txId !in p;
      }
      assert r.txId in ids <==> r.txId in p || r.txId == last;
    }
  }

  lemma {:induction false} InsPartition(ids: seq<int>, rows: seq<InRow>)
    requires Distinct(ids)
    requires forall k :: 0 <= k < |rows| ==> rows[k].txId in ids
    ensures InsOver(ids, rows) == InSum(rows)
    decreases |rows|
  {
    if rows != [] {
      var p := rows[..|rows| - 1];
      var r := rows[|rows| - 1];
      forall k | 0 <= k < |p| ensures p[k].txId in ids {
        assert p[k] == rows[k];
      }
      InsPartition(ids, p);
      LastSplit(rows);
      InsOverStep(ids, p, r);
    } else {
      InsOverEmpty(ids, rows);
    }
  }

  lemma {:induction false} InsOverEmpty(ids: seq<int>, rows: seq<InRow>)
    requires rows == []
    ensures InsOver(ids, rows) == 0
  {
    if ids != [] {
      InsOverEmpty(ids[..|ids| - 1], rows);
    }
  }

  lemma {:induction false} InsOverStep(ids: seq<int>, rows: seq<InRow>, r: InRow)
    requires Distinct(ids)
    ensures InsOver(ids, rows + [r]) == InsOver(ids, rows) + (if r.txId in ids then InValue(r) else 0)
  {
    var s := rows + [r];
    assert s[..|s| - 1] == rows;
    if ids != [] {
      var p := ids[..|ids| - 1];
      var last := ids[|ids| - 1];
      assert Distinct(p);
      InsOverStep(p, rows, r);
      TotalAppend(InLegs(rows, last), if r.txId == last then [InLeg(r)] else []);
      if r.txId == last {
        assert r.txId !in p;
      }
      assert r.txId in ids <==> r.txId in p || r.txId == last;
    }
  }

  // ---------------------------------------------------------------------------
  // Fees

  /** `block_hash[:4] > '0000'`: the block is shown as proof of stake. */
  predicate ProofOfStake(blockHash: string)
  {
    !StrLe(Slice(blockHash, 0, 4), "0000")
  }

  /** For a block hash of hexadecimal digits, proof of stake means exactly
      that the first four digits are not all zero. */
  lemma ProofOfStakeIffNonZeroPrefix(blockHash: string)
    requires |blockHash| >= 4 && IsLowerHex(blockHash)
    ensures ProofOfStake(blockHash) <==> blockHash[..4] != "0000"
  {
    var s := Slice(blockHash, 0, 4);
    assert s == blockHash[..4];
    var a := Codes(s);
    var z := Codes("0000");
    forall i | 0 <= i < 4 ensures z[i] <= a[i] {
      assert IsLowerHexChar(blockHash[i]);
    }
    LexPointwise(z, a);
    if s == "0000" {
      LexPointwise(a, z);
    } else {
      var i :| 0 <= i < 4 && s[i] != '0' && forall k :: 0 <= k < i ==> s[k] == '0'
        by { FirstNonZero(s); }
      assert a[..i] == z[..i];
      assert IsLowerHexChar(s[i]);
      LexFirstDifference(z, a, i);
    }
  }

  lemma FirstNonZero(s: string)
    requires |s| == 4 && s != "0000"
    ensures exists i :: 0 <= i < 4 && s[i] != '0' && forall k :: 0 <= k < i ==> s[k] == '0'
  {
    if s[0] != '0' {
      assert 0 <= 0 < 4 && s[0] != '0';
    } else if s[1] != '0' {
      assert forall k :: 0 <= k < 1 ==> s[k] == '0';
    } else if s[2] != '0' {
      assert forall k :: 0 <= k < 2 ==> s[k] == '0';
    } else {
      assert s[3] != '0';
      assert forall k :: 0 <= k < 3 ==> s[k] == '0';
    }
  }

  function Abs(x: int): int
  {
    if x < 0 then -x else x
  }

  /** `fees` before the proof-of-stake rule: inputs less outputs, and zero
      for the coinbase, the transaction listed first. */
  function RawFee(txIds: seq<int>, k: nat, tx: Tx): int
    requires k < |txIds|
  {
    if txIds[k] == txIds[0] then 0 else tx.totalIn - tx.totalOut
  }

  /** The fee shown for the transaction at 0-based position `k`: in a
      proof-of-stake block the second transaction, the coinstake, shows none. */
  function Fee(txIds: seq<int>, k: nat, tx: Tx, pos: bool): int
    requires k < |txIds|
  {
    if k == 1 && pos then 0 else RawFee(txIds, k, tx)
  }

  /** `posgen`: the size of the coinstake's fee, in a proof-of-stake block
      with at least two transactions; zero otherwise. */
  function PosGen(txIds: seq<int>, txs: map<int, Tx>, pos: bool): int
    requires forall k :: 0 <= k < |txIds| ==> txIds[k] in txs
  {
    if pos && |txIds| >= 2 then Abs(RawFee(txIds, 1, txs[txIds[1]])) else 0
  }

  /** The fee column of the transaction table, and `posgen`. */
  method FeeColumn(txIds: seq<int>, txs: map<int, Tx>, blockHash: string) returns (fees: seq<int>, posgen: int)
    requires forall k :: 0 <= k < |txIds| ==> txIds[k] in txs
    ensures |fees| == |txIds|
    ensures forall k :: 0 <= k < |txIds| ==> fees[k] == Fee(txIds, k, txs[txIds[k]], ProofOfStake(blockHash))
    ensures posgen == PosGen(txIds, txs, ProofOfStake(blockHash))
  {
    var pos := ProofOfStake(blockHash);
    fees, posgen := [], 0;
    var txnum := 0;
    while txnum < |txIds|
      invariant 0 <= txnum <= |txIds|
      invariant |fees| == txnum
      invariant forall k :: 0 <= k < txnum ==> fees[k] == Fee(txIds, k, txs[txIds[k]], pos)
      invariant posgen == (if txnum >= 2 then PosGen(txIds, txs, pos) else 0)
    {
      var tx := txs[txIds[txnum]];
      var isCoinbase := txIds[txnum] == txIds[0];
      var fee := tx.totalIn - tx.totalOut;
      if isCoinbase {
        fee := 0;
      }
      txnum := txnum + 1;
      if txnum == 2 && pos {
        posgen := Abs(fee);
        fee := 0;
      }
      fees := fees + [fee];
    }
  }

  function Sum(s: seq<int>): int
  {
    if s == [] then 0 else Sum(s[..|s| - 1]) + s[|s| - 1]
  }

  /** The fees shown add up to the block's inputs less its outputs, less the
      coinbase's own balance and, in a proof-of-stake block, the coinstake's. */
  lemma {:induction false} FeesBalance(txIds: seq<int>, txs: map<int, Tx>, pos: bool, fees: seq<int>)
    requires Distinct(txIds) && txIds != []
    requires forall k :: 0 <= k < |txIds| ==> txIds[k] in txs
    requires |fees| == |txIds|
    requires forall k :: 0 <= k < |txIds| ==> fees[k] == Fee(txIds, k, txs[txIds[k]], pos)
    ensures var coinbase := txs[txIds[0]];
            var stake := if pos && |txIds| >= 2 then txs[txIds[1]].totalIn - txs[txIds[1]].totalOut else 0;
            Sum(fees) == (InTotal(txIds, txs, |txIds|) - OutTotal(txIds, txs, |txIds|))
                         - (coinbase.totalIn - coinbase.totalOut) - stake
  {
    FeesPrefix(txIds, txs, pos, fees, |txIds|);
    assert fees[..|txIds|] == fees;
  }

  lemma {:induction false} FeesPrefix(txIds: seq<int>, txs: map<int, Tx>, pos: bool, fees: seq<int>, n: nat)
    requires Distinct(txIds) && txIds != []
    requires forall k :: 0 <= k < |txIds| ==> txIds[k] in txs
    requires |fees| == |txIds| && 1 <= n <= |txIds|
    requires forall k :: 0 <= k < |txIds| ==> fees[k] == Fee(txIds, k, txs[txIds[k]], pos)
    ensures var coinbase := txs[txIds[0]];
            var stake := if pos && n >= 2 then txs[txIds[1]].totalIn - txs[txIds[1]].totalOut else 0;
            Sum(fees[..n]) == (InTotal(txIds, txs, n) - OutTotal(txIds, txs, n))
                              - (coinbase.totalIn - coinbase.totalOut) - stake
  {
    assert fees[..n][..n - 1] == fees[..n - 1];
    if n == 1 {
      assert fees[..0] == [];
    } else {
      FeesPrefix(txIds, txs, pos, fees, n - 1);
      assert txIds[n - 1] != txIds[0];
    }
  }

  /** The block's transaction table: grouping, then the fee column. The
      coinbase generation, outputs less inputs, equals the fees shown plus
      the block's outputs less its inputs, plus the coinstake's balance in a
      proof-of-stake block. */
  method BlockTxTable(outs: seq<OutRow>, ins: seq<InRow>, blockHash: string)
      returns (txIds: seq<int>, txs: map<int, Tx>, blockOut: int, blockIn: int, fees: seq<int>, posgen: int)
    ensures txIds == FirstSeen(OutIds(outs) + InIds(ins))
    ensures forall id :: id in txs <==> id in txIds
    ensures forall id :: id in txs ==> txs[id] == TxOf(outs, ins, id)
    ensures blockOut == OutSum(outs) && blockIn == InSum(ins)
    ensures forall k :: 0 <= k < |txIds| ==> txIds[k] in txs
    ensures |fees| == |txIds|
    ensures forall k :: 0 <= k < |txIds| ==> fees[k] == Fee(txIds, k, txs[txIds[k]], ProofOfStake(blockHash))
    ensures posgen == PosGen(txIds, txs, ProofOfStake(blockHash))
    ensures txIds != [] ==>
              var coinbase := txs[txIds[0]];
              var stake := if ProofOfStake(blockHash) && |txIds| >= 2
                           then txs[txIds[1]].totalIn - txs[txIds[1]].totalOut else 0;
              coinbase.totalOut - coinbase.totalIn == Sum(fees) + (blockOut - blockIn) + stake
  {
    txIds, txs, blockOut, blockIn := GroupTxs(outs, ins);
    fees, posgen := FeeColumn(txIds, txs, blockHash);
    if txIds != [] {
      FeesBalance(txIds, txs, ProofOfStake(blockHash), fees);
    }
  }

  // ---------------------------------------------------------------------------
  // sum_values

  /** Some value is missing. */
  predicate AnyMissing(values: seq<Option<int>>)
  {
    exists k :: 0 <= k < |values| && values[k].None?
  }

  /** The sum of values none of which is missing. */
  function PresentSum(values: seq<Option<int>>): int
    requires !AnyMissing(values)
  {
    if values == [] then 0 else PresentSum(values[..|values| - 1]) + values[|values| - 1].value
  }

  /** `sum_values(rows)`: the sum of the rows' values, or `None` as soon as
      one of them is missing. */
  method SumValues(values: seq<Option<int>>) returns (r: Option<int>)
    ensures r.None? <==> AnyMissing(values)
    ensures r.Some? ==> r.value == PresentSum(values)
  {
    var ret := 0;
    var i := 0;
    while i < |values|
      invariant 0 <= i <= |values|
      invariant !AnyMissing(values[..i])
      invariant ret == PresentSum(values[..i])
    {
      if values[i].None? {
        return None;
      }
      assert values[..i + 1][..i] == values[..i];
      ret := ret + values[i].value;
      i := i + 1;
    }
    assert values[..i] == values;
    return Some(ret);
  }
}
