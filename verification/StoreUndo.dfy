/** Removing undoes adding: for outputs and transactions exactly when both look under the same
    amount, and for whole blocks. */
module StoreUndo {
  import opened Basics
  import opened BlockStore
  import opened Crypto
  import opened Wrappers

  /** Ids and indices count up from zero without gaps. */
  ghost predicate OutputsWf(o: OutputTables) {
    && (forall i | 0 <= i < |o.outputTxs| :: o.outputTxs[i].outputId == i)
    && (forall a | a in o.outputAmounts :: o.outputAmounts[a] != [] && Numbered(o.outputAmounts[a]))
  }

  ghost predicate Numbered(list: seq<OutKey>) {
    forall i | 0 <= i < |list| :: list[i].amountIndex == i
  }

  ghost predicate Wf(t: Tables) {
    && OutputsWf(t.outs)
    && Dense(t.txs, |t.txs|) && Dense(t.txOutputs, |t.txs|)
  }

  ghost predicate Dense<T>(m: map<nat, T>, n: nat) {
    forall k: nat :: k in m <==> k < n
  }

  lemma DenseNext<T>(m: map<nat, T>, n: nat, x: T)
    requires Dense(m, n)
    ensures n !in m && Dense(m[n := x], n + 1) && |m[n := x]| == |m| + 1
  {
    assert m[n := x].Keys == m.Keys + {n};
  }

  // ---------- outputs ----------

  /** An output that has just been added is found, and removing it restores the tables. */
  lemma UndoOutput(o: OutputTables, height: nat, hash: Hash, amount: nat, key: Option<Key>, localIndex: nat,
                   unlockTime: nat, commitment: Option<Commitment>)
    requires OutputsWf(o) && AddOutput(o, height, hash, amount, key, localIndex, unlockTime, commitment).Done?
    ensures var r := AddOutput(o, height, hash, amount, key, localIndex, unlockTime, commitment).value;
      OutputsWf(r.0) && RemoveOutput(r.0, amount, r.1) == Done(o)
  {
    hide FindOutKey, FindOutTx, Numbered;
    var r := AddOutput(o, height, hash, amount, key, localIndex, unlockTime, commitment).value;
    var list, id := ListOf(o, amount), |o.outputTxs|;
    var longer, outTxs := r.0.outputAmounts[amount], r.0.outputTxs;
    NumberedNext(list, longer[|list|]);
    assert longer == list + [longer[|list|]];
    FindLast(longer);
    FindLastTx(outTxs);
    assert Without(longer, |list|) == list && Without(outTxs, id) == o.outputTxs;
    if list == [] {
      assert r.0.outputAmounts - {amount} == o.outputAmounts;
    } else {
      assert r.0.outputAmounts[amount := list] == o.outputAmounts;
    }
  }

  lemma NumberedNext(list: seq<OutKey>, entry: OutKey)
    ensures Numbered([])
    ensures Numbered(list) && entry.amountIndex == |list| ==> Numbered(list + [entry])
  {}

  lemma FindLast(list: seq<OutKey>)
    requires list != [] && Numbered(list)
    ensures FindOutKey(list, |list| - 1) == Some(|list| - 1)
  {}

  lemma FindLastTx(list: seq<OutTx>)
    requires list != [] && forall i | 0 <= i < |list| :: list[i].outputId == i
    ensures FindOutTx(list, |list| - 1) == Some(|list| - 1)
  {}

  lemma {:induction false} IndicesCount(o: OutputTables, height: nat, tx: Tx, hash: Hash, n: nat)
    requires n <= |tx.vout| && MasksPresent(tx) && AddOutputs(o, height, tx, hash, n).Done?
    ensures |AddOutputs(o, height, tx, hash, n).value.1| == n
  {
    hide AddOutput;
    if n > 0 {
      IndicesCount(o, height, tx, hash, n - 1);
    }
  }

  /** The first n outputs are looked up where they were stored. */
  ghost predicate SameAmounts(tx: Tx, n: nat) {
    forall i | 0 <= i < n && i < |tx.vout| :: AddAmount(tx, i) == RemoveAmount(tx, i)
  }

  lemma {:induction false} UndoOutputs(o: OutputTables, height: nat, tx: Tx, hash: Hash, n: nat, indices: seq<nat>)
    requires OutputsWf(o) && n <= |tx.vout| <= |indices| && MasksPresent(tx) && AddOutputs(o, height, tx, hash, n).Done?
    requires AddOutputs(o, height, tx, hash, n).value.1 == indices[..n]
    ensures OutputsWf(AddOutputs(o, height, tx, hash, n).value.0)
    ensures SameAmounts(tx, n) ==> RemoveOutputs(AddOutputs(o, height, tx, hash, n).value.0, tx, indices, n) == Done(o)
  {
    hide AddOutput, RemoveOutput, OutputsWf, AddAmount, RemoveAmount, CommitmentOf;
    if n > 0 {
      var before := AddOutputs(o, height, tx, hash, n - 1).value;
      var after := AddOutputs(o, height, tx, hash, n).value;
      IndicesCount(o, height, tx, hash, n - 1);
      assert after.1[..n - 1] == before.1 && indices[..n][..n - 1] == indices[..n - 1];
      UndoOutputs(o, height, tx, hash, n - 1, indices);
      UndoOutput(before.0, height, hash, AddAmount(tx, n - 1), tx.vout[n - 1].key, n - 1, tx.unlockTime,
        CommitmentOf(tx, n - 1));
      assert after.1[n - 1] == indices[n - 1];
    }
  }

  // ---------- key images ----------

  /** Spending succeeds exactly when every input is of a known type and no image is spent already or twice. */
  lemma {:induction false} SpentKeysExact(keys: set<KeyImage>, vin: seq<TxIn>, n: nat)
    requires n <= |vin|
    ensures AddSpentKeys(keys, vin, n).Done? <==>
            && (forall i | 0 <= i < n :: !vin[i].OtherInput?)
            && Distinct(Images(vin[..n])) && (forall i | 0 <= i < |Images(vin[..n])| :: Images(vin[..n])[i] !in keys)
    ensures AddSpentKeys(keys, vin, n).Done? ==>
        AddSpentKeys(keys, vin, n).value == keys + set k | k in Images(vin[..n])
  {
    if n > 0 {
      SpentKeysExact(keys, vin, n - 1);
      assert vin[..n][..n - 1] == vin[..n - 1];
      var less, x := Images(vin[..n - 1]), vin[n - 1];
      if x.ToKey? {
        assert Images(vin[..n]) == less + [x.image];
        DistinctNext(less, x.image);
        assert (set k | k in less + [x.image]) == (set k | k in less) + {x.image};
      } else {
        assert Images(vin[..n]) == less;
      }
    }
  }

  lemma UndoSpentKeys(keys: set<KeyImage>, vin: seq<TxIn>)
    requires AddSpentKeys(keys, vin, |vin|).Done?
    ensures RemoveSpentKeys(AddSpentKeys(keys, vin, |vin|).value, vin) == keys
  {
    hide AddSpentKeys, Images;
    SpentKeysExact(keys, vin, |vin|);
    assert vin[..|vin|] == vin;
    var images := Images(vin);
    assert forall k | k in images :: k !in keys;
  }

  // ---------- transactions ----------

  /** Storing and removal agree on where the outputs are. */
  ghost predicate Revertible(tx: Tx) {
    SameAmounts(tx, |tx.vout|)
  }

  /** In terms of the transaction alone: both sides treat it as coinbase or neither does, or it makes no difference. */
  lemma RevertibleExact(tx: Tx)
    ensures Revertible(tx) <==>
        (AddedAsRct(tx) <==> RemovedAsRct(tx)) || forall i | 0 <= i < |tx.vout| :: tx.vout[i].amount == 0
  {
    hide AddedAsRct, RemovedAsRct;
    if Revertible(tx) && AddedAsRct(tx) != RemovedAsRct(tx) {
      forall i | 0 <= i < |tx.vout|
        ensures tx.vout[i].amount == 0
      {
        assert AddAmount(tx, i) == RemoveAmount(tx, i);
      }
    }
  }

  lemma AddTxShape(t: Tables, tx: Tx, hash: Hash)
    requires Wf(t) && MasksPresent(tx) && AddTx(t, tx, hash).Done?
    ensures var u, r := AddTx(t, tx, hash).value, AddOutputs(t.outs, |t.blocks|, tx, hash, |tx.vout|);
      && r.Done? && u.outs == r.value.0 && u.txOutputs[|t.txs|] == r.value.1
      && |r.value.1| == |tx.vout| && GetTx(u, hash) == Some(tx) && u.txIndices[hash].txId == |t.txs|
      && hash !in t.txIndices && |t.txs| !in t.txs && |t.txs| !in t.txOutputs
      && u.spentKeys == AddSpentKeys(t.spentKeys, tx.vin, |tx.vin|).value
      && u.blocks == t.blocks && u.txs == t.txs[|t.txs| := tx]
      && u.txIndices == t.txIndices[hash := u.txIndices[hash]] && u.txOutputs == t.txOutputs[|t.txs| := r.value.1]
    ensures Wf(AddTx(t, tx, hash).value)
  {
    hide AddSpentKeys, AddOutputs, OutputsWf, MasksPresent, Dense, AtEnd;
    OutputsStayWf(t.outs, |t.blocks|, tx, hash);
    DenseNext(t.txs, |t.txs|, tx);
    DenseNext(t.txOutputs, |t.txs|, AddOutputs(t.outs, |t.blocks|, tx, hash, |tx.vout|).value.1);
  }

  lemma OutputsStayWf(o: OutputTables, height: nat, tx: Tx, hash: Hash)
    requires OutputsWf(o) && MasksPresent(tx) && AddOutputs(o, height, tx, hash, |tx.vout|).Done?
    ensures OutputsWf(AddOutputs(o, height, tx, hash, |tx.vout|).value.0)
    ensures |AddOutputs(o, height, tx, hash, |tx.vout|).value.1| == |tx.vout|
  {
    hide AddOutputs, OutputsWf, MasksPresent;
    IndicesCount(o, height, tx, hash, |tx.vout|);
    var indices := AddOutputs(o, height, tx, hash, |tx.vout|).value.1;
    assert indices[..|tx.vout|] == indices;
    UndoOutputs(o, height, tx, hash, |tx.vout|, indices);
  }

  lemma AddTxKeys(t: Tables, tx: Tx, hash: Hash)
    requires MasksPresent(tx) && AddTx(t, tx, hash).Done?
    ensures AddSpentKeys(t.spentKeys, tx.vin, |tx.vin|).Done?
  {
    hide AddSpentKeys, AddOutputs, MasksPresent, AtEnd;
  }

  /** Removing a transaction undoes adding it. */
  lemma UndoTx(t: Tables, tx: Tx, hash: Hash)
    requires Wf(t) && MasksPresent(tx) && AddTx(t, tx, hash).Done? && Revertible(tx)
    ensures RemoveTx(AddTx(t, tx, hash).value, hash) == Done(t)
  {
    hide AddSpentKeys, RemoveSpentKeys, AddOutputs, RemoveOutputs, OutputsWf, MasksPresent, SameAmounts, Dense, AtEnd,
      AddTx;
    AddTxShape(t, tx, hash);
    AddTxKeys(t, tx, hash);
    var u := AddTx(t, tx, hash).value;
    var indices := u.txOutputs[|t.txs|];
    assert indices[..|tx.vout|] == indices;
    UndoOutputs(t.outs, |t.blocks|, tx, hash, |tx.vout|, indices);
    UndoSpentKeys(t.spentKeys, tx.vin);
    hide GetTx, Wf;
    PutThenDrop(t.txIndices, hash, u.txIndices[hash]);
    PutThenDrop(t.txs, |t.txs|, tx);
    PutThenDrop(t.txOutputs, |t.txs|, indices);
  }

  lemma PutThenDrop<K, V>(m: map<K, V>, k: K, v: V)
    requires k !in m
    ensures m[k := v] - {k} == m
  {}

  // ---------- the other direction, by counting the outputs of amount zero ----------

  /** Outputs among the first n that are stored under an amount. */
  ghost function AddedUnder(tx: Tx, n: nat, amount: nat): nat
    requires n <= |tx.vout|
  {
    if n == 0 then 0 else AddedUnder(tx, n - 1, amount) + if AddAmount(tx, n - 1) == amount then 1 else 0
  }

  ghost function RemovedZero(tx: Tx, n: nat): nat
    requires n <= |tx.vout|
  {
    if n == 0 then 0 else RemovedZero(tx, n - 1) + if RemoveAmount(tx, n - 1) == 0 then 1 else 0
  }

  /** Every list grows by the outputs stored under its amount. */
  lemma {:induction false} AddedCount(o: OutputTables, height: nat, tx: Tx, hash: Hash, n: nat, amount: nat)
    requires n <= |tx.vout| && MasksPresent(tx) && AddOutputs(o, height, tx, hash, n).Done?
    ensures |ListOf(AddOutputs(o, height, tx, hash, n).value.0, amount)| ==
        |ListOf(o, amount)| + AddedUnder(tx, n, amount)
  {
    hide AddAmount, CommitmentOf;
    if n > 0 {
      AddedCount(o, height, tx, hash, n - 1, amount);
    }
  }

  lemma {:induction false} RemovedCount(o: OutputTables, tx: Tx, indices: seq<nat>, n: nat)
    requires n <= |tx.vout| <= |indices| && RemoveOutputs(o, tx, indices, n).Done?
    ensures |ListOf(RemoveOutputs(o, tx, indices, n).value, 0)| == |ListOf(o, 0)| - RemovedZero(tx, n)
    decreases n
  {
    hide RemoveAmount;
    if n > 0 {
      RemovedOne(o, RemoveAmount(tx, n - 1), indices[n - 1]);
      RemovedCount(RemoveOutput(o, RemoveAmount(tx, n - 1), indices[n - 1]).value, tx, indices, n - 1);
    }
  }

  lemma RemovedOne(o: OutputTables, amount: nat, index: nat)
    requires RemoveOutput(o, amount, index).Done?
    ensures |ListOf(RemoveOutput(o, amount, index).value, 0)| == |ListOf(o, 0)| - if amount == 0 then 1 else 0
  {
    hide FindOutKey, FindOutTx;
  }

  /** When storing and removal disagree, they disagree in one direction only. */
  lemma {:induction false} ZerosDiffer(tx: Tx, n: nat)
    requires n <= |tx.vout|
    ensures AddedAsRct(tx) ==> AddedUnder(tx, n, 0) == n >= RemovedZero(tx, n)
    ensures RemovedAsRct(tx) ==> RemovedZero(tx, n) == n >= AddedUnder(tx, n, 0)
    ensures AddedUnder(tx, n, 0) == RemovedZero(tx, n) <==> SameAmounts(tx, n)
  {
    hide AddedAsRct, RemovedAsRct;
    if n > 0 {
      ZerosDiffer(tx, n - 1);
      assert SameAmounts(tx, n) <==> SameAmounts(tx, n - 1) && AddAmount(tx, n - 1) == RemoveAmount(tx, n - 1);
    }
  }

  /** Removing restores the tables if and only if it looks the outputs up where they were stored. */
  lemma UndoTxExact(t: Tables, tx: Tx, hash: Hash)
    requires Wf(t) && MasksPresent(tx) && AddTx(t, tx, hash).Done?
    ensures RemoveTx(AddTx(t, tx, hash).value, hash) == Done(t) <==> Revertible(tx)
  {
    hide AddSpentKeys, RemoveSpentKeys, AddOutputs, RemoveOutputs, OutputsWf, MasksPresent, SameAmounts;
    if Revertible(tx) {
      UndoTx(t, tx, hash);
    } else {
      AddTxShape(t, tx, hash);
      var u := AddTx(t, tx, hash).value;
      ZerosDiffer(tx, |tx.vout|);
      AddedCount(t.outs, |t.blocks|, tx, hash, |tx.vout|, 0);
      if RemoveTx(u, hash).Done? {
        RemovedCount(u.outs, tx, u.txOutputs[|t.txs|], |tx.vout|);
      }
    }
  }

  /** A coinbase transaction with a second input: stored under amount zero but looked for under its own amount. */
  const TWO_INPUTS := Tx(Hash(1), 2, 0, [Gen(0), ToKey(KeyImage(1))], [TxOut(5, Some(Key(1)))], [])

  lemma NotAlwaysRevertible()
    ensures MasksPresent(TWO_INPUTS) && AddTx(EMPTY, TWO_INPUTS, Hash(1)).Done?
    ensures RemoveTx(AddTx(EMPTY, TWO_INPUTS, Hash(1)).value, Hash(1)) != Done(EMPTY)
  {
    hide AddTx, RemoveTx, MasksPresent;
    ExampleAdded();
    assert !Revertible(TWO_INPUTS) by {
      assert TWO_INPUTS.vin[0].Gen?;
      assert AddAmount(TWO_INPUTS, 0) != RemoveAmount(TWO_INPUTS, 0);
    }
    UndoTxExact(EMPTY, TWO_INPUTS, Hash(1));
  }

  lemma ExampleAdded()
    ensures MasksPresent(TWO_INPUTS) && AddTx(EMPTY, TWO_INPUTS, Hash(1)).Done? && Wf(EMPTY)
  {
    hide AddOutputs, AddSpentKeys, Images;
    assert TWO_INPUTS.vin[0].Gen?;
    SpentKeysExact({}, TWO_INPUTS.vin, 2);
    ExampleImages(TWO_INPUTS.vin);
    ExampleOutputs(TWO_INPUTS);
  }

  lemma ExampleImages(vin: seq<TxIn>)
    requires vin == [Gen(0), ToKey(KeyImage(1))]
    ensures Images(vin[..2]) == [KeyImage(1)]
  {
    assert vin[..2][..1] == [Gen(0)] && [Gen(0)][..0] == [];
  }

  lemma ExampleOutputs(tx: Tx)
    requires |tx.vout| == 1 && AddedAsRct(tx) && tx.vout[0].key.Some?
    ensures AddOutputs(EMPTY.outs, 0, tx, Hash(1), 1).Done?
  {
    assert AddOutputs(EMPTY.outs, 0, tx, Hash(1), 0) == Done((EMPTY.outs, []));
  }

  // ---------- blocks ----------

  function Reversed(txs: seq<Tx>): seq<Tx> {
    if txs == [] then [] else [txs[|txs| - 1]] + Reversed(txs[..|txs| - 1])
  }

  ghost predicate AllRevertible(txs: seq<Tx>) {
    forall i | 0 <= i < |txs| :: Revertible(txs[i])
  }

  lemma {:induction false} UndoTxs(t: Tables, txs: seq<Tx>, hashes: seq<Hash>, n: nat)
    requires Wf(t) && n <= |txs| == |hashes| && AllMasksPresent(txs) && AddTxs(t, txs, hashes, n).Done?
    ensures Wf(AddTxs(t, txs, hashes, n).value) && AddTxs(t, txs, hashes, n).value.blocks == t.blocks
    ensures AllRevertible(txs) ==> PopTxs(AddTxs(t, txs, hashes, n).value, hashes, n) == Done((t, Reversed(txs[..n])))
  {
    hide AddTx, RemoveTx, Revertible, MasksPresent, Wf, GetTx;
    if n > 0 {
      UndoTxs(t, txs, hashes, n - 1);
      var before := AddTxs(t, txs, hashes, n - 1).value;
      AddTxShape(before, txs[n - 1], hashes[n - 1]);
      if AllRevertible(txs) {
        UndoTx(before, txs[n - 1], hashes[n - 1]);
        assert txs[..n][..n - 1] == txs[..n - 1];
      }
    }
  }

  lemma AddBlockShape(t: Tables, block: Block, txs: seq<Tx>)
    requires Wf(t) && MasksPresent(block.minerTx) && AllMasksPresent(txs) && AddBlock(t, block, txs).Done?
    ensures |block.txHashes| == |txs| && AddTx(t, block.minerTx, block.minerTx.hash).Done?
    ensures var u := AddTx(t, block.minerTx, block.minerTx.hash).value;
      && Wf(u) && u.blocks == t.blocks && AddTxs(u, txs, block.txHashes, |txs|).Done?
      && var v := AddTxs(u, txs, block.txHashes, |txs|).value;
      && Wf(v) && v.blocks == t.blocks
      && AppendBlock(t.blocks, block, NumRctOuts(block, txs)).Done?
      && AddBlock(t, block, txs).value == v.(blocks := AppendBlock(t.blocks, block, NumRctOuts(block, txs)).value)
    ensures Wf(AddBlock(t, block, txs).value)
  {
    hide AddTx, AddTxs, AppendBlock, NumRctOuts, OutputsWf, MasksPresent, AllMasksPresent;
    AddTxShape(t, block.minerTx, block.minerTx.hash);
    UndoTxs(AddTx(t, block.minerTx, block.minerTx.hash).value, txs, block.txHashes, |txs|);
  }

  lemma AppendShape(blocks: seq<BlockInfo>, block: Block, numRct: nat)
    requires AppendBlock(blocks, block, numRct).Done?
    ensures var r := AppendBlock(blocks, block, numRct).value;
      |r| == |blocks| + 1 && r[..|blocks|] == blocks && r[|blocks|].block == block
  {}

  /** Popping a block undoes adding it, if and only if that holds of the miner transaction, given that it holds of the
      others; the transactions come back in reverse order. */
  lemma UndoBlock(t: Tables, block: Block, txs: seq<Tx>)
    requires Wf(t) && MasksPresent(block.minerTx) && AllMasksPresent(txs) && AddBlock(t, block, txs).Done?
    requires AllRevertible(txs)
    ensures PopBlock(AddBlock(t, block, txs).value) == Done((t, block, Reversed(txs))) <==> Revertible(block.minerTx)
  {
    hide AddTx, AddTxs, RemoveTx, PopTxs, AppendBlock, NumRctOuts, Wf, MasksPresent, AllMasksPresent, AllRevertible,
      Revertible, Reversed, AddBlock;
    AddBlockShape(t, block, txs);
    var u := AddTx(t, block.minerTx, block.minerTx.hash).value;
    var v := AddTxs(u, txs, block.txHashes, |txs|).value;
    var w := AddBlock(t, block, txs).value;
    AppendShape(t.blocks, block, NumRctOuts(block, txs));
    assert w.(blocks := w.blocks[..|w.blocks| - 1]) == v;
    UndoTxs(u, txs, block.txHashes, |txs|);
    assert txs[..|txs|] == txs;
    UndoTxExact(t, block.minerTx, block.minerTx.hash);
  }

  /** Transactions without a coinbase input are always stored and removed alike. */
  lemma OrdinaryRevertible(tx: Tx)
    requires !HasGen(tx)
    ensures Revertible(tx)
  {
    assert |tx.vin| == 1 ==> !tx.vin[0].Gen?;
  }
}
