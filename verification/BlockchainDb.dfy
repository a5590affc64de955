/** The block store as an object: its methods update the tables step by step, as the store does. */
module BlockchainDb {
  import opened BlockStore
  import opened Crypto
  import opened Wrappers

  /** A method that reports the error e, or none, and leaves the tables now does what r says. */
  ghost predicate Matches(r: Attempt<Tables>, e: Option<DbError>, now: Tables) {
    match e case None => r == Done(now) case Some(error) => r == Failed(error)
  }

  // ---------- once failed, always failed ----------

  lemma {:induction false} SpentKeysFailed(keys: set<KeyImage>, vin: seq<TxIn>, m: nat, n: nat)
    requires m <= n <= |vin| && AddSpentKeys(keys, vin, m).Failed?
    ensures AddSpentKeys(keys, vin, n) == AddSpentKeys(keys, vin, m)
  {
    if m < n {
      SpentKeysFailed(keys, vin, m, n - 1);
    }
  }

  lemma {:induction false} OutputsFailed(o: OutputTables, height: nat, tx: Tx, hash: Hash, m: nat, n: nat)
    requires m <= n <= |tx.vout| && MasksPresent(tx) && AddOutputs(o, height, tx, hash, m).Failed?
    ensures AddOutputs(o, height, tx, hash, n) == AddOutputs(o, height, tx, hash, m)
  {
    hide AddOutput;
    if m < n {
      OutputsFailed(o, height, tx, hash, m, n - 1);
    }
  }

  lemma {:induction false} TxsFailed(t: Tables, txs: seq<Tx>, hashes: seq<Hash>, m: nat, n: nat)
    requires m <= n <= |txs| == |hashes| && AllMasksPresent(txs) && AddTxs(t, txs, hashes, m).Failed?
    ensures AddTxs(t, txs, hashes, n) == AddTxs(t, txs, hashes, m)
  {
    hide AddTx;
    if m < n {
      TxsFailed(t, txs, hashes, m, n - 1);
    }
  }

  /** The rest of a pop, with what has been popped already put in front. */
  ghost function After(popped: seq<Tx>, r: Attempt<(Tables, seq<Tx>)>): Attempt<(Tables, seq<Tx>)> {
    match r case Failed(e) => Failed(e) case Done((t, txs)) => Done((t, popped + txs))
  }

  class BlockchainDb {
    var spentKeys: set<KeyImage>
    var txIndices: map<Hash, TxIndex>
    var txs: map<nat, Tx>
    var txOutputs: map<nat, seq<nat>>
    var outputTxs: seq<OutTx>
    var outputAmounts: map<nat, seq<OutKey>>
    var blocks: seq<BlockInfo>

    constructor ()
      ensures Contents() == EMPTY
    {
      spentKeys, txIndices, txs, txOutputs, outputTxs, outputAmounts, blocks := {}, map[], map[], map[], [], map[], [];
    }

    ghost function Outputs(): OutputTables
      reads this`outputTxs, this`outputAmounts
    {
      OutputTables(outputTxs, outputAmounts)
    }

    ghost function Contents(): Tables
      reads this
    {
      Tables(spentKeys, txIndices, txs, txOutputs, Outputs(), blocks)
    }

    // ---------- adding ----------

    method AddSpentKey(image: KeyImage) returns (e: Option<DbError>)
      modifies this`spentKeys
      ensures e == if image in old(spentKeys) then Some(KeyImageExists) else None
      ensures spentKeys == old(spentKeys) + {image}
    {
      if image in spentKeys {
        return Some(KeyImageExists);
      }
      spentKeys := spentKeys + {image};
      e := None;
    }

    method AddTransactionData(tx: Tx, hash: Hash) returns (e: Option<DbError>, id: nat)
      modifies this`txIndices, this`txs
      ensures id == |old(txs)|
      ensures e == if hash in old(txIndices) then Some(TxExists)
                   else if AtEnd(old(txs), id) then None else Some(NotAppended)
      ensures e.None? ==> txIndices == old(txIndices)[hash := TxIndex(id, tx.unlockTime, |blocks|)]
      ensures e.None? ==> txs == old(txs)[id := tx]
    {
      id := |txs|;
      if hash in txIndices {
        return Some(TxExists), id;
      }
      txIndices := txIndices[hash := TxIndex(id, tx.unlockTime, |blocks|)];
      if !AtEnd(txs, id) {
        return Some(NotAppended), id;
      }
      txs := txs[id := tx];
      e := None;
    }

    method AddOutput(hash: Hash, amount: nat, key: Option<Key>, localIndex: nat, unlockTime: nat,
                     commitment: Option<Commitment>)
      returns (e: Option<DbError>, index: nat)
      modifies this`outputTxs, this`outputAmounts
      ensures
        var r := BlockStore.AddOutput(old(Outputs()), |blocks|, hash, amount, key, localIndex, unlockTime, commitment);
        match e case None => r == Done((Outputs(), index)) case Some(error) => r == Failed(error)
    {
      index := 0;
      if key.None? {
        return Some(NoOutputKey), index;
      }
      if amount == 0 && commitment.None? {
        return Some(NoCommitment), index;
      }
      var id := if outputTxs == [] then 0 else outputTxs[|outputTxs| - 1].outputId + 1;
      outputTxs := outputTxs + [OutTx(id, hash, localIndex)];
      var list := if amount in outputAmounts then outputAmounts[amount] else [];
      index := |list|;
      if list != [] && list[|list| - 1].amountIndex >= index {
        return Some(NotAppended), index;
      }
      var entry := OutKey(index, id, key.value, unlockTime, |blocks|, if amount == 0 then commitment else None);
      outputAmounts := outputAmounts[amount := list + [entry]];
      e := None;
    }

    method AddTxAmountOutputIndices(id: nat, indices: seq<nat>) returns (e: Option<DbError>)
      modifies this`txOutputs
      ensures e == if AtEnd(old(txOutputs), id) then None else Some(NotAppended)
      ensures e.None? ==> txOutputs == old(txOutputs)[id := indices]
    {
      if !AtEnd(txOutputs, id) {
        return Some(NotAppended);
      }
      txOutputs := txOutputs[id := indices];
      e := None;
    }

    /** The inputs: key images are spent, and a coinbase input is noticed. */
    method AddInputs(tx: Tx) returns (e: Option<DbError>, miner: bool)
      modifies this`spentKeys
      ensures var r := AddSpentKeys(old(spentKeys), tx.vin, |tx.vin|);
        match e case None => r == Done(spentKeys) && miner == HasGen(tx) case Some(error) => r == Failed(error)
    {
      miner := false;
      for i := 0 to |tx.vin|
        invariant AddSpentKeys(old(spentKeys), tx.vin, i) == Done(spentKeys)
        invariant miner <==> exists j | 0 <= j < i :: tx.vin[j].Gen?
      {
        match tx.vin[i] {
          case ToKey(image) =>
            e := AddSpentKey(image);
            if e.Some? {
              SpentKeysFailed(old(spentKeys), tx.vin, i + 1, |tx.vin|);
              return;
            }
          case Gen(_) =>
            miner := true;
          case OtherInput =>
            SpentKeysFailed(old(spentKeys), tx.vin, i + 1, |tx.vin|);
            return Some(UnexpectedInput), miner;
        }
      }
      e := None;
    }

    /** The outputs; those of a version 2 coinbase go under amount zero with a commitment to their amount. */
    method AddAllOutputs(tx: Tx, hash: Hash, miner: bool) returns (e: Option<DbError>, indices: seq<nat>)
      requires MasksPresent(tx) && miner == HasGen(tx)
      modifies this`outputTxs, this`outputAmounts
      ensures var r := AddOutputs(old(Outputs()), |blocks|, tx, hash, |tx.vout|);
        match e case None => r == Done((Outputs(), indices)) case Some(error) => r == Failed(error)
    {
      hide BlockStore.AddOutput, HasGen;
      indices := [];
      for i := 0 to |tx.vout|
        invariant AddOutputs(old(Outputs()), |blocks|, tx, hash, i) == Done((Outputs(), indices))
      {
        var out, index := tx.vout[i], 0;
        if miner && tx.version == 2 {
          e, index := AddOutput(hash, 0, out.key, i, tx.unlockTime, Some(ZeroCommit(out.amount)));
        } else {
          var mask := if tx.version > 1 then Some(tx.masks[i]) else None;
          e, index := AddOutput(hash, out.amount, out.key, i, tx.unlockTime, mask);
        }
        if e.Some? {
          OutputsFailed(old(Outputs()), |blocks|, tx, hash, i + 1, |tx.vout|);
          return;
        }
        indices := indices + [index];
      }
      e := None;
    }

    method AddTransaction(tx: Tx, hash: Hash) returns (e: Option<DbError>)
      requires MasksPresent(tx)
      modifies this
      ensures Matches(AddTx(old(Contents()), tx, hash), e, Contents())
      ensures blocks == old(blocks)
    {
      hide AddSpentKeys, AddOutputs, HasGen, AtEnd;
      var miner, id, indices;
      e, miner := AddInputs(tx);
      if e.Some? {
        return;
      }
      e, id := AddTransactionData(tx, hash);
      if e.Some? {
        return;
      }
      e, indices := AddAllOutputs(tx, hash, miner);
      if e.Some? {
        return;
      }
      e := AddTxAmountOutputIndices(id, indices);
    }

    /** Appends the record of a block. */
    method AppendRecord(block: Block, numRct: nat) returns (e: Option<DbError>)
      modifies this`blocks
      ensures var r := AppendBlock(old(blocks), block, numRct);
        match e case None => r == Done(blocks) case Some(error) => r == Failed(error)
    {
      var height := |blocks|;
      if FindBlock(blocks, block.hash).Some? {
        return Some(BlockExists);
      }
      if height > 0 {
        var parent := FindBlock(blocks, block.prev);
        if parent.None? {
          return Some(ParentMissing);
        }
        if parent.value != height - 1 {
          return Some(ParentNotTop);
        }
      }
      var cumRct := numRct;
      if block.majorVersion >= 4 {
        if height == 0 {
          return Some(BlockMissing);
        }
        cumRct := cumRct + blocks[height - 1].cumRct;
      }
      blocks := blocks + [BlockInfo(block, cumRct)];
      e := None;
    }

    /** Adds the transactions of a block and counts their outputs of amount zero. */
    method AddTransactions(txs: seq<Tx>, hashes: seq<Hash>) returns (e: Option<DbError>, zeros: nat)
      requires |txs| == |hashes| && AllMasksPresent(txs)
      modifies this
      ensures Matches(AddTxs(old(Contents()), txs, hashes, |txs|), e, Contents())
      ensures e.None? ==> zeros == ZeroOutsOfAll(txs)
      ensures blocks == old(blocks)
    {
      hide AddTx, MasksPresent;
      zeros := 0;
      for i := 0 to |txs|
        invariant AddTxs(old(Contents()), txs, hashes, i) == Done(Contents())
        invariant zeros == ZeroOutsOfAll(txs[..i])
        invariant blocks == old(blocks)
      {
        e := AddTransaction(txs[i], hashes[i]);
        if e.Some? {
          TxsFailed(old(Contents()), txs, hashes, i + 1, |txs|);
          return;
        }
        var vout := txs[i].vout;
        ghost var before := zeros;
        for j := 0 to |vout|
          invariant zeros == before + ZeroOuts(vout[..j])
        {
          assert vout[..j + 1][..j] == vout[..j];
          if vout[j].amount == 0 {
            zeros := zeros + 1;
          }
        }
        assert vout[..|vout|] == vout;
        assert txs[..i + 1][..i] == txs[..i];
      }
      assert txs[..|txs|] == txs;
      e := None;
    }

    method AddBlock(block: Block, txs: seq<Tx>) returns (e: Option<DbError>, prevHeight: nat)
      requires MasksPresent(block.minerTx) && AllMasksPresent(txs)
      modifies this
      ensures Matches(BlockStore.AddBlock(old(Contents()), block, txs), e, Contents())
      ensures prevHeight == |old(blocks)|
    {
      hide AddTx, AddTxs, AppendBlock, MasksPresent, AllMasksPresent, ZeroOutsOfAll;
      prevHeight := |blocks|;
      if |block.txHashes| != |txs| {
        return Some(InconsistentSizes), prevHeight;
      }
      var numRct, zeros := 0, 0;
      e := AddTransaction(block.minerTx, block.minerTx.hash);
      if e.Some? {
        return;
      }
      if block.minerTx.version == 2 {
        numRct := numRct + |block.minerTx.vout|;
      }
      e, zeros := AddTransactions(txs, block.txHashes);
      if e.Some? {
        return;
      }
      e := AppendRecord(block, numRct + zeros);
    }

    // ---------- removing ----------

    method RemoveOutput(amount: nat, index: nat) returns (e: Option<DbError>)
      modifies this`outputTxs, this`outputAmounts
      ensures var r := BlockStore.RemoveOutput(old(Outputs()), amount, index);
        match e case None => r == Done(Outputs()) case Some(error) => r == Failed(error)
    {
      if amount !in outputAmounts {
        return Some(OutputMissing);
      }
      var list := outputAmounts[amount];
      var i := FindOutKey(list, index);
      if i.None? {
        return Some(OutputMissing);
      }
      var j := FindOutTx(outputTxs, list[i.value].outputId);
      if j.None? {
        return Some(OutputMissing);
      }
      outputTxs := outputTxs[..j.value] + outputTxs[j.value + 1..];
      var shorter := list[..i.value] + list[i.value + 1..];
      if shorter == [] {
        outputAmounts := outputAmounts - {amount};
      } else {
        outputAmounts := outputAmounts[amount := shorter];
      }
      e := None;
    }

    method RemoveTxOutputs(tx: Tx, indices: seq<nat>) returns (e: Option<DbError>)
      modifies this`outputTxs, this`outputAmounts
      ensures |indices| < |tx.vout| ==> e == Some(IndicesMissing)
      ensures |indices| >= |tx.vout| ==>
        var r := RemoveOutputs(old(Outputs()), tx, indices, |tx.vout|);
        match e case None => r == Done(Outputs()) case Some(error) => r == Failed(error)
    {
      hide BlockStore.RemoveOutput;
      if |indices| < |tx.vout| {
        return Some(IndicesMissing);
      }
      var pseudoRct := tx.version >= 2 && |tx.vin| == 1 && tx.vin[0].Gen?;
      for i := |tx.vout| downto 0
        invariant RemoveOutputs(old(Outputs()), tx, indices, |tx.vout|) == RemoveOutputs(Outputs(), tx, indices, i)
      {
        var amount := if pseudoRct then 0 else tx.vout[i].amount;
        e := RemoveOutput(amount, indices[i]);
        if e.Some? {
          return;
        }
      }
      e := None;
    }

    method RemoveTransaction(hash: Hash) returns (e: Option<DbError>)
      modifies this
      ensures Matches(RemoveTx(old(Contents()), hash), e, Contents())
      ensures blocks == old(blocks)
    {
      hide RemoveOutputs;
      if hash !in txIndices || txIndices[hash].txId !in txs {
        return Some(TxMissing);
      }
      var id := txIndices[hash].txId;
      var tx := txs[id];
      RemoveKeys(tx.vin);
      txs := txs - {id};
      if id !in txOutputs {
        return Some(IndicesMissing);
      }
      e := RemoveTxOutputs(tx, txOutputs[id]);
      if e.Some? {
        return;
      }
      txOutputs := txOutputs - {id};
      txIndices := txIndices - {hash};
    }

    method RemoveKeys(vin: seq<TxIn>)
      modifies this`spentKeys
      ensures spentKeys == RemoveSpentKeys(old(spentKeys), vin)
    {
      for i := 0 to |vin|
        invariant spentKeys == RemoveSpentKeys(old(spentKeys), vin[..i])
      {
        assert vin[..i + 1][..i] == vin[..i];
        if vin[i].ToKey? {
          spentKeys := spentKeys - {vin[i].image};
        }
      }
      assert vin[..|vin|] == vin;
    }

    method PopBlock() returns (e: Option<DbError>, block: Option<Block>, popped: seq<Tx>)
      modifies this
      ensures var r := BlockStore.PopBlock(old(Contents()));
        match e
        case None => block.Some? && r == Done((Contents(), block.value, popped))
        case Some(error) => r == Failed(error)
    {
      hide RemoveTx;
      popped := [];
      if blocks == [] {
        return Some(BlockMissing), None, popped;
      }
      var top := blocks[|blocks| - 1].block;
      blocks := blocks[..|blocks| - 1];
      ghost var start := Contents();
      var hashes := top.txHashes;
      PopFirst(PopTxs(start, hashes, |hashes|));
      for i := |hashes| downto 0
        invariant PopTxs(start, hashes, |hashes|) == After(popped, PopTxs(Contents(), hashes, i))
      {
        ghost var now := Contents();
        if hashes[i] !in txIndices || txIndices[hashes[i]].txId !in txs {
          return Some(TxMissing), None, popped;
        }
        var tx := txs[txIndices[hashes[i]].txId];
        e := RemoveTransaction(hashes[i]);
        if e.Some? {
          return e, None, popped;
        }
        PopNext(now, Contents(), hashes, i, popped, tx);
        popped := popped + [tx];
      }
      assert popped + [] == popped;
      e := RemoveTransaction(top.minerTx.hash);
      block := Some(top);
    }
  }

  lemma PopFirst(r: Attempt<(Tables, seq<Tx>)>)
    ensures After([], r) == r
  {
    if r.Done? {
      assert [] + r.value.1 == r.value.1;
    }
  }

  lemma PopNext(t: Tables, u: Tables, hashes: seq<Hash>, i: nat, popped: seq<Tx>, tx: Tx)
    requires i < |hashes| && GetTx(t, hashes[i]) == Some(tx) && RemoveTx(t, hashes[i]) == Done(u)
    ensures After(popped, PopTxs(t, hashes, i + 1)) == After(popped + [tx], PopTxs(u, hashes, i))
  {
    hide RemoveTx;
    var r := PopTxs(u, hashes, i);
    if r.Done? {
      assert popped + ([tx] + r.value.1) == popped + [tx] + r.value.1;
    }
  }
}
