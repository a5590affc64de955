/** What the tables hold and which blocks are taken, said of the chain's blocks and transactions alone. */
module StoreMeaning {
  import opened Basics
  import opened BlockStore
  import opened Crypto
  import opened StoreRuns
  import opened StoreUndo
  import opened Wrappers

  // ---------- key images ----------

  /** Key images among the first i inputs. */
  lemma {:induction false} ImageAt(vin: seq<TxIn>, i: nat)
    requires i < |vin| && vin[i].ToKey?
    ensures |Images(vin[..i])| < |Images(vin)| && Images(vin)[|Images(vin[..i])|] == vin[i].image
  {
    var n := |vin| - 1;
    if i < n {
      ImageAt(vin[..n], i);
      assert vin[..n][..i] == vin[..i];
    }
  }

  lemma {:induction false} ImagesGrow(vin: seq<TxIn>, i: nat, j: nat)
    requires i < j <= |vin| && vin[i].ToKey?
    ensures |Images(vin[..i])| < |Images(vin[..j])|
  {
    assert vin[..j][..j - 1] == vin[..j - 1];
    if i < j - 1 {
      ImagesGrow(vin, i, j - 1);
    }
  }

  lemma {:induction false} ImageFrom(vin: seq<TxIn>, image: KeyImage) returns (i: nat)
    requires image in Images(vin)
    ensures i < |vin| && vin[i] == ToKey(image)
  {
    var n := |vin| - 1;
    if image in Images(vin[..n]) {
      i := ImageFrom(vin[..n], image);
    } else {
      i := n;
    }
  }

  lemma {:induction false} ChainImageAt(l: seq<Stored>, a: nat, i: nat)
    requires a < |l| && i < |l[a].tx.vin| && l[a].tx.vin[i].ToKey?
    ensures var p := |AllImages(l[..a])| + |Images(l[a].tx.vin[..i])|;
      p < |AllImages(l)| && AllImages(l)[p] == l[a].tx.vin[i].image
    ensures |AllImages(l[..a])| + |Images(l[a].tx.vin[..i])| < |AllImages(l[..a + 1])|
  {
    hide Images;
    var n := |l| - 1;
    assert l[..a + 1][..a] == l[..a];
    if a < n {
      ChainImageAt(l[..n], a, i);
      assert l[..n][..a] == l[..a] && l[..n][..a + 1] == l[..a + 1];
    } else {
      ImageAt(l[a].tx.vin, i);
      assert l[..a + 1] == l;
    }
  }

  lemma {:induction false} ChainImagesGrow(l: seq<Stored>, a: nat, b: nat)
    requires a <= b <= |l|
    ensures |AllImages(l[..a])| <= |AllImages(l[..b])|
  {
    if a < b {
      ChainImagesGrow(l, a, b - 1);
      assert l[..b][..b - 1] == l[..b - 1];
    }
  }

  lemma {:induction false} ChainImageFrom(l: seq<Stored>, image: KeyImage) returns (a: nat, i: nat)
    requires image in AllImages(l)
    ensures a < |l| && i < |l[a].tx.vin| && l[a].tx.vin[i] == ToKey(image)
  {
    var n := |l| - 1;
    if image in AllImages(l[..n]) {
      a, i := ChainImageFrom(l[..n], image);
    } else {
      a := n;
      i := ImageFrom(l[n].tx.vin, image);
    }
  }

  /** Input i of transaction a spends the image. */
  ghost predicate Spends(l: seq<Stored>, image: KeyImage, a: nat, i: nat) {
    a < |l| && i < |l[a].tx.vin| && l[a].tx.vin[i] == ToKey(image)
  }

  lemma SpentAt(l: seq<Stored>, image: KeyImage, a: nat, i: nat, b: nat, j: nat)
    requires Distinct(AllImages(l)) && Spends(l, image, a, i) && Spends(l, image, b, j)
    ensures !(a < b) && !(a == b && i < j)
  {
    hide AllImages, Images;
    ChainImageAt(l, a, i);
    ChainImageAt(l, b, j);
    if a < b {
      ChainImagesGrow(l, a + 1, b);
      assert false;
    }
    if a == b && i < j {
      ImagesGrow(l[a].tx.vin, i, j);
      assert false;
    }
  }

  /** In every reachable state an image is in the table exactly if an input of the chain spends it, and then only
      one does. */
  lemma NoDoubleSpend(ops: seq<Op>, image: KeyImage)
    requires SaneOps(ops)
    ensures var l := StoredChain(Run(ops).chain);
      && (image in Run(ops).tables.spentKeys <==> exists a, i :: Spends(l, image, a, i))
      && forall a, i, b, j | Spends(l, image, a, i) && Spends(l, image, b, j) :: a == b && i == j
  {
    hide Run, StoredChain, BlocksAre, TxsAgree, CountsAgree, OwnersKnown, Wf, AllImages, Distinct;
    RunAgrees(ops);
    var l, keys := StoredChain(Run(ops).chain), Run(ops).tables.spentKeys;
    if image in keys {
      var a, i := ChainImageFrom(l, image);
      assert Spends(l, image, a, i);
    }
    forall a, i | Spends(l, image, a, i)
      ensures image in keys
    {
      ChainImageAt(l, a, i);
    }
    forall a, i, b, j | Spends(l, image, a, i) && Spends(l, image, b, j)
      ensures a == b && i == j
    {
      SpentAt(l, image, a, i, b, j);
      SpentAt(l, image, b, j, a, i);
    }
  }

  // ---------- which transactions and blocks are taken ----------

  /** The output has a key, and a commitment if it is listed under amount zero. */
  ghost predicate OutputAcceptable(tx: Tx, i: nat)
    requires i < |tx.vout|
  {
    tx.vout[i].key.Some? && (tx.version > 1 || tx.vout[i].amount != 0)
  }

  lemma OutputTaken(o: OutputTables, height: nat, tx: Tx, hash: Hash, i: nat)
    requires OutputsWf(o) && i < |tx.vout| && MasksPresent(tx)
    ensures AddOutput(o, height, hash, AddAmount(tx, i), tx.vout[i].key, i, tx.unlockTime, CommitmentOf(tx, i)).Done?
      <==> OutputAcceptable(tx, i)
  {
    hide HasGen;
  }

  lemma {:induction false} OutputsTaken(o: OutputTables, height: nat, tx: Tx, hash: Hash, n: nat)
    requires OutputsWf(o) && n <= |tx.vout| && MasksPresent(tx)
    ensures AddOutputs(o, height, tx, hash, n).Done? <==> forall i | 0 <= i < n :: OutputAcceptable(tx, i)
  {
    hide OutputsWf, MasksPresent, AddOutput, AddAmount, CommitmentOf, OutputAcceptable;
    if n > 0 {
      OutputsTaken(o, height, tx, hash, n - 1);
      if AddOutputs(o, height, tx, hash, n - 1).Done? {
        AddOutputsRecord(o, height, tx, hash, n - 1);
        OutputTaken(AddOutputs(o, height, tx, hash, n - 1).value.0, height, tx, hash, n - 1);
      }
    }
  }

  /** Every input is a coinbase or a key input, its images are new and different, its hash is new and its outputs can
      be stored. */
  ghost predicate Acceptable(l: seq<Stored>, tx: Tx, hash: Hash) {
    && (forall i | 0 <= i < |tx.vin| :: !tx.vin[i].OtherInput?)
    && Distinct(Images(tx.vin)) && (forall x | x in Images(tx.vin) :: x !in AllImages(l))
    && (forall k | 0 <= k < |l| :: l[k].hash != hash)
    && forall i | 0 <= i < |tx.vout| :: OutputAcceptable(tx, i)
  }

  lemma HashesKnown(t: Tables, l: seq<Stored>, hash: Hash)
    requires Agrees(t, l)
    ensures hash in t.txIndices <==> exists k :: 0 <= k < |l| && l[k].hash == hash
  {
    hide Wf, KeysAgree, CountsAgree, OwnersKnown, Recorded, MasksPresent;
    if hash in t.txIndices {
      assert l[t.txIndices[hash].txId].hash == hash;
    }
    if k :| 0 <= k < |l| && l[k].hash == hash {
      assert TxRecorded(t, k, l[k]);
    }
  }

  lemma RoomAtEnd(t: Tables)
    requires Wf(t)
    ensures AtEnd(t.txs, |t.txs|) && AtEnd(t.txOutputs, |t.txs|)
  {
    hide OutputsWf;
  }

  lemma TxTaken(t: Tables, l: seq<Stored>, tx: Tx, hash: Hash)
    requires Agrees(t, l) && MasksPresent(tx)
    ensures AddTx(t, tx, hash).Done? <==> Acceptable(l, tx, hash)
  {
    hide AddSpentKeys, AddOutputs, OutputsWf, Dense, MasksPresent, TxsAgree, CountsAgree, OwnersKnown, Distinct, Images,
      AtEnd, AllImages, OutputAcceptable;
    RoomAtEnd(t);
    HashesKnown(t, l, hash);
    OutputsTaken(t.outs, |t.blocks|, tx, hash, |tx.vout|);
    SpentKeysExact(t.spentKeys, tx.vin, |tx.vin|);
    assert tx.vin[..|tx.vin|] == tx.vin;
  }

  /** The first n transactions can be stored one after the other. */
  ghost predicate AllAcceptable(l: seq<Stored>, txs: seq<Tx>, hashes: seq<Hash>, height: nat, n: nat)
    requires n <= |txs| == |hashes|
  {
    forall i | 0 <= i < n :: Acceptable(l + StoredTxs(txs, hashes, height, i), txs[i], hashes[i])
  }

  lemma {:induction false} TxsTaken(t: Tables, l: seq<Stored>, txs: seq<Tx>, hashes: seq<Hash>, n: nat)
    requires Agrees(t, l) && n <= |txs| == |hashes| && AllMasksPresent(txs)
    ensures AddTxs(t, txs, hashes, n).Done? <==> AllAcceptable(l, txs, hashes, |t.blocks|, n)
  {
    hide AddTx, Agrees, MasksPresent, Acceptable, StoredTxs;
    if n > 0 {
      TxsTaken(t, l, txs, hashes, n - 1);
      if AddTxs(t, txs, hashes, n - 1).Done? {
        AgreesTxs(t, l, txs, hashes, n - 1);
        var u := AddTxs(t, txs, hashes, n - 1).value;
        TxTaken(u, l + StoredTxs(txs, hashes, |t.blocks|, n - 1), txs[n - 1], hashes[n - 1]);
      }
    }
  }

  /** The block is new and stands on the top block; the first block is of a major version below 4. */
  ghost predicate Extends(chain: seq<Entry>, block: Block) {
    && (forall h | 0 <= h < |chain| :: chain[h].block.hash != block.hash)
    && (if chain == [] then block.majorVersion < 4 else block.prev == chain[|chain| - 1].block.hash)
  }

  /** No two blocks of the chain have one hash. */
  ghost predicate DistinctBlocks(chain: seq<Entry>) {
    forall g, h | 0 <= g < h < |chain| :: chain[g].block.hash != chain[h].block.hash
  }

  lemma BlockTaken(blocks: seq<BlockInfo>, chain: seq<Entry>, block: Block, numRct: nat)
    requires BlocksAre(blocks, chain) && DistinctBlocks(chain)
    ensures AppendBlock(blocks, block, numRct).Done? <==> Extends(chain, block)
  {
    hide FindBlock;
    var top := |blocks| - 1;
    if top >= 0 && blocks[top].block.hash == block.prev {
      assert FindBlock(blocks, block.prev).Some?;
      assert chain[FindBlock(blocks, block.prev).value].block.hash == chain[top].block.hash;
    }
  }

  /** The number of hashes is that of the transactions, these and the miner's can be stored, and the block extends the
      chain. */
  ghost predicate Addable(chain: seq<Entry>, e: Entry) {
    var l, height := StoredChain(chain), |chain|;
    && |e.txs| == |e.block.txHashes|
    && Acceptable(l, e.block.minerTx, e.block.minerTx.hash)
    && var miner := Stored(e.block.minerTx, e.block.minerTx.hash, height);
    && AllAcceptable(l + [miner], e.txs, e.block.txHashes, height, |e.txs|)
    && Extends(chain, e.block)
  }

  lemma AddTaken(t: Tables, chain: seq<Entry>, e: Entry)
    requires Agrees(t, StoredChain(chain)) && BlocksAre(t.blocks, chain) && DistinctBlocks(chain) && Usable(e)
    ensures AddBlock(t, e.block, e.txs).Done? <==> Addable(chain, e)
  {
    hide AddTx, AddTxs, Agrees, AppendBlock, NumRctOuts, StoredChain, Acceptable, AllAcceptable, Extends,
      DistinctBlocks, MasksPresent, AllMasksPresent, BlocksAre;
    var l, miner := StoredChain(chain), e.block.minerTx;
    BlocksLength(t.blocks, chain);
    TxTaken(t, l, miner, miner.hash);
    if AddTx(t, miner, miner.hash).Done? {
      AgreesNext(t, l, miner, miner.hash);
      AddTxKeepsBlocks(t, miner, miner.hash);
      var u := AddTx(t, miner, miner.hash).value;
      var m := l + [Stored(miner, miner.hash, |chain|)];
      if |e.txs| == |e.block.txHashes| {
        TxsTaken(u, m, e.txs, e.block.txHashes, |e.txs|);
        if AddTxs(u, e.txs, e.block.txHashes, |e.txs|).Done? {
          AgreesTxs(u, m, e.txs, e.block.txHashes, |e.txs|);
          BlockTaken(t.blocks, chain, e.block, NumRctOuts(e.block, e.txs));
        }
      }
    }
  }

  lemma BlocksLength(blocks: seq<BlockInfo>, chain: seq<Entry>)
    requires BlocksAre(blocks, chain)
    ensures |blocks| == |chain|
  {}

  // ---------- chains ----------

  /** Every block could be added to those before it. */
  ghost predicate Admissible(chain: seq<Entry>) {
    forall h | 0 <= h < |chain| :: Addable(chain[..h], chain[h])
  }

  /** The first block stands on nothing and has a major version below 4, every other block on the one before it, and no
      two blocks have one hash. */
  ghost predicate Linked(chain: seq<Entry>) {
    && DistinctBlocks(chain) && (chain != [] ==> chain[0].block.majorVersion < 4)
    && forall h | 0 < h < |chain| :: chain[h].block.prev == chain[h - 1].block.hash
  }

  lemma LinkedNext(chain: seq<Entry>, e: Entry)
    requires Linked(chain) && Extends(chain, e.block)
    ensures Linked(chain + [e])
  {}

  /** A chain can be added to an empty store exactly if every block can be added to those before it; it is then
      linked. */
  lemma {:induction false} ReplayTaken(chain: seq<Entry>)
    requires AllUsable(chain)
    ensures Replay(chain).Done? <==> Admissible(chain)
    ensures Replay(chain).Done? ==> Linked(chain)
  {
    hide AddBlock, Agrees, Usable, StoredChain, Addable, Linked, BlocksAre;
    if chain == [] {
      NothingLinked();
    } else {
      var n := |chain| - 1;
      var less, e := chain[..n], chain[n];
      ReplayTaken(less);
      assert forall h | 0 <= h < n :: less[..h] == chain[..h] && less[h] == chain[h];
      if Replay(less).Done? {
        ReplayAgrees(less);
        LinkedDistinct(less);
        AddTaken(Replay(less).value, less, e);
        if Addable(less, e) {
          AddableExtends(less, e);
          LinkedNext(less, e);
        }
        assert less + [e] == chain;
      }
    }
  }

  lemma NothingLinked()
    ensures Linked([])
  {}

  lemma LinkedDistinct(chain: seq<Entry>)
    requires Linked(chain)
    ensures DistinctBlocks(chain)
  {}

  lemma AddableExtends(chain: seq<Entry>, e: Entry)
    requires Addable(chain, e)
    ensures Extends(chain, e.block) && |e.txs| == |e.block.txHashes|
  {}

  /** In every reachable state the chain is linked, its blocks are those of the table, and a block is taken exactly if
      it can be added. */
  lemma RunTakes(ops: seq<Op>, e: Entry)
    requires SaneOps(ops) && Usable(e)
    ensures var w := Run(ops);
      && Linked(w.chain) && Admissible(w.chain) && BlocksAre(w.tables.blocks, w.chain)
      && Step(w, Add(e)).chain == if Addable(w.chain, e) then w.chain + [e] else w.chain
  {
    hide Run, AddBlock, Agrees, StoredChain, Addable, Linked, Admissible, BlocksAre, Usable, Replay;
    RunTracks(ops);
    RunAgrees(ops);
    var w := Run(ops);
    ReplayTaken(w.chain);
    LinkedDistinct(w.chain);
    AddTaken(w.tables, w.chain, e);
  }

  // ---------- where an output stands ----------

  /** The block brings the transaction under the hash: as its miner transaction or in its list. */
  ghost predicate Brings(e: Entry, tx: Tx, hash: Hash) {
    || (tx == e.block.minerTx && hash == e.block.minerTx.hash)
    || exists j :: 0 <= j < |e.txs| && j < |e.block.txHashes| && tx == e.txs[j] && hash == e.block.txHashes[j]
  }

  lemma {:induction false} StoredTxAt(txs: seq<Tx>, hashes: seq<Hash>, height: nat, n: nat, j: nat)
    requires j < n <= |txs| && n <= |hashes|
    ensures |StoredTxs(txs, hashes, height, n)| == n
    ensures StoredTxs(txs, hashes, height, n)[j] == Stored(txs[j], hashes[j], height)
  {
    if n > 1 {
      StoredTxAt(txs, hashes, height, n - 1, if j < n - 1 then j else 0);
    }
  }

  lemma BroughtIn(e: Entry, height: nat, tx: Tx, hash: Hash)
    requires Brings(e, tx, hash) && |e.txs| == |e.block.txHashes|
    ensures Stored(tx, hash, height) in StoredBlock(e, height)
  {
    hide StoredTxs;
    var l := StoredBlock(e, height);
    if tx == e.block.minerTx && hash == e.block.minerTx.hash {
      assert l[0] == Stored(tx, hash, height);
    } else {
      var j :| 0 <= j < |e.txs| && j < |e.block.txHashes| && tx == e.txs[j] && hash == e.block.txHashes[j];
      StoredTxAt(e.txs, e.block.txHashes, height, |e.txs|, j);
      assert l[j + 1] == Stored(tx, hash, height);
    }
  }

  lemma {:induction false} InChain(chain: seq<Entry>, h: nat, tx: Tx, hash: Hash)
    requires h < |chain| && Brings(chain[h], tx, hash) && |chain[h].txs| == |chain[h].block.txHashes|
    ensures Stored(tx, hash, h) in StoredChain(chain)
  {
    hide StoredBlock, Brings;
    var n := |chain| - 1;
    if h < n {
      InChain(chain[..n], h, tx, hash);
    } else {
      BroughtIn(chain[h], h, tx, hash);
    }
  }

  /** A version 2 transaction with a coinbase input. */
  ghost predicate CoinbaseRct(tx: Tx) {
    tx.version == 2 && exists i | 0 <= i < |tx.vin| :: tx.vin[i].Gen?
  }

  /** The entry stands for output i: under amount zero it holds the commitment to the amount if the transaction is a
      RingCT coinbase and the transaction's own i-th commitment if not, and under any other amount it holds none. */
  ghost predicate StandsFor(entry: OutKey, tx: Tx, i: nat, height: nat)
    requires i < |tx.vout|
  {
    && tx.vout[i].key == Some(entry.pubkey) && entry.unlockTime == tx.unlockTime && entry.height == height
    && (if CoinbaseRct(tx) then entry.commitment == Some(ZeroCommit(tx.vout[i].amount))
        else if tx.vout[i].amount == 0 then
          tx.version > 1 && i < |tx.masks| && entry.commitment == Some(tx.masks[i])
        else entry.commitment == None)
  }

  lemma RecordedMeans(o: OutputTables, height: nat, tx: Tx, hash: Hash, i: nat, index: nat)
    requires i < |tx.vout| && MasksPresent(tx) && Recorded(o, height, tx, hash, i, index)
    ensures var amount := if CoinbaseRct(tx) then 0 else tx.vout[i].amount;
      && index < |ListOf(o, amount)| && ListOf(o, amount)[index].amountIndex == index
      && StandsFor(ListOf(o, amount)[index], tx, i, height)
      && var id := ListOf(o, amount)[index].outputId; id < |o.outputTxs| && o.outputTxs[id] == OutTx(id, hash, i)
  {
    hide ListOf;
  }

  /** In every reachable state each output of each transaction of the chain stands in the list of its amount, under the
      index kept for it, and its global id leads back to it; RingCT coinbase outputs stand under amount zero. */
  lemma OutputPlace(ops: seq<Op>, h: nat, tx: Tx, hash: Hash, i: nat) returns (k: nat, index: nat)
    requires SaneOps(ops) && h < |Run(ops).chain| && Brings(Run(ops).chain[h], tx, hash) && i < |tx.vout|
    ensures var t := Run(ops).tables;
      && hash in t.txIndices && t.txIndices[hash] == TxIndex(k, tx.unlockTime, h) && k in t.txs && t.txs[k] == tx
      && k in t.txOutputs && i < |t.txOutputs[k]| && t.txOutputs[k][i] == index
      && var amount := if CoinbaseRct(tx) then 0 else tx.vout[i].amount;
      && amount in t.outs.outputAmounts && index < |t.outs.outputAmounts[amount]|
      && var entry := t.outs.outputAmounts[amount][index];
      && entry.amountIndex == index && StandsFor(entry, tx, i, h)
      && entry.outputId < |t.outs.outputTxs| && t.outs.outputTxs[entry.outputId] == OutTx(entry.outputId, hash, i)
  {
    hide Run, StoredChain, BlocksAre, KeysAgree, CountsAgree, OwnersKnown, Wf, Recorded, MasksPresent, StandsFor,
      CoinbaseRct, Brings, Linked, Addable, Replay;
    var w := Run(ops);
    RunTracks(ops);
    RunAgrees(ops);
    ReplayTaken(w.chain);
    AddableExtends(w.chain[..h], w.chain[h]);
    InChain(w.chain, h, tx, hash);
    var l := StoredChain(w.chain);
    k :| 0 <= k < |l| && l[k] == Stored(tx, hash, h);
    assert TxRecorded(w.tables, k, l[k]);
    index := w.tables.txOutputs[k][i];
    RecordedMeans(w.tables.outs, h, tx, hash, i, index);
  }
}
