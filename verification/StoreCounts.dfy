/** The counts of RingCT outputs: when they match the list of outputs of amount zero, and when the
    cumulative count is a running total. */
module StoreCounts {
  import opened BlockStore
  import opened Crypto
  import opened StoreRuns
  import opened StoreUndo
  import opened Wrappers

  // ---------- one transaction ----------

  lemma {:induction false} AddedZeroIs(tx: Tx, n: nat)
    requires n <= |tx.vout|
    ensures AddedUnder(tx, n, 0) == if AddedAsRct(tx) then n else ZeroOuts(tx.vout[..n])
  {
    hide AddedAsRct;
    if n > 0 {
      AddedZeroIs(tx, n - 1);
      assert tx.vout[..n][..n - 1] == tx.vout[..n - 1];
    }
  }

  lemma {:induction false} ZeroOutsBounds(vout: seq<TxOut>)
    ensures ZeroOuts(vout) <= |vout|
    ensures ZeroOuts(vout) == |vout| <==> forall i | 0 <= i < |vout| :: vout[i].amount == 0
    ensures ZeroOuts(vout) == 0 <==> forall i | 0 <= i < |vout| :: vout[i].amount != 0
  {
    if vout != [] {
      var n := |vout| - 1;
      ZeroOutsBounds(vout[..n]);
      assert forall i | 0 <= i < n :: vout[i] == vout[..n][i];
      assert (forall i | 0 <= i < |vout| :: vout[i].amount == 0) <==>
          (forall i | 0 <= i < n :: vout[..n][i].amount == 0) && vout[n].amount == 0;
      assert (forall i | 0 <= i < |vout| :: vout[i].amount != 0) <==>
          (forall i | 0 <= i < n :: vout[..n][i].amount != 0) && vout[n].amount != 0;
    }
  }

  /** The outputs that a transaction adds to the list of amount zero. */
  ghost function ZeroListed(tx: Tx): nat {
    AddedUnder(tx, |tx.vout|, 0)
  }

  lemma OrdinaryZeros(tx: Tx)
    requires !HasGen(tx)
    ensures ZeroListed(tx) == ZeroOuts(tx.vout)
  {
    hide HasGen, ZeroOuts;
    AddedZeroIs(tx, |tx.vout|);
    assert tx.vout[..|tx.vout|] == tx.vout;
  }

  /** The miner transaction is counted right: at version 2 it is stored as RingCT, or it makes no difference because all
      amounts are zero; at any other version no amount is zero. */
  ghost predicate MinerCounted(tx: Tx) {
    if tx.version == 2 then HasGen(tx) || forall i | 0 <= i < |tx.vout| :: tx.vout[i].amount == 0
    else forall i | 0 <= i < |tx.vout| :: tx.vout[i].amount != 0
  }

  lemma MinerZeros(tx: Tx)
    ensures ZeroListed(tx) == (if tx.version == 2 then |tx.vout| else 0) <==> MinerCounted(tx)
  {
    hide HasGen, ZeroOuts;
    AddedZeroIs(tx, |tx.vout|);
    assert tx.vout[..|tx.vout|] == tx.vout;
    ZeroOutsBounds(tx.vout);
  }

  /** Miner transactions of version 0 or 1 with an output of amount zero are refused. */
  lemma OldVersionsCounted(t: Tables, tx: Tx, hash: Hash)
    requires MasksPresent(tx) && AddTx(t, tx, hash).Done? && tx.version <= 1
    ensures MinerCounted(tx)
  {
    hide AddOutputs, AddSpentKeys, AtEnd, MasksPresent;
    forall i | 0 <= i < |tx.vout|
      ensures tx.vout[i].amount != 0
    {
      OldOutputs(t.outs, |t.blocks|, tx, hash, |tx.vout|, i);
    }
  }

  lemma {:induction false} OldOutputs(o: OutputTables, height: nat, tx: Tx, hash: Hash, n: nat, i: nat)
    requires i < n <= |tx.vout| && MasksPresent(tx) && AddOutputs(o, height, tx, hash, n).Done? && tx.version <= 1
    ensures tx.vout[i].amount != 0
  {
    hide HasGen;
    if i < n - 1 {
      OldOutputs(o, height, tx, hash, n - 1, i);
    }
  }

  // ---------- one block ----------

  ghost predicate NoGen(txs: seq<Tx>) {
    forall i | 0 <= i < |txs| :: !HasGen(txs[i])
  }

  ghost function ZeroListedOfAll(txs: seq<Tx>): nat {
    if txs == [] then 0 else ZeroListedOfAll(txs[..|txs| - 1]) + ZeroListed(txs[|txs| - 1])
  }

  lemma {:induction false} OrdinaryZerosOfAll(txs: seq<Tx>)
    requires NoGen(txs)
    ensures ZeroListedOfAll(txs) == ZeroOutsOfAll(txs)
  {
    hide HasGen, ZeroOuts, ZeroListed;
    if txs != [] {
      OrdinaryZerosOfAll(txs[..|txs| - 1]);
      OrdinaryZeros(txs[|txs| - 1]);
    }
  }

  lemma BlockZeros(e: Entry)
    requires NoGen(e.txs)
    ensures ZeroListed(e.block.minerTx) + ZeroListedOfAll(e.txs) == NumRctOuts(e.block, e.txs) <==>
        MinerCounted(e.block.minerTx)
  {
    hide ZeroListed, MinerCounted, ZeroListedOfAll, ZeroOutsOfAll;
    OrdinaryZerosOfAll(e.txs);
    MinerZeros(e.block.minerTx);
  }

  lemma {:induction false} ListedJoin(l: seq<Stored>, m: seq<Stored>)
    ensures AllAddedUnder(l + m, 0) == AllAddedUnder(l, 0) + AllAddedUnder(m, 0)
  {
    hide AddedUnder;
    if m == [] {
      assert l + m == l;
    } else {
      ListedJoin(l, m[..|m| - 1]);
      assert (l + m)[..|l + m| - 1] == l + m[..|m| - 1];
    }
  }

  lemma {:induction false} StoredTxsZeros(txs: seq<Tx>, hashes: seq<Hash>, height: nat, n: nat)
    requires n <= |txs| && n <= |hashes|
    ensures AllAddedUnder(StoredTxs(txs, hashes, height, n), 0) == ZeroListedOfAll(txs[..n])
  {
    hide AddedUnder;
    if n > 0 {
      StoredTxsZeros(txs, hashes, height, n - 1);
      assert txs[..n][..n - 1] == txs[..n - 1];
      var s := StoredTxs(txs, hashes, height, n);
      assert s[..|s| - 1] == StoredTxs(txs, hashes, height, n - 1);
    }
  }

  lemma StoredBlockZeros(e: Entry, height: nat)
    requires |e.txs| == |e.block.txHashes|
    ensures AllAddedUnder(StoredBlock(e, height), 0) == ZeroListed(e.block.minerTx) + ZeroListedOfAll(e.txs)
  {
    hide StoredTxs, AddedUnder, ZeroListedOfAll;
    var miner := [Stored(e.block.minerTx, e.block.minerTx.hash, height)];
    ListedJoin(miner, StoredTxs(e.txs, e.block.txHashes, height, |e.txs|));
    StoredTxsZeros(e.txs, e.block.txHashes, height, |e.txs|);
    assert e.txs[..|e.txs|] == e.txs;
    assert miner[..0] == [];
  }

  // ---------- chains ----------

  function TotalRct(chain: seq<Entry>): nat {
    if chain == [] then 0
    else TotalRct(chain[..|chain| - 1]) + NumRctOuts(chain[|chain| - 1].block, chain[|chain| - 1].txs)
  }

  ghost function ZeroList(chain: seq<Entry>): nat
    requires AllUsable(chain) && Replay(chain).Done?
  {
    |ListOf(Replay(chain).value.outs, 0)|
  }

  lemma ReplayPrefix(chain: seq<Entry>)
    requires chain != [] && AllUsable(chain) && Replay(chain).Done?
    ensures Replay(chain[..|chain| - 1]).Done?
    ensures |chain[|chain| - 1].txs| == |chain[|chain| - 1].block.txHashes|
  {
    hide AddTx, AddTxs, AppendBlock;
  }

  /** A block makes the list of amount zero longer by the outputs listed there. */
  lemma ZeroListNext(chain: seq<Entry>)
    requires chain != [] && AllUsable(chain) && Replay(chain).Done?
    ensures Replay(chain[..|chain| - 1]).Done?
    ensures var e := chain[|chain| - 1];
      ZeroList(chain) == ZeroList(chain[..|chain| - 1]) + ZeroListed(e.block.minerTx) + ZeroListedOfAll(e.txs)
  {
    hide Replay, TxsAgree, KeysAgree, OwnersKnown, ListOf, Wf, AddedUnder, BlocksAre, AllAddedUnder, StoredBlock,
      ZeroListedOfAll, AllOuts, ZeroListed, Usable;
    ReplayPrefix(chain);
    var less, e := chain[..|chain| - 1], chain[|chain| - 1];
    ReplayAgrees(chain);
    ReplayAgrees(less);
    ListedJoin(StoredChain(less), StoredBlock(e, |less|));
    StoredBlockZeros(e, |less|);
  }

  /** At every height of the chain the list of amount zero is as long as the reported counts add up to. */
  ghost predicate ListMatchesCounts(chain: seq<Entry>)
    requires AllUsable(chain) && Replay(chain).Done?
  {
    && ZeroList(chain) == TotalRct(chain)
    && (chain != [] ==> (ReplayPrefix(chain); ListMatchesCounts(chain[..|chain| - 1])))
  }

  /** When only miner transactions have a coinbase input, that is so if and only if every miner transaction is counted
      right. */
  lemma {:induction false} ListMatchesExact(chain: seq<Entry>)
    requires AllUsable(chain) && Replay(chain).Done? && forall i | 0 <= i < |chain| :: NoGen(chain[i].txs)
    ensures ListMatchesCounts(chain) <==> forall i | 0 <= i < |chain| :: MinerCounted(chain[i].block.minerTx)
  {
    hide Replay, ZeroListed, ZeroListedOfAll, MinerCounted, NumRctOuts, NoGen, Usable;
    if chain == [] {
      NothingListed(chain);
    } else {
      var n := |chain| - 1;
      var less, e := chain[..n], chain[n];
      ReplayPrefix(chain);
      ListMatchesExact(less);
      assert NoGen(e.txs);
      BlockZeros(e);
      hide ZeroList;
      ZeroListNext(chain);
      assert TotalRct(chain) == TotalRct(less) + NumRctOuts(e.block, e.txs);
      assert forall i | 0 <= i < n :: chain[i] == less[i];
      assert (forall i | 0 <= i < |chain| :: MinerCounted(chain[i].block.minerTx)) <==>
             (forall i | 0 <= i < n :: MinerCounted(less[i].block.minerTx)) && MinerCounted(e.block.minerTx);
    }
  }

  lemma NothingListed(chain: seq<Entry>)
    requires chain == []
    ensures AllUsable(chain) && Replay(chain).Done? && ZeroList(chain) == 0
  {}

  /** What the network accepts is sane: only the miner transaction has a coinbase input, it has no other input, and its
      version is at most 2. */
  lemma UsualBlockSane(e: Entry)
    requires Usable(e) && NoGen(e.txs)
    requires |e.block.minerTx.vin| == 1 && e.block.minerTx.vin[0].Gen? && e.block.minerTx.version <= 2
    ensures Sane(e)
  {
    hide Usable;
    forall i | 0 <= i < |e.txs|
      ensures Revertible(e.txs[i])
    {
      OrdinaryRevertible(e.txs[i]);
    }
    RevertibleExact(e.block.minerTx);
  }

  // ---------- the cumulative count ----------

  /** The recurrence that the block records follow. */
  lemma {:induction false} CumRctStep(chain: seq<Entry>, h: nat)
    requires AllUsable(chain) && Replay(chain).Done? && h < |chain|
    ensures |Replay(chain).value.blocks| == |chain|
    ensures chain[h].block.majorVersion >= 4 ==> h > 0
    ensures Replay(chain).value.blocks[h].cumRct ==
            NumRctOuts(chain[h].block, chain[h].txs) +
            if chain[h].block.majorVersion >= 4 then Replay(chain).value.blocks[h - 1].cumRct else 0
  {
    hide AddBlock, Agrees, NumRctOuts, StoredChain;
    var n := |chain| - 1;
    var less, e := chain[..n], chain[n];
    ReplayAgrees(chain);
    ReplayAgrees(less);
    var t := Replay(less).value;
    BlocksNext(t, less, e);
    hide FindBlock;
    if h < n {
      CumRctStep(less, h);
    }
  }

  /** The cumulative count is the running total at every height, if and only if nothing has been counted before
      a block of major version below 4. */
  lemma CumRctExact(chain: seq<Entry>)
    requires AllUsable(chain) && Replay(chain).Done?
    ensures |Replay(chain).value.blocks| == |chain|
    ensures (forall h | 0 <= h < |chain| :: Replay(chain).value.blocks[h].cumRct == TotalRct(chain[..h + 1])) <==>
            (forall h | 0 <= h < |chain| :: chain[h].block.majorVersion < 4 ==> TotalRct(chain[..h]) == 0)
  {
    hide Replay, NumRctOuts, TotalRct, Usable;
    if chain == [] {
      NoRecords(chain);
    } else {
      CumRctStep(chain, 0);
    }
    var blocks := Replay(chain).value.blocks;
    if forall h | 0 <= h < |chain| :: blocks[h].cumRct == TotalRct(chain[..h + 1]) {
      forall h | 0 <= h < |chain|
        ensures chain[h].block.majorVersion < 4 ==> TotalRct(chain[..h]) == 0
      {
        CumRctStep(chain, h);
        TotalNext(chain, h);
      }
    }
    if forall h | 0 <= h < |chain| :: chain[h].block.majorVersion < 4 ==> TotalRct(chain[..h]) == 0 {
      CumRctTotals(chain, |chain|);
    }
  }

  lemma NoRecords(chain: seq<Entry>)
    requires chain == []
    ensures AllUsable(chain) && Replay(chain).Done? && |Replay(chain).value.blocks| == 0
  {}

  lemma TotalNext(chain: seq<Entry>, h: nat)
    requires h < |chain|
    ensures TotalRct(chain[..h + 1]) == TotalRct(chain[..h]) + NumRctOuts(chain[h].block, chain[h].txs)
  {
    assert chain[..h + 1][..h] == chain[..h];
  }

  lemma {:induction false} CumRctTotals(chain: seq<Entry>, n: nat)
    requires AllUsable(chain) && Replay(chain).Done? && n <= |chain| && |Replay(chain).value.blocks| == |chain|
    requires forall h | 0 <= h < |chain| :: chain[h].block.majorVersion < 4 ==> TotalRct(chain[..h]) == 0
    ensures forall h | 0 <= h < n :: Replay(chain).value.blocks[h].cumRct == TotalRct(chain[..h + 1])
  {
    hide Replay, NumRctOuts, TotalRct, Usable;
    if n > 0 {
      CumRctTotals(chain, n - 1);
      CumRctStep(chain, n - 1);
      TotalNext(chain, n - 1);
      assert chain[n - 1].block.majorVersion >= 4 ==>
          Replay(chain).value.blocks[n - 2].cumRct == TotalRct(chain[..n - 2 + 1]);
    }
  }

  // ---------- chains where the counts go wrong ----------

  lemma OutputAdded(o: OutputTables, height: nat, hash: Hash, amount: nat, key: Option<Key>, localIndex: nat,
                    unlockTime: nat, commitment: Option<Commitment>)
    requires OutputsWf(o) && key.Some? && (amount == 0 ==> commitment.Some?)
    ensures AddOutput(o, height, hash, amount, key, localIndex, unlockTime, commitment).Done?
  {}

  lemma {:induction false} GenOutputsAdded(o: OutputTables, height: nat, tx: Tx, hash: Hash, n: nat)
    requires OutputsWf(o) && n <= |tx.vout| && MasksPresent(tx) && tx.version > 1
    requires forall i | 0 <= i < |tx.vout| :: tx.vout[i].key.Some?
    ensures AddOutputs(o, height, tx, hash, n).Done? && OutputsWf(AddOutputs(o, height, tx, hash, n).value.0)
  {
    hide AddedAsRct, MasksPresent, AddOutput, OutputsWf;
    if n > 0 {
      GenOutputsAdded(o, height, tx, hash, n - 1);
      var p := AddOutputs(o, height, tx, hash, n - 1).value.0;
      OutputAdded(p, height, hash, AddAmount(tx, n - 1), tx.vout[n - 1].key, n - 1, tx.unlockTime,
        CommitmentOf(tx, n - 1));
      UndoOutput(p, height, hash, AddAmount(tx, n - 1), tx.vout[n - 1].key, n - 1, tx.unlockTime,
        CommitmentOf(tx, n - 1));
    }
  }

  /** A block with nothing but a coinbase transaction is accepted on top of its parent. */
  lemma MinerBlockAdded(t: Tables, block: Block)
    requires Wf(t) && block.txHashes == [] && block.majorVersion < 4 && FindBlock(t.blocks, block.hash).None?
    requires t.blocks != [] ==> FindBlock(t.blocks, block.prev) == Some(|t.blocks| - 1)
    requires var tx := block.minerTx;
      && MasksPresent(tx) && tx.version > 1 && tx.hash !in t.txIndices && |tx.vin| == 1 && tx.vin[0].Gen?
      && forall i | 0 <= i < |tx.vout| :: tx.vout[i].key.Some?
    ensures BlockStore.AddBlock(t, block, []).Done?
    ensures BlockStore.AddBlock(t, block, []).value.blocks == t.blocks + [BlockInfo(block, NumRctOuts(block, []))]
    ensures BlockStore.AddBlock(t, block, []).value.txIndices.Keys == t.txIndices.Keys + {block.minerTx.hash}
  {
    hide AddTx, MasksPresent, FindBlock, Wf, NumRctOuts;
    CoinbaseAdded(t, block.minerTx);
    var u := AddTx(t, block.minerTx, block.minerTx.hash);
    assert AddTxs(u.value, [], [], 0) == u;
  }

  lemma NothingSpent(keys: set<KeyImage>, vin: seq<TxIn>)
    requires |vin| == 1 && vin[0].Gen?
    ensures AddSpentKeys(keys, vin, |vin|) == Done(keys)
  {
    assert AddSpentKeys(keys, vin, 0) == Done(keys);
  }

  lemma DenseAtEnd<T>(m: map<nat, T>, n: nat)
    requires Dense(m, n)
    ensures AtEnd(m, n)
  {}

  lemma CoinbaseAdded(t: Tables, tx: Tx)
    requires Wf(t) && MasksPresent(tx) && tx.version > 1 && tx.hash !in t.txIndices && |tx.vin| == 1 && tx.vin[0].Gen?
    requires forall i | 0 <= i < |tx.vout| :: tx.vout[i].key.Some?
    ensures AddTx(t, tx, tx.hash).Done? && AddTx(t, tx, tx.hash).value.blocks == t.blocks
    ensures AddTx(t, tx, tx.hash).value.txIndices.Keys == t.txIndices.Keys + {tx.hash}
  {
    hide AddOutputs, MasksPresent, OutputsWf, Dense, AtEnd, AddSpentKeys;
    GenOutputsAdded(t.outs, |t.blocks|, tx, tx.hash, |tx.vout|);
    NothingSpent(t.spentKeys, tx.vin);
    DenseAtEnd(t.txs, |t.txs|);
    DenseAtEnd(t.txOutputs, |t.txs|);
  }

  function Coinbase(id: nat, version: nat, amount: nat): Tx {
    Tx(Hash(id), version, 0, [Gen(id)], [TxOut(amount, Some(Key(id)))], [Mask(id)])
  }

  function MinerBlock(id: nat, version: nat, amount: nat): Entry {
    Entry(Block(Hash(id + 1), Hash(id), 1, Coinbase(id, version, amount), []), [])
  }

  lemma FirstBlock(version: nat, amount: nat)
    requires version > 1
    ensures var chain := [MinerBlock(0, version, amount)];
      && AllUsable(chain) && Replay(chain).Done? && Wf(Replay(chain).value)
      && Replay(chain).value.blocks == [BlockInfo(chain[0].block, NumRctOuts(chain[0].block, []))]
      && Replay(chain).value.txIndices.Keys == {Hash(0)}
  {
    hide AddBlock, Wf, NumRctOuts, Agrees, StoredChain;
    var e := MinerBlock(0, version, amount);
    var chain := [e];
    assert chain[..0] == [];
    EmptyAgrees();
    AgreesWf(EMPTY, []);
    MinerBlockAdded(EMPTY, e.block);
    ReplayAgrees(chain);
    AgreesWf(Replay(chain).value, StoredChain(chain));
  }

  /** A version 3 coinbase with an output of amount zero is listed but not counted. */
  lemma ListMayDiffer()
    ensures var chain := [MinerBlock(0, 3, 0)]; AllUsable(chain) && Replay(chain).Done? && !ListMatchesCounts(chain)
  {
    hide Replay, ListMatchesCounts, NumRctOuts;
    var chain := [MinerBlock(0, 3, 0)];
    FirstBlock(3, 0);
    ListMatchesExact(chain);
    assert !MinerCounted(chain[0].block.minerTx) by {
      assert chain[0].block.minerTx.vout[0].amount == 0;
    }
  }

  /** Two blocks of major version 1 with RingCT outputs: the second count starts again. */
  lemma CumRctMayRestart()
    ensures var chain := [MinerBlock(0, 2, 5), MinerBlock(1, 2, 5)];
      && AllUsable(chain) && Replay(chain).Done? && |Replay(chain).value.blocks| == 2
      && Replay(chain).value.blocks[1].cumRct == 1 && TotalRct(chain) == 2
  {
    hide AddBlock, Wf, HasGen;
    var chain := [MinerBlock(0, 2, 5), MinerBlock(1, 2, 5)];
    var first, e := [MinerBlock(0, 2, 5)], MinerBlock(1, 2, 5);
    assert chain[..1] == first && first[..0] == [];
    FirstBlock(2, 5);
    var t := Replay(first).value;
    assert FindBlock([], Hash(1)) == None;
    assert t.blocks[..0] == [];
    MinerBlockAdded(t, e.block);
  }
}
