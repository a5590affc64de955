/** Every run of block additions and removals keeps the tables in agreement with the chain. */
module StoreRuns {
  import opened Basics
  import opened BlockStore
  import opened Crypto
  import opened StoreUndo
  import opened Wrappers

  // ---------- outputs stay where they were recorded ----------

  ghost predicate OutputsExtend(o: OutputTables, p: OutputTables) {
    o.outputTxs <= p.outputTxs && forall a :: ListOf(o, a) <= ListOf(p, a)
  }

  /** Output i of the transaction is found under the recorded index, and its global id leads back to it. */
  ghost predicate Recorded(o: OutputTables, height: nat, tx: Tx, hash: Hash, i: nat, index: nat)
    requires i < |tx.vout| && MasksPresent(tx)
  {
    var amount := AddAmount(tx, i);
    var list := ListOf(o, amount);
    && tx.vout[i].key.Some? && index < |list|
    && var id := list[index].outputId;
    && list[index] == OutKey(index, id, tx.vout[i].key.value, tx.unlockTime, height,
                             if amount == 0 then CommitmentOf(tx, i) else None)
    && (amount == 0 ==> CommitmentOf(tx, i).Some?)
    && id < |o.outputTxs| && o.outputTxs[id] == OutTx(id, hash, i)
  }

  lemma RecordedStays(o: OutputTables, p: OutputTables, height: nat, tx: Tx, hash: Hash, i: nat, index: nat)
    requires i < |tx.vout| && MasksPresent(tx) && Recorded(o, height, tx, hash, i, index) && OutputsExtend(o, p)
    ensures Recorded(p, height, tx, hash, i, index)
  {
    hide AddAmount, CommitmentOf, MasksPresent, ListOf;
    var amount := AddAmount(tx, i);
    assert ListOf(o, amount) <= ListOf(p, amount);
  }

  lemma AddOutputEffect(o: OutputTables, height: nat, hash: Hash, amount: nat, key: Option<Key>, localIndex: nat,
                        unlockTime: nat, commitment: Option<Commitment>)
    requires OutputsWf(o) && AddOutput(o, height, hash, amount, key, localIndex, unlockTime, commitment).Done?
    ensures key.Some? && (amount == 0 ==> commitment.Some?)
    ensures
      var r := AddOutput(o, height, hash, amount, key, localIndex, unlockTime, commitment).value;
      var id := |o.outputTxs|;
      && r.1 == |ListOf(o, amount)|
      && ListOf(r.0, amount) ==
        ListOf(o, amount) + [OutKey(r.1, id, key.value, unlockTime, height, if amount == 0 then commitment else None)]
      && (forall a | a != amount :: ListOf(r.0, a) == ListOf(o, a))
      && r.0.outputTxs == o.outputTxs + [OutTx(id, hash, localIndex)]
  {
    hide Numbered;
  }

  lemma AddOutputRecords(o: OutputTables, height: nat, tx: Tx, hash: Hash, i: nat)
    requires OutputsWf(o) && i < |tx.vout| && MasksPresent(tx)
    requires AddOutput(o, height, hash, AddAmount(tx, i), tx.vout[i].key, i, tx.unlockTime, CommitmentOf(tx, i)).Done?
    ensures
      var amount, out := AddAmount(tx, i), tx.vout[i];
      var r := AddOutput(o, height, hash, amount, out.key, i, tx.unlockTime, CommitmentOf(tx, i)).value;
      && OutputsExtend(o, r.0) && Recorded(r.0, height, tx, hash, i, r.1)
      && OutputsWf(r.0) && |r.0.outputTxs| == |o.outputTxs| + 1
  {
    hide AddAmount, CommitmentOf, MasksPresent, OutputsWf, AddOutput, ListOf;
    UndoOutput(o, height, hash, AddAmount(tx, i), tx.vout[i].key, i, tx.unlockTime, CommitmentOf(tx, i));
    AddOutputEffect(o, height, hash, AddAmount(tx, i), tx.vout[i].key, i, tx.unlockTime, CommitmentOf(tx, i));
  }

  lemma {:induction false} AddOutputsRecord(o: OutputTables, height: nat, tx: Tx, hash: Hash, n: nat)
    requires OutputsWf(o) && n <= |tx.vout| && MasksPresent(tx) && AddOutputs(o, height, tx, hash, n).Done?
    ensures var r := AddOutputs(o, height, tx, hash, n).value;
      && |r.1| == n && OutputsWf(r.0) && OutputsExtend(o, r.0) && |r.0.outputTxs| == |o.outputTxs| + n
      && forall i | 0 <= i < n :: Recorded(r.0, height, tx, hash, i, r.1[i])
  {
    hide AddOutput, AddAmount, CommitmentOf, MasksPresent, OutputsWf, Recorded, ListOf;
    if n > 0 {
      AddOutputsRecord(o, height, tx, hash, n - 1);
      var before, after := AddOutputs(o, height, tx, hash, n - 1).value, AddOutputs(o, height, tx, hash, n).value;
      AddOutputRecords(before.0, height, tx, hash, n - 1);
      forall i | 0 <= i < n - 1
        ensures Recorded(after.0, height, tx, hash, i, after.1[i])
      {
        RecordedStays(before.0, after.0, height, tx, hash, i, before.1[i]);
      }
    }
  }

  // ---------- the tables and the list of stored transactions ----------

  /** A stored transaction, with the hash it is stored under and the height of its block. */
  datatype Stored = Stored(tx: Tx, hash: Hash, height: nat)

  function AllImages(l: seq<Stored>): seq<KeyImage> {
    if l == [] then [] else AllImages(l[..|l| - 1]) + Images(l[|l| - 1].tx.vin)
  }

  /** Outputs that the listed transactions have under an amount. */
  ghost function AllAddedUnder(l: seq<Stored>, amount: nat): nat {
    if l == [] then 0
    else AllAddedUnder(l[..|l| - 1], amount) + AddedUnder(l[|l| - 1].tx, |l[|l| - 1].tx.vout|, amount)
  }

  function AllOuts(l: seq<Stored>): nat {
    if l == [] then 0 else AllOuts(l[..|l| - 1]) + |l[|l| - 1].tx.vout|
  }

  /** The k-th transaction is stored as such and its outputs are recorded under its output indices. */
  ghost predicate TxRecorded(t: Tables, k: nat, s: Stored) {
    && MasksPresent(s.tx) && k in t.txs && t.txs[k] == s.tx
    && s.hash in t.txIndices && t.txIndices[s.hash] == TxIndex(k, s.tx.unlockTime, s.height)
    && k in t.txOutputs && |t.txOutputs[k]| == |s.tx.vout|
    && forall i | 0 <= i < |s.tx.vout| :: Recorded(t.outs, s.height, s.tx, s.hash, i, t.txOutputs[k][i])
  }

  ghost predicate TxsAgree(t: Tables, l: seq<Stored>) {
    && |t.txs| == |l| && (forall k | 0 <= k < |l| :: TxRecorded(t, k, l[k]))
    && (forall h | h in t.txIndices :: t.txIndices[h].txId < |l| && l[t.txIndices[h].txId].hash == h)
  }

  /** The spent keys are the key images of the listed transactions, each spent once. */
  ghost predicate KeysAgree(keys: set<KeyImage>, l: seq<Stored>) {
    keys == (set x | x in AllImages(l)) && Distinct(AllImages(l))
  }

  /** The list of every amount is as long as the listed transactions make it. */
  ghost predicate CountsAgree(o: OutputTables, l: seq<Stored>) {
    |o.outputTxs| == AllOuts(l) && forall a :: |ListOf(o, a)| == AllAddedUnder(l, a)
  }

  /** Output i of the k-th transaction is stored under an amount and an index. */
  ghost predicate StoredAs(t: Tables, l: seq<Stored>, k: nat, i: nat, amount: nat, index: nat) {
    && k < |l| && i < |l[k].tx.vout| && AddAmount(l[k].tx, i) == amount
    && k in t.txOutputs && i < |t.txOutputs[k]| && t.txOutputs[k][i] == index
  }

  ghost predicate EntryOwned(t: Tables, l: seq<Stored>, amount: nat, index: nat) {
    exists k, i :: StoredAs(t, l, k, i, amount, index)
  }

  /** The entry of the global list names an output of a listed transaction. */
  ghost predicate Names(l: seq<Stored>, entry: OutTx, k: nat) {
    k < |l| && entry.txHash == l[k].hash && entry.localIndex < |l[k].tx.vout|
  }

  ghost predicate IdOwned(o: OutputTables, l: seq<Stored>, id: nat)
    requires id < |o.outputTxs|
  {
    exists k :: Names(l, o.outputTxs[id], k)
  }

  /** Every entry of every list, and of the global one, is an output of a listed transaction. */
  ghost predicate OwnersKnown(t: Tables, l: seq<Stored>) {
    && (forall a, index | 0 <= index < |ListOf(t.outs, a)| :: EntryOwned(t, l, a, index))
    && (forall id | 0 <= id < |t.outs.outputTxs| :: IdOwned(t.outs, l, id))
  }

  /** The tables hold the listed transactions and nothing else. */
  ghost predicate Agrees(t: Tables, l: seq<Stored>) {
    Wf(t) && TxsAgree(t, l) && KeysAgree(t.spentKeys, l) && CountsAgree(t.outs, l) && OwnersKnown(t, l)
  }

  /** Conversely to TxRecorded: whatever stands in a list is the recorded output of a stored transaction. */
  lemma EntryIsRecorded(t: Tables, l: seq<Stored>, amount: nat, index: nat) returns (k: nat, i: nat)
    requires Agrees(t, l) && index < |ListOf(t.outs, amount)|
    ensures StoredAs(t, l, k, i, amount, index) && MasksPresent(l[k].tx)
    ensures Recorded(t.outs, l[k].height, l[k].tx, l[k].hash, i, index)
  {
    hide Recorded, AddAmount, MasksPresent, Wf, KeysAgree, CountsAgree, ListOf;
    assert EntryOwned(t, l, amount, index);
    k, i :| StoredAs(t, l, k, i, amount, index);
    assert TxRecorded(t, k, l[k]);
  }

  /** What a list gains are outputs of the transaction added. */
  lemma {:induction false} NewEntries(o: OutputTables, height: nat, tx: Tx, hash: Hash, n: nat, amount: nat, index: nat)
    returns (i: nat)
    requires OutputsWf(o) && n <= |tx.vout| && MasksPresent(tx) && AddOutputs(o, height, tx, hash, n).Done?
    requires |ListOf(o, amount)| <= index < |ListOf(AddOutputs(o, height, tx, hash, n).value.0, amount)|
    ensures i < n && AddAmount(tx, i) == amount
    ensures |AddOutputs(o, height, tx, hash, n).value.1| == n && AddOutputs(o, height, tx, hash, n).value.1[i] == index
  {
    hide AddOutput, AddAmount, CommitmentOf, MasksPresent, OutputsWf, Recorded, ListOf, OutputsExtend;
    IndicesCount(o, height, tx, hash, n);
    if n == 0 {
      assert false;
    }
    AddOutputsRecord(o, height, tx, hash, n - 1);
    var before := AddOutputs(o, height, tx, hash, n - 1).value;
    AddOutputEffect(before.0, height, hash, AddAmount(tx, n - 1), tx.vout[n - 1].key, n - 1, tx.unlockTime,
      CommitmentOf(tx, n - 1));
    if index < |ListOf(before.0, amount)| {
      i := NewEntries(o, height, tx, hash, n - 1, amount, index);
    } else {
      i := n - 1;
    }
  }

  lemma {:induction false} NewIds(o: OutputTables, height: nat, tx: Tx, hash: Hash, n: nat, i: nat)
    requires OutputsWf(o) && i < n <= |tx.vout| && MasksPresent(tx) && AddOutputs(o, height, tx, hash, n).Done?
    ensures var p, id := AddOutputs(o, height, tx, hash, n).value.0, |o.outputTxs| + i;
      id < |p.outputTxs| && p.outputTxs[id] == OutTx(id, hash, i)
  {
    hide AddOutput, AddAmount, CommitmentOf, MasksPresent, OutputsWf, Recorded, ListOf, OutputsExtend;
    AddOutputsRecord(o, height, tx, hash, n - 1);
    var before := AddOutputs(o, height, tx, hash, n - 1).value;
    AddOutputEffect(before.0, height, hash, AddAmount(tx, n - 1), tx.vout[n - 1].key, n - 1, tx.unlockTime,
      CommitmentOf(tx, n - 1));
    if i < n - 1 {
      NewIds(o, height, tx, hash, n - 1, i);
    }
  }

  lemma OwnersNext(t: Tables, l: seq<Stored>, tx: Tx, hash: Hash)
    requires Wf(t) && |t.txs| == |l| && OwnersKnown(t, l) && MasksPresent(tx) && AddTx(t, tx, hash).Done?
    ensures OwnersKnown(AddTx(t, tx, hash).value, l + [Stored(tx, hash, |t.blocks|)])
  {
    hide AddTx, AddOutputs, AddSpentKeys, AddAmount, OutputsWf, MasksPresent, ListOf, GetTx, Dense, Recorded;
    var u, m := AddTx(t, tx, hash).value, l + [Stored(tx, hash, |t.blocks|)];
    AddTxShape(t, tx, hash);
    AddOutputsRecord(t.outs, |t.blocks|, tx, hash, |tx.vout|);
    forall a, index | 0 <= index < |ListOf(u.outs, a)|
      ensures EntryOwned(u, m, a, index)
    {
      if index < |ListOf(t.outs, a)| {
        assert EntryOwned(t, l, a, index);
        var k, i :| StoredAs(t, l, k, i, a, index);
        assert StoredAs(u, m, k, i, a, index);
      } else {
        var i := NewEntries(t.outs, |t.blocks|, tx, hash, |tx.vout|, a, index);
        assert StoredAs(u, m, |l|, i, a, index);
      }
    }
    forall id | 0 <= id < |u.outs.outputTxs|
      ensures IdOwned(u.outs, m, id)
    {
      IdOwnedNext(t.outs, u.outs, l, tx, hash, |t.blocks|, id);
    }
  }

  lemma IdOwnedNext(o: OutputTables, p: OutputTables, l: seq<Stored>, tx: Tx, hash: Hash, height: nat, id: nat)
    requires OutputsWf(o) && MasksPresent(tx) && AddOutputs(o, height, tx, hash, |tx.vout|).Done?
    requires p == AddOutputs(o, height, tx, hash, |tx.vout|).value.0 && id < |p.outputTxs|
    requires id < |o.outputTxs| ==> IdOwned(o, l, id)
    ensures IdOwned(p, l + [Stored(tx, hash, height)], id)
  {
    hide AddOutputs, OutputsWf, MasksPresent, ListOf, Recorded;
    var m := l + [Stored(tx, hash, height)];
    AddOutputsRecord(o, height, tx, hash, |tx.vout|);
    if id < |o.outputTxs| {
      var k :| Names(l, o.outputTxs[id], k);
      assert Names(m, p.outputTxs[id], k);
    } else {
      NewIds(o, height, tx, hash, |tx.vout|, id - |o.outputTxs|);
      assert Names(m, p.outputTxs[id], |l|);
    }
  }

  lemma TxStaysRecorded(t: Tables, tx: Tx, hash: Hash, k: nat, s: Stored)
    requires Wf(t) && MasksPresent(tx) && AddTx(t, tx, hash).Done? && k < |t.txs| && TxRecorded(t, k, s)
    ensures TxRecorded(AddTx(t, tx, hash).value, k, s)
  {
    hide AddOutputs, AddSpentKeys, OutputsWf, OutputsExtend, MasksPresent, Recorded, AtEnd;
    var u := AddTx(t, tx, hash).value;
    AddOutputsRecord(t.outs, |t.blocks|, tx, hash, |tx.vout|);
    forall i | 0 <= i < |s.tx.vout|
      ensures Recorded(u.outs, s.height, s.tx, s.hash, i, u.txOutputs[k][i])
    {
      RecordedStays(t.outs, u.outs, s.height, s.tx, s.hash, i, t.txOutputs[k][i]);
    }
  }

  lemma TxBecomesRecorded(t: Tables, tx: Tx, hash: Hash)
    requires Wf(t) && MasksPresent(tx) && AddTx(t, tx, hash).Done?
    ensures TxRecorded(AddTx(t, tx, hash).value, |t.txs|, Stored(tx, hash, |t.blocks|))
  {
    hide AddOutputs, AddSpentKeys, OutputsWf, OutputsExtend, MasksPresent, Recorded, AtEnd;
    AddOutputsRecord(t.outs, |t.blocks|, tx, hash, |tx.vout|);
  }

  lemma KeysNext(t: Tables, l: seq<Stored>, tx: Tx, hash: Hash)
    requires KeysAgree(t.spentKeys, l) && MasksPresent(tx) && AddTx(t, tx, hash).Done?
    ensures KeysAgree(AddTx(t, tx, hash).value.spentKeys, l + [Stored(tx, hash, |t.blocks|)])
  {
    hide AddSpentKeys, AddOutputs, Images, Distinct, MasksPresent, AtEnd;
    SpentKeysExact(t.spentKeys, tx.vin, |tx.vin|);
    assert tx.vin[..|tx.vin|] == tx.vin;
    DistinctConcat(AllImages(l), Images(tx.vin));
    assert (l + [Stored(tx, hash, |t.blocks|)])[..|l|] == l;
  }

  lemma CountsNext(t: Tables, l: seq<Stored>, tx: Tx, hash: Hash)
    requires Wf(t) && CountsAgree(t.outs, l) && MasksPresent(tx) && AddTx(t, tx, hash).Done?
    ensures CountsAgree(AddTx(t, tx, hash).value.outs, l + [Stored(tx, hash, |t.blocks|)])
  {
    hide AddOutputs, OutputsWf, MasksPresent, OutputsExtend, Recorded, AddedUnder, ListOf, AddSpentKeys, AtEnd, Dense;
    var u, m := AddTx(t, tx, hash).value, l + [Stored(tx, hash, |t.blocks|)];
    AddOutputsRecord(t.outs, |t.blocks|, tx, hash, |tx.vout|);
    assert m[..|l|] == l;
    forall a
      ensures |ListOf(u.outs, a)| == AllAddedUnder(m, a)
    {
      AddedCount(t.outs, |t.blocks|, tx, hash, |tx.vout|, a);
    }
  }

  lemma TxsNext(t: Tables, l: seq<Stored>, tx: Tx, hash: Hash)
    requires Wf(t) && TxsAgree(t, l) && MasksPresent(tx) && AddTx(t, tx, hash).Done?
    ensures TxsAgree(AddTx(t, tx, hash).value, l + [Stored(tx, hash, |t.blocks|)])
  {
    hide AddOutputs, AddSpentKeys, MasksPresent, TxRecorded, AtEnd, OutputsWf;
    var u, m := AddTx(t, tx, hash).value, l + [Stored(tx, hash, |t.blocks|)];
    TxBecomesRecorded(t, tx, hash);
    forall k | 0 <= k < |m|
      ensures TxRecorded(u, k, m[k])
    {
      if k < |l| {
        TxStaysRecorded(t, tx, hash, k, l[k]);
      }
    }
  }

  /** Adding a transaction adds it to the list. */
  lemma AgreesNext(t: Tables, l: seq<Stored>, tx: Tx, hash: Hash)
    requires Agrees(t, l) && MasksPresent(tx) && AddTx(t, tx, hash).Done?
    ensures Agrees(AddTx(t, tx, hash).value, l + [Stored(tx, hash, |t.blocks|)])
  {
    hide AddTx, Wf, KeysAgree, CountsAgree, OwnersKnown, TxRecorded, MasksPresent, AddOutputs, AddSpentKeys, GetTx;
    AddTxShape(t, tx, hash);
    OwnersNext(t, l, tx, hash);
    hide TxsAgree;
    TxsNext(t, l, tx, hash);
    KeysNext(t, l, tx, hash);
    CountsNext(t, l, tx, hash);
  }

  lemma AgreesAnyBlocks(t: Tables, l: seq<Stored>, blocks: seq<BlockInfo>)
    requires Agrees(t, l)
    ensures Agrees(t.(blocks := blocks), l)
  {
    hide Recorded, MasksPresent, OutputsWf, Dense, KeysAgree, CountsAgree, AddAmount, ListOf;
    var u := t.(blocks := blocks);
    forall a, index | 0 <= index < |ListOf(u.outs, a)|
      ensures EntryOwned(u, l, a, index)
    {
      assert EntryOwned(t, l, a, index);
      var k, i :| StoredAs(t, l, k, i, a, index);
      assert StoredAs(u, l, k, i, a, index);
    }
    assert forall k | 0 <= k < |l| :: TxRecorded(t, k, l[k]) ==> TxRecorded(u, k, l[k]);
  }

  // ---------- chains ----------

  datatype Entry = Entry(block: Block, txs: seq<Tx>)

  predicate Usable(e: Entry) {
    MasksPresent(e.block.minerTx) && AllMasksPresent(e.txs)
  }

  ghost predicate AllUsable(chain: seq<Entry>) {
    forall i | 0 <= i < |chain| :: Usable(chain[i])
  }

  /** The tables after adding the blocks of a chain to an empty store. */
  function Replay(chain: seq<Entry>): Attempt<Tables>
    requires AllUsable(chain)
  {
    if chain == [] then Done(EMPTY)
    else match Replay(chain[..|chain| - 1])
      case Failed(e) => Failed(e)
      case Done(t) => AddBlock(t, chain[|chain| - 1].block, chain[|chain| - 1].txs)
  }

  function StoredTxs(txs: seq<Tx>, hashes: seq<Hash>, height: nat, n: nat): seq<Stored>
    requires n <= |txs| && n <= |hashes|
  {
    if n == 0 then [] else StoredTxs(txs, hashes, height, n - 1) + [Stored(txs[n - 1], hashes[n - 1], height)]
  }

  /** The transactions of a block, the miner's first. */
  function StoredBlock(e: Entry, height: nat): seq<Stored> {
    [Stored(e.block.minerTx, e.block.minerTx.hash, height)] +
    if |e.txs| == |e.block.txHashes| then StoredTxs(e.txs, e.block.txHashes, height, |e.txs|) else []
  }

  function StoredChain(chain: seq<Entry>): seq<Stored> {
    if chain == [] then [] else StoredChain(chain[..|chain| - 1]) + StoredBlock(chain[|chain| - 1], |chain| - 1)
  }

  lemma {:induction false} AgreesTxs(t: Tables, l: seq<Stored>, txs: seq<Tx>, hashes: seq<Hash>, n: nat)
    requires Agrees(t, l) && n <= |txs| == |hashes| && AllMasksPresent(txs) && AddTxs(t, txs, hashes, n).Done?
    ensures Agrees(AddTxs(t, txs, hashes, n).value, l + StoredTxs(txs, hashes, |t.blocks|, n))
    ensures AddTxs(t, txs, hashes, n).value.blocks == t.blocks
  {
    hide AddTx, Agrees, MasksPresent;
    if n == 0 {
      assert l + [] == l;
    } else {
      AgreesTxs(t, l, txs, hashes, n - 1);
      var u, m := AddTxs(t, txs, hashes, n - 1).value, l + StoredTxs(txs, hashes, |t.blocks|, n - 1);
      AgreesNext(u, m, txs[n - 1], hashes[n - 1]);
      AgreesWf(u, m);
      AddTxKeepsBlocks(u, txs[n - 1], hashes[n - 1]);
      assert m + [Stored(txs[n - 1], hashes[n - 1], |t.blocks|)] == l + StoredTxs(txs, hashes, |t.blocks|, n);
    }
  }

  lemma AgreesWf(t: Tables, l: seq<Stored>)
    requires Agrees(t, l)
    ensures Wf(t)
  {}

  lemma AddTxKeepsBlocks(t: Tables, tx: Tx, hash: Hash)
    requires MasksPresent(tx) && AddTx(t, tx, hash).Done?
    ensures AddTx(t, tx, hash).value.blocks == t.blocks
  {
    hide AddSpentKeys, AddOutputs, MasksPresent, AtEnd;
  }

  lemma AgreesBlock(t: Tables, l: seq<Stored>, e: Entry)
    requires Agrees(t, l) && Usable(e) && AddBlock(t, e.block, e.txs).Done?
    ensures Agrees(AddBlock(t, e.block, e.txs).value, l + StoredBlock(e, |t.blocks|))
  {
    hide AddTx, AddTxs, Agrees, MasksPresent, AllMasksPresent, AddBlock, AppendBlock, NumRctOuts, Wf, StoredTxs;
    AgreesWf(t, l);
    AddBlockShape(t, e.block, e.txs);
    var u := AddTx(t, e.block.minerTx, e.block.minerTx.hash).value;
    var miner := Stored(e.block.minerTx, e.block.minerTx.hash, |t.blocks|);
    AgreesNext(t, l, e.block.minerTx, e.block.minerTx.hash);
    AgreesTxs(u, l + [miner], e.txs, e.block.txHashes, |e.txs|);
    var v := AddTxs(u, e.txs, e.block.txHashes, |e.txs|).value;
    var stored := StoredTxs(e.txs, e.block.txHashes, |t.blocks|, |e.txs|);
    assert l + [miner] + stored == l + StoredBlock(e, |t.blocks|);
    AgreesAnyBlocks(v, l + [miner] + stored, AddBlock(t, e.block, e.txs).value.blocks);
  }

  /** The block records are those of the chain. */
  ghost predicate BlocksAre(blocks: seq<BlockInfo>, chain: seq<Entry>) {
    |blocks| == |chain| && forall h | 0 <= h < |chain| :: blocks[h].block == chain[h].block
  }

  /** After any chain the tables agree with its transactions. */
  lemma {:induction false} ReplayAgrees(chain: seq<Entry>)
    requires AllUsable(chain) && Replay(chain).Done?
    ensures Agrees(Replay(chain).value, StoredChain(chain)) && BlocksAre(Replay(chain).value.blocks, chain)
  {
    hide AddBlock, Agrees, Usable, StoredBlock;
    if chain == [] {
      EmptyAgrees();
    } else {
      var less, e := chain[..|chain| - 1], chain[|chain| - 1];
      ReplayAgrees(less);
      var t := Replay(less).value;
      AgreesBlock(t, StoredChain(less), e);
      BlocksNext(t, less, e);
      assert less + [e] == chain;
    }
  }

  lemma EmptyAgrees()
    ensures Agrees(EMPTY, [])
  {}

  lemma BlocksNext(t: Tables, chain: seq<Entry>, e: Entry)
    requires Usable(e) && AddBlock(t, e.block, e.txs).Done? && Agrees(t, StoredChain(chain)) &&
        BlocksAre(t.blocks, chain)
    ensures BlocksAre(AddBlock(t, e.block, e.txs).value.blocks, chain + [e])
    ensures AppendBlock(t.blocks, e.block, NumRctOuts(e.block, e.txs)).Done?
    ensures AddBlock(t, e.block, e.txs).value.blocks == AppendBlock(t.blocks, e.block, NumRctOuts(e.block, e.txs)).value
  {
    hide AddTx, AddTxs, Agrees, MasksPresent, AllMasksPresent, AddBlock, AppendBlock, NumRctOuts, Wf, StoredChain;
    AgreesWf(t, StoredChain(chain));
    AddBlockShape(t, e.block, e.txs);
    AppendShape(t.blocks, e.block, NumRctOuts(e.block, e.txs));
    var blocks := AddBlock(t, e.block, e.txs).value.blocks;
    forall h | 0 <= h < |chain|
      ensures blocks[h] == t.blocks[h]
    {
      assert blocks[..|t.blocks|][h] == t.blocks[h];
    }
  }

  // ---------- runs ----------

  datatype Op = Add(entry: Entry) | Pop

  /** A run's tables, and the chain that they are meant to hold. */
  datatype World = World(tables: Tables, chain: seq<Entry>)

  /** Both ways of looking up the outputs agree for every transaction of the block. */
  ghost predicate Sane(e: Entry) {
    Usable(e) && Revertible(e.block.minerTx) && AllRevertible(e.txs)
  }

  ghost predicate SaneOps(ops: seq<Op>) {
    forall i | 0 <= i < |ops| :: ops[i].Add? ==> Sane(ops[i].entry)
  }

  /** An operation that fails is rolled back. */
  ghost function Step(w: World, op: Op): World
    requires op.Add? ==> Usable(op.entry)
  {
    match op
    case Add(e) =>
      (match AddBlock(w.tables, e.block, e.txs)
       case Done(t) => World(t, w.chain + [e])
       case Failed(_) => w)
    case Pop =>
      (match PopBlock(w.tables)
       case Done((t, _, _)) => World(t, if w.chain == [] then [] else w.chain[..|w.chain| - 1])
       case Failed(_) => w)
  }

  ghost function Run(ops: seq<Op>): World
    requires SaneOps(ops)
  {
    if ops == [] then World(EMPTY, []) else Step(Run(ops[..|ops| - 1]), ops[|ops| - 1])
  }

  ghost predicate Tracks(w: World) {
    (forall i | 0 <= i < |w.chain| :: Sane(w.chain[i])) && AllUsable(w.chain) && Replay(w.chain) == Done(w.tables)
  }

  /** On a non-empty chain a pop succeeds, gives back the last block with its transactions reversed, and
      leaves the tables of the shorter chain. */
  lemma PopIsExact(w: World)
    requires Tracks(w) && w.chain != []
    ensures var n, last := |w.chain| - 1, w.chain[|w.chain| - 1];
      && Replay(w.chain[..n]).Done?
      && PopBlock(w.tables) == Done((Replay(w.chain[..n]).value, last.block, Reversed(last.txs)))
  {
    hide AddBlock, PopBlock, Agrees, Wf, StoredChain, Reversed, Revertible, AllRevertible;
    var less, e := w.chain[..|w.chain| - 1], w.chain[|w.chain| - 1];
    assert Sane(e);
    ReplayAgrees(less);
    AgreesWf(Replay(less).value, StoredChain(less));
    UndoBlock(Replay(less).value, e.block, e.txs);
  }

  lemma StepTracks(w: World, op: Op)
    requires Tracks(w) && (op.Add? ==> Sane(op.entry))
    ensures Tracks(Step(w, op))
  {
    hide AddBlock, PopBlock, Sane;
    if op.Add? {
      SaneUsable(op.entry);
      assert (w.chain + [op.entry])[..|w.chain|] == w.chain;
    } else if w.chain == [] {
      PopNothing();
    } else {
      PopIsExact(w);
    }
  }

  lemma SaneUsable(e: Entry)
    requires Sane(e)
    ensures Usable(e)
  {}

  lemma PopNothing()
    ensures PopBlock(EMPTY).Failed?
  {}

  /** Every run ends in the tables that its chain alone would give: pops leave no trace. */
  lemma {:induction false} RunTracks(ops: seq<Op>)
    requires SaneOps(ops)
    ensures Tracks(Run(ops))
  {
    hide Step, Sane;
    if ops == [] {
    } else {
      RunTracks(ops[..|ops| - 1]);
      StepTracks(Run(ops[..|ops| - 1]), ops[|ops| - 1]);
    }
  }

  /** In every reachable state the spent keys, the recorded output indices and the counts are those of the chain. */
  lemma RunAgrees(ops: seq<Op>)
    requires SaneOps(ops)
    ensures var w := Run(ops); Agrees(w.tables, StoredChain(w.chain)) && BlocksAre(w.tables.blocks, w.chain)
  {
    hide Run, Agrees, BlocksAre, StoredChain, Replay;
    RunTracks(ops);
    ReplayAgrees(Run(ops).chain);
  }
}
