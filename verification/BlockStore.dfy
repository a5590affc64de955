/** The tables of the block store, and what adding and removing outputs, transactions and blocks
    does to them.  Each operation either fails with the source's error or gives the new tables. */
module BlockStore {
  import opened Crypto
  import opened Wrappers

  datatype DbError =
    | KeyImageExists | UnexpectedInput | TxExists | NoOutputKey | NoCommitment | NotAppended
    | TxMissing | IndicesMissing | OutputMissing | InconsistentSizes
    | BlockExists | ParentMissing | ParentNotTop | BlockMissing

  datatype Attempt<T> = Done(value: T) | Failed(error: DbError)

  datatype TxIn = Gen(height: nat) | ToKey(image: KeyImage) | OtherInput
  datatype TxOut = TxOut(amount: nat, key: Option<Key>)

  /** hash is what the transaction hashes to; masks are the output commitments of a RingCT transaction. */
  datatype Tx = Tx(hash: Hash, version: nat, unlockTime: nat, vin: seq<TxIn>, vout: seq<TxOut>, masks: seq<Commitment>)

  datatype Block = Block(hash: Hash, prev: Hash, majorVersion: nat, minerTx: Tx, txHashes: seq<Hash>)

  // ---------- tables ----------

  datatype OutTx = OutTx(outputId: nat, txHash: Hash, localIndex: nat)
  datatype OutKey = OutKey(amountIndex: nat, outputId: nat, pubkey: Key, unlockTime: nat, height: nat,
                           commitment: Option<Commitment>)

  /** All outputs by global id, and for each amount its outputs by amount index.  No amount has an empty list. */
  datatype OutputTables = OutputTables(outputTxs: seq<OutTx>, outputAmounts: map<nat, seq<OutKey>>)

  datatype TxIndex = TxIndex(txId: nat, unlockTime: nat, blockId: nat)
  datatype BlockInfo = BlockInfo(block: Block, cumRct: nat)

  datatype Tables = Tables(spentKeys: set<KeyImage>, txIndices: map<Hash, TxIndex>, txs: map<nat, Tx>,
                           txOutputs: map<nat, seq<nat>>, outs: OutputTables, blocks: seq<BlockInfo>)

  const EMPTY := Tables({}, map[], map[], map[], OutputTables([], map[]), [])

  // ---------- inputs ----------

  /** Adds the key images of the first n inputs. */
  function AddSpentKeys(keys: set<KeyImage>, vin: seq<TxIn>, n: nat): Attempt<set<KeyImage>>
    requires n <= |vin|
  {
    if n == 0 then Done(keys)
    else match AddSpentKeys(keys, vin, n - 1)
      case Failed(e) => Failed(e)
      case Done(k) =>
        match vin[n - 1]
        case Gen(_) => Done(k)
        case ToKey(image) => if image in k then Failed(KeyImageExists) else Done(k + {image})
        case OtherInput => Failed(UnexpectedInput)
  }

  /** The key images that the inputs spend, in order. */
  function Images(vin: seq<TxIn>): seq<KeyImage> {
    if vin == [] then []
    else Images(vin[..|vin| - 1]) + if vin[|vin| - 1].ToKey? then [vin[|vin| - 1].image] else []
  }

  function RemoveSpentKeys(keys: set<KeyImage>, vin: seq<TxIn>): set<KeyImage> {
    keys - set k | k in Images(vin)
  }

  // ---------- outputs ----------

  predicate HasGen(tx: Tx) {
    exists i | 0 <= i < |tx.vin| :: tx.vin[i].Gen?
  }

  /** How an output is stored: coinbase outputs of version 2 go under amount zero. */
  predicate AddedAsRct(tx: Tx) {
    HasGen(tx) && tx.version == 2
  }

  /** How its removal looks it up. */
  predicate RemovedAsRct(tx: Tx) {
    tx.version >= 2 && |tx.vin| == 1 && tx.vin[0].Gen?
  }

  function AddAmount(tx: Tx, i: nat): nat
    requires i < |tx.vout|
  {
    if AddedAsRct(tx) then 0 else tx.vout[i].amount
  }

  function RemoveAmount(tx: Tx, i: nat): nat
    requires i < |tx.vout|
  {
    if RemovedAsRct(tx) then 0 else tx.vout[i].amount
  }

  /** The commitments that adding the transaction reads are there. */
  predicate MasksPresent(tx: Tx) {
    tx.version > 1 && !AddedAsRct(tx) ==> |tx.vout| <= |tx.masks|
  }

  function CommitmentOf(tx: Tx, i: nat): Option<Commitment>
    requires i < |tx.vout| && MasksPresent(tx)
  {
    if AddedAsRct(tx) then Some(ZeroCommit(tx.vout[i].amount)) else if tx.version > 1 then Some(tx.masks[i]) else None
  }

  function ListOf(o: OutputTables, amount: nat): seq<OutKey> {
    if amount in o.outputAmounts then o.outputAmounts[amount] else []
  }

  function NextOutputId(o: OutputTables): nat {
    if o.outputTxs == [] then 0 else o.outputTxs[|o.outputTxs| - 1].outputId + 1
  }

  /** Adds one output and gives its index among those of its amount. */
  function AddOutput(o: OutputTables, height: nat, hash: Hash, amount: nat, key: Option<Key>, localIndex: nat,
                     unlockTime: nat, commitment: Option<Commitment>): Attempt<(OutputTables, nat)>
  {
    if key.None? then Failed(NoOutputKey)
    else if amount == 0 && commitment.None? then Failed(NoCommitment)
    else
      var list, id := ListOf(o, amount), NextOutputId(o);
      if list != [] && list[|list| - 1].amountIndex >= |list| then Failed(NotAppended)
      else
        var entry := OutKey(|list|, id, key.value, unlockTime, height, if amount == 0 then commitment else None);
        Done((OutputTables(o.outputTxs + [OutTx(id, hash, localIndex)], o.outputAmounts[amount := list + [entry]]),
          |list|))
  }

  /** Adds the first n outputs of a transaction and gives their indices. */
  function AddOutputs(o: OutputTables, height: nat, tx: Tx, hash: Hash, n: nat): Attempt<(OutputTables, seq<nat>)>
    requires n <= |tx.vout| && MasksPresent(tx)
  {
    if n == 0 then Done((o, []))
    else match AddOutputs(o, height, tx, hash, n - 1)
      case Failed(e) => Failed(e)
      case Done((p, indices)) =>
        match AddOutput(p, height, hash, AddAmount(tx, n - 1), tx.vout[n - 1].key, n - 1, tx.unlockTime,
          CommitmentOf(tx, n - 1))
        case Failed(e) => Failed(e)
        case Done((q, index)) => Done((q, indices + [index]))
  }

  function FindOutKey(list: seq<OutKey>, index: nat): (r: Option<nat>)
    ensures r.Some? ==> r.value < |list| && list[r.value].amountIndex == index
    ensures r.None? ==> forall i | 0 <= i < |list| :: list[i].amountIndex != index
  {
    if list == [] then None
    else match FindOutKey(list[..|list| - 1], index)
      case Some(i) => Some(i)
      case None => if list[|list| - 1].amountIndex == index then Some(|list| - 1) else None
  }

  function FindOutTx(list: seq<OutTx>, id: nat): (r: Option<nat>)
    ensures r.Some? ==> r.value < |list| && list[r.value].outputId == id
    ensures r.None? ==> forall i | 0 <= i < |list| :: list[i].outputId != id
  {
    if list == [] then None
    else match FindOutTx(list[..|list| - 1], id)
      case Some(i) => Some(i)
      case None => if list[|list| - 1].outputId == id then Some(|list| - 1) else None
  }

  function Without<T>(s: seq<T>, i: nat): seq<T>
    requires i < |s|
  {
    s[..i] + s[i + 1..]
  }

  /** Removes the output with the given index among those of an amount. */
  function RemoveOutput(o: OutputTables, amount: nat, index: nat): Attempt<OutputTables> {
    var list := ListOf(o, amount);
    match FindOutKey(list, index)
    case None => Failed(OutputMissing)
    case Some(i) =>
      match FindOutTx(o.outputTxs, list[i].outputId)
      case None => Failed(OutputMissing)
      case Some(j) =>
        var shorter := Without(list, i);
        Done(OutputTables(Without(o.outputTxs, j),
                          if shorter == [] then o.outputAmounts - {amount} else o.outputAmounts[amount := shorter]))
  }

  /** Removes the first n outputs of a transaction, the last one first. */
  function RemoveOutputs(o: OutputTables, tx: Tx, indices: seq<nat>, n: nat): Attempt<OutputTables>
    requires n <= |tx.vout| <= |indices|
    decreases n
  {
    if n == 0 then Done(o)
    else match RemoveOutput(o, RemoveAmount(tx, n - 1), indices[n - 1])
      case Failed(e) => Failed(e)
      case Done(p) => RemoveOutputs(p, tx, indices, n - 1)
  }

  // ---------- transactions ----------

  /** The id is larger than all keys in use, so the record goes to the end of the table. */
  predicate AtEnd<T>(m: map<nat, T>, id: nat) {
    forall k | k in m :: k < id
  }

  function AddTx(t: Tables, tx: Tx, hash: Hash): Attempt<Tables>
    requires MasksPresent(tx)
  {
    match AddSpentKeys(t.spentKeys, tx.vin, |tx.vin|)
    case Failed(e) => Failed(e)
    case Done(keys) =>
      var id := |t.txs|;
      if hash in t.txIndices then Failed(TxExists)
      else if !AtEnd(t.txs, id) then Failed(NotAppended)
      else
        match AddOutputs(t.outs, |t.blocks|, tx, hash, |tx.vout|)
        case Failed(e) => Failed(e)
        case Done((outs, indices)) =>
          if !AtEnd(t.txOutputs, id) then Failed(NotAppended)
          else
            Done(t.(spentKeys := keys, txIndices := t.txIndices[hash := TxIndex(id, tx.unlockTime, |t.blocks|)],
                    txs := t.txs[id := tx], txOutputs := t.txOutputs[id := indices], outs := outs))
  }

  function GetTx(t: Tables, hash: Hash): Option<Tx> {
    if hash in t.txIndices && t.txIndices[hash].txId in t.txs then Some(t.txs[t.txIndices[hash].txId]) else None
  }

  function RemoveTx(t: Tables, hash: Hash): Attempt<Tables> {
    match GetTx(t, hash)
    case None => Failed(TxMissing)
    case Some(tx) =>
      var id := t.txIndices[hash].txId;
      if id !in t.txOutputs || |t.txOutputs[id]| < |tx.vout| then Failed(IndicesMissing)
      else
        match RemoveOutputs(t.outs, tx, t.txOutputs[id], |tx.vout|)
        case Failed(e) => Failed(e)
        case Done(outs) =>
          Done(t.(spentKeys := RemoveSpentKeys(t.spentKeys, tx.vin), txIndices := t.txIndices - {hash},
                  txs := t.txs - {id}, txOutputs := t.txOutputs - {id}, outs := outs))
  }

  // ---------- blocks ----------

  predicate AllMasksPresent(txs: seq<Tx>) {
    forall i | 0 <= i < |txs| :: MasksPresent(txs[i])
  }

  function AddTxs(t: Tables, txs: seq<Tx>, hashes: seq<Hash>, n: nat): Attempt<Tables>
    requires n <= |txs| == |hashes| && AllMasksPresent(txs)
  {
    if n == 0 then Done(t)
    else match AddTxs(t, txs, hashes, n - 1)
      case Failed(e) => Failed(e)
      case Done(u) => AddTx(u, txs[n - 1], hashes[n - 1])
  }

  /** Outputs that are listed with amount zero. */
  function ZeroOuts(vout: seq<TxOut>): nat {
    if vout == [] then 0 else ZeroOuts(vout[..|vout| - 1]) + if vout[|vout| - 1].amount == 0 then 1 else 0
  }

  function ZeroOutsOfAll(txs: seq<Tx>): nat {
    if txs == [] then 0 else ZeroOutsOfAll(txs[..|txs| - 1]) + ZeroOuts(txs[|txs| - 1].vout)
  }

  /** The number of RingCT outputs that adding a block reports. */
  function NumRctOuts(block: Block, txs: seq<Tx>): nat {
    (if block.minerTx.version == 2 then |block.minerTx.vout| else 0) + ZeroOutsOfAll(txs)
  }

  function FindBlock(blocks: seq<BlockInfo>, hash: Hash): (r: Option<nat>)
    ensures r.Some? ==> r.value < |blocks| && blocks[r.value].block.hash == hash
    ensures r.None? ==> forall i | 0 <= i < |blocks| :: blocks[i].block.hash != hash
  {
    if blocks == [] then None
    else match FindBlock(blocks[..|blocks| - 1], hash)
      case Some(i) => Some(i)
      case None => if blocks[|blocks| - 1].block.hash == hash then Some(|blocks| - 1) else None
  }

  /** Appends the block record.  From major version 4 on, the count of RingCT outputs is cumulative. */
  function AppendBlock(blocks: seq<BlockInfo>, block: Block, numRct: nat): Attempt<seq<BlockInfo>> {
    var height := |blocks|;
    if FindBlock(blocks, block.hash).Some? then Failed(BlockExists)
    else if height > 0 && FindBlock(blocks, block.prev).None? then Failed(ParentMissing)
    else if height > 0 && FindBlock(blocks, block.prev).value != height - 1 then Failed(ParentNotTop)
    else if block.majorVersion >= 4 && height == 0 then Failed(BlockMissing)
    else Done(blocks + [BlockInfo(block, numRct + if block.majorVersion >= 4 then blocks[height - 1].cumRct else 0)])
  }

  function AddBlock(t: Tables, block: Block, txs: seq<Tx>): Attempt<Tables>
    requires MasksPresent(block.minerTx) && AllMasksPresent(txs)
  {
    if |block.txHashes| != |txs| then Failed(InconsistentSizes)
    else
      match AddTx(t, block.minerTx, block.minerTx.hash)
      case Failed(e) => Failed(e)
      case Done(u) =>
        match AddTxs(u, txs, block.txHashes, |txs|)
        case Failed(e) => Failed(e)
        case Done(v) =>
          match AppendBlock(v.blocks, block, NumRctOuts(block, txs))
          case Failed(e) => Failed(e)
          case Done(blocks) => Done(v.(blocks := blocks))
  }

  /** Removes the first n transactions of a block, the last one first, and gives them in that order. */
  function PopTxs(t: Tables, hashes: seq<Hash>, n: nat): Attempt<(Tables, seq<Tx>)>
    requires n <= |hashes|
    decreases n
  {
    if n == 0 then Done((t, []))
    else match GetTx(t, hashes[n - 1])
      case None => Failed(TxMissing)
      case Some(tx) =>
        match RemoveTx(t, hashes[n - 1])
        case Failed(e) => Failed(e)
        case Done(u) =>
          match PopTxs(u, hashes, n - 1)
          case Failed(e) => Failed(e)
          case Done((v, txs)) => Done((v, [tx] + txs))
  }

  function PopBlock(t: Tables): Attempt<(Tables, Block, seq<Tx>)> {
    if t.blocks == [] then Failed(BlockMissing)
    else
      var top := t.blocks[|t.blocks| - 1].block;
      match PopTxs(t.(blocks := t.blocks[..|t.blocks| - 1]), top.txHashes, |top.txHashes|)
      case Failed(e) => Failed(e)
      case Done((u, txs)) =>
        match RemoveTx(u, top.minerTx.hash)
        case Failed(e) => Failed(e)
        case Done(v) => Done((v, top, txs))
  }
}
