/** A saved ancestry state stays right when the chain has grown before the next run. */
module ChainGrowth {
  import opened Ancestry
  import opened AncestrySpec
  import opened Crypto
  import opened RingGraph
  import opened Wrappers

  /** Blocks, transactions and outputs have only been added. */
  ghost predicate Extends(db: Db, db2: Db) {
    && db.blocks <= db2.blocks
    && (forall t | t in db.txs :: t in db2.txs && db2.txs[t] == db.txs[t])
    && (forall a | a in db.outputs :: a in db2.outputs && db2.outputs[a] == db.outputs[a])
  }

  /** Every block's miner transaction is stored and parses. */
  ghost predicate MinersStored(db: Db) {
    forall h | 0 <= h < |db.blocks| :: db.blocks[h].Some? ==> LookupTx(db, db.blocks[h].value.minerHash).Some?
  }

  lemma {:induction false} ScanTxsKept(db: Db, db2: Db, txids: seq<Hash>, key: Key)
    requires Extends(db, db2) && ScanTxs(db, txids, key).Some?
    ensures ScanTxs(db2, txids, key) == ScanTxs(db, txids, key)
    ensures LookupTx(db, ScanTxs(db, txids, key).value).Some?
  {
    if txids != [] && !(key in LookupTx(db, txids[0]).value.vout) {
      ScanTxsKept(db, db2, txids[1..], key);
    }
  }

  /** A creator once found stays the creator. */
  lemma CreatorKept(db: Db, db2: Db, a: Ancestor)
    requires Extends(db, db2) && LookupCreator(db, a).Some?
    ensures LookupCreator(db2, a) == LookupCreator(db, a)
    ensures MinersStored(db) ==> LookupTx(db, LookupCreator(db, a).value).Some?
  {
    hide ScanTxs, ScanMiner, LookupTx;
    var od := db.outputs[a];
    var b := LookupBlock(db, od.height).value;
    if ScanMiner(b.minerOuts, od.pubkey).Absent? {
      ScanTxsKept(db, db2, b.txHashes, od.pubkey);
    }
  }

  lemma MembersKept(db: Db, db2: Db, txid: Hash)
    requires Extends(db, db2)
    ensures LookupTx(db, txid).Some? ==> Members(db2, txid) == Members(db, txid)
    ensures Members(db, txid) != [] ==> LookupTx(db, txid).Some?
  {}

  /** Ancestors stay ancestors. */
  lemma {:induction false} ClosureGrows(db: Db, db2: Db, txid: Hash)
    requires WellFounded(db) && WellFounded(db2) && Extends(db, db2)
    ensures Closure(db, txid) <= Closure(db2, txid)
    decreases Rank(db, txid), 1, 0
  {
    hide Extends, LookupCreator, Rank, Members;
    MembersKept(db, db2, txid);
    if Members(db, txid) != [] {
      ClosureOfGrows(db, db2, txid, Members(db, txid));
    }
  }

  lemma {:induction false} ClosureOfGrows(db: Db, db2: Db, txid: Hash, ms: seq<Ancestor>)
    requires WellFounded(db) && WellFounded(db2) && Extends(db, db2)
    requires EarlierCreators(db, txid, ms) && EarlierCreators(db2, txid, ms)
    ensures ClosureOf(db, txid, ms) <= ClosureOf(db2, txid, ms)
    decreases Rank(db, txid), 0, |ms|
  {
    hide Extends, LookupCreator, Rank, Closure, WellFounded;
    if ms != [] {
      ClosureOfGrows(db, db2, txid, ms[1..]);
      if LookupCreator(db, ms[0]).Some? {
        CreatorKept(db, db2, ms[0]);
        ClosureGrows(db, db2, LookupCreator(db, ms[0]).value);
      }
    }
  }

  ghost predicate AllFound(db: Db, done: seq<Hash>) {
    forall t | t in done :: FoundAll(db, t)
  }

  /** A transaction whose ancestry has been found throughout gets no new ancestors. */
  lemma {:induction false} ClosureSettled(db: Db, db2: Db, done: seq<Hash>, txid: Hash)
    requires WellFounded(db) && WellFounded(db2) && Extends(db, db2) && MinersStored(db)
    requires done <= Order(db) && AllFound(db, done)
    requires LookupTx(db, txid).Some? && (txid in done || Rank(db, txid) == 0)
    ensures Closure(db2, txid) == Closure(db, txid)
    decreases Rank(db, txid), 1, 0
  {
    hide Extends, LookupCreator, Rank, Members, LookupTx, Order, MinersStored;
    MembersKept(db, db2, txid);
    if Members(db, txid) != [] {
      var ms := Members(db, txid);
      assert FoundAll(db, txid);
      assert ms == ms[0..];
      ClosureOfSettled(db, db2, done, txid, 0);
    }
  }

  lemma {:induction false} ClosureOfSettled(db: Db, db2: Db, done: seq<Hash>, txid: Hash, k: nat)
    requires WellFounded(db) && WellFounded(db2) && Extends(db, db2) && MinersStored(db)
    requires done <= Order(db) && AllFound(db, done)
    requires txid in done && Members(db2, txid) == Members(db, txid) && k <= |Members(db, txid)|
    requires EarlierCreators(db, txid, Members(db, txid)[k..]) && EarlierCreators(db2, txid, Members(db, txid)[k..])
    ensures ClosureOf(db2, txid, Members(db, txid)[k..]) == ClosureOf(db, txid, Members(db, txid)[k..])
    decreases Rank(db, txid), 0, |Members(db, txid)| - k
  {
    hide Extends, LookupCreator, Rank, Members, LookupTx, Order, MinersStored, Closure, WellFounded;
    var ms := Members(db, txid);
    if k < |ms| {
      var rest := ms[k..];
      assert rest[1..] == ms[k + 1..] && rest[0] == ms[k];
      ClosureOfSettled(db, db2, done, txid, k + 1);
      assert FoundAll(db, txid);
      var c := LookupCreator(db, ms[k]).value;
      CreatorKept(db, db2, ms[k]);
      EarlierThan(db, txid, rest);
      CreatorInDone(db, done, txid, c);
      ClosureSettled(db, db2, done, c);
    }
  }

  lemma CreatorInDone(db: Db, done: seq<Hash>, txid: Hash, c: Hash)
    requires done <= Order(db) && txid in done && Rank(db, c) < Rank(db, txid)
    ensures c in done || Rank(db, c) == 0
  {
    hide Order, FirstIndex;
    if Rank(db, c) != 0 {
      BeforeInPrefix(Order(db), done, txid, c);
    }
  }

  lemma {:induction false} OrderKept(db: Db, db2: Db, h: nat)
    requires Extends(db, db2) && h <= |db.blocks|
    ensures OrderTo(db2, h) == OrderTo(db, h)
  {
    if h > 0 {
      OrderKept(db, db2, h - 1);
      assert db2.blocks[h - 1] == db.blocks[h - 1];
    }
  }

  lemma FoundKept(db: Db, db2: Db, txid: Hash)
    requires Extends(db, db2) && FoundAll(db, txid)
    ensures FoundAll(db2, txid)
  {
    hide LookupCreator, Members;
    MembersKept(db, db2, txid);
    var ms := Members(db, txid);
    forall i | 0 <= i < |ms|
      ensures LookupCreator(db2, ms[i]).Some?
    {
      CreatorKept(db, db2, ms[i]);
    }
  }

  /** Caches and ancestry map of an interrupted or finished run are good for the longer chain. */
  lemma StateKept(s: AncestryState, db: Db, db2: Db)
    requires WellFounded(db) && WellFounded(db2) && Extends(db, db2) && MinersStored(db)
    requires s.height <= |db.blocks| && s.Consistent(db)
    ensures s.Consistent(db2)
  {
    hide Extends, LookupCreator, LookupTx, Known, Closure, WellFounded, MinersStored, OrderTo;
    CachesKept(s, db, db2);
    forall txid
      ensures Known(s.ancestry, txid) <= Closure(db2, txid)
    {
      SoundAt(db, s.ancestry, txid);
      ClosureGrows(db, db2, txid);
    }
    LongerBlocks(db, db2);
    OrderKept(db, db2, s.height);
    var done := OrderTo(db, s.height);
    OrderPrefix(db, s.height, |db.blocks|);
    forall txid | txid in done
      ensures FoundAll(db2, txid) && Known(s.ancestry, txid) == Closure(db2, txid)
    {
      FoundKept(db, db2, txid);
      ClosureSettled(db, db2, done, txid);
    }
  }

  lemma LongerBlocks(db: Db, db2: Db)
    requires Extends(db, db2)
    ensures |db.blocks| <= |db2.blocks|
  {}

  lemma CachesKept(s: AncestryState, db: Db, db2: Db)
    requires Extends(db, db2) && s.CachesAgree(db)
    ensures s.CachesAgree(db2)
  {
    hide LookupCreator;
    forall a | a in s.outputCache
      ensures LookupCreator(db2, a) == Some(s.outputCache[a])
    {
      CreatorKept(db, db2, a);
    }
  }
}
