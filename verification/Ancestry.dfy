/** The ancestry tool: three caches in front of a read-only database, the forward refresh that
    can be stopped and resumed, and the backward work-list that counts. */
module Ancestry {
  import opened AncestrySpec
  import opened Crypto
  import opened RingGraph
  import opened WorkList
  import opened Wrappers

  /** Which caches are in use. */
  datatype Options = Options(cacheOutputs: bool, cacheTxes: bool, cacheBlocks: bool, includeCoinbase: bool)

  /** How a backward pass ends. */
  datatype Outcome = Finished | Stopped | Failed

  const NO_BLOCK := Block(0, [], Hash(0), [])

  /** vector::resize: truncates, or fills up with default-constructed blocks. */
  function Resize(s: seq<Block>, n: nat): (r: seq<Block>)
    ensures |r| == n && forall i | 0 <= i < n :: r[i] == if i < |s| then s[i] else NO_BLOCK
  {
    seq(n, i requires 0 <= i < n => if i < |s| then s[i] else NO_BLOCK)
  }

  /** The block cache has an entry for the height that is not a hole. */
  predicate Cached(blocks: seq<Block>, h: nat) {
    h < |blocks| && blocks[h].minerInputs > 0
  }

  /** The transactions of a block that the forward pass processes, in order. */
  function ListTxids(b: Block, opt: Options): seq<Hash> {
    (if opt.includeCoinbase then [b.minerHash] else []) + b.txHashes
  }

  /** The block parses, and its transactions and the creators of their ring members are found. */
  ghost predicate BlockFound(db: Db, h: nat, opt: Options) {
    && LookupBlock(db, h).Some?
    && var txids := ListTxids(LookupBlock(db, h).value, opt); forall i | 0 <= i < |txids| :: FoundAll(db, txids[i])
  }

  class AncestryState {
    var height: nat
    var ancestry: map<Hash, set<Ancestor>>
    var outputCache: map<Ancestor, Hash>
    var txCache: map<Hash, TxData>
    var blockCache: seq<Block>

    constructor ()
      ensures height == 0 && ancestry == map[] && outputCache == map[] && txCache == map[] && blockCache == []
    {
      height, ancestry, outputCache, txCache, blockCache := 0, map[], map[], map[], [];
    }

    /** Whatever a cache would answer is what the database answers.  Holes in the block cache are
        recognised by their missing miner input. */
    ghost predicate CachesAgree(db: Db)
      reads this`blockCache, this`txCache, this`outputCache
    {
      && (forall h | 0 <= h < |blockCache| && blockCache[h].minerInputs > 0 ::
            LookupBlock(db, h) == Some(blockCache[h]))
      && (forall t | t in txCache :: LookupTx(db, t) == Some(txCache[t]))
      && (forall a | a in outputCache :: LookupCreator(db, a) == Some(outputCache[a]))
    }

    method GetBlockFromHeight(db: Db, h: nat, opt: Options) returns (b: Option<Block>)
      requires CachesAgree(db)
      modifies this`blockCache
      ensures CachesAgree(db) && b == LookupBlock(db, h)
      ensures blockCache == if b.None? || !opt.cacheBlocks || Cached(old(blockCache), h) then old(blockCache)
        else Resize(old(blockCache), h + 1)[h := b.value]
    {
      if |blockCache| > h && blockCache[h].minerInputs > 0 {
        return Some(blockCache[h]);
      }
      b := LookupBlock(db, h);
      if b == None {
        return None;
      }
      if opt.cacheBlocks {
        blockCache := Resize(blockCache, h + 1);
        blockCache := blockCache[h := b.value];
      }
    }

    method GetTransaction(db: Db, txid: Hash, opt: Options) returns (t: Option<TxData>)
      requires CachesAgree(db)
      modifies this`txCache
      ensures CachesAgree(db) && t == LookupTx(db, txid)
      ensures txCache == if t.Some? && opt.cacheTxes then old(txCache)[txid := t.value] else old(txCache)
    {
      if txid in txCache {
        return Some(txCache[txid]);
      }
      t := LookupTx(db, txid);
      if t == None {
        return None;
      }
      if opt.cacheTxes {
        txCache := txCache[txid := t.value];
      }
    }

    /** Keeps the creator of an output, if outputs are cached. */
    method CacheOutput(db: Db, a: Ancestor, txid: Hash, opt: Options)
      requires CachesAgree(db) && LookupCreator(db, a) == Some(txid)
      modifies this`outputCache
      ensures CachesAgree(db)
      ensures outputCache == if opt.cacheOutputs then old(outputCache)[a := txid] else old(outputCache)
    {
      hide LookupCreator;
      if opt.cacheOutputs {
        outputCache := outputCache[a := txid];
      }
    }

    method GetOutputTxid(db: Db, a: Ancestor, opt: Options) returns (txid: Option<Hash>)
      requires CachesAgree(db)
      modifies this`outputCache, this`txCache, this`blockCache
      ensures CachesAgree(db) && txid == LookupCreator(db, a)
      ensures outputCache == if txid.Some? && opt.cacheOutputs then old(outputCache)[a := txid.value]
        else old(outputCache)
    {
      if a in outputCache {
        return Some(outputCache[a]);
      }
      if a !in db.outputs {
        return None;
      }
      var od := db.outputs[a];
      var b := GetBlockFromHeight(db, od.height, opt);
      if b == None {
        return None;
      }
      for i := 0 to |b.value.minerOuts|
        invariant CachesAgree(db) && outputCache == old(outputCache)
        invariant ScanMiner(b.value.minerOuts, od.pubkey) == ScanMiner(b.value.minerOuts[i..], od.pubkey)
      {
        match b.value.minerOuts[i]
        case OtherTarget =>
          return None;
        case ToKey(key) =>
          if key == od.pubkey {
            CacheOutput(db, a, b.value.minerHash, opt);
            return Some(b.value.minerHash);
          }
      }
      for i := 0 to |b.value.txHashes|
        invariant CachesAgree(db) && outputCache == old(outputCache)
        invariant ScanTxs(db, b.value.txHashes, od.pubkey) == ScanTxs(db, b.value.txHashes[i..], od.pubkey)
      {
        var t := GetTransaction(db, b.value.txHashes[i], opt);
        if t == None {
          return None;
        }
        if od.pubkey in t.value.vout {
          CacheOutput(db, a, b.value.txHashes[i], opt);
          return Some(b.value.txHashes[i]);
        }
      }
      return None;
    }

    // ---------- the ancestry map ----------

    /** Adds a set of ancestors to a transaction's entry, creating it if need be. */
    method AddAncestry(txid: Hash, ancestors: set<Ancestor>)
      modifies this`ancestry
      ensures ancestry == old(ancestry)[txid := Known(old(ancestry), txid) + ancestors]
    {
      if txid in ancestry {
        ancestry := ancestry[txid := ancestry[txid] + ancestors];
      } else {
        assert {} + ancestors == ancestors;
        ancestry := ancestry[txid := ancestors];
      }
    }

    ghost predicate Sound(db: Db)
      reads this`ancestry
      requires WellFounded(db)
    {
      SoundMap(db, ancestry)
    }

    /** Adds a ring member and what is known of its creator's ancestry. */
    method AddMember(db: Db, txid: Hash, m: Ancestor, opt: Options) returns (ok: bool)
      requires WellFounded(db) && CachesAgree(db) && Sound(db) && m in Members(db, txid)
      modifies this`ancestry, this`outputCache, this`txCache, this`blockCache
      ensures CachesAgree(db) && Sound(db)
      ensures OnlyGrew(old(ancestry), ancestry, txid)
      ensures ok <==> LookupCreator(db, m).Some?
      ensures ok ==> {m} + Known(old(ancestry), LookupCreator(db, m).value) <= Known(ancestry, txid)
    {
      hide LookupCreator, Closure, CachesAgree, SoundMap, Members, Known, OnlyGrew;
      MemberClosure(db, txid, m);
      SoundAdd(db, ancestry, txid, {m});
      AddAncestry(txid, {m});
      var creator := GetOutputTxid(db, m, opt);
      if creator == None {
        return false;
      }
      SoundAdd(db, ancestry, txid, Known(ancestry, creator.value)) by {
        SoundAt(db, ancestry, creator.value);
      }
      GrewTwice(old(ancestry), txid, {m}, creator.value);
      AddAncestry(txid, Known(ancestry, creator.value));
      ok := true;
    }

    /** Collects from the members of one ring. */
    method ProcessRing(db: Db, txid: Hash, amount: nat, offsets: seq<nat>, opt: Options,
                       ghost before: map<Hash, set<Ancestor>>, ghost later: seq<Ancestor>) returns (ok: bool)
      requires WellFounded(db) && CachesAgree(db) && Sound(db)
      requires OnlyGrew(before, ancestry, txid)
      requires Collected(db, before, ancestry, txid, RingMembers(amount, offsets) + later)
      modifies this`ancestry, this`outputCache, this`txCache, this`blockCache
      ensures CachesAgree(db) && Sound(db) && OnlyGrew(before, ancestry, txid)
      ensures ok ==> Collected(db, before, ancestry, txid, later)
      ensures !ok ==> !FoundAll(db, txid)
    {
      hide *;
      ghost var rest := RingMembers(amount, offsets) + later;
      RingStart(amount, offsets, later);
      for j := 0 to |offsets|
        invariant CachesAgree(db) && Sound(db) && OnlyGrew(before, ancestry, txid)
        invariant rest == RingMembers(amount, offsets[j..]) + later
        invariant Collected(db, before, ancestry, txid, rest)
      {
        var m := Ancestor(amount, offsets[j]);
        RingNext(amount, offsets, later, j);
        ghost var known := ancestry;
        CollectMember(db, before, known, txid, rest);
        var added := AddMember(db, txid, m, opt);
        GrewOn(before, known, ancestry, txid);
        if !added {
          MemberMissing(db, txid, m);
          return false;
        }
        CollectNext(db, before, known, ancestry, txid, rest);
        rest := rest[1..];
      }
      ok := true;
    }

    /** Reads a transaction and collects its ancestry. */
    method ProcessTx(db: Db, txid: Hash, opt: Options) returns (ok: bool)
      requires WellFounded(db) && CachesAgree(db) && Sound(db)
      modifies this`ancestry, this`outputCache, this`txCache, this`blockCache
      ensures CachesAgree(db) && Sound(db)
      ensures OnlyGrew(old(ancestry), ancestry, txid)
      ensures ok <==> FoundAll(db, txid)
      ensures ok && CreatorsComplete(db, old(ancestry), txid) ==> Known(ancestry, txid) == Closure(db, txid)
    {
      hide LookupCreator, Closure, ClosureOf, Rank, CachesAgree, SoundMap, Known, OnlyGrew, Collected, FoundAll,
        WellFounded, CreatorsComplete;
      ghost var before := ancestry;
      GrewNot(ancestry, txid);
      var t := GetTransaction(db, txid, opt);
      if t == None {
        TxMissing(db, txid);
        return false;
      }
      ClosureStart(db, ancestry, txid);
      if t.value.coinbase {
        SoundAdd(db, ancestry, txid, {});
        AddAncestry(txid, {});
        CoinbaseDone(db, before, ancestry, txid);
        return true;
      }
      var vin := t.value.vin;
      assert vin[0..] == vin;
      for ring := 0 to |vin|
        invariant CachesAgree(db) && Sound(db) && OnlyGrew(before, ancestry, txid)
        invariant Collected(db, before, ancestry, txid, Flatten(vin[ring..]))
      {
        FlattenNext(vin, ring);
        var added := ProcessRing(db, txid, vin[ring].0, vin[ring].1, opt, before, Flatten(vin[ring + 1..]));
        if !added {
          return false;
        }
      }
      ClosureDone(db, before, ancestry, txid);
      ok := true;
    }

    /** What every operation keeps: caches that agree with the database, no false ancestor, and the whole
        ancestry of every transaction below the recorded height. */
    ghost predicate Consistent(db: Db)
      reads this
      requires WellFounded(db)
    {
      CachesAgree(db) && Sound(db) && CompleteTo(db, height)
    }

    ghost predicate CompleteTo(db: Db, h: nat)
      reads this`ancestry
      requires WellFounded(db)
    {
      CompleteOn(db, ancestry, OrderTo(db, if h <= |db.blocks| then h else |db.blocks|))
    }

    /** Processes the transactions of one block. */
    method ProcessBlock(db: Db, h: nat, opt: Options) returns (ok: bool)
      requires WellFounded(db) && CachesAgree(db) && Sound(db) && h < |db.blocks| && CompleteTo(db, h)
      modifies this`ancestry, this`outputCache, this`txCache, this`blockCache
      ensures CachesAgree(db) && Sound(db) && Grew(old(ancestry), ancestry)
      ensures ok ==> CompleteTo(db, h + 1)
      ensures ok <==> BlockFound(db, h, opt)
    {
      hide SoundMap, Known, OnlyGrew, FoundAll, WellFounded, CompleteOn, Grew, Order, OrderTo, LookupTx, CachesAgree,
        CreatorsComplete, Closure;
      GrewSelf(ancestry);
      var b := LookupBlock(db, h);
      if b == None {
        return false;
      }
      if opt.cacheBlocks {
        CacheBlock(db, h, b.value);
      }
      var txids := ListTxids(b.value, opt);
      var skip := if opt.includeCoinbase then 1 else 0;
      ghost var done := OrderTo(db, h);
      OrderNext(db, h);
      for i := 0 to |txids|
        invariant CachesAgree(db) && Sound(db) && Grew(old(ancestry), ancestry)
        invariant done == OrderTo(db, h) + if i < skip then [] else b.value.txHashes[..i - skip]
        invariant CompleteOn(db, ancestry, done)
        invariant forall j | 0 <= j < i :: FoundAll(db, txids[j])
      {
        ghost var before := ancestry;
        var added := ProcessTx(db, txids[i], opt);
        GrewMore(old(ancestry), before, ancestry, txids[i]);
        if !added {
          return false;
        }
        StaysComplete(db, before, ancestry, done);
        if i >= skip {
          CompleteNext(db, before, ancestry, done, txids[i], h, b.value, i - skip);
          done := done + [txids[i]];
        }
      }
      assert b.value.txHashes[..|txids| - skip] == b.value.txHashes;
      ok := true;
    }

    /** Stores a block the way the forward pass does, without looking at the cache first. */
    method CacheBlock(db: Db, h: nat, b: Block)
      requires CachesAgree(db) && LookupBlock(db, h) == Some(b)
      modifies this`blockCache
      ensures CachesAgree(db) && blockCache == Resize(old(blockCache), h + 1)[h := b]
    {
      blockCache := Resize(blockCache, h + 1);
      blockCache := blockCache[h := b];
    }

    /** The forward pass.  stop(h) says whether a stop has been requested by the end of block h. */
    method Refresh(db: Db, opt: Options, stop: nat -> bool) returns (ok: bool)
      requires WellFounded(db) && Consistent(db)
      modifies this
      ensures Consistent(db) && Grew(old(ancestry), ancestry)
      ensures ok && old(height) < |db.blocks| ==>
          height == LastHeight(stop, old(height), |db.blocks|) && CompleteTo(db, height + 1)
      ensures ok && (forall h | old(height) <= h < |db.blocks| - 1 :: !stop(h)) ==> CompleteTo(db, |db.blocks|)
      ensures !ok ==>
        exists h | old(height) <= h < |db.blocks| ::
          !BlockFound(db, h, opt) && forall k | old(height) <= k < h :: !stop(k)
    {
      hide BlockFound, CachesAgree, SoundMap, Known, Grew, CompleteOn, WellFounded;
      GrewSelf(ancestry);
      var first := height;
      if first >= |db.blocks| {
        return true;
      }
      for h := first to |db.blocks|
        invariant CachesAgree(db) && Sound(db) && Grew(old(ancestry), ancestry) && CompleteTo(db, h)
        invariant height == if h == first then first else h - 1
        invariant CompleteTo(db, height)
        invariant forall k | first <= k < h :: !stop(k)
      {
        ghost var before := ancestry;
        var processed := ProcessBlock(db, h, opt);
        GrewAgain(old(ancestry), before, ancestry);
        StaysComplete(db, before, ancestry, OrderTo(db, h));
        StaysComplete(db, before, ancestry, OrderTo(db, height));
        if !processed {
          return false;
        }
        height := h;
        if stop(h) {
          break;
        }
      }
      LastHeightIs(stop, first, |db.blocks|, height);
      ok := true;
    }

    // ---------- the backward pass ----------

    /** Finds the creator of a ring member and passes on what is known of its ancestry. */
    method PassOn(db: Db, txid: Hash, m: Ancestor, opt: Options) returns (creator: Option<Hash>)
      requires WellFounded(db) && Consistent(db) && m in Members(db, txid)
      modifies this`ancestry, this`outputCache, this`txCache, this`blockCache
      ensures Consistent(db) && Grew(old(ancestry), ancestry)
      ensures creator == LookupCreator(db, m)
    {
      hide LookupCreator, Closure, CachesAgree, SoundMap, Members, Known, OnlyGrew, Grew, CompleteOn, WellFounded,
        OrderTo;
      GrewSelf(ancestry);
      MemberClosure(db, txid, m);
      creator := GetOutputTxid(db, m, opt);
      if creator == None {
        return;
      }
      ghost var before := ancestry;
      SoundAdd(db, ancestry, txid, Known(ancestry, creator.value)) by {
        SoundAt(db, ancestry, creator.value);
      }
      AddAncestry(txid, Known(ancestry, creator.value));
      GrewMore(before, before, ancestry, txid);
      StaysComplete(db, before, ancestry, OrderTo(db, if height <= |db.blocks| then height else |db.blocks|));
    }

    /** Counts the members of one ring and queues their creators. */
    method CountRing(db: Db, txid: Hash, amount: nat, offsets: seq<nat>, opt: Options, counts: map<Ancestor, nat>,
                     queue: seq<Hash>, ghost start: Hash, ghost total: multiset<Ancestor>, ghost dequeued: nat,
                     ghost later: seq<Ancestor>)
      returns (ok: bool, counted: map<Ancestor, nat>, queued: seq<Hash>, ghost newTotal: multiset<Ancestor>)
      requires WellFounded(db) && Consistent(db) && Counts(counts, total)
      requires IsSuffix(RingMembers(amount, offsets) + later, Members(db, txid))
      requires Balanced(db, start, total, dequeued, queue, txid, RingMembers(amount, offsets) + later)
      modifies this`ancestry, this`outputCache, this`txCache, this`blockCache
      ensures Consistent(db) && Grew(old(ancestry), ancestry)
      ensures ok ==> Counts(counted, newTotal) && IsSuffix(later, Members(db, txid))
      ensures ok ==> Balanced(db, start, newTotal, dequeued, queued, txid, later)
      ensures !ok ==> !Resolvable(db, start)
    {
      hide *;
      ghost var rest := RingMembers(amount, offsets) + later;
      counted, queued, newTotal := counts, queue, total;
      GrewSelf(ancestry);
      RingStart(amount, offsets, later);
      for j := 0 to |offsets|
        invariant Consistent(db) && Grew(old(ancestry), ancestry) && Counts(counted, newTotal)
        invariant rest == RingMembers(amount, offsets[j..]) + later && IsSuffix(rest, Members(db, txid))
        invariant Balanced(db, start, newTotal, dequeued, queued, txid, rest)
      {
        var m := Ancestor(amount, offsets[j]);
        RingNext(amount, offsets, later, j);
        SuffixMember(db, txid, rest);
        ghost var before := ancestry;
        counted := AddAncestor(counted, m, newTotal);
        var creator := PassOn(db, txid, m, opt);
        GrewAgain(old(ancestry), before, ancestry);
        BalanceMember(db, start, newTotal, dequeued, queued, txid, rest);
        if creator == None {
          return false, counted, queued, newTotal;
        }
        queued := queued + [creator.value];
        newTotal := newTotal + multiset{m};
        rest := rest[1..];
      }
      ok := true;
    }

    /** Counts the members of all rings of a transaction taken from the queue. */
    method CountTx(db: Db, txid: Hash, opt: Options, counts: map<Ancestor, nat>, queue: seq<Hash>,
                   ghost start: Hash, ghost total: multiset<Ancestor>, ghost dequeued: nat)
      returns (ok: bool, counted: map<Ancestor, nat>, queued: seq<Hash>, ghost newTotal: multiset<Ancestor>)
      requires WellFounded(db) && Consistent(db) && Counts(counts, total)
      requires LookupTx(db, txid).None? ==> !Resolvable(db, start)
      requires LookupTx(db, txid).Some? ==> Balanced(db, start, total, dequeued, queue, txid, Members(db, txid))
      modifies this`ancestry, this`outputCache, this`txCache, this`blockCache
      ensures Consistent(db) && Grew(old(ancestry), ancestry)
      ensures ok ==> Counts(counted, newTotal) && Balanced(db, start, newTotal, dequeued, queued, txid, [])
      ensures !ok ==> !Resolvable(db, start)
    {
      hide Grew, Balanced, Resolvable, WellFounded, CachesAgree, SoundMap, CompleteOn, OrderTo, Counts, LookupTx;
      counted, queued, newTotal := counts, queue, total;
      GrewSelf(ancestry);
      var t := GetTransaction(db, txid, opt);
      if t == None {
        return false, counted, queued, newTotal;
      }
      if t.value.coinbase {
        return true, counted, queued, newTotal;
      }
      var vin := t.value.vin;
      assert vin[0..] == vin;
      for ring := 0 to |vin|
        invariant Consistent(db) && Grew(old(ancestry), ancestry) && Counts(counted, newTotal)
        invariant IsSuffix(Flatten(vin[ring..]), Members(db, txid))
        invariant Balanced(db, start, newTotal, dequeued, queued, txid, Flatten(vin[ring..]))
      {
        FlattenNext(vin, ring);
        ghost var before := ancestry;
        ok, counted, queued, newTotal := CountRing(db, txid, vin[ring].0, vin[ring].1, opt, counted, queued,
                                                   start, newTotal, dequeued, Flatten(vin[ring + 1..]));
        GrewAgain(old(ancestry), before, ancestry);
        if !ok {
          return;
        }
      }
      ok := true;
    }

    /** The backward pass from one transaction.  stop(n) says whether a stop has been requested when
        the (n+1)-st transaction has been taken from the queue. */
    method Query(db: Db, start: Hash, opt: Options, stop: nat -> bool)
      returns (outcome: Outcome, counts: map<Ancestor, nat>, dequeued: nat, ghost total: multiset<Ancestor>)
      requires WellFounded(db) && Consistent(db)
      modifies this`ancestry, this`outputCache, this`txCache, this`blockCache
      ensures Consistent(db) && Grew(old(ancestry), ancestry)
      ensures outcome.Finished? ==> Resolvable(db, start) && dequeued == Weight(db, start) + 1
      ensures outcome.Finished? ==> counts.Keys == Closure(db, start)
      ensures outcome.Finished? ==> forall a | a in counts :: counts[a] == Ways(db, start, a) % UINT_LIMIT
      ensures outcome.Finished? ==>
          Counts(counts, total) && |total| == Weight(db, start) && forall a :: total[a] == Ways(db, start, a)
      ensures outcome.Failed? ==> !Resolvable(db, start)
      ensures outcome.Stopped? ==> dequeued <= Weight(db, start) && stop(dequeued)
    {
      hide Grew, Balanced, Resolvable, WellFounded, Consistent, Counts, LookupTx, Members, QueueWeight, Weight, Ways,
        Closure;
      counts, total, dequeued := map[], multiset{}, 0;
      assert Counts(counts, total) by {
        NothingCounted();
      }
      GrewSelf(ancestry);
      BalanceStart(db, start);
      var queue := [start];
      ghost var last := start;
      while queue != []
        invariant Consistent(db) && Grew(old(ancestry), ancestry) && Counts(counts, total)
        invariant Balanced(db, start, total, dequeued, queue, last, [])
        decreases Weight(db, start) + 1 - dequeued
      {
        var txid := queue[0];
        BalancePop(db, start, total, dequeued, queue, last);
        BalanceLeft(db, start, total, dequeued, queue, last);
        if stop(dequeued) {
          return Stopped, counts, dequeued, total;
        }
        queue := queue[1..];
        dequeued := dequeued + 1;
        ghost var before := ancestry;
        var ok;
        ok, counts, queue, total := CountTx(db, txid, opt, counts, queue, start, total, dequeued);
        GrewAgain(old(ancestry), before, ancestry);
        last := txid;
        if !ok {
          return Failed, counts, dequeued, total;
        }
      }
      BalanceEnd(db, start, total, dequeued, last, counts);
      outcome := Finished;
    }
  }

  /** The first height from h on at which a stop is seen, or the last one. */
  function LastHeight(stop: nat -> bool, h: nat, n: nat): (r: nat)
    requires h < n
    ensures h <= r < n && (r == n - 1 || stop(r)) && forall k | h <= k < r :: !stop(k)
    decreases n - h
  {
    if h == n - 1 || stop(h) then h else LastHeight(stop, h + 1, n)
  }

  lemma LastHeightIs(stop: nat -> bool, h: nat, n: nat, r: nat)
    requires h <= r < n && (r == n - 1 || stop(r)) && forall k | h <= k < r :: !stop(k)
    ensures r == LastHeight(stop, h, n)
  {}
}
