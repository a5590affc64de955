/** The graph that ring members span over a chain of blocks: what the ancestry of a transaction
    is, and how many ways lead to each ancestor. */
module RingGraph {
  import opened Crypto
  import opened Wrappers

  /** A ring member: the offset-th output of its amount. */
  datatype Ancestor = Ancestor(amount: nat, offset: nat)

  /** What is kept of a transaction.  A coinbase transaction has no rings. */
  datatype TxData = TxData(vin: seq<(nat, seq<nat>)>, vout: seq<Key>, coinbase: bool)

  /** Target of a miner output: a key, or a kind of target that is not supported. */
  datatype Target = ToKey(key: Key) | OtherTarget

  /** minerInputs is zero only in a default-constructed block. */
  datatype Block = Block(minerInputs: nat, minerOuts: seq<Target>, minerHash: Hash, txHashes: seq<Hash>)

  datatype OutputData = OutputData(height: nat, pubkey: Key)

  /** The read-only database.  A block or transaction that does not parse is None. */
  datatype Db = Db(blocks: seq<Option<Block>>, txs: map<Hash, Option<TxData>>, outputs: map<Ancestor, OutputData>)

  // ---------- lookups without caches ----------

  function LookupBlock(db: Db, height: nat): Option<Block> {
    if height < |db.blocks| then db.blocks[height] else None
  }

  function LookupTx(db: Db, txid: Hash): Option<TxData> {
    if txid in db.txs then db.txs[txid] else None
  }

  /** Result of scanning the outputs of a miner transaction for a key. */
  datatype MinerScan = Found | Absent | Unsupported

  function ScanMiner(outs: seq<Target>, key: Key): MinerScan {
    if outs == [] then Absent
    else if outs[0].OtherTarget? then Unsupported
    else if outs[0].key == key then Found
    else ScanMiner(outs[1..], key)
  }

  /** The first transaction of the list with an output to the key. */
  function ScanTxs(db: Db, txids: seq<Hash>, key: Key): Option<Hash> {
    if txids == [] then None
    else match LookupTx(db, txids[0])
      case None => None
      case Some(t) => if key in t.vout then Some(txids[0]) else ScanTxs(db, txids[1..], key)
  }

  /** The transaction that created an output, if the search finds it. */
  function LookupCreator(db: Db, a: Ancestor): Option<Hash> {
    if a !in db.outputs then None
    else
      var od := db.outputs[a];
      match LookupBlock(db, od.height)
      case None => None
      case Some(b) =>
        match ScanMiner(b.minerOuts, od.pubkey)
        case Found => Some(b.minerHash)
        case Unsupported => None
        case Absent => ScanTxs(db, b.txHashes, od.pubkey)
  }

  /** The transaction parses and has an output to the key. */
  ghost predicate Pays(db: Db, txid: Hash, key: Key) {
    txid in db.txs && db.txs[txid].Some? && key in db.txs[txid].value.vout
  }

  /** The transaction parses and has no output to the key. */
  ghost predicate PaysOthers(db: Db, txid: Hash, key: Key) {
    txid in db.txs && db.txs[txid].Some? && key !in db.txs[txid].value.vout
  }

  /** Output i is to the key, and those before it are to other keys. */
  ghost predicate FirstMined(outs: seq<Target>, key: Key, i: nat) {
    i < |outs| && outs[i] == ToKey(key) && forall j | 0 <= j < i :: OtherKey(outs[j], key)
  }

  ghost predicate OtherKey(t: Target, key: Key) {
    t.ToKey? && t.key != key
  }

  /** Transaction i of the list pays the key, and those before it parse and do not. */
  ghost predicate FirstPaying(db: Db, txids: seq<Hash>, key: Key, i: nat) {
    i < |txids| && Pays(db, txids[i], key) && forall j | 0 <= j < i :: PaysOthers(db, txids[j], key)
  }

  /** The block holds the key in the transaction c: in its coinbase transaction, or else in the first transaction of its
      list that has it. */
  ghost predicate Creates(db: Db, b: Block, key: Key, c: Hash) {
    || (c == b.minerHash && exists i: nat :: FirstMined(b.minerOuts, key, i))
    || ((forall t | t in b.minerOuts :: OtherKey(t, key))
        && exists i: nat :: FirstPaying(db, b.txHashes, key, i) && c == b.txHashes[i])
  }

  lemma {:induction false} ScanMinerMeans(outs: seq<Target>, key: Key)
    ensures ScanMiner(outs, key).Found? <==> exists i: nat :: FirstMined(outs, key, i)
    ensures ScanMiner(outs, key).Absent? <==> forall t | t in outs :: OtherKey(t, key)
  {
    if outs != [] {
      ScanMinerMeans(outs[1..], key);
      assert FirstMined(outs, key, 0) <==> outs[0] == ToKey(key);
      if i: nat :| FirstMined(outs[1..], key, i) {
        FirstMinedNext(outs, key, i);
      }
      if i: nat :| FirstMined(outs, key, i) {
        if i > 0 {
          FirstMinedNext(outs, key, i - 1);
        }
      }
      assert outs[0] in outs;
      assert forall t :: t in outs <==> t == outs[0] || t in outs[1..];
    }
  }

  lemma FirstMinedNext(outs: seq<Target>, key: Key, i: nat)
    requires outs != []
    ensures FirstMined(outs, key, i + 1) <==> OtherKey(outs[0], key) && FirstMined(outs[1..], key, i)
  {
    if FirstMined(outs, key, i + 1) {
      assert OtherKey(outs[0], key);
      assert forall j | 0 <= j < i :: outs[1..][j] == outs[j + 1];
    }
    if OtherKey(outs[0], key) && FirstMined(outs[1..], key, i) {
      assert forall j | 1 <= j < i + 1 :: outs[j] == outs[1..][j - 1];
    }
  }

  lemma {:induction false} ScanTxsMeans(db: Db, txids: seq<Hash>, key: Key, c: Hash)
    ensures ScanTxs(db, txids, key) == Some(c) <==> exists i: nat :: FirstPaying(db, txids, key, i) && c == txids[i]
  {
    if txids != [] {
      ScanTxsMeans(db, txids[1..], key, c);
      assert FirstPaying(db, txids, key, 0) <==> Pays(db, txids[0], key);
      if i: nat :| FirstPaying(db, txids[1..], key, i) && c == txids[1..][i] {
        FirstPayingNext(db, txids, key, i);
        assert c == txids[i + 1];
      }
      if i: nat :| FirstPaying(db, txids, key, i) && c == txids[i] {
        if i > 0 {
          FirstPayingNext(db, txids, key, i - 1);
          assert c == txids[1..][i - 1];
        }
      }
    }
  }

  lemma FirstPayingNext(db: Db, txids: seq<Hash>, key: Key, i: nat)
    requires txids != []
    ensures FirstPaying(db, txids, key, i + 1) <==>
      PaysOthers(db, txids[0], key) && FirstPaying(db, txids[1..], key, i)
  {
    hide Pays, PaysOthers;
    if FirstPaying(db, txids, key, i + 1) {
      assert PaysOthers(db, txids[0], key);
      assert forall j | 0 <= j < i :: txids[1..][j] == txids[j + 1];
    }
    if PaysOthers(db, txids[0], key) && FirstPaying(db, txids[1..], key, i) {
      assert forall j | 1 <= j < i + 1 :: txids[j] == txids[1..][j - 1];
    }
  }

  /** The search names exactly the transaction that created the output. */
  lemma CreatorExact(db: Db, a: Ancestor, c: Hash)
    ensures LookupCreator(db, a) == Some(c) <==>
      && a in db.outputs && db.outputs[a].height < |db.blocks| && db.blocks[db.outputs[a].height].Some?
      && Creates(db, db.blocks[db.outputs[a].height].value, db.outputs[a].pubkey, c)
  {
    hide ScanMiner, ScanTxs, FirstMined, FirstPaying, OtherKey;
    if a in db.outputs && LookupBlock(db, db.outputs[a].height).Some? {
      var b, key := LookupBlock(db, db.outputs[a].height).value, db.outputs[a].pubkey;
      ScanMinerMeans(b.minerOuts, key);
      ScanTxsMeans(db, b.txHashes, key, c);
    }
  }

  /** It has the output: in the coinbase transaction of the block, or in a transaction of its list. */
  lemma CreatorSound(db: Db, a: Ancestor)
    requires LookupCreator(db, a).Some?
    ensures a in db.outputs && db.outputs[a].height < |db.blocks| && db.blocks[db.outputs[a].height].Some?
    ensures var c, key := LookupCreator(db, a).value, db.outputs[a].pubkey;
      var b := db.blocks[db.outputs[a].height].value;
      || (c == b.minerHash && ToKey(key) in b.minerOuts)
      || (c in b.txHashes && c in db.txs && db.txs[c].Some? && key in db.txs[c].value.vout)
  {
    hide LookupCreator;
    CreatorExact(db, a, LookupCreator(db, a).value);
  }

  /** If the coinbase outputs are to other keys and all transactions of the block parse, the first one with the key is
      the answer. */
  lemma CreatorComplete(db: Db, a: Ancestor, i: nat)
    requires a in db.outputs && db.outputs[a].height < |db.blocks| && db.blocks[db.outputs[a].height].Some?
    requires var key, b := db.outputs[a].pubkey, db.blocks[db.outputs[a].height].value;
      && (forall t | t in b.minerOuts :: t.ToKey? && t.key != key)
      && (forall t | t in b.txHashes :: t in db.txs && db.txs[t].Some?)
      && i < |b.txHashes| && key in db.txs[b.txHashes[i]].value.vout
      && forall j | 0 <= j < i :: key !in db.txs[b.txHashes[j]].value.vout
    ensures LookupCreator(db, a) == Some(db.blocks[db.outputs[a].height].value.txHashes[i])
  {
    hide LookupCreator;
    var key, b := db.outputs[a].pubkey, db.blocks[db.outputs[a].height].value;
    assert FirstPaying(db, b.txHashes, key, i);
    CreatorExact(db, a, b.txHashes[i]);
  }

  // ---------- the graph ----------

  function RingMembers(amount: nat, offsets: seq<nat>): (s: seq<Ancestor>)
    ensures |s| == |offsets| && forall i | 0 <= i < |s| :: s[i] == Ancestor(amount, offsets[i])
  {
    seq(|offsets|, i requires 0 <= i < |offsets| => Ancestor(amount, offsets[i]))
  }

  /** All members of the rings, in order. */
  function Flatten(vin: seq<(nat, seq<nat>)>): seq<Ancestor> {
    if vin == [] then [] else RingMembers(vin[0].0, vin[0].1) + Flatten(vin[1..])
  }

  function MembersOf(t: TxData): seq<Ancestor> {
    if t.coinbase then [] else Flatten(t.vin)
  }

  function Members(db: Db, txid: Hash): seq<Ancestor> {
    match LookupTx(db, txid) case None => [] case Some(t) => MembersOf(t)
  }

  /** Ring members in the first i rings. */
  ghost function MembersBefore(vin: seq<(nat, seq<nat>)>, i: nat): nat
    requires i <= |vin|
  {
    if i == 0 then 0 else MembersBefore(vin, i - 1) + |vin[i - 1].1|
  }

  lemma {:induction false} MembersBeforeTail(vin: seq<(nat, seq<nat>)>, i: nat)
    requires 0 < i <= |vin|
    ensures MembersBefore(vin, i) == |vin[0].1| + MembersBefore(vin[1..], i - 1)
  {
    if i > 1 {
      MembersBeforeTail(vin, i - 1);
    }
  }

  lemma {:induction false} FlattenLength(vin: seq<(nat, seq<nat>)>)
    ensures |Flatten(vin)| == MembersBefore(vin, |vin|)
  {
    if vin != [] {
      FlattenLength(vin[1..]);
      MembersBeforeTail(vin, |vin|);
    }
  }

  /** Every member of every ring is listed once, with the amount of its own ring, ring after ring. */
  lemma {:induction false} FlattenAt(vin: seq<(nat, seq<nat>)>, i: nat, j: nat)
    requires i < |vin| && j < |vin[i].1|
    ensures MembersBefore(vin, i) + j < |Flatten(vin)| == MembersBefore(vin, |vin|)
    ensures Flatten(vin)[MembersBefore(vin, i) + j] == Ancestor(vin[i].0, vin[i].1[j])
  {
    FlattenLength(vin);
    if i > 0 {
      FlattenAt(vin[1..], i - 1, j);
      MembersBeforeTail(vin, i);
    }
  }

  /** The transactions of the first h blocks, without the coinbase ones. */
  function OrderTo(db: Db, h: nat): seq<Hash>
    requires h <= |db.blocks|
  {
    if h == 0 then []
    else OrderTo(db, h - 1) + match db.blocks[h - 1] case None => [] case Some(b) => b.txHashes
  }

  function Order(db: Db): seq<Hash> {
    OrderTo(db, |db.blocks|)
  }

  /** One more than the position of the first occurrence, or 0. */
  function FirstIndex(s: seq<Hash>, x: Hash): (r: nat)
    ensures r == 0 <==> x !in s
    ensures r > 0 ==> r <= |s| && s[r - 1] == x && x !in s[..r - 1]
  {
    if s == [] then 0
    else
      var r := FirstIndex(s[..|s| - 1], x);
      assert s == s[..|s| - 1] + [s[|s| - 1]];
      if r > 0 then (assert s[..r - 1] == s[..|s| - 1][..r - 1]; r) else if s[|s| - 1] == x then |s| else 0
  }

  /** Place of a transaction in the chain; coinbase transactions come before all others. */
  function Rank(db: Db, txid: Hash): nat {
    FirstIndex(Order(db), txid)
  }

  /** Transactions outside the blocks' lists (the coinbase ones) have no ring members, and the
      creator of a ring member comes before its spender. */
  ghost predicate WellFounded(db: Db) {
    forall txid :: (Rank(db, txid) == 0 ==> Members(db, txid) == []) && EarlierCreators(db, txid, Members(db, txid))
  }

  ghost predicate EarlierCreators(db: Db, txid: Hash, ms: seq<Ancestor>) {
    forall i | 0 <= i < |ms| ::
      LookupCreator(db, ms[i]).Some? ==> Rank(db, LookupCreator(db, ms[i]).value) < Rank(db, txid)
  }

  // ---------- ancestry ----------

  /** Every ancestor of the transaction: its ring members and the ancestors of their creators. */
  ghost function Closure(db: Db, txid: Hash): set<Ancestor>
    requires WellFounded(db)
    decreases Rank(db, txid), 1, 0
  {
    ClosureOf(db, txid, Members(db, txid))
  }

  ghost function ClosureOf(db: Db, txid: Hash, ms: seq<Ancestor>): set<Ancestor>
    requires WellFounded(db) && EarlierCreators(db, txid, ms)
    decreases Rank(db, txid), 0, |ms|
  {
    if ms == [] then {}
    else
      var rest := ClosureOf(db, txid, ms[1..]);
      {ms[0]} + (match LookupCreator(db, ms[0]) case None => {} case Some(c) => Closure(db, c)) + rest
  }

  /** Number of ways to reach ancestor a from the transaction, going from ring member to ring
      member; a member listed twice counts twice. */
  ghost function Ways(db: Db, txid: Hash, a: Ancestor): nat
    requires WellFounded(db)
    decreases Rank(db, txid), 1, 0
  {
    WaysOf(db, txid, Members(db, txid), a)
  }

  ghost function WaysOf(db: Db, txid: Hash, ms: seq<Ancestor>, a: Ancestor): nat
    requires WellFounded(db) && EarlierCreators(db, txid, ms)
    decreases Rank(db, txid), 0, |ms|
  {
    if ms == [] then 0
    else
      var rest := WaysOf(db, txid, ms[1..], a);
      var via := match LookupCreator(db, ms[0]) case None => 0 case Some(c) => Ways(db, c, a);
      (if ms[0] == a then 1 else 0) + via + rest
  }

  /** Number of ways to reach any ancestor. */
  ghost function Weight(db: Db, txid: Hash): nat
    requires WellFounded(db)
    decreases Rank(db, txid), 1, 0
  {
    WeightOf(db, txid, Members(db, txid))
  }

  ghost function WeightOf(db: Db, txid: Hash, ms: seq<Ancestor>): nat
    requires WellFounded(db) && EarlierCreators(db, txid, ms)
    decreases Rank(db, txid), 0, |ms|
  {
    if ms == [] then 0
    else
      var rest := WeightOf(db, txid, ms[1..]);
      1 + (match LookupCreator(db, ms[0]) case None => 0 case Some(c) => Weight(db, c)) + rest
  }

  // ---------- the same, by paths ----------

  /** p leads from the transaction through ring members, each in a ring of its predecessor's creator. */
  ghost predicate IsPath(db: Db, txid: Hash, p: seq<Ancestor>)
    decreases |p|
  {
    && p != [] && p[0] in Members(db, txid)
    && (|p| > 1 ==> LookupCreator(db, p[0]).Some? && IsPath(db, LookupCreator(db, p[0]).value, p[1..]))
  }

  ghost function Prepend(a: Ancestor, ps: seq<seq<Ancestor>>): (r: seq<seq<Ancestor>>)
    ensures |r| == |ps| && forall i | 0 <= i < |ps| :: r[i] == [a] + ps[i]
  {
    seq(|ps|, i requires 0 <= i < |ps| => [a] + ps[i])
  }

  /** All paths from the transaction, one for each way. */
  ghost function Paths(db: Db, txid: Hash): seq<seq<Ancestor>>
    requires WellFounded(db)
    decreases Rank(db, txid), 1, 0
  {
    PathsOf(db, txid, Members(db, txid))
  }

  ghost function PathsOf(db: Db, txid: Hash, ms: seq<Ancestor>): seq<seq<Ancestor>>
    requires WellFounded(db) && EarlierCreators(db, txid, ms)
    decreases Rank(db, txid), 0, |ms|
  {
    if ms == [] then []
    else
      var rest := PathsOf(db, txid, ms[1..]);
      [[ms[0]]] + (match LookupCreator(db, ms[0]) case None => [] case Some(c) => Prepend(ms[0], Paths(db, c))) + rest
  }

  /** Paths in the list that end in a. */
  ghost function Ending(ps: seq<seq<Ancestor>>, a: Ancestor): nat {
    if ps == [] then 0
    else Ending(ps[..|ps| - 1], a) + if ps[|ps| - 1] != [] && ps[|ps| - 1][|ps[|ps| - 1]| - 1] == a then 1 else 0
  }

  lemma {:induction false} EndingConcat(p: seq<seq<Ancestor>>, q: seq<seq<Ancestor>>, a: Ancestor)
    ensures Ending(p + q, a) == Ending(p, a) + Ending(q, a)
  {
    if q == [] {
      assert p + q == p;
    } else {
      EndingConcat(p, q[..|q| - 1], a);
      assert (p + q)[..|p + q| - 1] == p + q[..|q| - 1];
    }
  }

  lemma {:induction false} EndingPrepend(m: Ancestor, ps: seq<seq<Ancestor>>, a: Ancestor)
    requires forall i | 0 <= i < |ps| :: ps[i] != []
    ensures Ending(Prepend(m, ps), a) == Ending(ps, a)
  {
    if ps != [] {
      EndingPrepend(m, ps[..|ps| - 1], a);
      assert Prepend(m, ps)[..|ps| - 1] == Prepend(m, ps[..|ps| - 1]);
    }
  }

  lemma EndingOne(m: Ancestor, a: Ancestor)
    ensures Ending([[m]], a) == if m == a then 1 else 0
  {
    assert [[m]][..0] == [];
  }

  /** Ways and Weight count exactly the paths. */
  lemma {:induction false} PathsCounted(db: Db, txid: Hash, a: Ancestor)
    requires WellFounded(db)
    ensures |Paths(db, txid)| == Weight(db, txid) && Ending(Paths(db, txid), a) == Ways(db, txid, a)
    ensures forall i | 0 <= i < |Paths(db, txid)| :: Paths(db, txid)[i] != []
    decreases Rank(db, txid), 1, 0
  {
    PathsOfCounted(db, txid, Members(db, txid), a);
  }

  lemma {:induction false} PathsOfCounted(db: Db, txid: Hash, ms: seq<Ancestor>, a: Ancestor)
    requires WellFounded(db) && EarlierCreators(db, txid, ms)
    ensures |PathsOf(db, txid, ms)| == WeightOf(db, txid, ms) &&
        Ending(PathsOf(db, txid, ms), a) == WaysOf(db, txid, ms, a)
    ensures forall i | 0 <= i < |PathsOf(db, txid, ms)| :: PathsOf(db, txid, ms)[i] != []
    decreases Rank(db, txid), 0, |ms|
  {
    hide LookupCreator, Rank, Ending, Paths, Prepend, WellFounded, Ways, Weight;
    if ms == [] {
      EndingNone(a);
    } else {
      var m, rest := ms[0], PathsOf(db, txid, ms[1..]);
      PathsOfCounted(db, txid, ms[1..], a);
      if LookupCreator(db, m).Some? {
        PathsCounted(db, LookupCreator(db, m).value, a);
      }
      ViaCounted(db, m, a);
      var via := Via(db, m);
      EndingOne(m, a);
      EndingConcat([[m]], via, a);
      EndingConcat([[m]] + via, rest, a);
    }
  }

  lemma EndingNone(a: Ancestor)
    ensures Ending([], a) == 0
  {}

  lemma ViaCounted(db: Db, m: Ancestor, a: Ancestor)
    requires WellFounded(db)
    requires LookupCreator(db, m).Some? ==>
      var c := LookupCreator(db, m).value;
      && |Paths(db, c)| == Weight(db, c) && Ending(Paths(db, c), a) == Ways(db, c, a)
      && forall i | 0 <= i < |Paths(db, c)| :: Paths(db, c)[i] != []
    ensures LookupCreator(db, m).Some? ==>
      var c := LookupCreator(db, m).value; |Via(db, m)| == Weight(db, c) && Ending(Via(db, m), a) == Ways(db, c, a)
    ensures LookupCreator(db, m).None? ==> Via(db, m) == [] && Ending(Via(db, m), a) == 0
    ensures forall i | 0 <= i < |Via(db, m)| :: Via(db, m)[i] != []
  {
    hide LookupCreator, Paths, WellFounded, Ways, Weight;
    if LookupCreator(db, m).Some? {
      EndingPrepend(m, Paths(db, LookupCreator(db, m).value), a);
    }
  }

  /** The longer paths that start with m. */
  ghost function Via(db: Db, m: Ancestor): seq<seq<Ancestor>>
    requires WellFounded(db)
  {
    match LookupCreator(db, m) case None => [] case Some(c) => Prepend(m, Paths(db, c))
  }

  /** The list of paths is complete and holds nothing else. */
  lemma {:induction false} PathsExact(db: Db, txid: Hash, p: seq<Ancestor>)
    requires WellFounded(db)
    ensures p in Paths(db, txid) <==> IsPath(db, txid, p)
    decreases Rank(db, txid), 1, 0
  {
    PathsOfExact(db, txid, Members(db, txid), p);
  }

  ghost predicate StartsIn(db: Db, ms: seq<Ancestor>, p: seq<Ancestor>) {
    && p != [] && p[0] in ms
    && (|p| > 1 ==> LookupCreator(db, p[0]).Some? && IsPath(db, LookupCreator(db, p[0]).value, p[1..]))
  }

  lemma {:induction false} PathsOfExact(db: Db, txid: Hash, ms: seq<Ancestor>, p: seq<Ancestor>)
    requires WellFounded(db) && EarlierCreators(db, txid, ms)
    ensures p in PathsOf(db, txid, ms) <==> StartsIn(db, ms, p)
    decreases Rank(db, txid), 0, |ms|
  {
    hide LookupCreator, Rank, IsPath, Paths;
    if ms != [] {
      var m, rest := ms[0], PathsOf(db, txid, ms[1..]);
      PathsOfExact(db, txid, ms[1..], p);
      if p != [] && p[0] == m && LookupCreator(db, m).Some? {
        PathsExact(db, LookupCreator(db, m).value, p[1..]);
      }
      ViaExact(db, m, p);
      assert PathsOf(db, txid, ms) == [[m]] + Via(db, m) + rest;
      assert p in PathsOf(db, txid, ms) <==> p == [m] || p in Via(db, m) || p in rest;
      assert p != [] ==> (p[0] in ms <==> p[0] == m || p[0] in ms[1..]);
      assert |p| == 1 ==> p == [p[0]];
    }
  }

  lemma ViaExact(db: Db, m: Ancestor, p: seq<Ancestor>)
    requires WellFounded(db)
    ensures p in Via(db, m) <==>
        p != [] && p[0] == m && LookupCreator(db, m).Some? && p[1..] in Paths(db, LookupCreator(db, m).value)
  {
    hide LookupCreator, Paths, Prepend;
    if LookupCreator(db, m).Some? {
      var ps := Paths(db, LookupCreator(db, m).value);
      if p in Prepend(m, ps) {
        var i :| 0 <= i < |ps| && Prepend(m, ps)[i] == p;
        assert p == [m] + ps[i] && p[1..] == ps[i];
      }
      if p != [] && p[0] == m && p[1..] in ps {
        var i :| 0 <= i < |ps| && ps[i] == p[1..];
        assert Prepend(m, ps)[i] == p;
      }
    }
  }

  /** The ancestors are what some way reaches. */
  lemma {:induction false} ClosureIsReached(db: Db, txid: Hash, a: Ancestor)
    requires WellFounded(db)
    ensures a in Closure(db, txid) <==> Ways(db, txid, a) > 0
    decreases Rank(db, txid), 1, 0
  {
    ClosureOfIsReached(db, txid, Members(db, txid), a);
  }

  lemma {:induction false} ClosureOfIsReached(db: Db, txid: Hash, ms: seq<Ancestor>, a: Ancestor)
    requires WellFounded(db) && EarlierCreators(db, txid, ms)
    ensures a in ClosureOf(db, txid, ms) <==> WaysOf(db, txid, ms, a) > 0
    decreases Rank(db, txid), 0, |ms|
  {
    hide LookupCreator, Rank;
    if ms != [] {
      ClosureOfIsReached(db, txid, ms[1..], a);
      if LookupCreator(db, ms[0]).Some? {
        ClosureIsReached(db, LookupCreator(db, ms[0]).value, a);
      }
    }
  }

  lemma {:induction false} EndingPositive(ps: seq<seq<Ancestor>>, a: Ancestor)
    ensures Ending(ps, a) > 0 <==> exists p :: p in ps && p != [] && p[|p| - 1] == a
  {
    if ps != [] {
      var n := |ps| - 1;
      EndingPositive(ps[..n], a);
      assert ps == ps[..n] + [ps[n]];
      assert ps[n] in ps;
      assert forall p :: p in ps <==> p in ps[..n] || p == ps[n];
    }
  }

  /** The ancestry of a transaction is its transitive closure: what paths of ring members reach. */
  lemma ClosureIsPaths(db: Db, txid: Hash, a: Ancestor)
    requires WellFounded(db)
    ensures a in Closure(db, txid) <==> exists p :: IsPath(db, txid, p) && p[|p| - 1] == a
  {
    hide Closure, Ways, Paths, Ending, IsPath;
    ClosureIsReached(db, txid, a);
    PathsCounted(db, txid, a);
    var ps := Paths(db, txid);
    EndingPositive(ps, a);
    forall p
      ensures p in ps <==> IsPath(db, txid, p)
    {
      PathsExact(db, txid, p);
    }
    forall p | IsPath(db, txid, p)
      ensures p != []
    {
      PathNonEmpty(db, txid, p);
    }
  }

  lemma PathNonEmpty(db: Db, txid: Hash, p: seq<Ancestor>)
    requires IsPath(db, txid, p)
    ensures p != []
  {}
}
