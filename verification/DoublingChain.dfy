/** A chain on which the figures of the backward pass are wrong: every transaction has one ring, which holds the two
    outputs of the transaction before it, so the ways to the first output double with every block. */
module DoublingChain {
  import opened Ancestry
  import opened AncestryRuns
  import opened BitStream
  import opened Crypto
  import opened RingGraph
  import opened WorkList
  import opened Wrappers

  /** The coinbase output that all ways lead to. */
  const SHARED := Ancestor(0, 0)

  function Spender(k: nat): Hash {
    Hash(2 * k + 1)
  }

  /** The first spender's ring holds the shared output, every later one's the two outputs of its predecessor. */
  function Ring(k: nat): seq<nat>
    requires k > 0
  {
    if k == 1 then [0] else [2 * k - 3, 2 * k - 2]
  }

  /** Even numbers are coinbase transactions, odd ones from 3 on spenders. */
  function Stored(i: nat): TxData {
    if i % 2 == 0 then TxData([], if i == 0 then [Key(0)] else [], true)
    else if i == 1 then TxData([], [], true)
    else TxData([(0, Ring(i / 2))], [Key(i - 2), Key(i - 1)], false)
  }

  function BlockAt(h: nat): Block {
    Block(1, if h == 0 then [ToKey(Key(0))] else [], Hash(2 * h), if h == 0 then [] else [Spender(h)])
  }

  /** A coinbase block and n blocks with one spender each. */
  function Doubling(n: nat): Db {
    Db(seq(n + 1, h requires 0 <= h <= n => Some(BlockAt(h))),
       map i | 0 <= i <= 2 * n + 1 && i != 1 :: Hash(i) := Some(Stored(i)),
       map j | 0 <= j <= 2 * n :: Ancestor(0, j) := OutputData((j + 1) / 2, Key(j)))
  }

  // ---------- lookups ----------

  lemma LookupSpender(n: nat, k: nat)
    requires 1 <= k <= n
    ensures LookupTx(Doubling(n), Spender(k)) == Some(TxData([(0, Ring(k))], [Key(2 * k - 1), Key(2 * k)], false))
  {
    assert Doubling(n).txs[Hash(2 * k + 1)] == Some(Stored(2 * k + 1));
  }

  lemma SpenderMembers(n: nat, k: nat)
    requires 1 <= k <= n
    ensures Members(Doubling(n), Spender(k)) == RingMembers(0, Ring(k))
  {
    hide Doubling, Ring;
    LookupSpender(n, k);
    var vin := [(0, Ring(k))];
    assert vin[1..] == [];
    assert Flatten(vin) == RingMembers(0, Ring(k)) + Flatten([]);
  }

  lemma OtherMembers(n: nat, t: Hash)
    requires forall k | 1 <= k <= n :: t != Spender(k)
    ensures Members(Doubling(n), t) == []
  {
    var db := Doubling(n);
    if t in db.txs {
      var i :| 0 <= i <= 2 * n + 1 && i != 1 && t == Hash(i);
      assert db.txs[t] == Some(Stored(i));
      assert i % 2 == 1 ==> t == Spender(i / 2);
    }
  }

  lemma SharedCreator(n: nat)
    ensures LookupCreator(Doubling(n), SHARED) == Some(Hash(0))
  {
    var db := Doubling(n);
    assert db.outputs[SHARED] == OutputData(0, Key(0));
    assert db.blocks[0] == Some(BlockAt(0));
  }

  lemma OutputCreator(n: nat, k: nat, j: nat)
    requires 1 <= k <= n && (j == 2 * k - 1 || j == 2 * k)
    ensures LookupCreator(Doubling(n), Ancestor(0, j)) == Some(Spender(k))
  {
    var db := Doubling(n);
    assert db.outputs[Ancestor(0, j)] == OutputData(k, Key(j));
    assert db.blocks[k] == Some(BlockAt(k));
    LookupSpender(n, k);
    hide Doubling;
    assert ScanTxs(db, [Spender(k)], Key(j)) == Some(Spender(k));
  }

  // ---------- ranks ----------

  lemma {:induction false} OrderIs(n: nat, h: nat)
    requires h <= n + 1
    ensures var o := OrderTo(Doubling(n), h);
      |o| == (if h == 0 then 0 else h - 1) && forall i | 0 <= i < |o| :: o[i] == Spender(i + 1)
  {
    if h > 0 {
      OrderIs(n, h - 1);
      assert Doubling(n).blocks[h - 1] == Some(BlockAt(h - 1));
    }
  }

  lemma Ranks(n: nat, t: Hash)
    ensures forall k | 1 <= k <= n :: Rank(Doubling(n), Spender(k)) == k
    ensures Rank(Doubling(n), t) == 0 ==> forall k | 1 <= k <= n :: t != Spender(k)
  {
    hide FirstIndex;
    OrderIs(n, n + 1);
    var o := Order(Doubling(n));
    forall k | 1 <= k <= n
      ensures Rank(Doubling(n), Spender(k)) == k
    {
      assert o[k - 1] == Spender(k);
    }
  }

  lemma RingEarlier(n: nat, k: nat)
    requires 1 <= k <= n
    ensures EarlierCreators(Doubling(n), Spender(k), Members(Doubling(n), Spender(k)))
  {
    hide Doubling, LookupCreator, Rank, Members;
    SpenderMembers(n, k);
    Ranks(n, Hash(0));
    if k == 1 {
      SharedCreator(n);
      assert Rank(Doubling(n), Hash(0)) == 0 by {
        CoinbaseRank(n);
      }
    } else {
      OutputCreator(n, k - 1, 2 * k - 3);
      OutputCreator(n, k - 1, 2 * k - 2);
    }
  }

  lemma CoinbaseRank(n: nat)
    ensures Rank(Doubling(n), Hash(0)) == 0
  {
    hide FirstIndex;
    OrderIs(n, n + 1);
  }

  lemma DoublingWellFounded(n: nat)
    ensures WellFounded(Doubling(n))
  {
    hide Doubling, LookupCreator, Rank, Members;
    var db := Doubling(n);
    forall t
      ensures (Rank(db, t) == 0 ==> Members(db, t) == []) && EarlierCreators(db, t, Members(db, t))
    {
      Ranks(n, t);
      if k :| 1 <= k <= n && t == Spender(k) {
        RingEarlier(n, k);
      } else {
        OtherMembers(n, t);
      }
    }
  }

  // ---------- ways ----------

  /** Reading one ring member. */
  lemma NextMember(db: Db, t: Hash, ms: seq<Ancestor>, a: Ancestor)
    requires WellFounded(db) && EarlierCreators(db, t, ms) && ms != [] && LookupCreator(db, ms[0]).Some?
    ensures EarlierCreators(db, t, ms[1..])
    ensures var c := LookupCreator(db, ms[0]).value;
      && WaysOf(db, t, ms, a) == (if ms[0] == a then 1 else 0) + Ways(db, c, a) + WaysOf(db, t, ms[1..], a)
      && WeightOf(db, t, ms) == 1 + Weight(db, c) + WeightOf(db, t, ms[1..])
      && (ResolvableOf(db, t, ms) <==> Resolvable(db, c) && ResolvableOf(db, t, ms[1..]))
  {
    hide LookupCreator, Rank;
  }

  lemma NoMember(db: Db, t: Hash, a: Ancestor)
    requires WellFounded(db)
    ensures WaysOf(db, t, [], a) == 0 && WeightOf(db, t, []) == 0 && ResolvableOf(db, t, [])
  {}

  lemma OneMember(db: Db, t: Hash, m: Ancestor, a: Ancestor)
    requires WellFounded(db) && Members(db, t) == [m] && LookupCreator(db, m).Some?
    ensures var c := LookupCreator(db, m).value;
      && Ways(db, t, a) == (if m == a then 1 else 0) + Ways(db, c, a) && Weight(db, t) == 1 + Weight(db, c)
      && (Resolvable(db, t) <==> LookupTx(db, t).Some? && Resolvable(db, c))
  {
    hide LookupCreator, Rank, LookupTx;
    NextMember(db, t, [m], a);
    assert [m][1..] == [];
    NoMember(db, t, a);
  }

  lemma TwoMembers(db: Db, t: Hash, m: Ancestor, l: Ancestor, a: Ancestor)
    requires WellFounded(db) && Members(db, t) == [m, l]
    requires LookupCreator(db, m).Some? && LookupCreator(db, l) == LookupCreator(db, m)
    ensures var c := LookupCreator(db, m).value;
      && Ways(db, t, a) == (if m == a then 1 else 0) + (if l == a then 1 else 0) + 2 * Ways(db, c, a)
      && Weight(db, t) == 2 + 2 * Weight(db, c)
      && (Resolvable(db, t) <==> LookupTx(db, t).Some? && Resolvable(db, c))
  {
    hide LookupCreator, Rank, LookupTx;
    NextMember(db, t, [m, l], a);
    assert [m, l][1..] == [l] && [l][1..] == [];
    NextMember(db, t, [l], a);
    NoMember(db, t, a);
  }

  lemma NoWays(db: Db, t: Hash, a: Ancestor)
    requires WellFounded(db) && Members(db, t) == []
    ensures Ways(db, t, a) == 0 && Weight(db, t) == 0 && (Resolvable(db, t) <==> LookupTx(db, t).Some?)
  {}

  /** The ways to the shared output double with every spender. */
  lemma {:induction false} WaysDouble(n: nat, k: nat)
    requires 1 <= k <= n && WellFounded(Doubling(n))
    ensures Ways(Doubling(n), Spender(k), SHARED) == Pow2(k - 1)
    ensures Weight(Doubling(n), Spender(k)) == 3 * Pow2(k - 1) - 2
    ensures Resolvable(Doubling(n), Spender(k))
  {
    hide Doubling, LookupCreator, Members, WellFounded, Ways, Weight, LookupTx, Resolvable;
    var db := Doubling(n);
    SpenderMembers(n, k);
    LookupSpender(n, k);
    if k == 1 {
      SharedCreator(n);
      assert RingMembers(0, Ring(k)) == [SHARED];
      OneMember(db, Spender(k), SHARED, SHARED);
      OtherMembers(n, Hash(0));
      CoinbaseStored(n);
      NoWays(db, Hash(0), SHARED);
    } else {
      var m, l := Ancestor(0, 2 * k - 3), Ancestor(0, 2 * k - 2);
      OutputCreator(n, k - 1, 2 * k - 3);
      OutputCreator(n, k - 1, 2 * k - 2);
      assert RingMembers(0, Ring(k)) == [m, l];
      TwoMembers(db, Spender(k), m, l, SHARED);
      WaysDouble(n, k - 1);
    }
  }

  lemma CoinbaseStored(n: nat)
    ensures LookupTx(Doubling(n), Hash(0)).Some?
  {
    assert Doubling(n).txs[Hash(0)] == Some(Stored(0));
  }

  lemma PowerOf4()
    ensures Pow2(4) == 16
  {}

  lemma PowerOf32()
    ensures Pow2(32) == UINT_LIMIT
  {
    hide Pow2;
    PowerOf4();
    PowSum(4, 4);
    PowSum(8, 8);
    PowSum(16, 16);
  }

  lemma {:induction false} PowSum(a: nat, b: nat)
    ensures Pow2(a + b) == Pow2(a) * Pow2(b)
  {
    if b > 0 {
      PowSum(a, b - 1);
    }
  }

  /** With 33 transactions of two-member rings the counter of the shared output comes back to zero, and the figure
      reported is not the number of ways. */
  lemma FiguresCanWrap(n: nat, counts: map<Ancestor, nat>, total: multiset<Ancestor>)
    requires n == 33 && WellFounded(Doubling(n)) && Counts(counts, total)
    requires |total| == Weight(Doubling(n), Spender(n))
    requires forall a :: total[a] == Ways(Doubling(n), Spender(n), a)
    ensures SHARED in counts && counts[SHARED] == 0 && Ways(Doubling(n), Spender(n), SHARED) == UINT_LIMIT
    ensures Weight(Doubling(n), Spender(n)) == 3 * UINT_LIMIT - 2
    ensures SumCounts(counts) % SIZE_LIMIT != Weight(Doubling(n), Spender(n))
  {
    hide Doubling, WellFounded, Ways, Weight, SumCounts, Pow2;
    WaysDouble(n, n);
    PowerOf32();
    assert total[SHARED] == UINT_LIMIT;
    FullAncestryExact(Doubling(n), Spender(n), counts, total);
  }

  /** The tool itself, started on this chain, ends with these wrong figures. */
  method ReportsWrongFigures(n: nat, opt: Options) returns (counts: map<Ancestor, nat>, full: nat)
    requires n == 33
    ensures WellFounded(Doubling(n)) && SHARED in counts && counts[SHARED] == 0
    ensures full != Weight(Doubling(n), Spender(n))
  {
    hide Doubling, WellFounded, Ways, Weight, SumCounts, Resolvable, Counts, AncestryState.Consistent;
    var db := Doubling(n);
    DoublingWellFounded(n);
    WaysDouble(n, n);
    var s := new AncestryState();
    NewConsistent(s, db);
    var outcome, dequeued;
    ghost var total;
    outcome, counts, dequeued, total := s.Query(db, Spender(n), opt, i => false);
    full := GetFullAncestry(counts);
    FiguresCanWrap(n, counts, total);
  }
}
