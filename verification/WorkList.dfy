/** What the backward work-list counts, and the balance that every step of it keeps. */
module WorkList {
  import opened AncestrySpec
  import opened Crypto
  import opened RingGraph
  import opened Wrappers

  const UINT_LIMIT := 0x1_0000_0000
  const SIZE_LIMIT := 0x1_0000_0000_0000_0000

  /** The transaction, the creators of its ring members, and so on back, are all in the database. */
  ghost predicate Resolvable(db: Db, txid: Hash)
    requires WellFounded(db)
    decreases Rank(db, txid), 1, 0
  {
    LookupTx(db, txid).Some? && ResolvableOf(db, txid, Members(db, txid))
  }

  ghost predicate ResolvableOf(db: Db, txid: Hash, ms: seq<Ancestor>)
    requires WellFounded(db) && EarlierCreators(db, txid, ms)
    decreases Rank(db, txid), 0, |ms|
  {
    ms == [] ||
    (&& LookupCreator(db, ms[0]).Some? && Resolvable(db, LookupCreator(db, ms[0]).value)
     && ResolvableOf(db, txid, ms[1..]))
  }

  ghost predicate QueueResolvable(db: Db, q: seq<Hash>)
    requires WellFounded(db)
  {
    forall i | 0 <= i < |q| :: Resolvable(db, q[i])
  }

  ghost function QueueWays(db: Db, q: seq<Hash>, a: Ancestor): nat
    requires WellFounded(db)
  {
    if q == [] then 0 else Ways(db, q[0], a) + QueueWays(db, q[1..], a)
  }

  ghost function QueueWeight(db: Db, q: seq<Hash>): nat
    requires WellFounded(db)
  {
    if q == [] then 0 else 1 + Weight(db, q[0]) + QueueWeight(db, q[1..])
  }

  lemma {:induction false} QueuePush(db: Db, q: seq<Hash>, c: Hash, a: Ancestor)
    requires WellFounded(db)
    ensures QueueWays(db, q + [c], a) == QueueWays(db, q, a) + Ways(db, c, a)
    ensures QueueWeight(db, q + [c]) == QueueWeight(db, q) + 1 + Weight(db, c)
  {
    hide WellFounded, Ways, Weight;
    if q != [] {
      QueuePush(db, q[1..], c, a);
      assert (q + [c])[1..] == q[1..] + [c];
    }
  }

  /** Between the steps of the work-list: every way to an ancestor has been counted, or starts in the
      queue, or in the members of txid that are still to be read. */
  ghost predicate Balanced(db: Db, start: Hash, total: multiset<Ancestor>, dequeued: nat, q: seq<Hash>, txid: Hash,
                           rest: seq<Ancestor>)
    requires WellFounded(db)
  {
    && EarlierCreators(db, txid, rest)
    && (forall a :: total[a] + QueueWays(db, q, a) + WaysOf(db, txid, rest, a) == Ways(db, start, a))
    && dequeued + QueueWeight(db, q) + WeightOf(db, txid, rest) == 1 + Weight(db, start)
    && |total| + 1 == dequeued + |q|
    && (Resolvable(db, start) <==> QueueResolvable(db, q) && ResolvableOf(db, txid, rest))
  }

  lemma BalanceStart(db: Db, start: Hash)
    requires WellFounded(db)
    ensures Balanced(db, start, multiset{}, 0, [start], start, [])
  {
    hide WellFounded, Ways, Weight, Resolvable;
    assert [start][1..] == [];
    forall a
      ensures multiset{}[a] + QueueWays(db, [start], a) + WaysOf(db, start, [], a) == Ways(db, start, a)
    {
      assert QueueWays(db, [], a) == 0;
    }
    assert QueueWeight(db, []) == 0;
    PopResolvable(db, [start]);
  }

  /** Taking the front of the queue puts its ring members up for reading. */
  lemma BalancePop(db: Db, start: Hash, total: multiset<Ancestor>, dequeued: nat, q: seq<Hash>, txid: Hash)
    requires WellFounded(db) && q != [] && Balanced(db, start, total, dequeued, q, txid, [])
    ensures LookupTx(db, q[0]).Some? ==> Balanced(db, start, total, dequeued + 1, q[1..], q[0], Members(db, q[0]))
    ensures LookupTx(db, q[0]).None? ==> !Resolvable(db, start)
    ensures QueueWeight(db, q) == 1 + QueueWeight(db, q[1..]) + Weight(db, q[0])
    ensures EarlierCreators(db, q[0], Members(db, q[0]))
    ensures Weight(db, q[0]) == WeightOf(db, q[0], Members(db, q[0]))
  {
    hide LookupCreator, Rank, LookupTx, EarlierCreators, ResolvableOf;
    if LookupTx(db, q[0]).Some? {
      forall a
        ensures total[a] + QueueWays(db, q[1..], a) + WaysOf(db, q[0], Members(db, q[0]), a) == Ways(db, start, a)
      {
        assert QueueWays(db, q, a) == Ways(db, q[0], a) + QueueWays(db, q[1..], a);
      }
    }
    PopResolvable(db, q);
    assert ResolvableOf(db, txid, []) by {
      NothingLeft(db, txid);
    }
  }

  /** As long as the queue holds something, fewer transactions have been taken than there are ways. */
  lemma BalanceLeft(db: Db, start: Hash, total: multiset<Ancestor>, dequeued: nat, q: seq<Hash>, txid: Hash)
    requires WellFounded(db) && q != [] && Balanced(db, start, total, dequeued, q, txid, [])
    ensures dequeued <= Weight(db, start)
  {
    hide Weight, Ways, WellFounded, Resolvable, QueueWays;
    assert QueueWeight(db, q) >= 1;
  }

  lemma NothingCounted()
    ensures Counts(map[], multiset{})
  {}

  lemma NothingLeft(db: Db, txid: Hash)
    requires WellFounded(db)
    ensures ResolvableOf(db, txid, [])
  {}

  lemma PopResolvable(db: Db, q: seq<Hash>)
    requires WellFounded(db) && q != []
    ensures QueueResolvable(db, q) <==> Resolvable(db, q[0]) && QueueResolvable(db, q[1..])
  {
    hide Resolvable, WellFounded;
    assert forall i | 0 < i < |q| :: q[i] == q[1..][i - 1];
  }

  lemma PushResolvable(db: Db, q: seq<Hash>, c: Hash)
    requires WellFounded(db)
    ensures QueueResolvable(db, q + [c]) <==> Resolvable(db, c) && QueueResolvable(db, q)
  {
    hide Resolvable, WellFounded;
    assert (q + [c])[|q|] == c;
    assert forall i | 0 <= i < |q| :: q[i] == (q + [c])[i];
  }

  /** Counting a member and queueing its creator keeps the balance. */
  lemma BalanceMember(db: Db, start: Hash, total: multiset<Ancestor>, dequeued: nat, q: seq<Hash>, txid: Hash,
                      rest: seq<Ancestor>)
    requires WellFounded(db) && rest != [] && Balanced(db, start, total, dequeued, q, txid, rest)
    ensures LookupCreator(db, rest[0]).None? ==> !Resolvable(db, start)
    ensures LookupCreator(db, rest[0]).Some? ==>
      var c := LookupCreator(db, rest[0]).value;
      && Balanced(db, start, total + multiset{rest[0]}, dequeued, q + [c], txid, rest[1..])
      && QueueWeight(db, q + [c]) + WeightOf(db, txid, rest[1..]) == QueueWeight(db, q) + WeightOf(db, txid, rest)
  {
    hide LookupCreator, Rank, Ways, Weight, WellFounded, QueueWeight, QueueWays, QueueResolvable, Resolvable;
    if LookupCreator(db, rest[0]).Some? {
      var m, c, t2 := rest[0], LookupCreator(db, rest[0]).value, total + multiset{rest[0]};
      forall a
        ensures t2[a] + QueueWays(db, q + [c], a) + WaysOf(db, txid, rest[1..], a) == Ways(db, start, a)
      {
        QueuePush(db, q, c, a);
        assert t2[a] == total[a] + if a == m then 1 else 0;
      }
      QueuePush(db, q, c, m);
      PushResolvable(db, q, c);
    }
  }

  // ---------- the counters ----------

  /** The counters of type unsigned int hold the true numbers modulo 2^32. */
  ghost predicate Counts(counts: map<Ancestor, nat>, total: multiset<Ancestor>) {
    forall a :: (a in counts <==> a in total) && (a in counts ==> counts[a] == total[a] % UINT_LIMIT)
  }

  /** Inserts a counter of one, or increments the counter. */
  method AddAncestor(counts: map<Ancestor, nat>, a: Ancestor, ghost total: multiset<Ancestor>)
    returns (r: map<Ancestor, nat>)
    requires Counts(counts, total)
    ensures Counts(r, total + multiset{a})
  {
    hide Counts;
    if a in counts {
      r := counts[a := (counts[a] + 1) % UINT_LIMIT];
    } else {
      r := counts[a := 1];
    }
    CountsNext(counts, total, a);
  }

  lemma CountsNext(counts: map<Ancestor, nat>, total: multiset<Ancestor>, a: Ancestor)
    requires Counts(counts, total)
    ensures Counts(counts[a := if a in counts then (counts[a] + 1) % UINT_LIMIT else 1], total + multiset{a})
  {
    var more := total + multiset{a};
    assert more[a] == total[a] + 1;
    Increment(total[a]);
    assert forall b | b != a :: more[b] == total[b];
  }

  lemma Increment(n: nat)
    ensures (n % UINT_LIMIT + 1) % UINT_LIMIT == (n + 1) % UINT_LIMIT
  {}

  /** With an empty queue the counters are complete. */
  lemma BalanceEnd(db: Db, start: Hash, total: multiset<Ancestor>, dequeued: nat, txid: Hash,
                   counts: map<Ancestor, nat>)
    requires WellFounded(db) && Balanced(db, start, total, dequeued, [], txid, []) && Counts(counts, total)
    ensures dequeued == Weight(db, start) + 1 && |total| == Weight(db, start) && Resolvable(db, start)
    ensures forall a :: total[a] == Ways(db, start, a)
    ensures counts.Keys == Closure(db, start)
    ensures forall a | a in counts :: counts[a] == Ways(db, start, a) % UINT_LIMIT
  {
    hide LookupCreator, Rank, Ways, Weight, WellFounded, Closure, Resolvable;
    forall a
      ensures total[a] == Ways(db, start, a) && (a in counts <==> a in Closure(db, start))
    {
      assert WaysOf(db, txid, [], a) == 0;
      ClosureIsReached(db, start, a);
    }
    NothingLeft(db, txid);
  }

  /** Sum of all counters. */
  ghost function SumCounts(m: map<Ancestor, nat>): nat
    decreases |m|
  {
    if m == map[] then 0
    else
      var a :| a in m;
      m[a] + SumCounts(m - {a})
  }

  lemma {:induction false} SumWithout(m: map<Ancestor, nat>, a: Ancestor)
    requires a in m
    ensures SumCounts(m) == m[a] + SumCounts(m - {a})
    decreases |m|
  {
    var b :| b in m && SumCounts(m) == m[b] + SumCounts(m - {b});
    if b != a {
      SumWithout(m - {b}, a);
      SumWithout(m - {a}, b);
      assert m - {b} - {a} == m - {a} - {b};
    }
  }

  ghost predicate NoneWraps(total: multiset<Ancestor>) {
    forall a :: total[a] < UINT_LIMIT
  }

  /** The counters add up to the true total exactly when none has wrapped around. */
  lemma {:induction false} SumIsTotal(m: map<Ancestor, nat>, total: multiset<Ancestor>)
    requires Counts(m, total)
    ensures SumCounts(m) <= |total|
    ensures SumCounts(m) == |total| <==> NoneWraps(total)
    decreases |m|
  {
    if m == map[] {
      assert total == multiset{} by {
        forall a
          ensures a !in total
        {
          assert a !in m;
        }
      }
    } else {
      var a :| a in m;
      SumWithout(m, a);
      CountsWithout(m, total, a);
      SumIsTotal(m - {a}, total[a := 0]);
      hide Counts, SumCounts;
      Wrapped(total[a]);
    }
  }

  lemma Wrapped(n: nat)
    ensures n % UINT_LIMIT <= n && (n % UINT_LIMIT == n <==> n < UINT_LIMIT)
  {}

  lemma CountsWithout(m: map<Ancestor, nat>, total: multiset<Ancestor>, a: Ancestor)
    requires Counts(m, total) && a in m
    ensures Counts(m - {a}, total[a := 0]) && |total| == total[a] + |total[a := 0]|
    ensures NoneWraps(total) <==> total[a] < UINT_LIMIT && NoneWraps(total[a := 0])
  {
    var less := total[a := 0];
    assert forall b | b != a :: less[b] == total[b];
  }

  lemma SumNone()
    ensures SumCounts(map[]) == 0
  {}

  /** Adds up the counters in an unsigned 64-bit variable. */
  method GetFullAncestry(m: map<Ancestor, nat>) returns (count: nat)
    ensures count == SumCounts(m) % SIZE_LIMIT
  {
    hide SumCounts;
    count := 0;
    var left := m;
    SumNone();
    while left != map[]
      invariant count < SIZE_LIMIT && (count + SumCounts(left)) % SIZE_LIMIT == SumCounts(m) % SIZE_LIMIT
      decreases |left|
    {
      var a :| a in left;
      SumWithout(left, a);
      WrapStep(count, left[a], SumCounts(left - {a}));
      count := (count + left[a]) % SIZE_LIMIT;
      left := left - {a};
    }
  }

  lemma WrapStep(x: nat, y: nat, z: nat)
    ensures ((x + y) % SIZE_LIMIT + z) % SIZE_LIMIT == (x + (y + z)) % SIZE_LIMIT
  {}

  /** No ancestor of the transaction can be reached in 2^32 ways or more, nor are there 2^64 ways in all. */
  ghost predicate FiguresFit(db: Db, start: Hash)
    requires WellFounded(db)
  {
    (forall a :: Ways(db, start, a) < UINT_LIMIT) && Weight(db, start) < SIZE_LIMIT
  }

  /** The full-ancestry figure is the number of ways if and only if neither a counter nor their sum wraps. */
  lemma FullAncestryExact(db: Db, start: Hash, m: map<Ancestor, nat>, total: multiset<Ancestor>)
    requires WellFounded(db) && Counts(m, total) && |total| == Weight(db, start)
    requires forall a :: total[a] == Ways(db, start, a)
    ensures SumCounts(m) % SIZE_LIMIT == Weight(db, start) <==> FiguresFit(db, start)
  {
    hide Ways, Weight, WellFounded, SumCounts;
    SumIsTotal(m, total);
    if NoneWraps(total) {
      forall a
        ensures Ways(db, start, a) < UINT_LIMIT
      {
        assert total[a] < UINT_LIMIT;
      }
    }
  }
}
