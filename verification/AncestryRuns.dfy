/** Whole sessions of the ancestry tool, and what its two directions have in common. */
module AncestryRuns {
  import opened Ancestry
  import opened AncestrySpec
  import opened Crypto
  import opened RingGraph
  import opened WorkList
  import opened Wrappers

  /** One invocation of the tool on the saved state. */
  datatype Run = Forward(opt: Options, stop: nat -> bool) | Backward(opt: Options, start: Hash, stop: nat -> bool)

  /** Any sequence of runs, stopped anywhere and with any flags, keeps the state consistent. */
  method RunAll(s: AncestryState, db: Db, runs: seq<Run>)
    requires WellFounded(db) && s.Consistent(db)
    modifies s
    ensures s.Consistent(db) && Grew(old(s.ancestry), s.ancestry)
  {
    hide Grew, WellFounded, AncestryState.Consistent;
    GrewSelf(s.ancestry);
    for i := 0 to |runs|
      invariant s.Consistent(db) && Grew(old(s.ancestry), s.ancestry)
    {
      ghost var before := s.ancestry;
      match runs[i] {
        case Forward(opt, stop) =>
          var ok := s.Refresh(db, opt, stop);
        case Backward(opt, start, stop) =>
          var outcome, counts, dequeued, total := s.Query(db, start, opt, stop);
      }
      GrewAgain(old(s.ancestry), before, s.ancestry);
    }
  }

  /** A state reached by one uninterrupted refresh or by any sequence of runs holds the same ancestry,
      once it is complete. */
  lemma CompleteMeansClosure(s: AncestryState, db: Db, txid: Hash)
    requires WellFounded(db) && s.Sound(db) && s.CompleteTo(db, |db.blocks|)
    ensures Known(s.ancestry, txid) == Closure(db, txid)
  {
    hide Closure, OrderTo, FoundAll;
    SoundAt(db, s.ancestry, txid);
    if Rank(db, txid) == 0 {
      NoMembers(db, txid);
    } else {
      assert txid in Order(db);
    }
  }

  /** Two completed states agree. */
  lemma CompletedAgree(s1: AncestryState, s2: AncestryState, db: Db, txid: Hash)
    requires WellFounded(db) && s1.Sound(db) && s1.CompleteTo(db, |db.blocks|)
    requires s2.Sound(db) && s2.CompleteTo(db, |db.blocks|)
    ensures Known(s1.ancestry, txid) == Known(s2.ancestry, txid)
  {
    CompleteMeansClosure(s1, db, txid);
    CompleteMeansClosure(s2, db, txid);
  }

  /** A new state is consistent with any chain. */
  lemma NewConsistent(s: AncestryState, db: Db)
    requires WellFounded(db) && s.height == 0 && s.ancestry == map[]
    requires s.outputCache == map[] && s.txCache == map[] && s.blockCache == []
    ensures s.Consistent(db)
  {
    hide Closure, WellFounded;
  }

  /** Runs of either direction from a new state, stopped and resumed at will and with any flags, followed by a refresh
      to the end, leave the map that one uninterrupted refresh leaves. */
  method ResumeHarmless(db: Db, runs: seq<Run>, last: Options, once: Options)
    returns (resumed: AncestryState, single: AncestryState, done: bool)
    requires WellFounded(db)
    ensures resumed.Consistent(db) && single.Consistent(db)
    ensures done ==> forall txid :: Known(resumed.ancestry, txid) == Known(single.ancestry, txid) == Closure(db, txid)
    ensures (forall h | 0 <= h < |db.blocks| :: BlockFound(db, h, last) && BlockFound(db, h, once)) ==> done
  {
    hide WellFounded, Closure, AncestryState.CachesAgree, SoundMap, CompleteOn, OrderTo, Grew, BlockFound;
    resumed := new AncestryState();
    NewConsistent(resumed, db);
    RunAll(resumed, db, runs);
    var ok := resumed.Refresh(db, last, h => false);
    single := new AncestryState();
    NewConsistent(single, db);
    done := single.Refresh(db, once, h => false);
    done := done && ok;
    if done {
      forall txid
        ensures Known(resumed.ancestry, txid) == Known(single.ancestry, txid) == Closure(db, txid)
      {
        CompleteMeansClosure(resumed, db, txid);
        CompletedAgree(resumed, single, db, txid);
      }
    }
  }

  /** Refreshes to the end of the chain and then asks for one transaction: both directions name the same ancestors. */
  method RefreshThenQuery(s: AncestryState, db: Db, opt: Options, start: Hash)
    returns (done: bool, forward: set<Ancestor>, counts: map<Ancestor, nat>, full: nat)
    requires WellFounded(db) && s.Consistent(db)
    modifies s
    ensures s.Consistent(db)
    ensures done ==> forward == counts.Keys
    ensures done ==> forall a :: a in forward <==> exists p :: IsPath(db, start, p) && p[|p| - 1] == a
    ensures done ==> forall a | a in counts :: counts[a] == Ending(Paths(db, start), a) % UINT_LIMIT
    ensures done ==> (full == |Paths(db, start)| <==> FiguresFit(db, start))
  {
    hide Grew, WellFounded, Closure, Ways, Weight, Paths, Ending, SumCounts, Counts, OrderTo, SoundMap, CompleteOn,
      FiguresFit, AncestryState.CachesAgree;
    forward, counts, full := {}, map[], 0;
    var ok := s.Refresh(db, opt, h => false);
    if !ok {
      return false, forward, counts, full;
    }
    ghost var refreshed := s.ancestry;
    var outcome, dequeued;
    ghost var total;
    outcome, counts, dequeued, total := s.Query(db, start, opt, n => false);
    if outcome != Finished {
      return false, forward, counts, full;
    }
    StaysComplete(db, refreshed, s.ancestry, OrderTo(db, |db.blocks|));
    CompleteMeansClosure(s, db, start);
    forward := Known(s.ancestry, start);
    full := GetFullAncestry(counts);
    FullAncestryExact(db, start, counts, total);
    forall a
      ensures a in forward <==> exists p :: IsPath(db, start, p) && p[|p| - 1] == a
      ensures Ending(Paths(db, start), a) == Ways(db, start, a) && |Paths(db, start)| == Weight(db, start)
    {
      ClosureIsPaths(db, start, a);
      PathsCounted(db, start, a);
    }
    assert |Paths(db, start)| == Weight(db, start) by {
      PathsCounted(db, start, Ancestor(0, 0));
    }
    done := true;
  }
}
