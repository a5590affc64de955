/** What the ancestry map may and must hold, and why the forward pass keeps it so. */
module AncestrySpec {
  import opened Crypto
  import opened RingGraph
  import opened Wrappers

  function Known(m: map<Hash, set<Ancestor>>, txid: Hash): set<Ancestor> {
    if txid in m then m[txid] else {}
  }

  /** The map never names an ancestor that is none. */
  ghost predicate SoundMap(db: Db, m: map<Hash, set<Ancestor>>)
    requires WellFounded(db)
  {
    forall txid :: Known(m, txid) <= Closure(db, txid)
  }

  /** The transaction and the creators of its ring members are in the database. */
  ghost predicate FoundAll(db: Db, txid: Hash) {
    && LookupTx(db, txid).Some?
    && forall i | 0 <= i < |Members(db, txid)| :: LookupCreator(db, Members(db, txid)[i]).Some?
  }

  lemma MemberMissing(db: Db, txid: Hash, m: Ancestor)
    requires m in Members(db, txid) && LookupCreator(db, m).None?
    ensures !FoundAll(db, txid)
  {
    hide LookupCreator, Members;
    var i :| 0 <= i < |Members(db, txid)| && Members(db, txid)[i] == m;
  }

  lemma TxMissing(db: Db, txid: Hash)
    requires LookupTx(db, txid).None?
    ensures !FoundAll(db, txid)
  {}

  /** The listed transactions have been found and have their whole ancestry. */
  ghost predicate CompleteOn(db: Db, m: map<Hash, set<Ancestor>>, done: seq<Hash>)
    requires WellFounded(db)
  {
    forall txid | txid in done :: FoundAll(db, txid) && Known(m, txid) == Closure(db, txid)
  }

  ghost predicate Grew(before: map<Hash, set<Ancestor>>, after: map<Hash, set<Ancestor>>) {
    forall t :: Known(before, t) <= Known(after, t)
  }

  /** Only the entry of txid changed, and it only grew. */
  ghost predicate OnlyGrew(before: map<Hash, set<Ancestor>>, after: map<Hash, set<Ancestor>>, txid: Hash) {
    && (forall t | t != txid :: Known(after, t) == Known(before, t))
    && Known(before, txid) <= Known(after, txid)
  }

  /** The creators of all ring members have their whole ancestry. */
  ghost predicate CreatorsComplete(db: Db, m: map<Hash, set<Ancestor>>, txid: Hash)
    requires WellFounded(db)
  {
    forall i | 0 <= i < |Members(db, txid)| :: CreatorComplete(db, m, Members(db, txid)[i])
  }

  ghost predicate CreatorComplete(db: Db, m: map<Hash, set<Ancestor>>, a: Ancestor)
    requires WellFounded(db)
  {
    LookupCreator(db, a).Some? ==> var c := LookupCreator(db, a).value; Known(m, c) == Closure(db, c)
  }

  ghost predicate IsSuffix(s: seq<Ancestor>, t: seq<Ancestor>) {
    |s| <= |t| && s == t[|t| - |s|..]
  }

  /** The members before rest have been found, and what is not yet known of txid's ancestry comes from rest. */
  ghost predicate Collected(db: Db, before: map<Hash, set<Ancestor>>, now: map<Hash, set<Ancestor>>, txid: Hash,
                            rest: seq<Ancestor>)
    requires WellFounded(db)
  {
    && IsSuffix(rest, Members(db, txid)) && EarlierCreators(db, txid, rest)
    && (forall i | 0 <= i < |Members(db, txid)| - |rest| :: LookupCreator(db, Members(db, txid)[i]).Some?)
    && (CreatorsComplete(db, before, txid) ==> Closure(db, txid) <= Known(now, txid) + ClosureOf(db, txid, rest))
  }

  /** A complete entry cannot grow further. */
  lemma StaysComplete(db: Db, before: map<Hash, set<Ancestor>>, after: map<Hash, set<Ancestor>>, done: seq<Hash>)
    requires WellFounded(db) && CompleteOn(db, before, done) && Grew(before, after) && SoundMap(db, after)
    ensures CompleteOn(db, after, done)
  {
    hide FoundAll, Closure, Known;
  }

  lemma GrewSelf(m: map<Hash, set<Ancestor>>)
    ensures Grew(m, m)
  {}

  lemma GrewAgain(m1: map<Hash, set<Ancestor>>, m2: map<Hash, set<Ancestor>>, m3: map<Hash, set<Ancestor>>)
    requires Grew(m1, m2) && Grew(m2, m3)
    ensures Grew(m1, m3)
  {}

  lemma GrewMore(m1: map<Hash, set<Ancestor>>, m2: map<Hash, set<Ancestor>>, m3: map<Hash, set<Ancestor>>, txid: Hash)
    requires Grew(m1, m2) && OnlyGrew(m2, m3, txid)
    ensures Grew(m1, m3) && Grew(m2, m3)
  {
    hide Known;
  }

  lemma OrderNext(db: Db, h: nat)
    requires h < |db.blocks| && db.blocks[h].Some?
    ensures OrderTo(db, h + 1) == OrderTo(db, h) + db.blocks[h].value.txHashes
  {}

  /** One more transaction of block h done. */
  lemma CompleteNext(db: Db, before: map<Hash, set<Ancestor>>, after: map<Hash, set<Ancestor>>, done: seq<Hash>,
                     txid: Hash, h: nat, b: Block, k: nat)
    requires WellFounded(db) && SoundMap(db, before) && SoundMap(db, after)
    requires CompleteOn(db, before, done) && CompleteOn(db, after, done)
    requires h < |db.blocks| && db.blocks[h] == Some(b) && k < |b.txHashes| && txid == b.txHashes[k]
    requires done == OrderTo(db, h) + b.txHashes[..k]
    requires FoundAll(db, txid) && (CreatorsComplete(db, before, txid) ==> Known(after, txid) == Closure(db, txid))
    ensures done + [txid] == OrderTo(db, h) + b.txHashes[..k + 1]
    ensures CompleteOn(db, after, done + [txid])
  {
    hide FoundAll, Closure, Known, SoundMap, WellFounded, CreatorsComplete;
    OrderNext(db, h);
    assert done + [txid] <= OrderTo(db, h + 1);
    OrderPrefix(db, h + 1, |db.blocks|);
    CreatorsDone(db, before, done, txid);
  }

  lemma {:induction false} OrderPrefix(db: Db, h: nat, n: nat)
    requires h <= n <= |db.blocks|
    ensures OrderTo(db, h) <= OrderTo(db, n)
  {
    if h < n {
      OrderPrefix(db, h, n - 1);
    }
  }

  lemma NotBefore(s: seq<Hash>, t: Hash, i: nat)
    requires i < |s| && s[i] == t
    ensures 0 < FirstIndex(s, t) <= i + 1
  {
    var r := FirstIndex(s, t);
    assert forall j | 0 <= j < r - 1 :: s[..r - 1][j] == s[j];
  }

  /** What precedes a transaction of a prefix of the chain is in the prefix. */
  lemma BeforeInPrefix(s: seq<Hash>, done: seq<Hash>, t: Hash, c: Hash)
    requires done <= s && t in done && 0 < FirstIndex(s, c) < FirstIndex(s, t)
    ensures c in done
  {
    var i :| 0 <= i < |done| && done[i] == t;
    assert s[i] == t;
    var r := FirstIndex(s, t);
    NotBefore(s, t, i);
    assert done[FirstIndex(s, c) - 1] == c;
  }

  lemma {:induction false} NoMembers(db: Db, txid: Hash)
    requires WellFounded(db) && Members(db, txid) == []
    ensures Closure(db, txid) == {}
  {}

  /** When everything before a transaction is complete, so are the creators of its ring members. */
  lemma CreatorsDone(db: Db, m: map<Hash, set<Ancestor>>, done: seq<Hash>, txid: Hash)
    requires WellFounded(db) && SoundMap(db, m) && CompleteOn(db, m, done) && done + [txid] <= Order(db)
    ensures CreatorsComplete(db, m, txid)
  {
    hide LookupCreator, Closure, Order, FoundAll;
    var ms := Members(db, txid);
    forall i | 0 <= i < |ms|
      ensures CreatorComplete(db, m, ms[i])
    {
      if LookupCreator(db, ms[i]).Some? {
        CreatorDone(db, m, done, txid, LookupCreator(db, ms[i]).value);
      }
    }
  }

  lemma CreatorDone(db: Db, m: map<Hash, set<Ancestor>>, done: seq<Hash>, txid: Hash, c: Hash)
    requires WellFounded(db) && SoundMap(db, m) && CompleteOn(db, m, done) && done + [txid] <= Order(db)
    requires Rank(db, c) < Rank(db, txid)
    ensures Known(m, c) == Closure(db, c)
  {
    hide LookupCreator, Closure, Order, FoundAll, FirstIndex;
    if Rank(db, c) == 0 {
      NoMembers(db, c);
      assert Known(m, c) <= Closure(db, c);
    } else {
      BeforeInPrefix(Order(db), done + [txid], txid, c);
      assert c != txid;
      assert c in done;
    }
  }

  lemma {:induction false} MemberClosure(db: Db, txid: Hash, m: Ancestor)
    requires WellFounded(db) && m in Members(db, txid)
    ensures m in Closure(db, txid)
    ensures LookupCreator(db, m).Some? ==> Closure(db, LookupCreator(db, m).value) <= Closure(db, txid)
  {
    hide LookupCreator, Rank;
    MemberClosureOf(db, txid, Members(db, txid), m);
  }

  lemma {:induction false} MemberClosureOf(db: Db, txid: Hash, ms: seq<Ancestor>, m: Ancestor)
    requires WellFounded(db) && EarlierCreators(db, txid, ms) && m in ms
    ensures m in ClosureOf(db, txid, ms)
    ensures LookupCreator(db, m).Some? ==> Closure(db, LookupCreator(db, m).value) <= ClosureOf(db, txid, ms)
    decreases |ms|
  {
    hide LookupCreator, Rank, Closure;
    if m != ms[0] {
      MemberClosureOf(db, txid, ms[1..], m);
    }
  }

  lemma SoundAt(db: Db, m: map<Hash, set<Ancestor>>, txid: Hash)
    requires WellFounded(db) && SoundMap(db, m)
    ensures Known(m, txid) <= Closure(db, txid)
  {}

  lemma SoundAdd(db: Db, m: map<Hash, set<Ancestor>>, txid: Hash, s: set<Ancestor>)
    requires WellFounded(db) && SoundMap(db, m) && s <= Closure(db, txid)
    ensures SoundMap(db, m[txid := Known(m, txid) + s]) && OnlyGrew(m, m[txid := Known(m, txid) + s], txid)
  {
    hide Closure;
  }

  lemma GrewNot(m: map<Hash, set<Ancestor>>, txid: Hash)
    ensures OnlyGrew(m, m, txid)
  {}

  lemma GrewOn(m1: map<Hash, set<Ancestor>>, m2: map<Hash, set<Ancestor>>, m3: map<Hash, set<Ancestor>>, txid: Hash)
    requires OnlyGrew(m1, m2, txid) && OnlyGrew(m2, m3, txid)
    ensures OnlyGrew(m1, m3, txid)
  {}

  lemma GrewTwice(m: map<Hash, set<Ancestor>>, txid: Hash, s: set<Ancestor>, c: Hash)
    ensures var m2 := m[txid := Known(m, txid) + s]; var m3 := m2[txid := Known(m2, txid) + Known(m2, c)];
      OnlyGrew(m, m3, txid) && s + Known(m, c) <= Known(m3, txid)
  {}

  lemma ClosureStart(db: Db, m: map<Hash, set<Ancestor>>, txid: Hash)
    requires WellFounded(db)
    ensures Collected(db, m, m, txid, Members(db, txid))
  {}

  lemma ClosureDone(db: Db, before: map<Hash, set<Ancestor>>, now: map<Hash, set<Ancestor>>, txid: Hash)
    requires WellFounded(db) && SoundMap(db, now) && LookupTx(db, txid).Some? && Collected(db, before, now, txid, [])
    ensures FoundAll(db, txid)
    ensures CreatorsComplete(db, before, txid) ==> Known(now, txid) == Closure(db, txid)
  {
    hide Closure, CreatorsComplete, LookupCreator, EarlierCreators;
    assert Known(now, txid) <= Closure(db, txid);
  }

  lemma CoinbaseDone(db: Db, before: map<Hash, set<Ancestor>>, now: map<Hash, set<Ancestor>>, txid: Hash)
    requires WellFounded(db) && SoundMap(db, now) && LookupTx(db, txid).Some? && Members(db, txid) == []
    ensures FoundAll(db, txid) && Known(now, txid) == Closure(db, txid)
  {
    hide LookupCreator, Rank;
    assert Known(now, txid) <= Closure(db, txid);
  }

  lemma FlattenNext(vin: seq<(nat, seq<nat>)>, i: nat)
    requires i < |vin|
    ensures Flatten(vin[i..]) == RingMembers(vin[i].0, vin[i].1) + Flatten(vin[i + 1..])
  {
    assert vin[i..][1..] == vin[i + 1..];
  }

  lemma RingStart(amount: nat, offsets: seq<nat>, later: seq<Ancestor>)
    ensures RingMembers(amount, offsets[0..]) == RingMembers(amount, offsets)
    ensures RingMembers(amount, offsets[|offsets|..]) + later == later
  {
    assert offsets[0..] == offsets;
  }

  lemma RingNext(amount: nat, offsets: seq<nat>, later: seq<Ancestor>, j: nat)
    requires j < |offsets|
    ensures var rest := RingMembers(amount, offsets[j..]) + later;
      && rest != [] && rest[0] == Ancestor(amount, offsets[j])
      && rest[1..] == RingMembers(amount, offsets[j + 1..]) + later
  {}

  lemma SuffixMember(db: Db, txid: Hash, rest: seq<Ancestor>)
    requires rest != [] && IsSuffix(rest, Members(db, txid))
    ensures rest[0] in Members(db, txid) && IsSuffix(rest[1..], Members(db, txid))
  {
    var ms := Members(db, txid);
    assert rest[0] == ms[|ms| - |rest|];
  }

  lemma CollectMember(db: Db, before: map<Hash, set<Ancestor>>, now: map<Hash, set<Ancestor>>, txid: Hash,
                      rest: seq<Ancestor>)
    requires WellFounded(db) && rest != [] && Collected(db, before, now, txid, rest)
    ensures rest[0] in Members(db, txid)
  {
    hide Closure, CreatorsComplete, LookupCreator, EarlierCreators;
    SuffixMember(db, txid, rest);
  }

  lemma CollectNext(db: Db, before: map<Hash, set<Ancestor>>, now: map<Hash, set<Ancestor>>,
                    after: map<Hash, set<Ancestor>>, txid: Hash, rest: seq<Ancestor>)
    requires WellFounded(db) && rest != [] && Collected(db, before, now, txid, rest)
    requires OnlyGrew(before, now, txid) && OnlyGrew(now, after, txid)
    requires LookupCreator(db, rest[0]).Some? &&
        {rest[0]} + Known(now, LookupCreator(db, rest[0]).value) <= Known(after, txid)
    ensures Collected(db, before, after, txid, rest[1..]) && OnlyGrew(before, after, txid)
  {
    hide LookupCreator, Rank, Closure;
    SuffixMember(db, txid, rest);
    var ms, c := Members(db, txid), LookupCreator(db, rest[0]).value;
    assert ms[|ms| - |rest|] == rest[0];
    if CreatorsComplete(db, before, txid) {
      assert CreatorComplete(db, before, ms[|ms| - |rest|]);
      EarlierThan(db, txid, rest);
      assert c != txid;
      assert Closure(db, c) <= Known(after, txid);
    }
  }

  lemma EarlierThan(db: Db, txid: Hash, ms: seq<Ancestor>)
    requires ms != [] && EarlierCreators(db, txid, ms) && LookupCreator(db, ms[0]).Some?
    ensures Rank(db, LookupCreator(db, ms[0]).value) < Rank(db, txid)
  {}
}
