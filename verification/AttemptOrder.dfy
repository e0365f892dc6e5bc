/**
 The order in which `reconcile_attempts` lists what survives, and the outcome it draws from it
 (interface/geak_trace_reconcile.py, lines 291-331), told from the records.
 */
module AttemptOrder {
  import opened Wrappers
  import opened Sorting
  import opened Sequences
  import opened Reconcile
  import opened Attempts
  import opened AttemptLaws

  /** Every record says where in the sequence it belongs, and no two say the same. */
  ghost predicate Placed(s: seq<Attempt>) {
    && (forall i :: 0 <= i < |s| ==> s[i].seqNo.Some?)
    && (forall i, j :: 0 <= i < j < |s| ==> s[i].seqNo != s[j].seqNo)
  }

  /** Some record of `x` comes before every record of `y`. */
  ghost predicate Sooner(all: seq<Id>, x: Id, y: Id) {
    exists p :: 0 <= p < |all| && all[p] == x && y !in all[..p + 1]
  }

  // ---- first seen, first listed ------------------------------------------------------------------------

  lemma {:induction false} SoonerMore(all: seq<Id>, last: Id, x: Id, y: Id)
    requires Sooner(all, x, y)
    ensures Sooner(all + [last], x, y)
  {
    var p :| 0 <= p < |all| && all[p] == x && y !in all[..p + 1];
    assert (all + [last])[..p + 1] == all[..p + 1] && (all + [last])[p] == x;
  }

  lemma {:induction false} SoonerThanNew(all: seq<Id>, last: Id, x: Id)
    requires x in all && last !in all
    ensures Sooner(all + [last], x, last)
  {
    var p :| 0 <= p < |all| && all[p] == x;
    assert (all + [last])[..p + 1] == all[..p + 1];
    assert (all + [last])[p] == x;
  }

  lemma {:induction false} FirstSeenInOrder(all: seq<Id>, a: nat, b: nat)
    requires a < b < |FirstSeen(all)|
    ensures Sooner(all, FirstSeen(all)[a], FirstSeen(all)[b])
  {
    var front, last := all[..|all| - 1], all[|all| - 1];
    var f := FirstSeen(front);
    FrontLast(all);
    if b < |f| {
      FirstSeenInOrder(front, a, b);
      SoonerMore(front, last, f[a], f[b]);
    } else {
      FirstSeenElements(front, f[a]);
      SoonerThanNew(front, last, f[a]);
    }
  }

  /** The records listed are those of some of the ids, in their order. */
  ghost predicate Follows(ids: seq<Id>, x: Id, y: Id) { exists a, b :: At(ids, x, y, a, b) }

  ghost predicate At(ids: seq<Id>, x: Id, y: Id, a: int, b: int) {
    0 <= a < b < |ids| && ids[a] == x && ids[b] == y
  }

  lemma {:induction false} ListingInOrder(all: seq<Attempt>, ids: seq<Id>, i: nat, j: nat)
    requires i < j < |Listing(all, ids)|
    ensures Follows(ids, Listing(all, ids)[i].id, Listing(all, ids)[j].id)
  {
    var n := |ids| - 1;
    var r, front := Listing(all, ids), Listing(all, ids[..n]);
    if j < |front| {
      ListingInOrder(all, ids[..n], i, j);
      var a, b :| At(ids[..n], front[i].id, front[j].id, a, b);
      assert At(ids, r[i].id, r[j].id, a, b);
    } else {
      LastOfFinds(all, ids[n]);
      ListingIds(all, ids[..n]);
      assert Ids(front)[i] in ids[..n];
      var a :| 0 <= a < n && ids[..n][a] == front[i].id;
      assert At(ids, r[i].id, r[j].id, a, n);
    }
  }

  lemma {:induction false} SurvivorsInOrder(spawn: Id, prev: seq<Attempt>, latest: seq<Attempt>, i: nat, j: nat)
    requires i < j < |Surviving(spawn, prev, latest)|
    ensures var r := Surviving(spawn, prev, latest);
            Sooner(Ids(latest + prev), r[i].id, r[j].id)
  {
    var all, ids := latest + prev, FirstSeen(Ids(latest + prev));
    SurvivingIsListing(spawn, prev, latest);
    ListingInOrder(all, ids, i, j);
    var r := Surviving(spawn, prev, latest);
    var a, b :| At(ids, r[i].id, r[j].id, a, b);
    FirstSeenInOrder(Ids(all), a, b);
  }

  // ---- what is decided ------------------------------------------------------------------------------------

  lemma {:induction false} PlacedIff(merged: seq<Attempt>)
    ensures Placed(merged) <==> |Ordered(merged)| == |merged| && DistinctSeqs(merged)
  {
    if forall a :: a in merged ==> a.seqNo.Some? {
      assert forall i :: 0 <= i < |merged| ==> merged[i] in merged;
    }
  }

  lemma {:induction false} SortedIsStrict(merged: seq<Attempt>)
    requires Placed(merged)
    ensures var r := Sort(merged, SeqLe);
            forall i, j :: 0 <= i < j < |r| ==>
              r[i].seqNo.Some? && r[j].seqNo.Some? && r[i].seqNo.value < r[j].seqNo.value
  {
    SeqLeRanks();
    SortSorts(merged, SeqLe);
    SortPermutes(merged, SeqLe);
    PlacedIff(merged);
    SeqsStayDistinct(merged, Sort(merged, SeqLe));
    var r := Sort(merged, SeqLe);
    forall i, j | 0 <= i < j < |r|
      ensures r[i].seqNo.Some? && r[j].seqNo.Some? && r[i].seqNo.value < r[j].seqNo.value
    {
      assert SeqLe(r[i], r[j]) && r[i] in r && r[j] in r;
      assert r[i] in merged && r[j] in merged;
    }
  }

  lemma {:induction false} DecideIs(merged: seq<Attempt>)
    ensures Decide(merged).0 == if Placed(merged) && merged != [] then Sort(merged, SeqLe) else merged
    ensures var r := Decide(merged).0;
            Decide(merged).1 == if r != [] && (|r| == 1 || Placed(merged)) then r[|r| - 1].status else "unknown"
  {
    PlacedIff(merged);
    SortPermutes(merged, SeqLe);
    if |merged| == 1 { assert Ordered(merged[1..]) == []; }
  }

  lemma {:induction false} PlacedPermutes(a: seq<Attempt>, b: seq<Attempt>)
    requires multiset(a) == multiset(b) && Placed(a)
    ensures Placed(b)
  {
    PlacedIff(a);
    SeqsStayDistinct(a, b);
    forall i | 0 <= i < |b| ensures b[i].seqNo.Some? {
      assert b[i] in multiset(a);
    }
  }

  /**
   If every surviving attempt has its own place in the sequence, they are listed in that sequence; otherwise in the
   order in which the records first name them, the latest read before the earlier captures.
   */
  lemma {:induction false} MergedInOrder(spawn: Id, prev: seq<Attempt>, latest: seq<Attempt>, i: nat, j: nat)
    requires i < j < |Reconciliation(spawn, prev, latest).merged|
    ensures var r := Reconciliation(spawn, prev, latest).merged;
            if Placed(r) then r[i].seqNo.value < r[j].seqNo.value
            else Sooner(Ids(latest + prev), r[i].id, r[j].id)
  {
    var merged := Surviving(spawn, prev, latest);
    DecideIs(merged);
    DecidePermutes(merged);
    if Placed(merged) {
      SortedIsStrict(merged);
      PlacedPermutes(merged, Decide(merged).0);
    } else {
      SurvivorsInOrder(spawn, prev, latest, i, j);
    }
  }

  /** The outcome is that of the attempt listed last, where one may be stated. */
  lemma {:induction false} OutcomeIs(spawn: Id, prev: seq<Attempt>, latest: seq<Attempt>)
    ensures var v := Reconciliation(spawn, prev, latest);
            v.outcome == if exists id :: Contradicted(latest + prev, id) then "conflicted"
                         else if v.merged != [] && (|v.merged| == 1 || Placed(v.merged))
                         then v.merged[|v.merged| - 1].status
                         else "unknown"
  {
    var v, merged := Reconciliation(spawn, prev, latest), Surviving(spawn, prev, latest);
    DecideIs(merged);
    DecidePermutes(merged);
    if Placed(merged) { PlacedPermutes(merged, v.merged); }
    NoAttemptLost(spawn, prev, latest);
    if id :| Contradicted(latest + prev, id) { assert Key(spawn, id) in v.conflicted; }
    if v.conflicted != {} {
      var k :| k in v.conflicted;
      assert Contradicted(latest + prev, k.attempt);
    }
  }

  /** What contradicts: two records of one attempt that differ in status, in result or in error. */
  lemma {:induction false} ContradictedMeans(all: seq<Attempt>, id: Id)
    ensures Contradicted(all, id) <==>
            exists i, j :: 0 <= i < |all| && 0 <= j < |all| && all[i].id == id && all[j].id == id
                           && (all[i].status != all[j].status || all[i].resultRef != all[j].resultRef
                               || all[i].error != all[j].error)
  {
    if a, b :| a in all && b in all && a.id == id && b.id == id && !SameOutcome(a, b) {
      var i :| 0 <= i < |all| && all[i] == a;
      var j :| 0 <= j < |all| && all[j] == b;
    }
    if i, j :| 0 <= i < |all| && 0 <= j < |all| && all[i].id == id && all[j].id == id
               && (all[i].status != all[j].status || all[i].resultRef != all[j].resultRef
                   || all[i].error != all[j].error)
    {
      assert all[i] in all && all[j] in all && !SameOutcome(all[i], all[j]);
    }
  }
}
