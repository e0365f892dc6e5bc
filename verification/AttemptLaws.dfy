/** What `reconcile_attempts` guarantees, for every pair of attempt lists. */
module AttemptLaws {
  import opened Wrappers
  import opened Sorting
  import opened Sequences
  import opened Reconcile
  import opened Attempts

  // ---- nothing is lost -------------------------------------------------------------

  lemma {:induction false} DecidePermutes(merged: seq<Attempt>)
    ensures multiset(Decide(merged).0) == multiset(merged)
    ensures |Decide(merged).0| == |merged|
    ensures forall m :: m in Decide(merged).0 <==> m in merged
  {
    SortPermutes(merged, SeqLe);
  }

  lemma {:induction false} SameMultisetDistinctIds(a: seq<Attempt>, b: seq<Attempt>)
    requires multiset(a) == multiset(b) && DistinctIds(a)
    ensures DistinctIds(b)
  {
    assert Distinct(a);
    forall x ensures multiset(b)[x] <= 1 { DistinctMultiset(a, x); }
    MultisetDistinct(b);
    forall i, j | 0 <= i < j < |b| ensures b[i].id != b[j].id {
      assert b[i] in multiset(a) && b[j] in multiset(a);
      var i' :| 0 <= i' < |a| && a[i'] == b[i];
      var j' :| 0 <= j' < |a| && a[j'] == b[j];
      assert i' != j';
    }
  }

  /**
   Every attempt id ends up in exactly one place. An id two of whose records disagree on
   status, result or error is conflicted; any other id has one record in the listing,
   and that record is its last earlier capture if there is one, else its last new capture.
   */
  lemma {:induction false} NoAttemptLost(spawn: Id, prev: seq<Attempt>, latest: seq<Attempt>)
    ensures var v, all := Reconciliation(spawn, prev, latest), latest + prev;
            && DistinctIds(v.merged)
            && (forall m :: m in v.merged <==> LastOf(all, m.id) == Some(m) && !Contradicted(all, m.id))
            && (forall k :: k in v.conflicted <==> k.spawn == spawn && Contradicted(all, k.attempt))
  {
    var s := Folded(spawn, prev, latest);
    Survivors(spawn, prev, latest);
    DecidePermutes(Surviving(spawn, prev, latest));
    SameMultisetDistinctIds(Surviving(spawn, prev, latest), Decide(Surviving(spawn, prev, latest)).0);
    RunInvariant(Get, AllOps(spawn, prev, latest));
    var v := Reconciliation(spawn, prev, latest);
    forall k ensures k in v.conflicted <==> k.spawn == spawn && Contradicted(latest + prev, k.attempt) {
      ConflictedIffContradicted(spawn, prev, latest, k.attempt);
      if k in s.items { KeysCarrySpawn(spawn, prev, latest, k); }
    }
  }

  // ---- when an outcome may be stated -------------------------------------------------

  ghost predicate Decisive(merged: seq<Attempt>) {
    || |merged| == 1
    || (merged != [] && DistinctSeqs(merged) && forall a :: a in merged ==> a.seqNo.Some?)
  }

  /** `m` comes strictly after every other record. */
  ghost predicate Final(m: Attempt, merged: seq<Attempt>) {
    m in merged && forall x :: x in merged ==> x == m || SeqOf(x) < SeqOf(m)
  }

  lemma {:induction false} SeqLeRanks()
    ensures Ranking(SeqLe)
  {
  }

  lemma {:induction false} SeqsStayDistinct(a: seq<Attempt>, b: seq<Attempt>)
    requires multiset(a) == multiset(b) && DistinctSeqs(a)
    ensures DistinctSeqs(b)
  {
    assert Distinct(a);
    forall x ensures multiset(b)[x] <= 1 { DistinctMultiset(a, x); }
    MultisetDistinct(b);
    forall i, j | 0 <= i < j < |b| ensures SeqOf(b[i]) != SeqOf(b[j]) {
      assert b[i] in multiset(a) && b[j] in multiset(a);
      var i' :| 0 <= i' < |a| && a[i'] == b[i];
      var j' :| 0 <= j' < |a| && a[j'] == b[j];
      assert i' != j';
    }
  }

  lemma {:induction false} SortedLastIsFinal(merged: seq<Attempt>)
    requires merged != [] && DistinctSeqs(merged)
    ensures |Sort(merged, SeqLe)| == |merged|
    ensures Final(Sort(merged, SeqLe)[|merged| - 1], merged)
  {
    SeqLeRanks();
    SortSorts(merged, SeqLe);
    SortPermutes(merged, SeqLe);
    var t := Sort(merged, SeqLe);
    SeqsStayDistinct(merged, t);
    var n := |merged| - 1;
    forall x | x in merged ensures x == t[n] || SeqOf(x) < SeqOf(t[n]) {
      assert x in t;
      var i :| 0 <= i < |t| && t[i] == x;
      if i < n { assert SeqLe(t[i], t[n]); }
    }
  }

  lemma {:induction false} DecideOutcome(merged: seq<Attempt>)
    ensures Decisive(merged) ==> exists m :: Final(m, merged) && Decide(merged).1 == m.status
    ensures !Decisive(merged) ==> Decide(merged).1 == "unknown"
  {
    var ordered := Ordered(merged);
    if ordered != [] && |ordered| == |merged| && DistinctSeqs(ordered) {
      SortedLastIsFinal(merged);
    } else if |merged| == 1 {
      assert Final(merged[0], merged);
      assert |ordered| <= 1;
    }
  }

  lemma {:induction false} DecisivePermutes(a: seq<Attempt>, b: seq<Attempt>)
    requires multiset(a) == multiset(b)
    ensures Decisive(a) <==> Decisive(b)
    ensures forall m :: Final(m, a) <==> Final(m, b)
  {
    assert |multiset(a)| == |a| && |multiset(b)| == |b|;
    assert forall x :: x in a <==> x in multiset(a);
    assert forall x :: x in b <==> x in multiset(b);
    if DistinctSeqs(a) { SeqsStayDistinct(a, b); }
    if DistinctSeqs(b) { SeqsStayDistinct(b, a); }
  }

  /**
   A concrete status is reported only when nothing is contradicted and either a single attempt
   survives or every survivor carries a sequence number and all of them differ; then it is the
   status of the one that comes last. Anything else is "conflicted" or "unknown".
   */
  lemma {:induction false} OutcomeIsEarned(spawn: Id, prev: seq<Attempt>, latest: seq<Attempt>)
    ensures var v := Reconciliation(spawn, prev, latest);
            && (v.conflicted != {} ==> v.outcome == "conflicted")
            && (v.conflicted == {} && !Decisive(v.merged) ==> v.outcome == "unknown")
            && (v.conflicted == {} && Decisive(v.merged) ==>
                  exists m :: Final(m, v.merged) && v.outcome == m.status)
  {
    Survivors(spawn, prev, latest);
    var r := Surviving(spawn, prev, latest);
    DecideOutcome(r);
    DecidePermutes(r);
    DecisivePermutes(r, Decide(r).0);
  }

  // ---- arrival order -----------------------------------------------------------------

  ghost predicate SameVerdict(v: Verdict, w: Verdict) {
    multiset(v.merged) == multiset(w.merged) && v.outcome == w.outcome && v.conflicted == w.conflicted
  }

  ghost predicate OrderFree(spawn: Id, prev: seq<Attempt>, latest: seq<Attempt>) {
    forall p, l :: multiset(p) == multiset(prev) && multiset(l) == multiset(latest) ==>
      SameVerdict(Reconciliation(spawn, p, l), Reconciliation(spawn, prev, latest))
  }

  ghost predicate Holds(s: seq<Attempt>, id: Id) { exists a :: a in s && a.id == id }

  /** Records of `id` that the fold would let speak for it, depending on their order. */
  ghost predicate Candidate(prev: seq<Attempt>, latest: seq<Attempt>, a: Attempt) {
    a in prev || (a in latest && !Holds(prev, a.id))
  }

  /** Nothing hangs on order: rival candidates for one uncontradicted id are identical. */
  ghost predicate Unambiguous(prev: seq<Attempt>, latest: seq<Attempt>) {
    forall a, b ::
      (Candidate(prev, latest, a) && Candidate(prev, latest, b) && a.id == b.id
       && !Contradicted(latest + prev, a.id)) ==> a == b
  }

  lemma {:induction false} LastOfConcat(a: seq<Attempt>, b: seq<Attempt>, id: Id)
    ensures LastOf(a + b, id) == if LastOf(b, id).Some? then LastOf(b, id) else LastOf(a, id)
  {
    if b == [] {
      assert a + b == a;
    } else {
      LastOfConcat(a, b[..|b| - 1], id);
      assert (a + b)[..|a + b| - 1] == a + b[..|b| - 1];
    }
  }

  lemma {:induction false} LastIsCandidate(prev: seq<Attempt>, latest: seq<Attempt>, id: Id)
    ensures LastOf(latest + prev, id).Some? <==> Holds(latest, id) || Holds(prev, id)
    ensures LastOf(latest + prev, id).Some? ==>
              LastOf(latest + prev, id).value.id == id && Candidate(prev, latest, LastOf(latest + prev, id).value)
  {
    LastOfConcat(latest, prev, id);
    LastOfFinds(prev, id);
    LastOfFinds(latest, id);
  }

  lemma {:induction false} SameRecords(a: seq<Attempt>, b: seq<Attempt>)
    requires multiset(a) == multiset(b)
    ensures forall x :: x in a <==> x in b
  {
    assert forall x :: x in a <==> x in multiset(a);
    assert forall x :: x in b <==> x in multiset(b);
  }

  lemma {:induction false} FinalUnique(m: Attempt, n: Attempt, merged: seq<Attempt>)
    requires Final(m, merged) && Final(n, merged)
    ensures m == n
  {
  }

  lemma {:induction false} UnambiguousIsOrderFree(spawn: Id, prev: seq<Attempt>, latest: seq<Attempt>,
                                                  p: seq<Attempt>, l: seq<Attempt>)
    requires Unambiguous(prev, latest)
    requires multiset(p) == multiset(prev) && multiset(l) == multiset(latest)
    ensures SameVerdict(Reconciliation(spawn, p, l), Reconciliation(spawn, prev, latest))
  {
    var v, w := Reconciliation(spawn, p, l), Reconciliation(spawn, prev, latest);
    SameRecords(p, prev);
    SameRecords(l, latest);
    NoAttemptLost(spawn, p, l);
    NoAttemptLost(spawn, prev, latest);
    assert forall x :: x in l + p <==> x in latest + prev;
    assert forall id :: Contradicted(l + p, id) <==> Contradicted(latest + prev, id);
    forall m ensures m in v.merged <==> m in w.merged {
      LastIsCandidate(p, l, m.id);
      LastIsCandidate(prev, latest, m.id);
      if !Contradicted(latest + prev, m.id) && LastOf(l + p, m.id).Some? {
        assert Candidate(prev, latest, LastOf(l + p, m.id).value);
      }
    }
    SameElementsSameMultiset(v.merged, w.merged);
    assert v.conflicted == w.conflicted;
    SameOutcomeForSameRecords(spawn, p, l, prev, latest);
  }

  lemma {:induction false} SameOutcomeForSameRecords(spawn: Id, p: seq<Attempt>, l: seq<Attempt>, prev: seq<Attempt>,
                                                     latest: seq<Attempt>)
    requires var v, w := Reconciliation(spawn, p, l), Reconciliation(spawn, prev, latest);
             multiset(v.merged) == multiset(w.merged) && v.conflicted == w.conflicted
    ensures Reconciliation(spawn, p, l).outcome == Reconciliation(spawn, prev, latest).outcome
  {
    var v, w := Reconciliation(spawn, p, l), Reconciliation(spawn, prev, latest);
    OutcomeIsEarned(spawn, p, l);
    OutcomeIsEarned(spawn, prev, latest);
    DecisivePermutes(v.merged, w.merged);
    if v.conflicted == {} && Decisive(v.merged) {
      var m :| Final(m, v.merged) && v.outcome == m.status;
      var n :| Final(n, w.merged) && w.outcome == n.status;
      FinalUnique(m, n, w.merged);
    }
  }

  function MovedLast(s: seq<Attempt>, i: nat): seq<Attempt>
    requires i < |s|
  {
    s[..i] + s[i + 1..] + [s[i]]
  }

  lemma {:induction false} MovedLastPermutes(s: seq<Attempt>, i: nat)
    requires i < |s|
    ensures multiset(MovedLast(s, i)) == multiset(s)
    ensures LastOf(MovedLast(s, i), s[i].id) == Some(s[i])
  {
    assert s == s[..i] + [s[i]] + s[i + 1..];
  }

  /** Any candidate can be made to speak for its id by delivering it last. */
  lemma {:induction false} CandidateCanWin(prev: seq<Attempt>, latest: seq<Attempt>, a: Attempt)
    returns (p: seq<Attempt>, l: seq<Attempt>)
    requires Candidate(prev, latest, a)
    ensures multiset(p) == multiset(prev) && multiset(l) == multiset(latest)
    ensures LastOf(l + p, a.id) == Some(a)
  {
    p, l := prev, latest;
    if a in prev {
      var i :| 0 <= i < |prev| && prev[i] == a;
      p := MovedLast(prev, i);
      MovedLastPermutes(prev, i);
    } else {
      var i :| 0 <= i < |latest| && latest[i] == a;
      l := MovedLast(latest, i);
      MovedLastPermutes(latest, i);
      LastOfFinds(p, a.id);
    }
    LastOfConcat(l, p, a.id);
  }

  lemma {:induction false} CandidateListed(spawn: Id, prev: seq<Attempt>, latest: seq<Attempt>, a: Attempt)
    requires OrderFree(spawn, prev, latest) && Candidate(prev, latest, a) && !Contradicted(latest + prev, a.id)
    ensures a in Reconciliation(spawn, prev, latest).merged
  {
    var p, l := CandidateCanWin(prev, latest, a);
    NoAttemptLost(spawn, p, l);
    SameRecords(p, prev);
    SameRecords(l, latest);
    assert forall x :: x in l + p <==> x in latest + prev;
    var v, w := Reconciliation(spawn, p, l), Reconciliation(spawn, prev, latest);
    assert a in v.merged;
    assert SameVerdict(v, w);
    SameRecords(v.merged, w.merged);
  }

  /**
   Arrival order is irrelevant exactly when the records competing to speak for an
   uncontradicted id are identical: two earlier captures of it, or, if there are
   none, two new ones, may not differ in their sequence number.
   */
  lemma {:induction false} OrderFreeIff(spawn: Id, prev: seq<Attempt>, latest: seq<Attempt>)
    ensures OrderFree(spawn, prev, latest) <==> Unambiguous(prev, latest)
  {
    if Unambiguous(prev, latest) {
      forall p, l | multiset(p) == multiset(prev) && multiset(l) == multiset(latest)
        ensures SameVerdict(Reconciliation(spawn, p, l), Reconciliation(spawn, prev, latest))
      {
        UnambiguousIsOrderFree(spawn, prev, latest, p, l);
      }
    }
    if OrderFree(spawn, prev, latest) {
      NoAttemptLost(spawn, prev, latest);
      forall a, b | Candidate(prev, latest, a) && Candidate(prev, latest, b) && a.id == b.id
                    && !Contradicted(latest + prev, a.id)
        ensures a == b
      {
        CandidateListed(spawn, prev, latest, a);
        CandidateListed(spawn, prev, latest, b);
      }
    }
  }

  /** Ids unique within each list are enough. */
  lemma {:induction false} UniqueIdsAreOrderFree(spawn: Id, prev: seq<Attempt>, latest: seq<Attempt>)
    requires DistinctIds(prev) && DistinctIds(latest)
    ensures OrderFree(spawn, prev, latest)
  {
    OrderFreeIff(spawn, prev, latest);
  }

  // ---- a second pass over the first one's output ---------------------------------------

  /** Every contradiction can still be seen in the new captures alone. */
  ghost predicate StillVisible(prev: seq<Attempt>, latest: seq<Attempt>) {
    forall id :: Contradicted(latest + prev, id) ==> Contradicted(latest, id)
  }

  /** The survivors in first-seen order, as the store lists them before they are sorted. */
  ghost function Listing(all: seq<Attempt>, ids: seq<Id>): seq<Attempt> {
    if ids == [] then []
    else
      var front, id := ids[..|ids| - 1], ids[|ids| - 1];
      Listing(all, front)
      + (if LastOf(all, id).Some? && !Contradicted(all, id) then [LastOf(all, id).value] else [])
  }

  function Ids(s: seq<Attempt>): (r: seq<Id>)
    ensures |r| == |s| && forall i :: 0 <= i < |s| ==> r[i] == s[i].id
  {
    seq(|s|, i requires 0 <= i < |s| => s[i].id)
  }

  lemma {:induction false} FirstSeenTagged(spawn: Id, ids: seq<Id>, keys: seq<Key>)
    requires |keys| == |ids| && forall i :: 0 <= i < |ids| ==> keys[i] == Key(spawn, ids[i])
    ensures var k, d := FirstSeen(keys), FirstSeen(ids);
            |k| == |d| && forall i :: 0 <= i < |d| ==> k[i] == Key(spawn, d[i])
  {
    if ids != [] {
      var n := |ids| - 1;
      FirstSeenTagged(spawn, ids[..n], keys[..n]);
      assert keys[n] in keys[..n] <==> ids[n] in ids[..n];
    }
  }

  lemma {:induction false} KeysOfFold(spawn: Id, prev: seq<Attempt>, latest: seq<Attempt>, n: nat)
    requires n <= |latest + prev|
    ensures var keys := KeysOf(Fold(spawn, prev, latest)[..n]);
            |keys| == n && forall i :: 0 <= i < n ==> keys[i] == Key(spawn, (latest + prev)[i].id)
  {
    if n > 0 {
      KeysOfFold(spawn, prev, latest, n - 1);
      assert Fold(spawn, prev, latest)[..n][..n - 1] == Fold(spawn, prev, latest)[..n - 1];
    }
  }

  lemma {:induction false} UsableIsListing(spawn: Id, prev: seq<Attempt>, latest: seq<Attempt>,
                                           keys: seq<Key>, ids: seq<Id>)
    requires |keys| == |ids| && forall i :: 0 <= i < |ids| ==> keys[i] == Key(spawn, ids[i])
    requires forall k :: k in keys ==> k in Folded(spawn, prev, latest).items
    ensures UsableOf(Folded(spawn, prev, latest), keys) == Listing(latest + prev, ids)
  {
    if ids != [] {
      var n := |ids| - 1;
      UsableIsListing(spawn, prev, latest, keys[..n], ids[..n]);
      assert keys[n] in keys;
      HeldAndUsable(spawn, prev, latest, ids[n]);
      UsableLast(Folded(spawn, prev, latest), keys);
    }
  }

  lemma {:induction false} UsableLast(s: Store<Key, Attempt>, keys: seq<Key>)
    requires keys != [] && forall k :: k in keys ==> k in s.items
    ensures var n := |keys| - 1;
            UsableOf(s, keys) == UsableOf(s, keys[..n]) + if s.IsConflicted(keys[n]) then [] else [s.items[keys[n]]]
  {
  }

  /** A key that is held is usable iff uncontradicted, and then holds the last record. */
  lemma {:induction false} HeldAndUsable(spawn: Id, prev: seq<Attempt>, latest: seq<Attempt>, id: Id)
    requires Key(spawn, id) in Folded(spawn, prev, latest).items
    ensures Folded(spawn, prev, latest).IsConflicted(Key(spawn, id)) <==> Contradicted(latest + prev, id)
    ensures LastOf(latest + prev, id).Some?
    ensures !Contradicted(latest + prev, id) ==>
              Folded(spawn, prev, latest).items[Key(spawn, id)] == LastOf(latest + prev, id).value
  {
    ItemIsLast(spawn, prev, latest, id);
    ConflictedIffContradicted(spawn, prev, latest, id);
  }

  lemma {:induction false} SurvivingIsListing(spawn: Id, prev: seq<Attempt>, latest: seq<Attempt>)
    ensures Surviving(spawn, prev, latest) == Listing(latest + prev, FirstSeen(Ids(latest + prev)))
  {
    var s, ops, fold := Folded(spawn, prev, latest), AllOps(spawn, prev, latest), Fold(spawn, prev, latest);
    RunInvariant(Get, ops);
    RunOrder(Get, ops);
    RunKeys(Get, ops);
    assert ops[..|ops| - 1] == fold;
    assert fold[..|latest + prev|] == fold;
    KeysOfFold(spawn, prev, latest, |latest + prev|);
    assert KeysOf(ops) == KeysOf(fold) + [];
    FirstSeenTagged(spawn, Ids(latest + prev), KeysOf(ops));
    forall k | k in s.order ensures k in s.items { assert k in (set x | x in s.order); }
    UsableIsListing(spawn, prev, latest, s.order, FirstSeen(Ids(latest + prev)));
  }

  function NotIn(s: seq<Id>, out: seq<Id>): seq<Id> {
    if s == [] then []
    else NotIn(s[..|s| - 1], out) + (if s[|s| - 1] in out then [] else [s[|s| - 1]])
  }

  lemma {:induction false} FirstSeenMore(s: seq<Id>, x: Id)
    ensures FirstSeen(s + [x]) == FirstSeen(s) + if x in s then [] else [x]
  {
    assert (s + [x])[..|s|] == s;
  }

  lemma {:induction false} NotInMore(s: seq<Id>, x: Id, out: seq<Id>)
    ensures NotIn(s + [x], out) == NotIn(s, out) + if x in out then [] else [x]
  {
    assert (s + [x])[..|s|] == s;
  }

  /** The one value at the end either repeats or is new, and then either is in `a` or not. */
  lemma {:induction false} FirstSeenStep(a: seq<Id>, front: seq<Id>, last: Id)
    requires FirstSeen(a + front) == FirstSeen(a) + NotIn(FirstSeen(front), a)
    ensures FirstSeen(a + front + [last]) == FirstSeen(a) + NotIn(FirstSeen(front + [last]), a)
  {
    FirstSeenMore(a + front, last);
    FirstSeenMore(front, last);
    var f, n := FirstSeen(front), NotIn(FirstSeen(front), a);
    NotInEnd(f, last, a, last in front);
    var more := if last in a || last in front then [] else [last];
    assert last in a + front <==> last in a || last in front;
    Associate(FirstSeen(a), n, more);
  }

  lemma {:induction false} NotInEnd(s: seq<Id>, x: Id, out: seq<Id>, known: bool)
    ensures NotIn(s + (if known then [] else [x]), out) == NotIn(s, out) + if x in out || known then [] else [x]
  {
    if known {
      assert s + [] == s;
    } else {
      NotInMore(s, x, out);
    }
  }

  lemma {:induction false} Associate(a: seq<Id>, b: seq<Id>, c: seq<Id>)
    ensures a + b + c == a + (b + c)
  {
  }

  lemma {:induction false} FirstSeenConcat(a: seq<Id>, b: seq<Id>)
    ensures FirstSeen(a + b) == FirstSeen(a) + NotIn(FirstSeen(b), a)
  {
    if b == [] {
      JoinNothing(a);
      JoinNothing(FirstSeen(a));
    } else {
      var n := |b| - 1;
      FirstSeenConcat(a, b[..n]);
      FirstSeenStep(a, b[..n], b[n]);
      FrontLast(b);
      JoinAssociates(a, b[..n], [b[n]]);
    }
  }

  lemma {:induction false} ListingConcat(all: seq<Attempt>, a: seq<Id>, b: seq<Id>)
    ensures Listing(all, a + b) == Listing(all, a) + Listing(all, b)
  {
    if b == [] {
      assert a + b == a;
    } else {
      ListingConcat(all, a, b[..|b| - 1]);
      assert (a + b)[..|a + b| - 1] == a + b[..|b| - 1];
    }
  }

  lemma {:induction false} FirstSeenDistinct(s: seq<Id>)
    requires Distinct(s)
    ensures FirstSeen(s) == s
  {
    if s != [] {
      FirstSeenDistinct(s[..|s| - 1]);
      assert s[|s| - 1] !in s[..|s| - 1];
    }
  }

  /** Both folds let the same record speak for every id, or neither any. */
  ghost predicate SameVoice(x: seq<Attempt>, y: seq<Attempt>) {
    forall id ::
      && (Contradicted(x, id) <==> Contradicted(y, id))
      && (!Contradicted(x, id) ==> LastOf(x, id) == LastOf(y, id))
  }

  lemma {:induction false} ListingSameVoice(x: seq<Attempt>, y: seq<Attempt>, ids: seq<Id>)
    requires SameVoice(x, y)
    ensures Listing(x, ids) == Listing(y, ids)
  {
    if ids != [] { ListingSameVoice(x, y, ids[..|ids| - 1]); }
  }

  lemma {:induction false} SecondPassVoice(spawn: Id, prev: seq<Attempt>, latest: seq<Attempt>)
    ensures var kept := Reconciliation(spawn, prev, latest).merged;
            && (forall id :: Contradicted(latest + kept, id) <==> Contradicted(latest, id))
            && (StillVisible(prev, latest) ==> SameVoice(latest + prev, latest + kept))
  {
    var kept, all := Reconciliation(spawn, prev, latest).merged, latest + prev;
    NoAttemptLost(spawn, prev, latest);
    forall id ensures Contradicted(latest + kept, id) <==> Contradicted(latest, id) {
      LastOfFinds(all, id);
      if Contradicted(latest + kept, id) {
        var a, b :| a in latest + kept && b in latest + kept && a.id == id && b.id == id && !SameOutcome(a, b);
        assert a in all && b in all by { LastIsMember(all, a, kept); LastIsMember(all, b, kept); }
        assert Contradicted(all, id);
        assert a in latest && b in latest;
      }
    }
    if StillVisible(prev, latest) {
      forall id
        ensures Contradicted(all, id) <==> Contradicted(latest + kept, id)
        ensures !Contradicted(all, id) ==> LastOf(all, id) == LastOf(latest + kept, id)
      {
        if Contradicted(latest, id) { assert Contradicted(all, id); }
        if !Contradicted(all, id) {
          LastOfConcat(latest, kept, id);
          LastOfFinds(kept, id);
          LastOfFinds(latest, id);
          LastOfFinds(all, id);
          if LastOf(all, id).Some? { assert LastOf(all, id).value in kept; }
        }
      }
    }
  }

  lemma {:induction false} LastIsMember(all: seq<Attempt>, m: Attempt, kept: seq<Attempt>)
    ensures m in kept && LastOf(all, m.id) == Some(m) ==> m in all
  {
    LastOfFinds(all, m.id);
  }

  /**
   Feeding the listing back in as the earlier captures, with the same new captures, forgets a
   contradiction exactly when it can no longer be seen in the new captures alone; if none is
   forgotten, the second pass returns the same listing, outcome and conflicts as the first.
   */
  lemma {:induction false} SecondPass(spawn: Id, prev: seq<Attempt>, latest: seq<Attempt>)
    ensures var v := Reconciliation(spawn, prev, latest);
            var w := Reconciliation(spawn, v.merged, latest);
            && (w.conflicted == v.conflicted <==> StillVisible(prev, latest))
            && (StillVisible(prev, latest) ==> w == v)
  {
    var v := Reconciliation(spawn, prev, latest);
    var w := Reconciliation(spawn, v.merged, latest);
    NoAttemptLost(spawn, prev, latest);
    NoAttemptLost(spawn, v.merged, latest);
    SecondPassVoice(spawn, prev, latest);
    if w.conflicted == v.conflicted {
      forall id | Contradicted(latest + prev, id) ensures Contradicted(latest, id) {
        assert Key(spawn, id) in w.conflicted;
      }
    }
    if StillVisible(prev, latest) {
      forall k ensures k in w.conflicted <==> k in v.conflicted {}
      SecondPassListing(spawn, prev, latest);
    }
  }

  lemma {:induction false} SecondPassListing(spawn: Id, prev: seq<Attempt>, latest: seq<Attempt>)
    requires StillVisible(prev, latest)
    ensures var v := Reconciliation(spawn, prev, latest);
            Decide(Surviving(spawn, v.merged, latest)) == Decide(Surviving(spawn, prev, latest))
  {
    var v := Reconciliation(spawn, prev, latest);
    var r, t := Surviving(spawn, prev, latest), Surviving(spawn, v.merged, latest);
    SecondPassVoice(spawn, prev, latest);
    Survivors(spawn, prev, latest);
    Survivors(spawn, v.merged, latest);
    assert forall m :: m in r <==> m in t;
    assert Distinct(r) && Distinct(t);
    SameElementsSameMultiset(r, t);
    if r != [] && Ordered(r) == r && DistinctSeqs(r) {
      SortedDecisionPermutes(r, t);
    } else {
      SecondPassOrder(spawn, prev, latest);
    }
  }

  lemma {:induction false} SortedDecisionPermutes(r: seq<Attempt>, t: seq<Attempt>)
    requires r != [] && Ordered(r) == r && DistinctSeqs(r) && multiset(r) == multiset(t)
    ensures Decide(r) == Decide(t)
  {
    SeqsStayDistinct(r, t);
    assert |multiset(r)| == |r| && |multiset(t)| == |t|;
    SameRecords(r, t);
    assert Ordered(t) == t;
    SeqLeRanks();
    SortCanonical(r, t, SeqLe);
  }

  lemma {:induction false} SecondPassOrder(spawn: Id, prev: seq<Attempt>, latest: seq<Attempt>)
    requires StillVisible(prev, latest)
    requires Reconciliation(spawn, prev, latest).merged == Surviving(spawn, prev, latest)
    ensures var r := Surviving(spawn, prev, latest);
            Surviving(spawn, r, latest) == r
  {
    var r, all := Surviving(spawn, prev, latest), latest + prev;
    SurvivingIsListing(spawn, prev, latest);
    SurvivingIsListing(spawn, r, latest);
    SecondPassVoice(spawn, prev, latest);
    Survivors(spawn, prev, latest);
    IdsConcat(latest, prev);
    IdsConcat(latest, r);
    ListingSameVoice(all, latest + r, FirstSeen(Ids(latest) + Ids(r)));
    RelistingStable(all, Ids(latest), Ids(prev), r);
  }

  lemma {:induction false} IdsConcat(a: seq<Attempt>, b: seq<Attempt>)
    ensures Ids(a + b) == Ids(a) + Ids(b)
  {
  }

  /** Listing the old ids followed by what was listed gives the same listing again. */
  lemma {:induction false} RelistingStable(all: seq<Attempt>, L: seq<Id>, P: seq<Id>, r: seq<Attempt>)
    requires r == Listing(all, FirstSeen(L + P)) && Distinct(Ids(r))
    ensures Listing(all, FirstSeen(L + Ids(r))) == r
  {
    var head, rest := FirstSeen(L), NotIn(FirstSeen(P), L);
    FirstSeenConcat(L, P);
    ListingConcat(all, head, rest);
    FirstSeenConcat(L, Ids(r));
    FirstSeenDistinct(Ids(r));
    ListingConcat(all, head, NotIn(Ids(r), L));
    NotInElements(FirstSeen(P), L);
    forall x | x in head ensures x in L { FirstSeenElements(L, x); }
    NotInListing(all, L, head, rest);
  }

  lemma {:induction false} NotInConcat(a: seq<Id>, b: seq<Id>, out: seq<Id>)
    ensures NotIn(a + b, out) == NotIn(a, out) + NotIn(b, out)
  {
    if b == [] {
      assert a + b == a;
    } else {
      NotInConcat(a, b[..|b| - 1], out);
      assert (a + b)[..|a + b| - 1] == a + b[..|b| - 1];
    }
  }

  lemma {:induction false} NotInElements(s: seq<Id>, out: seq<Id>)
    ensures forall x :: x in NotIn(s, out) <==> x in s && x !in out
    ensures (forall x :: x in s ==> x !in out) ==> NotIn(s, out) == s
    ensures (forall x :: x in s ==> x in out) ==> NotIn(s, out) == []
  {
    if s != [] {
      NotInElements(s[..|s| - 1], out);
      assert s == s[..|s| - 1] + [s[|s| - 1]];
    }
  }

  lemma {:induction false} ListingIds(all: seq<Attempt>, ids: seq<Id>)
    ensures forall x :: x in Ids(Listing(all, ids)) ==> x in ids
    ensures Listing(all, Ids(Listing(all, ids))) == Listing(all, ids)
  {
    if ids != [] {
      var front, id := ids[..|ids| - 1], ids[|ids| - 1];
      ListingIds(all, front);
      LastOfFinds(all, id);
      assert ids == front + [id];
      if LastOf(all, id).Some? && !Contradicted(all, id) {
        assert Ids(Listing(all, ids)) == Ids(Listing(all, front)) + [id];
        ListingConcat(all, Ids(Listing(all, front)), [id]);
        assert [id][..0] == [];
        assert Listing(all, [id]) == [] + [LastOf(all, id).value];
      } else {
        assert Listing(all, front) + [] == Listing(all, front);
      }
    }
  }

  /** Listing what the first listing added beyond `L` gives that part of it back. */
  lemma {:induction false} NotInListing(all: seq<Attempt>, L: seq<Id>, head: seq<Id>, rest: seq<Id>)
    requires forall x :: x in head ==> x in L
    requires forall x :: x in rest ==> x !in L
    ensures var r := Listing(all, head) + Listing(all, rest);
            Listing(all, NotIn(Ids(r), L)) == Listing(all, rest)
  {
    var a, b := Ids(Listing(all, head)), Ids(Listing(all, rest));
    ListingIds(all, head);
    ListingIds(all, rest);
    IdsJoin(Listing(all, head), Listing(all, rest));
    OnlyTheRest(a, b, L);
  }

  lemma {:induction false} IdsJoin(r: seq<Attempt>, t: seq<Attempt>)
    ensures Ids(r + t) == Ids(r) + Ids(t)
  {
  }

  lemma {:induction false} OnlyTheRest(a: seq<Id>, b: seq<Id>, out: seq<Id>)
    requires (forall x :: x in a ==> x in out) && (forall x :: x in b ==> x !in out)
    ensures NotIn(a + b, out) == b
  {
    NotInConcat(a, b, out);
    NothingNew(a, out);
    NothingKnown(b, out);
    JoinNothing(b);
  }

  lemma {:induction false} NothingNew(s: seq<Id>, out: seq<Id>)
    requires forall x :: x in s ==> x in out
    ensures NotIn(s, out) == []
  {
    NotInElements(s, out);
  }

  lemma {:induction false} NothingKnown(s: seq<Id>, out: seq<Id>)
    requires forall x :: x in s ==> x !in out
    ensures NotIn(s, out) == s
  {
    NotInElements(s, out);
  }

  /** In particular a second pass changes nothing when nothing was contradicted, or nothing came earlier. */
  lemma {:induction false} SecondPassWithoutConflict(spawn: Id, prev: seq<Attempt>, latest: seq<Attempt>)
    requires Reconciliation(spawn, prev, latest).conflicted == {} || prev == []
    ensures var v := Reconciliation(spawn, prev, latest);
            Reconciliation(spawn, v.merged, latest) == v
  {
    NoAttemptLost(spawn, prev, latest);
    if prev == [] {
      assert latest + prev == latest;
    } else {
      forall id ensures !Contradicted(latest + prev, id) {
        assert Key(spawn, id) !in Reconciliation(spawn, prev, latest).conflicted;
      }
    }
    SecondPass(spawn, prev, latest);
  }

  /** The contradiction a later pass forgets: it was between an earlier capture and a new one. */
  lemma {:induction false} ForgottenConflict()
    ensures var ok, bad := Attempt("a1", "returned", None, None, None), Attempt("a1", "error", None, None, None);
            var v := Reconciliation("s", [ok], [bad]);
            && v.outcome == "conflicted"
            && Reconciliation("s", v.merged, [bad]).conflicted == {}
  {
    var ok, bad := Attempt("a1", "returned", None, None, None), Attempt("a1", "error", None, None, None);
    assert ok.status[0] == 'r' && bad.status[0] == 'e';
    PairContradicts("s", ok, bad);
    LoneRecord("s", bad);
  }

  /** One earlier record against one new record of the same id that disagrees: nothing is left to report. */
  lemma {:induction false} PairContradicts(spawn: Id, old_: Attempt, new_: Attempt)
    requires old_.id == new_.id && !SameOutcome(old_, new_)
    ensures Reconciliation(spawn, [old_], [new_]).outcome == "conflicted"
    ensures Reconciliation(spawn, [old_], [new_]).merged == []
  {
    var v := Reconciliation(spawn, [old_], [new_]);
    var all := [new_] + [old_];
    assert all[0] == new_ && all[1] == old_;
    assert Contradicted(all, new_.id);
    NoAttemptLost(spawn, [old_], [new_]);
    assert Key(spawn, new_.id) in v.conflicted;
    OutcomeIsEarned(spawn, [old_], [new_]);
    forall m ensures m !in v.merged { LastOfFinds(all, m.id); }
  }

  lemma {:induction false} LoneRecord(spawn: Id, a: Attempt)
    ensures Reconciliation(spawn, [], [a]).conflicted == {}
  {
    NoAttemptLost(spawn, [], [a]);
    assert forall x :: x in [a] + [] ==> x == a;
    forall k ensures k !in Reconciliation(spawn, [], [a]).conflicted {}
  }
}
