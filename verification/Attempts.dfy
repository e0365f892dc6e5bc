/**
 Reconciliation of one spawn's attempts (interface/geak_trace_reconcile.py,
 reconcile_attempts): every attempt is folded through the identity store, and an
 outcome is stated only when the surviving records order themselves.
 */
module Attempts {
  import opened Wrappers
  import opened Sorting
  import opened Reconcile

  type Id = string

  datatype Attempt = Attempt(id: Id, status: string, resultRef: Option<string>,
                             error: Option<string>, seqNo: Option<int>)

  datatype Key = Key(spawn: Id, attempt: Id)

  const IDENTITY_FIELDS := ["status", "result_ref", "error"]

  function Field(o: Option<string>): Datum {
    match o
    case None => Null
    case Some(s) => Text(s)
  }

  function Get(a: Attempt, field: string): Datum {
    if field == "status" then Text(a.status)
    else if field == "result_ref" then Field(a.resultRef)
    else if field == "error" then Field(a.error)
    else Null
  }

  predicate SameOutcome(a: Attempt, b: Attempt) {
    a.status == b.status && a.resultRef == b.resultRef && a.error == b.error
  }

  lemma {:induction false} AgreeIsSameOutcome(a: Attempt, b: Attempt)
    ensures Agree(Get, IDENTITY_FIELDS, a, b) <==> SameOutcome(a, b)
  {
    assert "status" in IDENTITY_FIELDS && "result_ref" in IDENTITY_FIELDS && "error" in IDENTITY_FIELDS;
    assert "status" != "result_ref" && "error" != "status" && "error" != "result_ref" by {
      assert |"status"| == 6 && |"error"| == 5 && |"result_ref"| == 10;
    }
    if Agree(Get, IDENTITY_FIELDS, a, b) {
      assert Get(a, "status") == Get(b, "status");
      assert Get(a, "result_ref") == Get(b, "result_ref");
      assert Get(a, "error") == Get(b, "error");
    }
  }

  // ---- the fold ---------------------------------------------------------------

  ghost predicate SeenBefore(all: seq<Attempt>, i: nat)
    requires i < |all|
  {
    exists j :: 0 <= j < i && all[j].id == all[i].id
  }

  /** New captures first, compared throughout; an earlier-only attempt enters unchecked as history. */
  ghost function Fold(spawn: Id, prev: seq<Attempt>, latest: seq<Attempt>): seq<Op<Key, Attempt>> {
    var all := latest + prev;
    seq(|all|, i requires 0 <= i < |all| =>
      var checked := i < |latest| || SeenBefore(all, i);
      Op.Absorb(Key(spawn, all[i].id), all[i], if checked then IDENTITY_FIELDS else [], None, checked))
  }

  /** The store after the first `n` turns. */
  ghost function After(spawn: Id, prev: seq<Attempt>, latest: seq<Attempt>, n: nat): Store<Key, Attempt> {
    var fold := Fold(spawn, prev, latest);
    Run(Get, if n <= |fold| then fold[..n] else fold)
  }

  /** The store once `i` earlier captures have been compared with what the latest read holds. */
  ghost function Compared(spawn: Id, prev: seq<Attempt>, latest: seq<Attempt>, i: nat): Store<Key, Attempt> {
    After(spawn, prev, latest, |latest| + i)
  }

  ghost function LatestKeys(spawn: Id, latest: seq<Attempt>): set<Key> {
    set a | a in latest :: Key(spawn, a.id)
  }

  ghost function Folded(spawn: Id, prev: seq<Attempt>, latest: seq<Attempt>): Store<Key, Attempt> {
    Run(Get, Fold(spawn, prev, latest) + [RetainMissing(LatestKeys(spawn, latest))])
  }

  // ---- the outcome ------------------------------------------------------------

  function SeqOf(a: Attempt): int { a.seqNo.GetOr(0) }

  predicate SeqLe(a: Attempt, b: Attempt) { SeqOf(a) <= SeqOf(b) }

  function Ordered(merged: seq<Attempt>): (r: seq<Attempt>)
    ensures |r| <= |merged|
    ensures |r| == |merged| <==> forall a :: a in merged ==> a.seqNo.Some?
    ensures |r| == |merged| ==> r == merged
    ensures forall a :: a in r <==> a in merged && a.seqNo.Some?
  {
    if merged == [] then []
    else
      assert merged == [merged[0]] + merged[1..];
      (if merged[0].seqNo.Some? then [merged[0]] else []) + Ordered(merged[1..])
  }

  predicate DistinctSeqs(s: seq<Attempt>) {
    forall i, j :: 0 <= i < j < |s| ==> SeqOf(s[i]) != SeqOf(s[j])
  }

  /** The listing and the outcome drawn from the surviving records. */
  function Decide(merged: seq<Attempt>): (seq<Attempt>, string) {
    var ordered := Ordered(merged);
    if ordered != [] && |ordered| == |merged| && DistinctSeqs(ordered) then
      SortPermutes(merged, SeqLe);
      var sorted := Sort(merged, SeqLe);
      (sorted, sorted[|sorted| - 1].status)
    else if ordered != [] && !DistinctSeqs(ordered) then (merged, "unknown")
    else if |merged| == 1 then (merged, merged[0].status)
    else (merged, "unknown")
  }

  datatype Verdict = Verdict(merged: seq<Attempt>, outcome: string, conflicted: set<Key>)

  ghost function Surviving(spawn: Id, prev: seq<Attempt>, latest: seq<Attempt>): seq<Attempt> {
    var s := Folded(spawn, prev, latest);
    RunInvariant(Get, Fold(spawn, prev, latest) + [RetainMissing(LatestKeys(spawn, latest))]);
    assert forall k :: k in s.order ==> k in (set k' | k' in s.order);
    UsableOf(s, s.order)
  }

  ghost function Reconciliation(spawn: Id, prev: seq<Attempt>, latest: seq<Attempt>): Verdict {
    var s := Folded(spawn, prev, latest);
    var conflicted := set k | k in s.states && s.states[k] == Conflicted;
    var (merged, outcome) := Decide(Surviving(spawn, prev, latest));
    Verdict(merged, if conflicted != {} then "conflicted" else outcome, conflicted)
  }

  method ReconcileAttempts(prev: seq<Attempt>, latest: seq<Attempt>, spawn: Id) returns (v: Verdict)
    ensures v == Reconciliation(spawn, prev, latest)
  {
    var store := new Reconciled<Key, Attempt>(Get);
    var seen := AbsorbLatest(store, prev, latest, spawn);
    AbsorbEarlier(store, prev, latest, spawn);
    FoldEnds(spawn, prev, latest);
    var _ := store.RetainMissing(seen);
    var usable, conflicted := Listed(store);
    var (merged, outcome) := Decide(usable);
    v := Verdict(merged, if conflicted != {} then "conflicted" else outcome, conflicted);
  }

  /** The usable attempts and the contradicted keys, as the store lists them. */
  method Listed(store: Reconciled<Key, Attempt>) returns (usable: seq<Attempt>, conflicted: set<Key>)
    requires store.Model().Valid()
    ensures forall k :: k in store.order ==> k in store.items
    ensures usable == UsableOf(store.Model(), store.order)
    ensures conflicted == set k | k in store.states && store.states[k] == Conflicted
  {
    var pairs := store.Usable();
    PairsAreUsable(store.Model(), store.order);
    usable := seq(|pairs|, i requires 0 <= i < |pairs| => pairs[i].1);
    var keys := store.ConflictedKeys();
    conflicted := set k | k in keys;
  }

  /** The first loop: every attempt of the latest read. */
  method AbsorbLatest(store: Reconciled<Key, Attempt>, ghost prev: seq<Attempt>, latest: seq<Attempt>, spawn: Id)
    returns (seen: set<Key>)
    requires store.get == Get && store.Model() == Empty() && store.Model().Valid()
    modifies store
    ensures store.Model() == Run(Get, Fold(spawn, prev, latest)[..|latest|]) && store.Model().Valid()
    ensures seen == LatestKeys(spawn, latest)
  {
    seen := {};
    for i := 0 to |latest|
      invariant store.Model().Valid()
      invariant store.Model() == Run(Get, Fold(spawn, prev, latest)[..i])
      invariant seen == LatestKeys(spawn, latest[..i])
    {
      var att := latest[i];
      var key := Key(spawn, att.id);
      seen := seen + {key};
      LatestKeysGrow(spawn, latest, i);
      FoldStep(spawn, prev, latest, i);
      var _ := store.Absorb(key, att, IDENTITY_FIELDS, None, true);
    }
    assert latest[..|latest|] == latest;
  }

  /** The second loop: earlier captures, compared only where the store already holds the attempt. */
  method AbsorbEarlier(store: Reconciled<Key, Attempt>, prev: seq<Attempt>, ghost latest: seq<Attempt>, spawn: Id)
    requires store.get == Get && store.Model().Valid()
    requires store.Model() == Compared(spawn, prev, latest, 0)
    modifies store
    ensures store.Model() == Compared(spawn, prev, latest, |prev|) && store.Model().Valid()
  {
    for i := 0 to |prev|
      invariant store.Model().Valid()
      invariant store.Model() == Compared(spawn, prev, latest, i)
    {
      EarlierTurn(store, prev, latest, spawn, i);
    }
  }

  method EarlierTurn(store: Reconciled<Key, Attempt>, prev: seq<Attempt>, ghost latest: seq<Attempt>, spawn: Id, i: nat)
    requires i < |prev|
    requires store.get == Get && store.Model().Valid()
    requires store.Model() == Compared(spawn, prev, latest, i)
    modifies store
    ensures store.Model() == Compared(spawn, prev, latest, i + 1) && store.Model().Valid()
  {
    HistoryStep(spawn, prev, latest, i);
    AbsorbHistory(store, Key(spawn, prev[i].id), prev[i]);
  }

  /** Body of the second loop. */
  method AbsorbHistory(store: Reconciled<Key, Attempt>, key: Key, att: Attempt)
    requires store.get == Get && store.Model().Valid()
    modifies store
    ensures store.Model() == Turn(old(store.Model()), false, key, att) && store.Model().Valid()
  {
    if key in store.items {
      var _ := store.Absorb(key, att, IDENTITY_FIELDS, None, true);
    } else {
      var _ := store.Absorb(key, att, [], None, false);
    }
  }

  lemma {:induction false} LatestKeysGrow(spawn: Id, latest: seq<Attempt>, i: nat)
    requires i < |latest|
    ensures LatestKeys(spawn, latest[..i + 1]) == LatestKeys(spawn, latest[..i]) + {Key(spawn, latest[i].id)}
  {
    assert latest[..i + 1] == latest[..i] + [latest[i]];
  }

  ghost function Turn(s: Store<Key, Attempt>, newest: bool, key: Key, a: Attempt): Store<Key, Attempt> {
    if newest || key in s.items then s.Absorbed(Get, key, a, IDENTITY_FIELDS, None, true)
    else s.Absorbed(Get, key, a, [], None, false)
  }

  /** One turn of the fold, as the code performs it. */
  lemma {:induction false} FoldStep(spawn: Id, prev: seq<Attempt>, latest: seq<Attempt>, n: nat)
    requires n < |latest + prev|
    ensures var s, a := Run(Get, Fold(spawn, prev, latest)[..n]), (latest + prev)[n];
            var key := Key(spawn, a.id);
            Run(Get, Fold(spawn, prev, latest)[..n + 1]) == Turn(s, n < |latest|, key, a)
  {
    var ops := Fold(spawn, prev, latest);
    assert ops[..n + 1][..n] == ops[..n];
    HeldIffSeen(spawn, prev, latest, n);
  }

  lemma {:induction false} HistoryStep(spawn: Id, prev: seq<Attempt>, latest: seq<Attempt>, i: nat)
    requires i < |prev|
    ensures Run(Get, Fold(spawn, prev, latest)[..|latest| + (i + 1)])
            == Turn(Run(Get, Fold(spawn, prev, latest)[..|latest| + i]), false, Key(spawn, prev[i].id), prev[i])
  {
    assert (latest + prev)[|latest| + i] == prev[i];
    FoldStep(spawn, prev, latest, |latest| + i);
  }

  lemma {:induction false} FoldEnds(spawn: Id, prev: seq<Attempt>, latest: seq<Attempt>)
    ensures Folded(spawn, prev, latest)
            == Run(Get, Fold(spawn, prev, latest)[..|latest| + |prev|]).MissingRetained(LatestKeys(spawn, latest))
  {
    var ops := Fold(spawn, prev, latest);
    assert ops[..|latest| + |prev|] == ops;
    assert (ops + [RetainMissing(LatestKeys(spawn, latest))])[..|ops|] == ops;
  }

  lemma {:induction false} HeldIffSeen(spawn: Id, prev: seq<Attempt>, latest: seq<Attempt>, n: nat)
    requires n < |latest + prev|
    ensures Key(spawn, (latest + prev)[n].id) in Run(Get, Fold(spawn, prev, latest)[..n]).items
            <==> SeenBefore(latest + prev, n)
  {
    var all, ops := latest + prev, Fold(spawn, prev, latest);
    RunInvariant(Get, ops[..n]);
    if SeenBefore(all, n) {
      var j :| 0 <= j < n && all[j].id == all[n].id;
      assert Absorbs(ops[..n], j, Key(spawn, all[n].id));
    }
  }

  // ---- what the fold keeps --------------------------------------------------------

  ghost function AllOps(spawn: Id, prev: seq<Attempt>, latest: seq<Attempt>): seq<Op<Key, Attempt>> {
    Fold(spawn, prev, latest) + [RetainMissing(LatestKeys(spawn, latest))]
  }

  /** The record that speaks for an attempt: the last earlier capture of it, else its last new one. */
  function LastOf(s: seq<Attempt>, id: Id): Option<Attempt> {
    if s == [] then None
    else if s[|s| - 1].id == id then Some(s[|s| - 1])
    else LastOf(s[..|s| - 1], id)
  }

  ghost predicate Contradicted(all: seq<Attempt>, id: Id) {
    exists a, b :: a in all && b in all && a.id == id && b.id == id && !SameOutcome(a, b)
  }

  lemma {:induction false} OpsMirrorRecords(spawn: Id, prev: seq<Attempt>, latest: seq<Attempt>)
    ensures var ops, all := AllOps(spawn, prev, latest), latest + prev;
            && (forall i, k :: Absorbs(ops, i, k) <==> 0 <= i < |all| && k == Key(spawn, all[i].id))
            && (forall i :: 0 <= i < |all| ==> ops[i].Absorb? && ops[i].value == all[i])
            && Disciplined(Get, IDENTITY_FIELDS, ops)
            && Unmerged(ops)
  {
    var ops, all := AllOps(spawn, prev, latest), latest + prev;
    forall i | 0 <= i < |ops| && ops[i].Absorb?
      ensures ops[i].fields == IDENTITY_FIELDS || forall j :: j < i ==> !Absorbs(ops, j, ops[i].key)
    {
      if ops[i].fields != IDENTITY_FIELDS { assert !SeenBefore(all, i); }
    }
  }

  lemma {:induction false} ConflictedIffContradicted(spawn: Id, prev: seq<Attempt>, latest: seq<Attempt>, id: Id)
    ensures Folded(spawn, prev, latest).IsConflicted(Key(spawn, id)) <==> Contradicted(latest + prev, id)
  {
    var ops, k := AllOps(spawn, prev, latest), Key(spawn, id);
    OpsMirrorRecords(spawn, prev, latest);
    ConflictIffDisagreement(Get, IDENTITY_FIELDS, ops, k);
    if Disputed(Get, IDENTITY_FIELDS, ops, k) { DisputeContradicts(spawn, prev, latest, id); }
    if Contradicted(latest + prev, id) { ContradictionDisputes(spawn, prev, latest, id); }
  }

  lemma {:induction false} DisputeContradicts(spawn: Id, prev: seq<Attempt>, latest: seq<Attempt>, id: Id)
    requires Disputed(Get, IDENTITY_FIELDS, AllOps(spawn, prev, latest), Key(spawn, id))
    ensures Contradicted(latest + prev, id)
  {
    var ops, all, k := AllOps(spawn, prev, latest), latest + prev, Key(spawn, id);
    OpsMirrorRecords(spawn, prev, latest);
    var i, j :| Absorbs(ops, i, k) && Absorbs(ops, j, k) && !Agree(Get, IDENTITY_FIELDS, ops[i].value, ops[j].value);
    AgreeIsSameOutcome(all[i], all[j]);
    assert all[i] in all && all[j] in all && !SameOutcome(all[i], all[j]);
  }

  lemma {:induction false} ContradictionDisputes(spawn: Id, prev: seq<Attempt>, latest: seq<Attempt>, id: Id)
    requires Contradicted(latest + prev, id)
    ensures Disputed(Get, IDENTITY_FIELDS, AllOps(spawn, prev, latest), Key(spawn, id))
  {
    var ops, all, k := AllOps(spawn, prev, latest), latest + prev, Key(spawn, id);
    OpsMirrorRecords(spawn, prev, latest);
    var a, b :| a in all && b in all && a.id == id && b.id == id && !SameOutcome(a, b);
    var i :| 0 <= i < |all| && all[i] == a;
    var j :| 0 <= j < |all| && all[j] == b;
    AgreeIsSameOutcome(a, b);
    assert Absorbs(ops, i, k) && Absorbs(ops, j, k) && !Agree(Get, IDENTITY_FIELDS, ops[i].value, ops[j].value);
  }

  lemma {:induction false} LatestIsLast(spawn: Id, prev: seq<Attempt>, latest: seq<Attempt>, n: nat, id: Id)
    requires n <= |latest + prev|
    ensures LatestValue(Fold(spawn, prev, latest)[..n], Key(spawn, id)) == LastOf((latest + prev)[..n], id)
  {
    if n > 0 {
      LatestIsLast(spawn, prev, latest, n - 1, id);
      var ops, all := Fold(spawn, prev, latest), latest + prev;
      assert ops[..n][..n - 1] == ops[..n - 1] && all[..n][..n - 1] == all[..n - 1];
    }
  }

  lemma {:induction false} LastOfFinds(s: seq<Attempt>, id: Id)
    ensures LastOf(s, id).Some? <==> exists a :: a in s && a.id == id
    ensures LastOf(s, id).Some? ==> LastOf(s, id).value in s && LastOf(s, id).value.id == id
  {
    if s != [] {
      LastOfFinds(s[..|s| - 1], id);
      assert s == s[..|s| - 1] + [s[|s| - 1]];
    }
  }

  lemma {:induction false} ItemIsLast(spawn: Id, prev: seq<Attempt>, latest: seq<Attempt>, id: Id)
    ensures var s, k := Folded(spawn, prev, latest), Key(spawn, id);
            && (k in s.items <==> LastOf(latest + prev, id).Some?)
            && (k in s.items && !s.IsConflicted(k) ==> Some(s.items[k]) == LastOf(latest + prev, id))
  {
    var ops, all, k := AllOps(spawn, prev, latest), latest + prev, Key(spawn, id);
    OpsMirrorRecords(spawn, prev, latest);
    RunInvariant(Get, ops);
    LatestWins(Get, ops, k);
    LatestIsLast(spawn, prev, latest, |all|, id);
    assert ops[..|ops| - 1] == Fold(spawn, prev, latest)[..|all|] && all[..|all|] == all;
    LastOfFinds(all, id);
    if LastOf(all, id).Some? {
      var i :| 0 <= i < |all| && all[i] == LastOf(all, id).value;
      assert Absorbs(ops, i, k);
    }
  }

  lemma {:induction false} KeysCarrySpawn(spawn: Id, prev: seq<Attempt>, latest: seq<Attempt>, k: Key)
    requires k in Folded(spawn, prev, latest).items
    ensures k.spawn == spawn && exists a :: a in latest + prev && a.id == k.attempt
  {
    OpsMirrorRecords(spawn, prev, latest);
    RunInvariant(Get, AllOps(spawn, prev, latest));
    var i :| Absorbs(AllOps(spawn, prev, latest), i, k);
    assert (latest + prev)[i] in latest + prev;
  }

  lemma {:induction false} UsableElements(s: Store<Key, Attempt>, keys: seq<Key>, m: Attempt)
    requires forall k :: k in keys ==> k in s.items
    ensures m in UsableOf(s, keys) <==> exists k :: k in keys && !s.IsConflicted(k) && s.items[k] == m
  {
    if keys != [] {
      var front, last := keys[..|keys| - 1], keys[|keys| - 1];
      UsableElements(s, front, m);
      assert keys == front + [last];
    }
  }

  ghost predicate DistinctIds(s: seq<Attempt>) {
    forall i, j :: 0 <= i < j < |s| ==> s[i].id != s[j].id
  }

  lemma {:induction false} UsableDistinct(spawn: Id, s: Store<Key, Attempt>, keys: seq<Key>)
    requires Distinct(keys) && forall k :: k in keys ==> k in s.items && k.spawn == spawn
    requires forall k :: k in keys && !s.IsConflicted(k) ==> s.items[k].id == k.attempt
    ensures DistinctIds(UsableOf(s, keys))
  {
    if keys != [] {
      var front, last := keys[..|keys| - 1], keys[|keys| - 1];
      UsableDistinct(spawn, s, front);
      var r := UsableOf(s, front);
      forall i | 0 <= i < |r| && !s.IsConflicted(last) ensures r[i].id != s.items[last].id {
        UsableElements(s, front, r[i]);
        var k :| k in front && !s.IsConflicted(k) && s.items[k] == r[i];
        assert k != last;
      }
    }
  }

  /** The survivors: exactly one record per uncontradicted attempt id, the one that speaks for it. */
  lemma {:induction false} Survivors(spawn: Id, prev: seq<Attempt>, latest: seq<Attempt>)
    ensures var r := Surviving(spawn, prev, latest);
            && DistinctIds(r)
            && forall m :: m in r <==> LastOf(latest + prev, m.id) == Some(m) && !Contradicted(latest + prev, m.id)
  {
    var all, s := latest + prev, Folded(spawn, prev, latest);
    RunInvariant(Get, AllOps(spawn, prev, latest));
    var r := Surviving(spawn, prev, latest);
    forall k | k in s.order
      ensures k in s.items && k.spawn == spawn
      ensures !s.IsConflicted(k) ==> s.items[k].id == k.attempt
    {
      assert k in (set x | x in s.order);
      KeysCarrySpawn(spawn, prev, latest, k);
      ItemIsLast(spawn, prev, latest, k.attempt);
      LastOfFinds(all, k.attempt);
    }
    UsableDistinct(spawn, s, s.order);
    forall m ensures m in r <==> LastOf(all, m.id) == Some(m) && !Contradicted(all, m.id) {
      UsableElements(s, s.order, m);
      ItemIsLast(spawn, prev, latest, m.id);
      ConflictedIffContradicted(spawn, prev, latest, m.id);
      if LastOf(all, m.id) == Some(m) && !Contradicted(all, m.id) {
        assert Key(spawn, m.id) in s.items.Keys;
        assert Key(spawn, m.id) in s.order;
      }
    }
  }
}
