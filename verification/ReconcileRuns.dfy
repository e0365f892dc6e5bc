/**
 Whole runs of the identity-keyed store (interface/geak_trace_reconcile.py, absorb, retain_missing): what every key
 is labelled, which item is kept for it and what is on file about its contradictions, told from the operations.
 */
module ReconcileRuns {
  import opened Wrappers
  import opened Sequences
  import opened Reconcile

  // ---- labels --------------------------------------------------------------------------------------------

  /** An operation that says something about `k`: it captures it, or it reads the whole without it. */
  ghost predicate Concerns<K, V>(op: Op<K, V>, k: K) {
    (op.Absorb? && op.key == k) || (op.RetainMissing? && k !in op.seen)
  }

  ghost predicate LastConcern<K, V>(ops: seq<Op<K, V>>, i: int, k: K) {
    0 <= i < |ops| && Concerns(ops[i], k) && forall j :: i < j < |ops| ==> !Concerns(ops[j], k)
  }

  /** The label that an operation gives a key which is not contradicted. */
  ghost predicate Labels<K(!new), V>(state: State, before: Store<K, V>, op: Op<K, V>, k: K) {
    match op
    case RetainMissing(_) => state == Retained
    case Absorb(_, value, _, _, seenNow) =>
      if k !in before.items then state == if seenNow then Observed else Retained
      else state == if before.items[k] == value then Replayed else Observed
  }

  /**
   A key that is not contradicted is labelled by the last operation that concerns it: retained if that one read the
   whole without it; replayed if it captured just the item already kept, and else observed; and a first capture
   is observed or retained as it says itself.
   */
  lemma {:induction false} LabelIs<K(!new), V>(get: (V, string) -> Datum, ops: seq<Op<K, V>>, k: K, i: int)
    requires k in Run(get, ops).items && !Run(get, ops).IsConflicted(k) && LastConcern(ops, i, k)
    ensures k in Run(get, ops).states && Labels(Run(get, ops).states[k], Run(get, ops[..i]), ops[i], k)
  {
    var n := |ops| - 1;
    RunInvariant(get, ops);
    RunInvariant(get, ops[..n]);
    if i == n {
      LabelNow(get, Run(get, ops[..n]), ops[n], k);
    } else {
      LabelElsewhere(get, Run(get, ops[..n]), ops[n], k);
      assert LastConcern(ops[..n], i, k);
      LabelIs(get, ops[..n], k, i);
      assert ops[..n][..i] == ops[..i];
    }
  }

  lemma {:induction false} LabelNow<K(!new), V>(get: (V, string) -> Datum, s: Store<K, V>, op: Op<K, V>, k: K)
    requires Sound(s) && Concerns(op, k) && k in Step(get, s, op).items && !Step(get, s, op).IsConflicted(k)
    ensures k in Step(get, s, op).states && Labels(Step(get, s, op).states[k], s, op, k)
  {
  }

  lemma {:induction false} LabelElsewhere<K(!new), V>(get: (V, string) -> Datum, s: Store<K, V>, op: Op<K, V>, k: K)
    requires Sound(s) && !Concerns(op, k)
    ensures k in Step(get, s, op).items <==> k in s.items
    ensures Step(get, s, op).IsConflicted(k) <==> s.IsConflicted(k)
    ensures k in s.states ==> k in Step(get, s, op).states && Step(get, s, op).states[k] == s.states[k]
  {
  }

  /** There is such an operation for every key that is held. */
  lemma {:induction false} SomeConcern<K(!new), V>(get: (V, string) -> Datum, ops: seq<Op<K, V>>, k: K)
    returns (i: int)
    requires k in Run(get, ops).items
    ensures LastConcern(ops, i, k)
  {
    i := KeyHeld(get, ops, k);
    i := LastOf(ops, k, i);
  }

  lemma {:induction false} LastOf<K, V>(ops: seq<Op<K, V>>, k: K, i: nat) returns (j: int)
    requires i < |ops| && Concerns(ops[i], k)
    ensures LastConcern(ops, j, k)
  {
    var n := |ops| - 1;
    if Concerns(ops[n], k) { j := n; } else { j := LastOf(ops[..n], k, i); }
  }

  /** What a read without some keys relabels: the labels that change, and no other. */
  lemma {:induction false} RelabelledAre<K(!new), V>(s: Store<K, V>, seen: set<K>, k: K)
    requires k in s.states
    ensures k in s.MissingRetained(seen).states
    ensures k in s.Outdated(seen) <==> s.MissingRetained(seen).states[k] != s.states[k]
    ensures s.MissingRetained(seen).states[k]
         == if k in seen || s.states[k] == Conflicted then s.states[k] else Retained
  {
  }

  // ---- contradictions ---------------------------------------------------------------------------------------

  /** Operation `i` captures `k` with a value that differs from the item kept, in a field it is to be compared by. */
  ghost predicate Contradicts<K, V>(get: (V, string) -> Datum, ops: seq<Op<K, V>>, i: int, k: K) {
    && Absorbs(ops, i, k) && k in Run(get, ops[..i]).items
    && exists f :: f in ops[i].fields && get(Run(get, ops[..i]).items[k], f) != get(ops[i].value, f)
  }

  /** A key is contradicted exactly if some capture of it was, whatever the fields and the merges. */
  lemma {:induction false} ContradictedIff<K(!new), V>(get: (V, string) -> Datum, ops: seq<Op<K, V>>, k: K)
    ensures Run(get, ops).IsConflicted(k) <==> exists i :: Contradicts(get, ops, i, k)
  {
    if ops != [] {
      var n := |ops| - 1;
      ContradictedIff(get, ops[..n], k);
      RunInvariant(get, ops[..n]);
      ContradictedNow(get, ops, k);
      forall i ensures Contradicts(get, ops[..n], i, k) <==> i < n && Contradicts(get, ops, i, k) {
        Before(get, ops, i, k);
      }
    }
  }

  lemma {:induction false} Before<K(!new), V>(get: (V, string) -> Datum, ops: seq<Op<K, V>>, i: int, k: K)
    requires ops != []
    ensures Contradicts(get, ops[..|ops| - 1], i, k) <==> i < |ops| - 1 && Contradicts(get, ops, i, k)
  {
    if 0 <= i < |ops| - 1 { assert ops[..|ops| - 1][..i] == ops[..i]; }
  }

  lemma {:induction false} ContradictedNow<K(!new), V>(get: (V, string) -> Datum, ops: seq<Op<K, V>>, k: K)
    requires ops != [] && Sound(Run(get, ops[..|ops| - 1]))
    ensures var n := |ops| - 1;
            Run(get, ops).IsConflicted(k) <==> Run(get, ops[..n]).IsConflicted(k) || Contradicts(get, ops, n, k)
  {
    var n := |ops| - 1;
    var s, op := Run(get, ops[..n]), ops[n];
    if op.Absorb? && op.key == k && k in s.items {
      ClashIff(get, op.fields, s.items[k], op.value);
    }
  }

  lemma {:induction false} ClashIff<V>(get: (V, string) -> Datum, fields: seq<string>, a: V, b: V)
    ensures ClashFields(get, fields, a, b) != [] <==> exists f :: f in fields && get(a, f) != get(b, f)
  {
  }

  function Reports<K(==), V(==)>(s: Store<K, V>, k: K): seq<Clash> { if k in s.conflicts then s.conflicts[k] else [] }

  /** The report names the fields that differ, and what the kept item and the captured value hold there. */
  ghost predicate Says<V>(c: Clash, get: (V, string) -> Datum, fields: seq<string>, kept: V, value: V) {
    && (forall f :: f in c.fields <==> f in fields && get(kept, f) != get(value, f))
    && (forall f :: f in c.previous <==> f in c.fields) && (forall f :: f in c.incoming <==> f in c.fields)
    && (forall f :: f in c.fields ==> c.previous[f] == get(kept, f) && c.incoming[f] == get(value, f))
  }

  /** Each contradicted capture files one report, behind those on file; nothing else files any. */
  lemma {:induction false} ReportsGrow<K(!new), V>(get: (V, string) -> Datum, ops: seq<Op<K, V>>, k: K)
    requires ops != []
    ensures var n := |ops| - 1;
            var before, after := Reports(Run(get, ops[..n]), k), Reports(Run(get, ops), k);
            if Contradicts(get, ops, n, k) then
              && |after| == |before| + 1 && after[..|before|] == before
              && Says(after[|before|], get, ops[n].fields, Run(get, ops[..n]).items[k], ops[n].value)
            else after == before
  {
    FiledNow(get, Run(get, ops[..|ops| - 1]), ops[|ops| - 1], k);
  }

  lemma {:induction false} FiledNow<K(!new), V>(get: (V, string) -> Datum, s: Store<K, V>, op: Op<K, V>, k: K)
    ensures var before, after := Reports(s, k), Reports(Step(get, s, op), k);
            if op.Absorb? && op.key == k && k in s.items
               && exists f :: f in op.fields && get(s.items[k], f) != get(op.value, f)
            then
              && |after| == |before| + 1 && after[..|before|] == before
              && Says(after[|before|], get, op.fields, s.items[k], op.value)
            else after == before
  {
    if op.Absorb? && op.key == k && k in s.items {
      ClashIff(get, op.fields, s.items[k], op.value);
      ReportSays(get, op.fields, s.items[k], op.value);
    }
  }

  lemma {:induction false} ReportSays<V>(get: (V, string) -> Datum, fields: seq<string>, kept: V, value: V)
    ensures Says(Report(get, ClashFields(get, fields, kept, value), kept, value), get, fields, kept, value)
  {
  }

  /** The fields are named in the order in which they are compared. */
  lemma {:induction false} ClashFieldsJoin<V>(get: (V, string) -> Datum, a: seq<string>, b: seq<string>, x: V, y: V)
    ensures ClashFields(get, a + b, x, y) == ClashFields(get, a, x, y) + ClashFields(get, b, x, y)
  {
    if a == [] {
      assert a + b == b;
    } else {
      assert (a + b)[1..] == a[1..] + b;
      ClashFieldsJoin(get, a[1..], b, x, y);
    }
  }

  lemma {:induction false} ClashFieldsOne<V>(get: (V, string) -> Datum, f: string, x: V, y: V)
    ensures ClashFields(get, [f], x, y) == if get(x, f) == get(y, f) then [] else [f]
  {
  }

  // ---- items ---------------------------------------------------------------------------------------------------

  /** The captures of `k` up to its first contradiction, each merged into what was kept before it. */
  ghost function Kept<K, V>(get: (V, string) -> Datum, ops: seq<Op<K, V>>, k: K): Option<V> {
    if ops == [] then None
    else
      var n := |ops| - 1;
      var before := Kept(get, ops[..n], k);
      if !Absorbs(ops, n, k) then before
      else if before.None? then Some(ops[n].value)
      else if exists i :: Contradicts(get, ops, i, k) then before
      else if ops[n].merge.None? then Some(ops[n].value)
      else Some(ops[n].merge.value(before.value, ops[n].value))
  }

  /** They make the item that is kept. */
  lemma {:induction false} KeptIs<K(!new), V>(get: (V, string) -> Datum, ops: seq<Op<K, V>>, k: K)
    ensures Kept(get, ops, k).Some? <==> k in Run(get, ops).items
    ensures k in Run(get, ops).items ==> Kept(get, ops, k) == Some(Run(get, ops).items[k])
  {
    if ops != [] {
      var n := |ops| - 1;
      KeptIs(get, ops[..n], k);
      RunInvariant(get, ops[..n]);
      ContradictedIff(get, ops, k);
      KeptNow(get, Run(get, ops[..n]), ops[n], k);
    }
  }

  lemma {:induction false} KeptNow<K(!new), V>(get: (V, string) -> Datum, s: Store<K, V>, op: Op<K, V>, k: K)
    requires Sound(s)
    ensures var t := Step(get, s, op);
            && (k in t.items <==> k in s.items || (op.Absorb? && op.key == k))
            && (k in t.items ==>
                  t.items[k] == if !(op.Absorb? && op.key == k) then s.items[k]
                                else if k !in s.items then op.value
                                else if t.IsConflicted(k) then s.items[k]
                                else if op.merge.None? then op.value
                                else op.merge.value(s.items[k], op.value))
  {
  }

  // ---- lists ---------------------------------------------------------------------------------------------------

  /** The usable items and the contradicted keys are listed in the order of the keys. */
  lemma {:induction false} ListedJoin<K, V>(s: Store<K, V>, a: seq<K>, b: seq<K>)
    requires (forall k :: k in a ==> k in s.items) && (forall k :: k in b ==> k in s.items)
    ensures UsablePairs(s, a + b) == UsablePairs(s, a) + UsablePairs(s, b)
    ensures ConflictedOf(s, a + b) == ConflictedOf(s, a) + ConflictedOf(s, b)
  {
    if b == [] {
      JoinNothing(a);
    } else {
      var n := |b| - 1;
      FrontOfJoin(a, b);
      ListedJoin(s, a, b[..n]);
      JoinAssociates(UsablePairs(s, a), UsablePairs(s, b[..n]),
                     if s.IsConflicted(b[n]) then [] else [(b[n], s.items[b[n]])]);
      JoinAssociates(ConflictedOf(s, a), ConflictedOf(s, b[..n]), if s.IsConflicted(b[n]) then [b[n]] else []);
    }
  }

  lemma {:induction false} ListedOne<K, V>(s: Store<K, V>, k: K)
    requires k in s.items
    ensures UsablePairs(s, [k]) == if k in s.states && s.states[k] == Conflicted then [] else [(k, s.items[k])]
    ensures ConflictedOf(s, [k]) == if k in s.states && s.states[k] == Conflicted then [k] else []
  {
    assert [k][..0] == [];
  }
}
