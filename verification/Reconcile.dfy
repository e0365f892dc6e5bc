/**
 Identity-first reconciliation (interface/geak_trace_reconcile.py, class Reconciled):
 an identity-keyed store that folds captures of the same record together and
 remembers, for good, every identity that was ever contradicted.

 `Reconciled` is the mutable object; `Store` is its abstract value, and the laws
 over whole runs are proved about `Run`, the fold of `Store` over any operations.
 */
module Reconcile {
  import opened Wrappers
  import opened Sorting
  import opened Sequences

  datatype State = Observed | Retained | Replayed | Conflicted

  /** What `record.get(field)` can yield, as far as equality is concerned. */
  datatype Datum = Null | Text(s: string) | Number(n: int)

  datatype Clash = Clash(fields: seq<string>, previous: map<string, Datum>, incoming: map<string, Datum>)

  predicate Agree<V>(get: (V, string) -> Datum, fields: seq<string>, a: V, b: V) {
    forall f :: f in fields ==> get(a, f) == get(b, f)
  }

  function ClashFields<V>(get: (V, string) -> Datum, fields: seq<string>, a: V, b: V): (r: seq<string>)
    ensures r == [] <==> Agree(get, fields, a, b)
    ensures forall f :: f in r <==> f in fields && get(a, f) != get(b, f)
  {
    if fields == [] then []
    else
      assert forall f :: f in fields <==> f == fields[0] || f in fields[1..];
      (if get(a, fields[0]) != get(b, fields[0]) then [fields[0]] else [])
      + ClashFields(get, fields[1..], a, b)
  }

  function Report<V>(get: (V, string) -> Datum, clash: seq<string>, prior: V, value: V): Clash {
    Clash(clash, map f | f in clash :: get(prior, f), map f | f in clash :: get(value, f))
  }

  datatype Store<K(==), V(==)> = Store(
    items: map<K, V>,
    order: seq<K>,                    // insertion order of the dict `items`
    states: map<K, State>,
    conflicts: map<K, seq<Clash>>)
  {
    predicate IsConflicted(key: K) { key in states && states[key] == Conflicted }

    function Absorbed(get: (V, string) -> Datum, key: K, value: V, fields: seq<string>,
                      merge: Option<(V, V) -> V>, seenNow: bool): Store<K, V>
    {
      if key !in items then
        Store(items[key := value], order + [key],
              states[key := if seenNow then Observed else Retained], conflicts)
      else
        var prior := items[key];
        var clash := ClashFields(get, fields, prior, value);
        if clash != [] then
          this.(states := states[key := Conflicted],
                conflicts := conflicts[key := (if key in conflicts then conflicts[key] else [])
                                              + [Report(get, clash, prior, value)]])
        else if IsConflicted(key) then this
        else
          this.(items := items[key := if merge.Some? then merge.value(prior, value) else value],
                states := states[key := if prior == value then Replayed else Observed])
    }

    /** Keys `retain_missing` relabels and counts. */
    ghost function Outdated(seen: set<K>): set<K> {
      set k | k in states && k !in seen && states[k] != Conflicted && states[k] != Retained
    }

    ghost function MissingRetained(seen: set<K>): Store<K, V> {
      this.(states := map k | k in states ::
              if k in seen || states[k] == Conflicted then states[k] else Retained)
    }

    /** The dict discipline: one insertion-order entry per key, and every key has a state. */
    ghost predicate Valid() {
      && items.Keys == states.Keys
      && Distinct(order)
      && (set k | k in order) == items.Keys
    }
  }

  ghost function Empty<K, V>(): Store<K, V> { Store(map[], [], map[], map[]) }

  /** The class itself: three dicts, updated in place. */
  class Reconciled<K(==, !new), V(==)> {
    const get: (V, string) -> Datum
    var items: map<K, V>
    var order: seq<K>
    var states: map<K, State>
    var conflicts: map<K, seq<Clash>>

    ghost function Model(): Store<K, V> reads this { Store(items, order, states, conflicts) }

    constructor (get: (V, string) -> Datum)
      ensures this.get == get && Model() == Empty() && Model().Valid()
    {
      this.get := get;
      items, order, states, conflicts := map[], [], map[], map[];
    }

    method Absorb(key: K, value: V, fields: seq<string>, merge: Option<(V, V) -> V>, seenNow: bool)
      returns (state: State)
      requires Model().Valid()
      modifies this
      ensures Model() == old(Model()).Absorbed(get, key, value, fields, merge, seenNow)
      ensures Model().Valid() && state == states[key]
    {
      AbsorbedValid(Model(), get, key, value, fields, merge, seenNow);
      if key !in items {
        items := items[key := value];
        order := order + [key];
        states := states[key := if seenNow then Observed else Retained];
        return states[key];
      }
      var prior := items[key];
      var clash := ClashFields(get, fields, prior, value);
      if clash != [] {
        states := states[key := Conflicted];
        conflicts := conflicts[key := (if key in conflicts then conflicts[key] else [])
                                      + [Report(get, clash, prior, value)]];
        return Conflicted;
      }
      if key in states && states[key] == Conflicted {
        return Conflicted;
      }
      items := items[key := if merge.Some? then merge.value(prior, value) else value];
      states := states[key := if prior == value then Replayed else Observed];
      state := states[key];
    }

    method RetainMissing(seen: set<K>) returns (retained: nat)
      requires Model().Valid()
      modifies this`states
      ensures Model() == old(Model()).MissingRetained(seen) && Model().Valid()
      ensures retained == |old(Model()).Outdated(seen)|
    {
      ghost var before := Model();
      ghost var changed: set<K> := {};
      var keys := order;
      retained := 0;
      for i := 0 to |keys|
        invariant retained == |changed|
        invariant Relabelled(before, seen, i, changed, states)
      {
        var key := keys[i];
        NextRetained(before, seen, i, changed, states);
        if key !in seen && states[key] != Conflicted && states[key] != Retained {
          states := states[key := Retained];
          retained := retained + 1;
          changed := changed + {key};
        }
      }
      AllRetained(before, seen, changed, states);
    }

    /** `usable`: everything except contradicted identities, in insertion order. */
    method Usable() returns (r: seq<(K, V)>)
      requires Model().Valid()
      ensures r == UsablePairs(Model(), order)
    {
      r := [];
      for i := 0 to |order|
        invariant r == UsablePairs(Model(), order[..i])
      {
        assert order[..i + 1][..i] == order[..i];
        if states[order[i]] != Conflicted { r := r + [(order[i], items[order[i]])]; }
      }
      assert order[..|order|] == order;
    }

    /** `conflicted_keys`: the contradicted identities, in insertion order. */
    method ConflictedKeys() returns (r: seq<K>)
      requires Model().Valid()
      ensures r == ConflictedOf(Model(), order)
      ensures forall k :: k in r <==> Model().IsConflicted(k)
    {
      r := [];
      for i := 0 to |order|
        invariant r == ConflictedOf(Model(), order[..i])
      {
        assert order[..i + 1][..i] == order[..i];
        if states[order[i]] == Conflicted { r := r + [order[i]]; }
      }
      assert order[..|order|] == order;
      ConflictedOfExact(Model());
    }
  }

  function UsableOf<K(==), V(==)>(s: Store<K, V>, keys: seq<K>): seq<V>
    requires forall k :: k in keys ==> k in s.items
  {
    if keys == [] then []
    else
      var last := keys[|keys| - 1];
      UsableOf(s, keys[..|keys| - 1]) + (if s.IsConflicted(last) then [] else [s.items[last]])
  }

  function UsablePairs<K(==), V(==)>(s: Store<K, V>, keys: seq<K>): seq<(K, V)>
    requires forall k :: k in keys ==> k in s.items
  {
    if keys == [] then []
    else
      var last := keys[|keys| - 1];
      UsablePairs(s, keys[..|keys| - 1]) + (if s.IsConflicted(last) then [] else [(last, s.items[last])])
  }

  function ConflictedOf<K(==), V(==)>(s: Store<K, V>, keys: seq<K>): seq<K> {
    if keys == [] then []
    else
      var last := keys[|keys| - 1];
      ConflictedOf(s, keys[..|keys| - 1]) + (if s.IsConflicted(last) then [last] else [])
  }

  lemma {:induction false} PairsAreUsable<K, V>(s: Store<K, V>, keys: seq<K>)
    requires forall k :: k in keys ==> k in s.items
    ensures |UsablePairs(s, keys)| == |UsableOf(s, keys)|
    ensures forall i :: 0 <= i < |UsablePairs(s, keys)| ==> UsablePairs(s, keys)[i].1 == UsableOf(s, keys)[i]
  {
    if keys != [] { PairsAreUsable(s, keys[..|keys| - 1]); }
  }

  lemma {:induction false} ConflictedElements<K, V>(s: Store<K, V>, keys: seq<K>, k: K)
    ensures k in ConflictedOf(s, keys) <==> k in keys && s.IsConflicted(k)
  {
    if keys != [] {
      ConflictedElements(s, keys[..|keys| - 1], k);
      assert k in keys <==> k in keys[..|keys| - 1] || k == keys[|keys| - 1];
    }
  }

  lemma {:induction false} ConflictedOfExact<K(!new), V>(s: Store<K, V>)
    requires s.Valid()
    ensures forall k :: k in ConflictedOf(s, s.order) <==> s.IsConflicted(k)
  {
    forall k ensures k in ConflictedOf(s, s.order) <==> s.IsConflicted(k) {
      ConflictedElements(s, s.order, k);
      assert k in s.order <==> k in (set x | x in s.order);
    }
  }

  /**
   In every state a run reaches, the contradicted keys are exactly those with a report on file, and every
   key is listed either as contradicted or as usable.
   */
  lemma {:induction false} ConflictedAreReported<K(!new), V>(s: Store<K, V>)
    requires Sound(s)
    ensures forall k :: k in ConflictedOf(s, s.order) <==> k in s.conflicts
    ensures forall k :: k in s.order ==> k in s.items
    ensures |ConflictedOf(s, s.order)| + |UsableOf(s, s.order)| == |s.order|
  {
    ConflictedOfExact(s);
    forall k | k in s.order ensures k in s.items { assert k in (set x | x in s.order); }
    ListedOnce(s, s.order);
  }

  lemma {:induction false} ListedOnce<K, V>(s: Store<K, V>, keys: seq<K>)
    requires forall k :: k in keys ==> k in s.items
    ensures |ConflictedOf(s, keys)| + |UsableOf(s, keys)| == |keys|
  {
    if keys != [] { ListedOnce(s, keys[..|keys| - 1]); }
  }

  // ---- whole runs -------------------------------------------------------------

  datatype Op<K, !V> =
    | Absorb(key: K, value: V, fields: seq<string>, merge: Option<(V, V) -> V>, seenNow: bool)
    | RetainMissing(seen: set<K>)

  ghost function Step<K, V>(get: (V, string) -> Datum, s: Store<K, V>, op: Op<K, V>): Store<K, V> {
    match op
    case Absorb(key, value, fields, merge, seenNow) => s.Absorbed(get, key, value, fields, merge, seenNow)
    case RetainMissing(seen) => s.MissingRetained(seen)
  }

  ghost function Run<K, V>(get: (V, string) -> Datum, ops: seq<Op<K, V>>): Store<K, V> {
    if ops == [] then Empty() else Step(get, Run(get, ops[..|ops| - 1]), ops[|ops| - 1])
  }

  ghost predicate Absorbs<K, V>(ops: seq<Op<K, V>>, i: int, k: K) {
    0 <= i < |ops| && ops[i].Absorb? && ops[i].key == k
  }

  lemma {:induction false} AbsorbedValid<K, V>(s: Store<K, V>, get: (V, string) -> Datum, key: K, value: V,
                            fields: seq<string>, merge: Option<(V, V) -> V>, seenNow: bool)
    requires s.Valid()
    ensures s.Absorbed(get, key, value, fields, merge, seenNow).Valid()
  {
    var t := s.Absorbed(get, key, value, fields, merge, seenNow);
    if key !in s.items {
      assert key !in s.order;
      assert forall k :: k in t.order <==> k in s.order || k == key;
    }
  }

  /** The labels after the first `i` keys were visited; `changed` are those that were relabelled. */
  ghost predicate Relabelled<K, V>(s: Store<K, V>, seen: set<K>, i: int, changed: set<K>, states: map<K, State>) {
    && states.Keys == s.states.Keys && changed <= s.Outdated(seen)
    && (forall j :: 0 <= j < |s.order| && s.order[j] in s.Outdated(seen) ==> (s.order[j] in changed <==> j < i))
    && (forall k :: k in states ==> states[k] == if k in changed then Retained else s.states[k])
  }

  lemma {:induction false} NextRetained<K, V>(s: Store<K, V>, seen: set<K>, i: nat, changed: set<K>,
                                              states: map<K, State>)
    requires s.Valid() && i < |s.order| && Relabelled(s, seen, i, changed, states)
    ensures s.order[i] in states && s.order[i] !in changed
    ensures var key := s.order[i];
            if key !in seen && states[key] != Conflicted && states[key] != Retained
            then Relabelled(s, seen, i + 1, changed + {key}, states[key := Retained])
            else Relabelled(s, seen, i + 1, changed, states)
  {
    var key := s.order[i];
    assert key in (set k | k in s.order);
    forall j | 0 <= j < |s.order| && j != i ensures s.order[j] != key {}
  }

  lemma {:induction false} AllRetained<K, V>(s: Store<K, V>, seen: set<K>, changed: set<K>, states: map<K, State>)
    requires s.Valid() && Relabelled(s, seen, |s.order|, changed, states)
    ensures changed == s.Outdated(seen)
    ensures s.MissingRetained(seen) == s.(states := states)
  {
    forall k | k in s.Outdated(seen) ensures k in changed { assert k in (set x | x in s.order); }
    assert states == s.MissingRetained(seen).states;
  }

  lemma {:induction false} PrefixAbsorbs<K, V>(ops: seq<Op<K, V>>, k: K)
    requires ops != []
    ensures forall i :: Absorbs(ops[..|ops| - 1], i, k) <==> i < |ops| - 1 && Absorbs(ops, i, k)
  {
    var front := ops[..|ops| - 1];
    forall i ensures Absorbs(front, i, k) <==> i < |front| && Absorbs(ops, i, k) {
      assert 0 <= i < |front| ==> front[i] == ops[i];
    }
  }

  ghost predicate Sound<K(!new), V>(s: Store<K, V>) {
    && s.Valid()
    && (forall k :: s.IsConflicted(k) <==> k in s.conflicts)
    && (forall k :: k in s.conflicts ==> s.conflicts[k] != [])
  }

  lemma {:induction false} AbsorbedSound<K(!new), V>(get: (V, string) -> Datum, s: Store<K, V>, key: K, value: V,
                                  fields: seq<string>, merge: Option<(V, V) -> V>, seenNow: bool)
    requires Sound(s)
    ensures Sound(s.Absorbed(get, key, value, fields, merge, seenNow))
  {
    AbsorbedValid(s, get, key, value, fields, merge, seenNow);
    var t := s.Absorbed(get, key, value, fields, merge, seenNow);
    forall k ensures (t.IsConflicted(k) <==> k in t.conflicts) && (k in t.conflicts ==> t.conflicts[k] != []) {
      AbsorbedReports(get, s, key, value, fields, merge, seenNow, k);
    }
  }

  lemma {:induction false} AbsorbedReports<K(!new), V>(get: (V, string) -> Datum, s: Store<K, V>, key: K, value: V,
                                    fields: seq<string>, merge: Option<(V, V) -> V>, seenNow: bool, k: K)
    requires Sound(s)
    ensures var t := s.Absorbed(get, key, value, fields, merge, seenNow);
            (t.IsConflicted(k) <==> k in t.conflicts) && (k in t.conflicts ==> t.conflicts[k] != [])
  {
    assert s.IsConflicted(k) <==> k in s.conflicts;
    assert s.IsConflicted(key) <==> key in s.conflicts;
  }

  lemma {:induction false} MissingRetainedSound<K(!new), V>(s: Store<K, V>, seen: set<K>)
    requires Sound(s)
    ensures Sound(s.MissingRetained(seen))
    ensures forall k :: s.IsConflicted(k) ==> s.MissingRetained(seen).IsConflicted(k)
  {
  }

  lemma {:induction false} StepSound<K(!new), V>(get: (V, string) -> Datum, s: Store<K, V>, op: Op<K, V>)
    requires Sound(s)
    ensures Sound(Step(get, s, op))
    ensures Step(get, s, op).items.Keys == s.items.Keys + (if op.Absorb? then {op.key} else {})
  {
    match op
    case Absorb(key, value, fields, merge, seenNow) =>
      AbsorbedSound(get, s, key, value, fields, merge, seenNow);
    case RetainMissing(seen) =>
      MissingRetainedSound(s, seen);
  }

  lemma {:induction false} StepFreezes<K(!new), V>(get: (V, string) -> Datum, s: Store<K, V>, op: Op<K, V>, k: K)
    requires s.Valid() && s.IsConflicted(k)
    ensures Step(get, s, op).IsConflicted(k)
    ensures k in Step(get, s, op).items && Step(get, s, op).items[k] == s.items[k]
  {
  }

  /**
   Over any run: `items` and `states` have exactly the keys ever absorbed, and a key
   is CONFLICTED exactly when `conflicts` holds at least one report about it.
   */
  lemma {:induction false} RunInvariant<K(!new), V>(get: (V, string) -> Datum, ops: seq<Op<K, V>>)
    ensures Sound(Run(get, ops))
    ensures forall k :: k in Run(get, ops).items <==> exists i :: Absorbs(ops, i, k)
  {
    if ops != [] {
      var front, op := ops[..|ops| - 1], ops[|ops| - 1];
      RunInvariant(get, front);
      StepSound(get, Run(get, front), op);
      forall k ensures k in Run(get, ops).items <==> exists i :: Absorbs(ops, i, k) {
        PrefixAbsorbs(ops, k);
        if k in Run(get, front).items {
          var i :| Absorbs(front, i, k);
          assert Absorbs(ops, i, k);
        } else if op.Absorb? && op.key == k {
          assert Absorbs(ops, |ops| - 1, k);
        }
      }
    }
  }

  /** A contradiction is permanent: whatever happens next, the key stays conflicted and its item frozen. */
  lemma {:induction false} ConflictIsForever<K(!new), V>(get: (V, string) -> Datum, ops: seq<Op<K, V>>,
                                                         more: seq<Op<K, V>>, k: K)
    requires Run(get, ops).IsConflicted(k)
    ensures Run(get, ops + more).IsConflicted(k)
    ensures k in Run(get, ops).items && k in Run(get, ops + more).items
    ensures Run(get, ops + more).items[k] == Run(get, ops).items[k]
  {
    RunInvariant(get, ops);
    if more == [] {
      assert ops + more == ops;
    } else {
      var front := more[..|more| - 1];
      FrontOfJoin(ops, more);
      ConflictIsForever(get, ops, front, k);
      RunInvariant(get, ops + front);
      StepFreezes(get, Run(get, ops + front), more[|more| - 1], k);
    }
  }

  /** Every absorption of a key already held compares `fields`, and merging never changes them. */
  ghost predicate Disciplined<K, V(!new)>(get: (V, string) -> Datum, fields: seq<string>, ops: seq<Op<K, V>>) {
    forall i :: 0 <= i < |ops| && ops[i].Absorb? ==>
      && (ops[i].fields == fields || forall j :: j < i ==> !Absorbs(ops, j, ops[i].key))
      && (ops[i].merge.Some? ==> Preserves(get, fields, ops[i].merge.value))
  }

  ghost predicate Preserves<V(!new)>(get: (V, string) -> Datum, fields: seq<string>, merge: (V, V) -> V) {
    forall a, b :: Agree(get, fields, a, b) ==> Agree(get, fields, merge(a, b), a)
  }

  ghost predicate Disputed<K, V>(get: (V, string) -> Datum, fields: seq<string>, ops: seq<Op<K, V>>, k: K) {
    exists i, j :: Absorbs(ops, i, k) && Absorbs(ops, j, k) && !Agree(get, fields, ops[i].value, ops[j].value)
  }

  lemma {:induction false} DisciplinedPrefix<K(!new), V(!new)>(get: (V, string) -> Datum, fields: seq<string>,
                                                               ops: seq<Op<K, V>>)
    requires ops != [] && Disciplined(get, fields, ops)
    ensures Disciplined(get, fields, ops[..|ops| - 1])
  {
    var front := ops[..|ops| - 1];
    forall i | 0 <= i < |front| && front[i].Absorb?
      ensures front[i].fields == fields || forall j :: j < i ==> !Absorbs(front, j, front[i].key)
    {
      if front[i].fields != fields {
        forall j | j < i ensures !Absorbs(front, j, front[i].key) {
          assert !Absorbs(ops, j, ops[i].key);
        }
      }
    }
  }

  /** What holds of the item kept for `k`: it agrees with every value absorbed so far. */
  ghost predicate Representative<K(!new), V>(get: (V, string) -> Datum, fields: seq<string>,
                                             ops: seq<Op<K, V>>, k: K, v: V)
  {
    forall i :: Absorbs(ops, i, k) ==> Agree(get, fields, v, ops[i].value)
  }

  lemma {:induction false} ItemAgrees<K(!new), V(!new)>(get: (V, string) -> Datum, fields: seq<string>,
                                                        ops: seq<Op<K, V>>, k: K)
    requires Disciplined(get, fields, ops)
    ensures Run(get, ops).IsConflicted(k) ==> Disputed(get, fields, ops, k)
    ensures k in Run(get, ops).items && !Run(get, ops).IsConflicted(k) ==>
              Representative(get, fields, ops, k, Run(get, ops).items[k])
  {
    if ops != [] {
      var n := |ops| - 1;
      var front, op := ops[..n], ops[n];
      DisciplinedPrefix(get, fields, ops);
      ItemAgrees(get, fields, front, k);
      if Run(get, front).IsConflicted(k) {
        DisputeExtends(get, fields, ops, k);
      } else if op.Absorb? && op.key == k {
        AbsorbStep(get, fields, ops, k);
      } else {
        StepElsewhere(get, Run(get, front), op, k);
        PrefixAbsorbs(ops, k);
        assert forall i :: Absorbs(ops, i, k) ==> Absorbs(front, i, k);
      }
    }
  }

  lemma {:induction false} DisputeExtends<K(!new), V>(get: (V, string) -> Datum, fields: seq<string>,
                                                      ops: seq<Op<K, V>>, k: K)
    requires ops != [] && Run(get, ops[..|ops| - 1]).IsConflicted(k)
    requires Disputed(get, fields, ops[..|ops| - 1], k)
    ensures Run(get, ops).IsConflicted(k) && Disputed(get, fields, ops, k)
  {
    var front := ops[..|ops| - 1];
    RunInvariant(get, front);
    StepFreezes(get, Run(get, front), ops[|ops| - 1], k);
    var i, j :| Absorbs(front, i, k) && Absorbs(front, j, k)
                && !Agree(get, fields, front[i].value, front[j].value);
    assert Absorbs(ops, i, k) && Absorbs(ops, j, k);
  }

  lemma {:induction false} StepElsewhere<K, V>(get: (V, string) -> Datum, s: Store<K, V>, op: Op<K, V>, k: K)
    requires !(op.Absorb? && op.key == k)
    ensures k in Step(get, s, op).items <==> k in s.items
    ensures k in s.items ==> Step(get, s, op).items[k] == s.items[k]
    ensures Step(get, s, op).IsConflicted(k) <==> s.IsConflicted(k)
  {
  }

  lemma {:induction false} KeyHeld<K(!new), V>(get: (V, string) -> Datum, ops: seq<Op<K, V>>, k: K) returns (i: int)
    requires k in Run(get, ops).items
    ensures Absorbs(ops, i, k)
  {
    RunInvariant(get, ops);
    i :| Absorbs(ops, i, k);
  }

  lemma {:induction false} AbsorbStep<K(!new), V(!new)>(get: (V, string) -> Datum, fields: seq<string>,
                                                        ops: seq<Op<K, V>>, k: K)
    requires ops != [] && Absorbs(ops, |ops| - 1, k) && Disciplined(get, fields, ops)
    requires !Run(get, ops[..|ops| - 1]).IsConflicted(k)
    requires var s := Run(get, ops[..|ops| - 1]);
             k in s.items ==> Representative(get, fields, ops[..|ops| - 1], k, s.items[k])
    ensures Run(get, ops).IsConflicted(k) ==> Disputed(get, fields, ops, k)
    ensures k in Run(get, ops).items && !Run(get, ops).IsConflicted(k) ==>
              Representative(get, fields, ops, k, Run(get, ops).items[k])
  {
    var n := |ops| - 1;
    var front, value := ops[..n], ops[n].value;
    var s := Run(get, front);
    PrefixAbsorbs(ops, k);
    if k !in s.items {
      RunInvariant(get, front);
      assert forall i :: Absorbs(ops, i, k) ==> i == n;
    } else if Agree(get, fields, s.items[k], value) {
      var h := KeyHeld(get, front, k);
      assert Absorbs(ops, h, k) && ops[n].fields == fields;
      var v := Run(get, ops).items[k];
      assert Agree(get, fields, v, s.items[k]);
      forall i | Absorbs(ops, i, k) ensures Agree(get, fields, v, ops[i].value) {
        if i < n { assert Absorbs(front, i, k); }
      }
    } else {
      var i := KeyHeld(get, front, k);
      assert Absorbs(ops, i, k) && Agree(get, fields, s.items[k], ops[i].value);
      assert !Agree(get, fields, ops[i].value, ops[n].value);
    }
  }

  /**
   With one set of identity fields and merges that respect them, a key ends up
   conflicted exactly when two of the values absorbed under it disagree.
   */
  lemma {:induction false} ConflictIffDisagreement<K(!new), V(!new)>(get: (V, string) -> Datum, fields: seq<string>,
                                                  ops: seq<Op<K, V>>, k: K)
    requires Disciplined(get, fields, ops)
    ensures Run(get, ops).IsConflicted(k) <==> Disputed(get, fields, ops, k)
  {
    ItemAgrees(get, fields, ops, k);
    RunInvariant(get, ops);
  }

  ghost predicate AbsorbsValue<K, V>(ops: seq<Op<K, V>>, k: K, v: V) {
    exists i :: Absorbs(ops, i, k) && ops[i].value == v
  }

  /** Hence arrival order, replays and interleaved retentions cannot change which identities are conflicted. */
  lemma {:induction false} ConflictsIgnoreOrder<K(!new), V(!new)>(get: (V, string) -> Datum, fields: seq<string>,
                                               a: seq<Op<K, V>>, b: seq<Op<K, V>>, k: K)
    requires Disciplined(get, fields, a) && Disciplined(get, fields, b)
    requires forall v :: AbsorbsValue(a, k, v) <==> AbsorbsValue(b, k, v)
    ensures Run(get, a).IsConflicted(k) <==> Run(get, b).IsConflicted(k)
  {
    ConflictIffDisagreement(get, fields, a, k);
    ConflictIffDisagreement(get, fields, b, k);
    DisputeCarries(get, fields, a, b, k);
    DisputeCarries(get, fields, b, a, k);
  }

  lemma {:induction false} DisputeCarries<K(!new), V(!new)>(get: (V, string) -> Datum, fields: seq<string>,
                                         a: seq<Op<K, V>>, b: seq<Op<K, V>>, k: K)
    requires forall v :: AbsorbsValue(a, k, v) ==> AbsorbsValue(b, k, v)
    ensures Disputed(get, fields, a, k) ==> Disputed(get, fields, b, k)
  {
    if Disputed(get, fields, a, k) {
      var i, j :| Absorbs(a, i, k) && Absorbs(a, j, k) && !Agree(get, fields, a[i].value, a[j].value);
      assert AbsorbsValue(a, k, a[i].value) && AbsorbsValue(a, k, a[j].value);
      var i' :| Absorbs(b, i', k) && b[i'].value == a[i].value;
      var j' :| Absorbs(b, j', k) && b[j'].value == a[j].value;
      assert !Agree(get, fields, b[i'].value, b[j'].value);
    }
  }

  // ---- what a run without merge functions keeps --------------------------------

  ghost predicate Unmerged<K, V>(ops: seq<Op<K, V>>) {
    forall i :: 0 <= i < |ops| && ops[i].Absorb? ==> ops[i].merge.None?
  }

  function LatestValue<K(==), V>(ops: seq<Op<K, V>>, k: K): Option<V> {
    if ops == [] then None
    else
      var op := ops[|ops| - 1];
      if op.Absorb? && op.key == k then Some(op.value) else LatestValue(ops[..|ops| - 1], k)
  }

  /** Without a merge function an uncontested key holds the value absorbed last. */
  lemma {:induction false} LatestWins<K(!new), V>(get: (V, string) -> Datum, ops: seq<Op<K, V>>, k: K)
    requires Unmerged(ops)
    ensures k in Run(get, ops).items && !Run(get, ops).IsConflicted(k) ==>
              LatestValue(ops, k) == Some(Run(get, ops).items[k])
  {
    if ops != [] {
      var front := ops[..|ops| - 1];
      LatestWins(get, front, k);
      RunInvariant(get, front);
      StepStores(get, Run(get, front), ops[|ops| - 1], k);
    }
  }

  lemma {:induction false} StepStores<K(!new), V>(get: (V, string) -> Datum, s: Store<K, V>, op: Op<K, V>, k: K)
    requires Sound(s) && (op.Absorb? ==> op.merge.None?)
    ensures k in Step(get, s, op).items && !Step(get, s, op).IsConflicted(k) ==>
              && !s.IsConflicted(k)
              && (k in s.items || (op.Absorb? && op.key == k))
              && Step(get, s, op).items[k] == if op.Absorb? && op.key == k then op.value else s.items[k]
  {
    if s.IsConflicted(k) { StepFreezes(get, s, op, k); }
  }

  /** The keys in the order they were first seen, as a dict remembers them. */
  function FirstSeen<K(==)>(keys: seq<K>): seq<K> {
    if keys == [] then []
    else
      var front, last := keys[..|keys| - 1], keys[|keys| - 1];
      if last in front then FirstSeen(front) else FirstSeen(front) + [last]
  }

  lemma {:induction false} FirstSeenElements<K>(keys: seq<K>, k: K)
    ensures k in FirstSeen(keys) <==> k in keys
  {
    if keys != [] {
      FirstSeenElements(keys[..|keys| - 1], k);
      assert keys == keys[..|keys| - 1] + [keys[|keys| - 1]];
    }
  }

  function KeysOf<K, V>(ops: seq<Op<K, V>>): seq<K> {
    if ops == [] then []
    else
      var op := ops[|ops| - 1];
      KeysOf(ops[..|ops| - 1]) + (if op.Absorb? then [op.key] else [])
  }

  lemma {:induction false} RunKeys<K(!new), V>(get: (V, string) -> Datum, ops: seq<Op<K, V>>)
    ensures forall k :: k in KeysOf(ops) <==> k in Run(get, ops).items
  {
    if ops != [] {
      RunKeys(get, ops[..|ops| - 1]);
      if !ops[|ops| - 1].Absorb? {
        assert Run(get, ops).items == Run(get, ops[..|ops| - 1]).items;
      }
    }
  }

  lemma {:induction false} RunOrder<K(!new), V>(get: (V, string) -> Datum, ops: seq<Op<K, V>>)
    ensures Run(get, ops).order == FirstSeen(KeysOf(ops))
  {
    if ops != [] {
      var front, op := ops[..|ops| - 1], ops[|ops| - 1];
      RunOrder(get, front);
      RunKeys(get, front);
      if op.Absorb? {
        RunInvariant(get, front);
        assert KeysOf(ops)[..|KeysOf(ops)| - 1] == KeysOf(front);
        assert Run(get, ops).order == Run(get, front).order
               + (if op.key in Run(get, front).items then [] else [op.key]);
      } else {
        assert KeysOf(front) + [] == KeysOf(front);
      }
    }
  }
}
