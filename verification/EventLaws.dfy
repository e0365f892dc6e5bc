/** What `build_edges` guarantees, for every event stream. */
module EventLaws {
  import opened Wrappers
  import opened Sorting
  import opened Sequences
  import opened Events
  import AttemptLaws

  // ---- the declarative reading of a stream ------------------------------------

  /** All records carrying `id`, of whatever kind, agree with each other. */
  ghost predicate Agreed(es: seq<Event>, id: Id) {
    forall a, b :: a in es && b in es && KeyOf(a) == KeyOf(b) && KeyOf(a).id == id ==> Same(a, b)
  }

  ghost predicate TransferJoined(es: seq<Event>, known: set<Id>, ev: Event) {
    && ev in es && ev.Supplied?
    && Agreed(es, ev.eventId)
    && ev.producer in known && ev.consumer in known
  }

  /** Everything a spawn needs, except that its returns name its child. */
  ghost predicate SpawnAnchored(es: seq<Event>, known: set<Id>, tools: Tools, ev: Event) {
    && ev in es && ev.Spawn?
    && Agreed(es, ev.spawnId)
    && ev.parent in known && ev.child in known
    && ToolKnown(tools, ev.parent, ev.tool)
  }

  ghost predicate ReturnsName(es: seq<Event>, s: Id, child: Id) {
    forall r :: r in es && r.Return? && r.spawnId == s ==> r.child == child
  }

  ghost predicate SpawnJoined(es: seq<Event>, known: set<Id>, tools: Tools, ev: Event) {
    SpawnAnchored(es, known, tools, ev) && ReturnsName(es, ev.spawnId, ev.child)
  }

  ghost predicate Misnamed(es: seq<Event>, known: set<Id>, tools: Tools, s: Id) {
    exists ev :: SpawnAnchored(es, known, tools, ev) && ev.spawnId == s && !ReturnsName(es, s, ev.child)
  }

  // ---- first records against all records ----------------------------------------

  lemma {:induction false} SameIsEquivalence(a: Event, b: Event, c: Event)
    ensures Same(a, a)
    ensures Same(a, b) ==> Same(b, a)
    ensures Same(a, b) && Same(b, c) ==> Same(a, c)
  {
  }

  lemma {:induction false} UnflaggedAgree(es: seq<Event>, k: Key, ev: Event)
    requires k.id !in Clashing(es, KindOf(k)) && ev in es && KeyOf(ev) == k
    ensures First(es, k).Some? && Same(First(es, k).value, ev)
  {
    var front, last := es[..|es| - 1], es[|es| - 1];
    assert es == front + [last];
    SameIsEquivalence(ev, ev, ev);
    if ev in front {
      UnflaggedAgree(front, k, ev);
    } else {
      FirstHasKey(front, k);
    }
  }

  lemma {:induction false} FlaggedDisagree(es: seq<Event>, kind: Kind, id: Id)
    requires id in Clashing(es, kind)
    ensures !Agreed(es, id)
  {
    var front, last := es[..|es| - 1], es[|es| - 1];
    assert es == front + [last];
    if id in Clashing(front, kind) {
      FlaggedDisagree(front, kind, id);
    } else {
      FirstHasKey(front, KeyOf(last));
    }
  }

  lemma {:induction false} ClashingIff(es: seq<Event>, id: Id)
    ensures id !in AllClashing(es) <==> Agreed(es, id)
  {
    if id in AllClashing(es) {
      var kind := if id in Clashing(es, Spawns) then Spawns
                  else if id in Clashing(es, Returns) then Returns else Transfers;
      FlaggedDisagree(es, kind, id);
    } else {
      forall a, b | a in es && b in es && KeyOf(a) == KeyOf(b) && KeyOf(a).id == id ensures Same(a, b) {
        UnflaggedAgree(es, KeyOf(a), a);
        UnflaggedAgree(es, KeyOf(a), b);
        SameIsEquivalence(First(es, KeyOf(a)).value, a, b);
        SameIsEquivalence(a, First(es, KeyOf(a)).value, b);
      }
    }
  }

  lemma {:induction false} FirstExists(es: seq<Event>, ev: Event)
    requires ev in es
    ensures First(es, KeyOf(ev)).Some?
    ensures First(es, KeyOf(ev)).value in es && KeyOf(First(es, KeyOf(ev)).value) == KeyOf(ev)
  {
    FirstHasKey(es, KeyOf(ev));
  }

  // ---- transfers ------------------------------------------------------------------

  lemma {:induction false} MissingNone(a: Id, b: Id, known: set<Id>)
    ensures Missing([a, b], known) == [] <==> a in known && b in known
  {
    assert [a, b][1..] == [b] && [b][1..] == [];
    assert Missing([b], known) == (if b !in known then [b] else []);
    assert Missing([a, b], known) == (if a !in known then [a] else []) + Missing([b], known);
  }

  ghost predicate TransferFrom(es: seq<Event>, known: set<Id>, k: Key, e: Edge) {
    var ev := First(es, k);
    ev.Some? && ev.value.Supplied? && e in JoinTransfer(ev.value, known, AllClashing(es)).0
  }

  lemma {:induction false} TransferElements(es: seq<Event>, keys: seq<Key>, known: set<Id>, e: Edge)
    ensures e in JoinTransfers(es, keys, known).0 <==> exists k :: k in keys && TransferFrom(es, known, k, e)
  {
    if keys != [] {
      var front, k := keys[..|keys| - 1], keys[|keys| - 1];
      TransferElements(es, front, known, e);
      assert keys == front + [k];
      assert e in JoinTransfers(es, keys, known).0
             <==> e in JoinTransfers(es, front, known).0 || TransferFrom(es, known, k, e);
    }
  }

  lemma {:induction false} TransferFromMeans(es: seq<Event>, known: set<Id>, k: Key, e: Edge)
    requires k in KeysSeen(es, Transfers) && TransferFrom(es, known, k, e)
    ensures exists ev :: TransferJoined(es, known, ev) && e == TransferOf(ev)
  {
    FirstHasKey(es, k);
    var ev := First(es, k).value;
    ClashingIff(es, ev.eventId);
    MissingNone(ev.producer, ev.consumer, known);
    assert TransferJoined(es, known, ev) && e == TransferOf(ev);
  }

  lemma {:induction false} TransferJoinedEmits(es: seq<Event>, known: set<Id>, ev: Event)
    requires TransferJoined(es, known, ev)
    ensures KeyOf(ev) in KeysSeen(es, Transfers) && TransferFrom(es, known, KeyOf(ev), TransferOf(ev))
  {
    KeysSeenElements(es, Transfers);
    FirstExists(es, ev);
    var f := First(es, KeyOf(ev)).value;
    assert Same(f, ev);
    ClashingIff(es, ev.eventId);
    MissingNone(f.producer, f.consumer, known);
  }

  lemma {:induction false} TransferEdgesExact(es: seq<Event>, known: set<Id>, e: Edge)
    ensures e in JoinTransfers(es, KeysSeen(es, Transfers), known).0
            <==> exists ev :: TransferJoined(es, known, ev) && e == TransferOf(ev)
  {
    var keys := KeysSeen(es, Transfers);
    TransferElements(es, keys, known, e);
    if e in JoinTransfers(es, keys, known).0 {
      var k :| k in keys && TransferFrom(es, known, k, e);
      TransferFromMeans(es, known, k, e);
    }
    if exists ev :: TransferJoined(es, known, ev) && e == TransferOf(ev) {
      var ev :| TransferJoined(es, known, ev) && e == TransferOf(ev);
      TransferJoinedEmits(es, known, ev);
    }
  }

  // ---- spawns -----------------------------------------------------------------------

  ghost function AttemptsFor(es: seq<Event>, s: Id, child: Id): seq<Attempts.Attempt> {
    WalkReturns(es, ReturnOrder(es), s, child).0
  }

  lemma {:induction false} WalkElements(es: seq<Event>, keys: seq<Key>, s: Id, child: Id)
    ensures forall a :: a in WalkReturns(es, keys, s, child).0 ==>
              exists k :: k in keys && k.id == s && First(es, k).Some? && First(es, k).value.Return?
                          && First(es, k).value.child == child && a == AttemptOf(First(es, k).value)
    ensures forall k :: (k in keys && k.id == s && First(es, k).Some? && First(es, k).value.Return?
                         && First(es, k).value.child == child)
                        ==> AttemptOf(First(es, k).value) in WalkReturns(es, keys, s, child).0
    ensures forall g :: g in WalkReturns(es, keys, s, child).1 ==>
              && g.reason == WrongChild && g.event in es && g.event.Return?
              && g.event.spawnId == s && g.event.child != child
    ensures (exists k :: k in keys && k.id == s && First(es, k).Some? && First(es, k).value.Return?
                         && First(es, k).value.child != child)
            ==> WalkReturns(es, keys, s, child).1 != []
  {
    if keys != [] {
      WalkElements(es, keys[..|keys| - 1], s, child);
      FirstHasKey(es, keys[|keys| - 1]);
      assert keys == keys[..|keys| - 1] + [keys[|keys| - 1]];
    }
  }

  lemma {:induction false} ReturnOrderElements(es: seq<Event>)
    ensures forall k :: k in ReturnOrder(es) <==> k.ReturnKey? && First(es, k).Some?
    ensures Distinct(ReturnOrder(es))
  {
    KeysSeenElements(es, Returns);
    SortPermutes(KeysSeen(es, Returns), KeyLe);
    SortDistinct(KeysSeen(es, Returns), KeyLe);
  }

  /** With agreeing records, the walk finds a wrong child exactly when some return names one. */
  lemma {:induction false} WrongIffMisnaming(es: seq<Event>, s: Id, child: Id)
    requires Agreed(es, s)
    ensures WalkReturns(es, ReturnOrder(es), s, child).1 == [] <==> ReturnsName(es, s, child)
  {
    ReturnOrderElements(es);
    WalkElements(es, ReturnOrder(es), s, child);
    var gaps := WalkReturns(es, ReturnOrder(es), s, child).1;
    if gaps != [] {
      assert gaps[0] in gaps;
    } else {
      forall r | r in es && r.Return? && r.spawnId == s ensures r.child == child {
        FirstExists(es, r);
        assert Same(First(es, KeyOf(r)).value, r);
        assert KeyOf(r) in ReturnOrder(es);
      }
    }
  }

  lemma {:induction false} JoinSpawnMeans(es: seq<Event>, known: set<Id>, tools: Tools, ev: Event)
    requires ev.Spawn? && ev in es
    ensures var (edges, gaps, bad) := JoinSpawn(es, ev, known, tools);
            && edges == (if SpawnJoined(es, known, tools, ev)
                         then [SpawnOf(ev, AttemptsFor(es, ev.spawnId, ev.child))] else [])
            && bad == (if SpawnAnchored(es, known, tools, ev) && !ReturnsName(es, ev.spawnId, ev.child)
                       then {ev.spawnId} else {})
  {
    ClashingIff(es, ev.spawnId);
    MissingNone(ev.parent, ev.child, known);
    if SpawnAnchored(es, known, tools, ev) { WrongIffMisnaming(es, ev.spawnId, ev.child); }
  }

  ghost predicate SpawnFrom(es: seq<Event>, known: set<Id>, tools: Tools, k: Key, e: Edge) {
    var ev := First(es, k);
    ev.Some? && ev.value.Spawn? && e in JoinSpawn(es, ev.value, known, tools).0
  }

  ghost predicate BadFrom(es: seq<Event>, known: set<Id>, tools: Tools, k: Key, id: Id) {
    var ev := First(es, k);
    ev.Some? && ev.value.Spawn? && id in JoinSpawn(es, ev.value, known, tools).2
  }

  lemma {:induction false} SpawnLast(es: seq<Event>, keys: seq<Key>, known: set<Id>, tools: Tools, e: Edge)
    requires keys != []
    ensures e in JoinSpawns(es, keys, known, tools).0
            <==> e in JoinSpawns(es, keys[..|keys| - 1], known, tools).0
                 || SpawnFrom(es, known, tools, keys[|keys| - 1], e)
  {
  }

  lemma {:induction false} SpawnElements(es: seq<Event>, keys: seq<Key>, known: set<Id>, tools: Tools, e: Edge)
    ensures e in JoinSpawns(es, keys, known, tools).0
            <==> exists k :: k in keys && SpawnFrom(es, known, tools, k, e)
  {
    if keys != [] {
      SpawnElements(es, keys[..|keys| - 1], known, tools, e);
      SpawnLast(es, keys, known, tools, e);
      forall k ensures k in keys <==> k in keys[..|keys| - 1] || k == keys[|keys| - 1] { InFrontOrLast(keys, k); }
    }
  }

  lemma {:induction false} BadLast(es: seq<Event>, keys: seq<Key>, known: set<Id>, tools: Tools, id: Id)
    requires keys != []
    ensures id in JoinSpawns(es, keys, known, tools).2
            <==> id in JoinSpawns(es, keys[..|keys| - 1], known, tools).2
                 || BadFrom(es, known, tools, keys[|keys| - 1], id)
  {
  }

  lemma {:induction false} BadElements(es: seq<Event>, keys: seq<Key>, known: set<Id>, tools: Tools, id: Id)
    ensures id in JoinSpawns(es, keys, known, tools).2
            <==> exists k :: k in keys && BadFrom(es, known, tools, k, id)
  {
    if keys != [] {
      BadElements(es, keys[..|keys| - 1], known, tools, id);
      BadLast(es, keys, known, tools, id);
      forall k ensures k in keys <==> k in keys[..|keys| - 1] || k == keys[|keys| - 1] { InFrontOrLast(keys, k); }
    }
  }

  /** Under agreement any spawn record of an id stands for all of them. */
  lemma {:induction false} AnchoredFirst(es: seq<Event>, known: set<Id>, tools: Tools, ev: Event)
    requires SpawnAnchored(es, known, tools, ev)
    ensures First(es, KeyOf(ev)) == Some(ev)
    ensures KeyOf(ev) in KeysSeen(es, Spawns)
  {
    FirstExists(es, ev);
    KeysSeenElements(es, Spawns);
    assert Same(First(es, KeyOf(ev)).value, ev);
  }

  lemma {:induction false} SpawnEdgesExact(es: seq<Event>, known: set<Id>, tools: Tools, e: Edge)
    ensures e in JoinSpawns(es, KeysSeen(es, Spawns), known, tools).0
            <==> exists ev :: SpawnJoined(es, known, tools, ev)
                              && e == SpawnOf(ev, AttemptsFor(es, ev.spawnId, ev.child))
  {
    SpawnElements(es, KeysSeen(es, Spawns), known, tools, e);
    if e in JoinSpawns(es, KeysSeen(es, Spawns), known, tools).0 {
      var k :| k in KeysSeen(es, Spawns) && SpawnFrom(es, known, tools, k, e);
      FirstHasKey(es, k);
      JoinSpawnMeans(es, known, tools, First(es, k).value);
    }
    if exists ev :: SpawnJoined(es, known, tools, ev) && e == SpawnOf(ev, AttemptsFor(es, ev.spawnId, ev.child)) {
      var ev :| SpawnJoined(es, known, tools, ev) && e == SpawnOf(ev, AttemptsFor(es, ev.spawnId, ev.child));
      AnchoredFirst(es, known, tools, ev);
      JoinSpawnMeans(es, known, tools, ev);
      assert SpawnFrom(es, known, tools, KeyOf(ev), e);
    }
  }

  lemma {:induction false} MisnamedExact(es: seq<Event>, known: set<Id>, tools: Tools, s: Id)
    ensures s in JoinSpawns(es, KeysSeen(es, Spawns), known, tools).2 <==> Misnamed(es, known, tools, s)
  {
    BadElements(es, KeysSeen(es, Spawns), known, tools, s);
    if s in JoinSpawns(es, KeysSeen(es, Spawns), known, tools).2 {
      var k :| k in KeysSeen(es, Spawns) && BadFrom(es, known, tools, k, s);
      FirstHasKey(es, k);
      JoinSpawnMeans(es, known, tools, First(es, k).value);
    }
    if Misnamed(es, known, tools, s) {
      var ev :| SpawnAnchored(es, known, tools, ev) && ev.spawnId == s && !ReturnsName(es, s, ev.child);
      AnchoredFirst(es, known, tools, ev);
      JoinSpawnMeans(es, known, tools, ev);
      assert BadFrom(es, known, tools, KeyOf(ev), s);
    }
  }

  // ---- main result 1: the edges, declaratively ------------------------------------------

  /**
   An edge is emitted exactly when its records justify it. A transfer: all records carrying its id
   agree and both ends are known. A spawn: all records carrying its id agree, both ends are known,
   the tool is one of the parent's captured actions, and every return for it names its child.
   The contents are those of any such record.
   */
  lemma {:induction false} EdgesExact(es: seq<Event>, known: set<Id>, tools: Tools, e: Edge)
    ensures e in Edges(es, known, tools) <==>
              || (exists ev :: TransferJoined(es, known, ev) && e == TransferOf(ev))
              || (exists ev :: SpawnJoined(es, known, tools, ev)
                               && e == SpawnOf(ev, AttemptsFor(es, ev.spawnId, ev.child)))
  {
    TransferEdgesExact(es, known, e);
    SpawnEdgesExact(es, known, tools, e);
  }

  /** The attempts of an emitted spawn edge: one per recorded attempt id, its first return. */
  ghost predicate Records(attempts: seq<Attempts.Attempt>, es: seq<Event>, s: Id) {
    && Attempts.DistinctIds(attempts)
    && forall a :: a in attempts <==> First(es, ReturnKey(s, a.id)).Some?
                                      && First(es, ReturnKey(s, a.id)).value.Return?
                                      && a == AttemptOf(First(es, ReturnKey(s, a.id)).value)
  }

  lemma {:induction false} WalkDistinct(es: seq<Event>, keys: seq<Key>, s: Id, child: Id)
    requires Distinct(keys) && forall k :: k in keys ==> k.ReturnKey?
    ensures Attempts.DistinctIds(WalkReturns(es, keys, s, child).0)
  {
    if keys != [] {
      var front, k := keys[..|keys| - 1], keys[|keys| - 1];
      assert keys == front + [k];
      WalkDistinct(es, front, s, child);
      WalkElements(es, front, s, child);
      FirstHasKey(es, k);
      var r := WalkReturns(es, front, s, child).0;
      forall i | 0 <= i < |r| && k.id == s ensures r[i].id != k.attempt {
        assert r[i] in r;
        var k' :| k' in front && k'.id == s && First(es, k').Some? && First(es, k').value.Return?
                  && First(es, k').value.child == child && r[i] == AttemptOf(First(es, k').value);
        FirstHasKey(es, k');
        assert k' != k;
      }
    }
  }

  lemma {:induction false} AttemptsRecorded(es: seq<Event>, known: set<Id>, tools: Tools, ev: Event)
    requires SpawnJoined(es, known, tools, ev)
    ensures Records(AttemptsFor(es, ev.spawnId, ev.child), es, ev.spawnId)
    ensures Records(SpawnOf(ev, AttemptsFor(es, ev.spawnId, ev.child)).attempts, es, ev.spawnId)
  {
    var s, child := ev.spawnId, ev.child;
    var walked := AttemptsFor(es, s, child);
    ReturnOrderElements(es);
    WalkElements(es, ReturnOrder(es), s, child);
    WalkDistinct(es, ReturnOrder(es), s, child);
    forall a ensures a in walked <==> First(es, ReturnKey(s, a.id)).Some?
                                      && First(es, ReturnKey(s, a.id)).value.Return?
                                      && a == AttemptOf(First(es, ReturnKey(s, a.id)).value)
    {
      var k := ReturnKey(s, a.id);
      FirstHasKey(es, k);
      if a in walked {
        var k' :| k' in ReturnOrder(es) && k'.id == s && First(es, k').Some? && First(es, k').value.Return?
                  && First(es, k').value.child == child && a == AttemptOf(First(es, k').value);
        FirstHasKey(es, k');
        assert k' == k;
      } else if First(es, k).Some? && First(es, k).value.Return? {
        assert First(es, k).value in es;
      }
    }
    KeptWhole(s, walked);
  }

  /** Attempts with distinct ids pass through reconciliation whole. */
  lemma {:induction false} KeptWhole(s: Id, attempts: seq<Attempts.Attempt>)
    requires Attempts.DistinctIds(attempts)
    ensures var v := Attempts.Reconciliation(s, attempts, []);
            && v.conflicted == {} && Attempts.DistinctIds(v.merged)
            && forall a :: a in v.merged <==> a in attempts
  {
    AttemptLaws.NoAttemptLost(s, attempts, []);
    assert [] + attempts == attempts;
    Uncontradicted(attempts);
    forall a: Attempts.Attempt ensures Attempts.LastOf(attempts, a.id) == Some(a) <==> a in attempts {
      Attempts.LastOfFinds(attempts, a.id);
    }
  }

  lemma {:induction false} Uncontradicted(attempts: seq<Attempts.Attempt>)
    requires Attempts.DistinctIds(attempts)
    ensures forall id :: !Attempts.Contradicted(attempts, id)
  {
  }

  /** The status of an emitted spawn edge is earned: "unmatched", a decisive attempt's status, or "unknown". */
  lemma {:induction false} EdgeStatus(es: seq<Event>, known: set<Id>, tools: Tools, e: Edge)
    requires e in Edges(es, known, tools) && e.SpawnEdge?
    ensures Records(e.attempts, es, e.spawnId)
    ensures e.attempts == [] ==> e.returnStatus == "unmatched"
    ensures e.attempts != [] && AttemptLaws.Decisive(e.attempts) ==>
              exists m :: AttemptLaws.Final(m, e.attempts) && e.returnStatus == m.status
    ensures e.attempts != [] && !AttemptLaws.Decisive(e.attempts) ==> e.returnStatus == "unknown"
  {
    EdgesExact(es, known, tools, e);
    var ev :| SpawnJoined(es, known, tools, ev) && e == SpawnOf(ev, AttemptsFor(es, ev.spawnId, ev.child));
    AttemptsRecorded(es, known, tools, ev);
    KeptWhole(ev.spawnId, AttemptsFor(es, ev.spawnId, ev.child));
    AttemptLaws.OutcomeIsEarned(ev.spawnId, AttemptsFor(es, ev.spawnId, ev.child), []);
  }
}
