/** Laws relating several runs of `build_edges`, and the coverage it certifies. */
module LinkageLaws {
  import opened Wrappers
  import opened Sorting
  import opened Events
  import opened EventLaws

  ghost predicate SameEvents(es: seq<Event>, fs: seq<Event>) { forall ev :: ev in es <==> ev in fs }

  ghost predicate SameEdges(es: seq<Event>, fs: seq<Event>, known: set<Id>, tools: Tools) {
    forall e :: e in Edges(es, known, tools) <==> e in Edges(fs, known, tools)
  }

  lemma {:induction false} ConflictedExact(es: seq<Event>, known: set<Id>, tools: Tools, id: Id)
    ensures id in Conflicted(es, known, tools) <==> !Agreed(es, id) || Misnamed(es, known, tools, id)
  {
    ClashingIff(es, id);
    MisnamedExact(es, known, tools, id);
  }

  lemma {:induction false} InvalidatedExact(es: seq<Event>, known: set<Id>, tools: Tools, rel: (Kind, Id))
    ensures IsInvalidated(es, known, tools, rel) <==>
              && (!Agreed(es, rel.1) || Misnamed(es, known, tools, rel.1))
              && ((rel.0 == Transfers && exists ev :: ev in es && KeyOf(ev) == TransferKey(rel.1))
                  || (rel.0 == Spawns && exists ev :: ev in es && KeyOf(ev) == SpawnKey(rel.1)))
  {
    ConflictedExact(es, known, tools, rel.1);
    FirstHasKey(es, TransferKey(rel.1));
    FirstHasKey(es, SpawnKey(rel.1));
  }

  // ---- main result 2: arrival order and replays ------------------------------------------

  lemma {:induction false} SameEventsSameJoins(es: seq<Event>, fs: seq<Event>, known: set<Id>, tools: Tools)
    requires SameEvents(es, fs)
    ensures forall id :: Agreed(es, id) <==> Agreed(fs, id)
    ensures forall ev :: TransferJoined(es, known, ev) <==> TransferJoined(fs, known, ev)
    ensures forall ev :: SpawnAnchored(es, known, tools, ev) <==> SpawnAnchored(fs, known, tools, ev)
    ensures forall s, c :: ReturnsName(es, s, c) <==> ReturnsName(fs, s, c)
    ensures forall ev :: SpawnJoined(es, known, tools, ev) <==> SpawnJoined(fs, known, tools, ev)
  {
    forall id ensures Agreed(es, id) <==> Agreed(fs, id) {
      AgreedCarries(es, fs, id);
      AgreedCarries(fs, es, id);
    }
  }

  lemma {:induction false} AgreedCarries(es: seq<Event>, fs: seq<Event>, id: Id)
    requires SameEvents(es, fs)
    ensures Agreed(es, id) ==> Agreed(fs, id)
  {
  }

  /** Permuting or duplicating the events never changes which relationships are invalidated. */
  lemma {:induction false} InvalidationIgnoresOrder(es: seq<Event>, fs: seq<Event>, known: set<Id>, tools: Tools,
                                                    rel: (Kind, Id))
    requires SameEvents(es, fs)
    ensures IsInvalidated(es, known, tools, rel) <==> IsInvalidated(fs, known, tools, rel)
  {
    SameEventsSameJoins(es, fs, known, tools);
    InvalidatedExact(es, known, tools, rel);
    InvalidatedExact(fs, known, tools, rel);
  }

  /** Replays of a return under one attempt id are exact, order marker included. */
  ghost predicate Steady(es: seq<Event>, s: Id) {
    forall a, b :: a in es && b in es && a.Return? && a.spawnId == s && KeyOf(a) == KeyOf(b) ==> a == b
  }

  /** ... for every spawn that yields an edge. */
  ghost predicate SteadyReplays(es: seq<Event>, known: set<Id>, tools: Tools) {
    forall ev :: SpawnJoined(es, known, tools, ev) ==> Steady(es, ev.spawnId)
  }

  lemma {:induction false} KeyLeRanks()
    ensures Ranking(KeyLe)
    ensures forall a: Key, b: Key :: a.ReturnKey? && b.ReturnKey? && KeyLe(a, b) && KeyLe(b, a) ==> a == b
  {
    StringLeOrders();
  }

  lemma {:induction false} ReturnOrderCanonical(es: seq<Event>, fs: seq<Event>)
    requires SameEvents(es, fs)
    ensures ReturnOrder(es) == ReturnOrder(fs)
  {
    var a, b := KeysSeen(es, Returns), KeysSeen(fs, Returns);
    KeysSeenElements(es, Returns);
    KeysSeenElements(fs, Returns);
    forall k ensures k in a <==> k in b {
      FirstHasKey(es, k);
      FirstHasKey(fs, k);
    }
    SameElementsSameMultiset(a, b);
    KeyLeRanks();
    forall i, j | 0 <= i < |a| && 0 <= j < |a| && KeyLe(a[i], a[j]) && KeyLe(a[j], a[i]) ensures a[i] == a[j] {
      assert a[i] in a && a[j] in a;
    }
    SortCanonical(a, b, KeyLe);
  }

  lemma {:induction false} SteadyFirst(es: seq<Event>, fs: seq<Event>, s: Id, k: Key)
    requires SameEvents(es, fs) && Steady(es, s) && k.ReturnKey? && k.id == s
    ensures First(es, k) == First(fs, k)
  {
    FirstHasKey(es, k);
    FirstHasKey(fs, k);
    if First(es, k).Some? { assert First(fs, k).Some?; }
    if First(fs, k).Some? { assert First(es, k).Some?; }
  }

  lemma {:induction false} WalkCanonical(es: seq<Event>, fs: seq<Event>, keys: seq<Key>, s: Id, child: Id)
    requires SameEvents(es, fs) && Steady(es, s) && forall k :: k in keys ==> k.ReturnKey?
    ensures WalkReturns(es, keys, s, child) == WalkReturns(fs, keys, s, child)
  {
    if keys != [] {
      var front, k := keys[..|keys| - 1], keys[|keys| - 1];
      assert keys == front + [k];
      WalkCanonical(es, fs, front, s, child);
      if k.id == s { SteadyFirst(es, fs, s, k); }
    }
  }

  lemma {:induction false} AttemptsCanonical(es: seq<Event>, fs: seq<Event>, s: Id, child: Id)
    requires SameEvents(es, fs) && Steady(es, s)
    ensures AttemptsFor(es, s, child) == AttemptsFor(fs, s, child)
  {
    ReturnOrderCanonical(es, fs);
    ReturnOrderElements(es);
    WalkCanonical(es, fs, ReturnOrder(es), s, child);
  }

  lemma {:induction false} SteadyEdgesCarry(es: seq<Event>, fs: seq<Event>, known: set<Id>, tools: Tools, e: Edge)
    requires SameEvents(es, fs) && SteadyReplays(es, known, tools)
    ensures e in Edges(es, known, tools) <==> e in Edges(fs, known, tools)
  {
    SameEventsSameJoins(es, fs, known, tools);
    EdgesExact(es, known, tools, e);
    EdgesExact(fs, known, tools, e);
    forall ev | SpawnJoined(es, known, tools, ev)
      ensures AttemptsFor(es, ev.spawnId, ev.child) == AttemptsFor(fs, ev.spawnId, ev.child)
    {
      AttemptsCanonical(es, fs, ev.spawnId, ev.child);
    }
  }

  /** Two streams with the same edges have kept the same return for every attempt of a joined spawn. */
  lemma {:induction false} EdgeShowsFirst(es: seq<Event>, fs: seq<Event>, known: set<Id>, tools: Tools, ev: Event,
                                          k: Key)
    requires SameEvents(es, fs) && SameEdges(es, fs, known, tools)
    requires SpawnJoined(es, known, tools, ev) && k.ReturnKey? && k.id == ev.spawnId && First(es, k).Some?
    ensures First(fs, k).Some? && First(es, k).value.Return? && First(fs, k).value.Return?
    ensures AttemptOf(First(es, k).value) == AttemptOf(First(fs, k).value)
  {
    var e := SpawnOf(ev, AttemptsFor(es, ev.spawnId, ev.child));
    EdgesExact(es, known, tools, e);
    AttemptsRecorded(es, known, tools, ev);
    EmittedRecords(fs, known, tools, e);
    FirstHasKey(es, k);
    var a := AttemptOf(First(es, k).value);
    assert a in e.attempts && ReturnKey(ev.spawnId, a.id) == k;
  }

  lemma {:induction false} EmittedRecords(es: seq<Event>, known: set<Id>, tools: Tools, e: Edge)
    requires e in Edges(es, known, tools) && e.SpawnEdge?
    ensures Records(e.attempts, es, e.spawnId)
  {
    EdgesExact(es, known, tools, e);
    var ev :| SpawnJoined(es, known, tools, ev) && e == SpawnOf(ev, AttemptsFor(es, ev.spawnId, ev.child));
    AttemptsRecorded(es, known, tools, ev);
  }

  /** Delivering one replay earlier shows that it was not exact. */
  lemma {:induction false} UnsteadyDiffers(es: seq<Event>, known: set<Id>, tools: Tools, ev: Event, b: Event)
    requires SpawnJoined(es, known, tools, ev) && b in es && b.Return? && b.spawnId == ev.spawnId
    requires SameEdges(es, [b] + es, known, tools)
    ensures First(es, KeyOf(b)) == Some(b)
  {
    var fs := [b] + es;
    FirstExists(es, b);
    EdgeShowsFirst(es, fs, known, tools, ev, KeyOf(b));
    FirstOfPrepended(b, es);
    assert Same(First(es, KeyOf(b)).value, b);
  }

  lemma {:induction false} FirstOfPrepended(b: Event, es: seq<Event>)
    ensures First([b] + es, KeyOf(b)) == Some(b)
  {
    if es == [] {
      assert [b] + es == [b] && [b][..0] == [];
    } else {
      FirstOfPrepended(b, es[..|es| - 1]);
      assert ([b] + es)[..|es|] == [b] + es[..|es| - 1];
    }
  }

  /**
   The edges depend only on which events were recorded, not on their order or multiplicity, exactly
   when every replayed return of a joined spawn also repeats its order marker, the one field the
   replay test leaves out.
   */
  lemma {:induction false} EdgesIgnoreOrderIff(es: seq<Event>, known: set<Id>, tools: Tools)
    ensures (forall fs :: SameEvents(es, fs) ==> SameEdges(es, fs, known, tools))
            <==> SteadyReplays(es, known, tools)
  {
    if SteadyReplays(es, known, tools) {
      forall fs | SameEvents(es, fs) ensures SameEdges(es, fs, known, tools) {
        forall e { SteadyEdgesCarry(es, fs, known, tools, e); }
      }
    }
    if forall fs :: SameEvents(es, fs) ==> SameEdges(es, fs, known, tools) {
      forall ev | SpawnJoined(es, known, tools, ev) ensures Steady(es, ev.spawnId) {
        OrderFreeIsSteady(es, known, tools, ev);
      }
    }
  }

  lemma {:induction false} OrderFreeIsSteady(es: seq<Event>, known: set<Id>, tools: Tools, ev: Event)
    requires SpawnJoined(es, known, tools, ev)
    requires forall fs :: SameEvents(es, fs) ==> SameEdges(es, fs, known, tools)
    ensures Steady(es, ev.spawnId)
  {
    forall a, b | a in es && b in es && a.Return? && a.spawnId == ev.spawnId && KeyOf(a) == KeyOf(b)
      ensures a == b
    {
      SteadyReturn(es, known, tools, ev, a);
      SteadyReturn(es, known, tools, ev, b);
    }
  }

  lemma {:induction false} SteadyReturn(es: seq<Event>, known: set<Id>, tools: Tools, ev: Event, b: Event)
    requires SpawnJoined(es, known, tools, ev)
    requires forall fs :: SameEvents(es, fs) ==> SameEdges(es, fs, known, tools)
    requires b in es && b.Return? && b.spawnId == ev.spawnId
    ensures First(es, KeyOf(b)) == Some(b)
  {
    assert SameEvents(es, [b] + es);
    UnsteadyDiffers(es, known, tools, ev, b);
  }

  /**
   A stream on which order matters: a return replayed with another order marker. Whichever of the two is
   read first is the one whose marker the edge carries.
   */
  lemma {:induction false} MarkerDependsOnOrder(s: Id, p: Id, t: Id, c: Id, a: Id)
    ensures var spawn := Spawn(s, p, t, c);
            var one := Return(s, a, c, "returned", None, None, Some(1));
            var two := Return(s, a, c, "returned", None, None, Some(2));
            && SameEvents([spawn, one, two], [spawn, two, one])
            && !SameEdges([spawn, one, two], [spawn, two, one], {p, c}, None)
  {
    var spawn := Spawn(s, p, t, c);
    var one, two := Return(s, a, c, "returned", None, None, Some(1)), Return(s, a, c, "returned", None, None, Some(2));
    var es, fs := [spawn, one, two], [spawn, two, one];
    var k := ReturnKey(s, a);
    assert forall ev :: ev in es <==> ev == spawn || ev == one || ev == two;
    assert forall ev :: ev in fs <==> ev == spawn || ev == one || ev == two;
    FirstOfThree(spawn, one, two, k);
    FirstOfThree(spawn, two, one, k);
    assert SpawnJoined(es, {p, c}, None, spawn);
    if SameEdges(es, fs, {p, c}, None) { EdgeShowsFirst(es, fs, {p, c}, None, spawn, k); }
  }

  lemma {:induction false} FirstOfThree(a: Event, b: Event, c: Event, k: Key)
    requires KeyOf(a) != k && KeyOf(b) == k
    ensures First([a, b, c], k) == Some(b)
  {
    var es := [a, b, c];
    assert es[..2] == [a, b] && [a, b][..1] == [a] && [a][..0] == [];
    assert First([a], k) == None;
    assert First([a, b], k) == Some(b);
  }

  // ---- main result 3: later events ----------------------------------------------------------

  lemma {:induction false} FirstPersists(es: seq<Event>, more: seq<Event>, k: Key)
    requires First(es, k).Some?
    ensures First(es + more, k) == First(es, k)
  {
    if more == [] {
      assert es + more == es;
    } else {
      FirstPersists(es, more[..|more| - 1], k);
      assert (es + more)[..|es + more| - 1] == es + more[..|more| - 1];
    }
  }

  /** Once invalidated, a relationship stays invalidated, whatever is appended. */
  lemma {:induction false} InvalidationPersists(es: seq<Event>, more: seq<Event>, known: set<Id>, tools: Tools,
                                                rel: (Kind, Id))
    requires IsInvalidated(es, known, tools, rel)
    ensures IsInvalidated(es + more, known, tools, rel)
  {
    InvalidatedExact(es, known, tools, rel);
    InvalidatedExact(es + more, known, tools, rel);
    if Agreed(es + more, rel.1) {
      var ev :| SpawnAnchored(es, known, tools, ev) && ev.spawnId == rel.1 && !ReturnsName(es, rel.1, ev.child);
      assert SpawnAnchored(es + more, known, tools, ev);
      assert !ReturnsName(es + more, rel.1, ev.child);
    }
  }

  function Relation(e: Edge): (Kind, Id) {
    match e
    case TransferEdge(id, _, _, _, _, _, _, _) => (Transfers, id)
    case SpawnEdge(id, _, _, _, _, _) => (Spawns, id)
  }

  /** The same relationship, with at least the attempts it had. */
  ghost predicate Continues(e: Edge, f: Edge) {
    match e
    case TransferEdge(_, _, _, _, _, _, _, _) => f == e
    case SpawnEdge(id, p, c, t, attempts, _) =>
      && f.SpawnEdge? && f.spawnId == id && f.parent == p && f.child == c && f.tool == t
      && forall a :: a in attempts ==> a in f.attempts
  }

  /** An edge once emitted is carried on, with at least the same attempts, or explicitly invalidated. */
  lemma {:induction false} EdgeSurvivesOrFalls(es: seq<Event>, more: seq<Event>, known: set<Id>, tools: Tools, e: Edge)
    requires e in Edges(es, known, tools)
    ensures || IsInvalidated(es + more, known, tools, Relation(e))
            || exists f :: f in Edges(es + more, known, tools) && Continues(e, f)
  {
    var all := es + more;
    EdgesExact(es, known, tools, e);
    InvalidatedExact(all, known, tools, Relation(e));
    if e.TransferEdge? {
      var ev :| TransferJoined(es, known, ev) && e == TransferOf(ev);
      EdgesExact(all, known, tools, e);
      assert ev in all && KeyOf(ev) == TransferKey(Relation(e).1);
      assert Agreed(all, ev.eventId) ==> TransferJoined(all, known, ev);
      assert Continues(e, e);
    } else {
      var ev :| SpawnJoined(es, known, tools, ev) && e == SpawnOf(ev, AttemptsFor(es, ev.spawnId, ev.child));
      assert ev in all && KeyOf(ev) == SpawnKey(Relation(e).1);
      if Agreed(all, ev.spawnId) {
        assert SpawnAnchored(all, known, tools, ev);
        if ReturnsName(all, ev.spawnId, ev.child) { SpawnContinues(es, more, known, tools, ev); }
      }
    }
  }

  lemma {:induction false} SpawnContinues(es: seq<Event>, more: seq<Event>, known: set<Id>, tools: Tools, ev: Event)
    requires SpawnJoined(es, known, tools, ev) && SpawnJoined(es + more, known, tools, ev)
    ensures var e := SpawnOf(ev, AttemptsFor(es, ev.spawnId, ev.child));
            var f := SpawnOf(ev, AttemptsFor(es + more, ev.spawnId, ev.child));
            f in Edges(es + more, known, tools) && Continues(e, f)
  {
    var all, s := es + more, ev.spawnId;
    var e, f := SpawnOf(ev, AttemptsFor(es, s, ev.child)), SpawnOf(ev, AttemptsFor(all, s, ev.child));
    EdgesExact(all, known, tools, f);
    AttemptsRecorded(es, known, tools, ev);
    AttemptsRecorded(all, known, tools, ev);
    forall a | a in e.attempts ensures a in f.attempts {
      FirstPersists(es, more, ReturnKey(s, a.id));
    }
  }

  // ---- emitted and invalidated at once --------------------------------------------------------

  lemma {:induction false} JoinedNotMisnamed(es: seq<Event>, known: set<Id>, tools: Tools, ev: Event)
    requires SpawnJoined(es, known, tools, ev)
    ensures !Misnamed(es, known, tools, ev.spawnId)
  {
    forall w | SpawnAnchored(es, known, tools, w) && w.spawnId == ev.spawnId
      ensures ReturnsName(es, ev.spawnId, w.child)
    {
      assert KeyOf(w) == KeyOf(ev);
      assert Same(w, ev);
    }
  }

  /**
   An emitted edge is never listed as invalidated, except for one collision: a transfer whose event id
   is also the id of a spawn with a return naming another child, because both kinds share one set
   of conflicted ids and the transfer has already been emitted when that spawn is examined.
   */
  lemma {:induction false} EmittedAndInvalidatedIff(es: seq<Event>, known: set<Id>, tools: Tools, e: Edge)
    requires e in Edges(es, known, tools)
    ensures IsInvalidated(es, known, tools, Relation(e))
            <==> e.TransferEdge? && Misnamed(es, known, tools, e.eventId)
  {
    EdgesExact(es, known, tools, e);
    InvalidatedExact(es, known, tools, Relation(e));
    if e.SpawnEdge? {
      var ev :| SpawnJoined(es, known, tools, ev) && e == SpawnOf(ev, AttemptsFor(es, ev.spawnId, ev.child));
      JoinedNotMisnamed(es, known, tools, ev);
    } else {
      var ev :| TransferJoined(es, known, ev) && e == TransferOf(ev);
      assert ev in es && KeyOf(ev) == TransferKey(Relation(e).1);
    }
  }

  /** Such a collision: a transfer and a spawn under one id, and a return that names another child. */
  lemma {:induction false} CollisionExample(x: Id, p: Id, t: Id, c: Id, a: Id, d: Id)
    requires c != d
    ensures var transfer := Supplied(x, p, "out", c, "in", Literal, None);
            var es := [transfer, Spawn(x, p, t, c), Return(x, a, d, "returned", None, None, None)];
            TransferOf(transfer) in Edges(es, {p, c}, None) && IsInvalidated(es, {p, c}, None, (Transfers, x))
  {
    var transfer := Supplied(x, p, "out", c, "in", Literal, None);
    var spawn, ret := Spawn(x, p, t, c), Return(x, a, d, "returned", None, None, None);
    var es := [transfer, spawn, ret];
    assert forall ev :: ev in es <==> ev == transfer || ev == spawn || ev == ret;
    assert TransferJoined(es, {p, c}, transfer);
    assert SpawnAnchored(es, {p, c}, None, spawn) && !ReturnsName(es, x, c);
    EdgesExact(es, {p, c}, None, TransferOf(transfer));
    EmittedAndInvalidatedIff(es, {p, c}, None, TransferOf(transfer));
  }

  // ---- main result 4: the coverage certificate ------------------------------------------------

  /** The relationship an event records is present in the output; a spawn's is only once a return is attached. */
  ghost predicate Represented(edges: seq<Edge>, ev: Event) {
    match ev
    case Supplied(_, _, _, _, _, _, _) => TransferOf(ev) in edges
    case Spawn(s, p, t, c) =>
      exists e :: e in edges && e.SpawnEdge? && e.spawnId == s && e.parent == p && e.tool == t && e.child == c
                  && e.attempts != []
    case Return(s, a, c, st, r, x, _) =>
      exists e, m :: e in edges && e.SpawnEdge? && e.spawnId == s && e.child == c
                     && m in e.attempts && m.id == a && m.status == st && m.resultRef == r && m.error == x
  }

  ghost predicate TransferGapFrom(es: seq<Event>, known: set<Id>, k: Key, g: Gap) {
    var ev := First(es, k);
    ev.Some? && ev.value.Supplied? && g in JoinTransfer(ev.value, known, AllClashing(es)).1
  }

  ghost predicate SpawnGapFrom(es: seq<Event>, known: set<Id>, tools: Tools, k: Key, g: Gap) {
    var ev := First(es, k);
    ev.Some? && ev.value.Spawn? && g in JoinSpawn(es, ev.value, known, tools).1
  }

  ghost predicate OrphanFrom(es: seq<Event>, k: Key, g: Gap) {
    First(es, k).Some? && First(es, SpawnKey(k.id)).None? && g == Gap(First(es, k).value, NoSpawn)
  }

  lemma {:induction false} TransferGaps(es: seq<Event>, keys: seq<Key>, known: set<Id>, g: Gap)
    ensures g in JoinTransfers(es, keys, known).1 <==> exists k :: k in keys && TransferGapFrom(es, known, k, g)
  {
    if keys != [] {
      var front, k := keys[..|keys| - 1], keys[|keys| - 1];
      TransferGaps(es, front, known, g);
      assert keys == front + [k];
      assert g in JoinTransfers(es, keys, known).1
             <==> g in JoinTransfers(es, front, known).1 || TransferGapFrom(es, known, k, g);
    }
  }

  lemma {:induction false} SpawnGaps(es: seq<Event>, keys: seq<Key>, known: set<Id>, tools: Tools, g: Gap)
    ensures g in JoinSpawns(es, keys, known, tools).1
            <==> exists k :: k in keys && SpawnGapFrom(es, known, tools, k, g)
  {
    if keys != [] {
      var front, k := keys[..|keys| - 1], keys[|keys| - 1];
      SpawnGaps(es, front, known, tools, g);
      assert keys == front + [k];
      assert g in JoinSpawns(es, keys, known, tools).1
             <==> g in JoinSpawns(es, front, known, tools).1 || SpawnGapFrom(es, known, tools, k, g);
    }
  }

  lemma {:induction false} OrphanGaps(es: seq<Event>, keys: seq<Key>, g: Gap)
    ensures g in Orphans(es, keys) <==> exists k :: k in keys && OrphanFrom(es, k, g)
  {
    if keys != [] {
      var front, k := keys[..|keys| - 1], keys[|keys| - 1];
      OrphanGaps(es, front, g);
      assert keys == front + [k];
      assert g in Orphans(es, keys) <==> g in Orphans(es, front) || OrphanFrom(es, k, g);
    }
  }

  lemma {:induction false} ClashGapMeans(es: seq<Event>, kind: Kind)
    ensures forall g :: g in ClashGaps(es, kind) ==> g.event in es && KeyOf(g.event).id in Clashing(es, kind)
    ensures Clashing(es, kind) != {} ==> ClashGaps(es, kind) != []
  {
    if es != [] {
      ClashGapMeans(es[..|es| - 1], kind);
      assert es == es[..|es| - 1] + [es[|es| - 1]];
    }
  }

  /** A represented event's id is uncontested, and its join is the one emitted. */
  lemma {:induction false} RepresentedMeans(es: seq<Event>, known: set<Id>, tools: Tools, ev: Event) returns (j: Event)
    requires Represented(Edges(es, known, tools), ev)
    ensures Agreed(es, KeyOf(ev).id)
    ensures ev.Supplied? ==> TransferJoined(es, known, j) && TransferOf(j) == TransferOf(ev)
    ensures !ev.Supplied? ==> SpawnJoined(es, known, tools, j) && j.spawnId == ev.spawnId && j.child == ev.child
    ensures ev.Spawn? ==> j == ev && SpawnOf(ev, AttemptsFor(es, ev.spawnId, ev.child)).attempts != []
  {
    if ev.Supplied? {
      EdgesExact(es, known, tools, TransferOf(ev));
      j :| TransferJoined(es, known, j) && TransferOf(ev) == TransferOf(j);
    } else {
      var e :| e in Edges(es, known, tools) && e.SpawnEdge? && e.spawnId == ev.spawnId && e.child == ev.child
               && (ev.Spawn? ==> e.parent == ev.parent && e.tool == ev.tool && e.attempts != []);
      EdgesExact(es, known, tools, e);
      j :| SpawnJoined(es, known, tools, j) && e == SpawnOf(j, AttemptsFor(es, j.spawnId, j.child));
    }
  }

  lemma {:induction false} TransferGapUnrepresented(es: seq<Event>, known: set<Id>, tools: Tools, k: Key, g: Gap)
    requires TransferGapFrom(es, known, k, g)
    ensures g.event in es && !Represented(Edges(es, known, tools), g.event)
  {
    FirstHasKey(es, k);
    var ev := First(es, k).value;
    MissingNone(ev.producer, ev.consumer, known);
    if Represented(Edges(es, known, tools), ev) { var j := RepresentedMeans(es, known, tools, ev); }
  }

  lemma {:induction false} SpawnGapUnrepresented(es: seq<Event>, known: set<Id>, tools: Tools, k: Key, g: Gap)
    requires SpawnGapFrom(es, known, tools, k, g)
    ensures g.event in es && !Represented(Edges(es, known, tools), g.event)
  {
    FirstHasKey(es, k);
    var ev := First(es, k).value;
    JoinSpawnMeans(es, known, tools, ev);
    MissingNone(ev.parent, ev.child, known);
    ClashingIff(es, ev.spawnId);
    WalkElements(es, ReturnOrder(es), ev.spawnId, ev.child);
    if SpawnAnchored(es, known, tools, ev) { WrongIffMisnaming(es, ev.spawnId, ev.child); }
    if Represented(Edges(es, known, tools), g.event) {
      var j := RepresentedMeans(es, known, tools, g.event);
      if SpawnAnchored(es, known, tools, ev) && g.event.Return? {
        AnchoredFirst(es, known, tools, ev);
        AnchoredFirst(es, known, tools, j);
      }
    }
  }

  lemma {:induction false} GapMeansUnrepresented(es: seq<Event>, known: set<Id>, tools: Tools, g: Gap)
    requires g in Unresolved(es, known, tools)
    ensures g.event in es && !Represented(Edges(es, known, tools), g.event)
  {
    TransferGaps(es, KeysSeen(es, Transfers), known, g);
    SpawnGaps(es, KeysSeen(es, Spawns), known, tools, g);
    OrphanGaps(es, KeysSeen(es, Returns), g);
    if g in JoinTransfers(es, KeysSeen(es, Transfers), known).1 {
      var k :| k in KeysSeen(es, Transfers) && TransferGapFrom(es, known, k, g);
      TransferGapUnrepresented(es, known, tools, k, g);
    } else if g in JoinSpawns(es, KeysSeen(es, Spawns), known, tools).1 {
      var k :| k in KeysSeen(es, Spawns) && SpawnGapFrom(es, known, tools, k, g);
      SpawnGapUnrepresented(es, known, tools, k, g);
    } else if g in Orphans(es, KeysSeen(es, Returns)) {
      var k :| k in KeysSeen(es, Returns) && OrphanFrom(es, k, g);
      OrphanUnrepresented(es, known, tools, k, g);
    } else {
      ClashUnrepresented(es, known, tools, g);
    }
  }

  lemma {:induction false} OrphanUnrepresented(es: seq<Event>, known: set<Id>, tools: Tools, k: Key, g: Gap)
    requires k in KeysSeen(es, Returns) && OrphanFrom(es, k, g)
    ensures g.event in es && !Represented(Edges(es, known, tools), g.event)
  {
    KeysSeenElements(es, Returns);
    FirstHasKey(es, k);
    FirstHasKey(es, SpawnKey(k.id));
    if Represented(Edges(es, known, tools), g.event) { var j := RepresentedMeans(es, known, tools, g.event); }
  }

  lemma {:induction false} ClashUnrepresented(es: seq<Event>, known: set<Id>, tools: Tools, g: Gap)
    requires g in ClashGaps(es, Spawns) + ClashGaps(es, Returns) + ClashGaps(es, Transfers)
    ensures g.event in es && !Represented(Edges(es, known, tools), g.event)
  {
    ClashGapMeans(es, Spawns);
    ClashGapMeans(es, Returns);
    ClashGapMeans(es, Transfers);
    ClashingIff(es, KeyOf(g.event).id);
    if Represented(Edges(es, known, tools), g.event) { var j := RepresentedMeans(es, known, tools, g.event); }
  }

  // The other half: with no gap at all, every event is represented.

  lemma {:induction false} NoGapNoClash(es: seq<Event>, known: set<Id>, tools: Tools, id: Id)
    requires Unresolved(es, known, tools) == []
    ensures Agreed(es, id) && id !in AllClashing(es)
  {
    ClashGapMeans(es, Spawns);
    ClashGapMeans(es, Returns);
    ClashGapMeans(es, Transfers);
    ClashingIff(es, id);
  }

  lemma {:induction false} NoGapTransfer(es: seq<Event>, known: set<Id>, tools: Tools, ev: Event)
    requires Unresolved(es, known, tools) == [] && ev in es && ev.Supplied?
    ensures Represented(Edges(es, known, tools), ev)
  {
    FirstExists(es, ev);
    KeysSeenElements(es, Transfers);
    NoGapNoClash(es, known, tools, ev.eventId);
    assert Same(First(es, KeyOf(ev)).value, ev);
    var f := First(es, KeyOf(ev)).value;
    MissingNone(f.producer, f.consumer, known);
    var g := Gap(f, Absent(Missing([f.producer, f.consumer], known)));
    TransferGaps(es, KeysSeen(es, Transfers), known, g);
    assert KeyOf(ev) in KeysSeen(es, Transfers) && !TransferGapFrom(es, known, KeyOf(ev), g);
    EdgesExact(es, known, tools, TransferOf(ev));
  }

  lemma {:induction false} NoGapSpawn(es: seq<Event>, known: set<Id>, tools: Tools, ev: Event)
    requires Unresolved(es, known, tools) == [] && ev in es && ev.Spawn?
    ensures SpawnJoined(es, known, tools, ev)
    ensures SpawnOf(ev, AttemptsFor(es, ev.spawnId, ev.child)) in Edges(es, known, tools)
    ensures SpawnOf(ev, AttemptsFor(es, ev.spawnId, ev.child)).attempts != []
  {
    FirstExists(es, ev);
    KeysSeenElements(es, Spawns);
    NoGapNoClash(es, known, tools, ev.spawnId);
    assert Same(First(es, KeyOf(ev)).value, ev);
    assert First(es, KeyOf(ev)) == Some(ev);
    var gaps := JoinSpawn(es, ev, known, tools).1;
    forall g ensures g !in gaps {
      SpawnGaps(es, KeysSeen(es, Spawns), known, tools, g);
      assert KeyOf(ev) in KeysSeen(es, Spawns) && !SpawnGapFrom(es, known, tools, KeyOf(ev), g);
    }
    EmptyOrNot(gaps);
    JoinSpawnMeans(es, known, tools, ev);
    MissingNone(ev.parent, ev.child, known);
    if SpawnAnchored(es, known, tools, ev) { WrongIffMisnaming(es, ev.spawnId, ev.child); }
    EdgesExact(es, known, tools, SpawnOf(ev, AttemptsFor(es, ev.spawnId, ev.child)));
  }

  lemma {:induction false} EmptyOrNot(gaps: seq<Gap>)
    ensures gaps == [] || exists g :: g in gaps
  {
    if gaps != [] { assert gaps[0] in gaps; }
  }

  lemma {:induction false} NoGapReturn(es: seq<Event>, known: set<Id>, tools: Tools, r: Event)
    requires Unresolved(es, known, tools) == [] && r in es && r.Return?
    ensures Represented(Edges(es, known, tools), r)
  {
    FirstExists(es, r);
    KeysSeenElements(es, Returns);
    NoGapNoClash(es, known, tools, r.spawnId);
    var f := First(es, KeyOf(r)).value;
    assert Same(f, r);
    OrphanGaps(es, KeysSeen(es, Returns), Gap(f, NoSpawn));
    assert KeyOf(r) in KeysSeen(es, Returns) && !OrphanFrom(es, KeyOf(r), Gap(f, NoSpawn));
    FirstHasKey(es, SpawnKey(r.spawnId));
    var ev := First(es, SpawnKey(r.spawnId)).value;
    NoGapSpawn(es, known, tools, ev);
    AttemptsRecorded(es, known, tools, ev);
    var e := SpawnOf(ev, AttemptsFor(es, ev.spawnId, ev.child));
    assert AttemptOf(f) in e.attempts && e in Edges(es, known, tools);
  }

  /**
   The certificate is exact: nothing is reported unresolved exactly when every single event is
   represented by an emitted edge, and each reported gap names an event that is not.
   */
  lemma {:induction false} CompleteIffRepresented(es: seq<Event>, known: set<Id>, tools: Tools)
    ensures Unresolved(es, known, tools) == []
            <==> forall ev :: ev in es ==> Represented(Edges(es, known, tools), ev)
  {
    var gaps := Unresolved(es, known, tools);
    if gaps == [] {
      forall ev | ev in es ensures Represented(Edges(es, known, tools), ev) {
        match ev
        case Supplied(_, _, _, _, _, _, _) => NoGapTransfer(es, known, tools, ev);
        case Return(_, _, _, _, _, _, _) => NoGapReturn(es, known, tools, ev);
        case Spawn(_, _, _, _) =>
          NoGapSpawn(es, known, tools, ev);
          assert SpawnOf(ev, AttemptsFor(es, ev.spawnId, ev.child)).SpawnEdge?;
      }
    } else {
      assert gaps[0] in gaps;
      GapMeansUnrepresented(es, known, tools, gaps[0]);
    }
  }
}
