/**
 What edges, gaps and statistics hold, field by field (interface/geak_trace_events.py, build_edges). Everything
 here is said in terms of the recorded events alone.
 */
module EventContents {
  import opened Wrappers
  import opened Sequences
  import opened Events
  import opened EventLaws
  import opened LinkageLaws
  import Attempts
  import AttemptLaws

  // ---- which records contradict each other ---------------------------------------------------

  /** Two records of one spawn, of one return or of one transfer that do not say the same. */
  ghost predicate Contradict(a: Event, b: Event) {
    || (a.Spawn? && b.Spawn? && a.spawnId == b.spawnId
        && (a.parent != b.parent || a.child != b.child || a.tool != b.tool))
    || (a.Return? && b.Return? && a.spawnId == b.spawnId && a.attempt == b.attempt
        && (a.child != b.child || a.status != b.status || a.resultRef != b.resultRef || a.error != b.error))
    || (a.Supplied? && b.Supplied? && a.eventId == b.eventId
        && (a.producer != b.producer || a.consumer != b.consumer || a.producerRef != b.producerRef
            || a.consumerRef != b.consumerRef || a.forwarding != b.forwarding
            || a.transformation != b.transformation))
  }

  predicate Carries(ev: Event, id: Id) { if ev.Supplied? then ev.eventId == id else ev.spawnId == id }

  /** No two records that carry the id contradict each other. */
  ghost predicate Consistent(es: seq<Event>, id: Id) {
    forall a, b :: a in es && b in es && Carries(a, id) && Carries(b, id) ==> !Contradict(a, b)
  }

  lemma {:induction false} ContradictIff(a: Event, b: Event)
    ensures Contradict(a, b) <==> KeyOf(a) == KeyOf(b) && !Same(a, b)
    ensures Contradict(a, b) ==> KeyOf(a).id == KeyOf(b).id
  {
  }

  lemma {:induction false} CarriesIff(ev: Event, id: Id)
    ensures Carries(ev, id) <==> KeyOf(ev).id == id
  {
  }

  lemma {:induction false} ConsistentIff(es: seq<Event>, id: Id)
    ensures Consistent(es, id) <==> Agreed(es, id)
  {
    forall a, b ensures Contradict(a, b) <==> KeyOf(a) == KeyOf(b) && !Same(a, b) { ContradictIff(a, b); }
    forall ev ensures Carries(ev, id) <==> KeyOf(ev).id == id { CarriesIff(ev, id); }
  }

  // ---- edges ------------------------------------------------------------------------------------

  /** The edge that a transfer record stands for, field by field. */
  ghost predicate SaysTransfer(ev: Event, e: Edge) {
    && ev.Supplied? && e.TransferEdge? && e.eventId == ev.eventId
    && e.producer == ev.producer && e.producerRef == ev.producerRef
    && e.consumer == ev.consumer && e.consumerRef == ev.consumerRef
    && e.forwarding == ev.forwarding && e.transformation == ev.transformation
    && (e.transformationKnown <==> ev.transformation.Some? && ev.transformation.value != "")
  }

  lemma {:induction false} SaysIff(ev: Event, e: Edge)
    requires ev.Supplied?
    ensures SaysTransfer(ev, e) <==> e == TransferOf(ev)
  {
  }

  /** A transfer edge is emitted exactly if some record says it, no record contradicts it, and both ends are known. */
  lemma {:induction false} TransferContents(es: seq<Event>, known: set<Id>, tools: Tools, e: Edge)
    requires e.TransferEdge?
    ensures e in Edges(es, known, tools) <==>
            exists ev :: ev in es && SaysTransfer(ev, e) && Consistent(es, e.eventId)
                         && e.producer in known && e.consumer in known
  {
    EdgesExact(es, known, tools, e);
    ConsistentIff(es, e.eventId);
    if e in Edges(es, known, tools) {
      var ev :| TransferJoined(es, known, ev) && e == TransferOf(ev);
      SaysIff(ev, e);
    }
    if ev :| ev in es && SaysTransfer(ev, e) && Consistent(es, e.eventId) && e.producer in known
             && e.consumer in known
    {
      SaysIff(ev, e);
      assert TransferJoined(es, known, ev);
    }
  }

  /** The tool is one of those captured for the parent, where captures are known at all. */
  ghost predicate Captured(tools: Tools, parent: Id, tool: Id) {
    tools.Some? ==> parent in tools.value && tool in tools.value[parent]
  }

  /** There is a spawn edge with these four ends, whatever else it holds. */
  ghost predicate SpawnEdgeBetween(edges: seq<Edge>, s: Id, parent: Id, tool: Id, child: Id) {
    exists e :: e in edges && e.SpawnEdge? && e.spawnId == s && e.parent == parent && e.tool == tool && e.child == child
  }

  /**
   There is one exactly if a record says so, no record contradicts it, both ends are known, the tool was captured
   and no return for it names another child.
   */
  lemma {:induction false} SpawnContents(es: seq<Event>, known: set<Id>, tools: Tools, s: Id, parent: Id, tool: Id,
                                         child: Id)
    ensures SpawnEdgeBetween(Edges(es, known, tools), s, parent, tool, child) <==>
            && Spawn(s, parent, tool, child) in es && Consistent(es, s)
            && parent in known && child in known && Captured(tools, parent, tool)
            && (forall r :: r in es && r.Return? && r.spawnId == s ==> r.child == child)
  {
    var ev := Spawn(s, parent, tool, child);
    ConsistentIff(es, s);
    if SpawnEdgeBetween(Edges(es, known, tools), s, parent, tool, child) {
      var e :| e in Edges(es, known, tools) && e.SpawnEdge? && e.spawnId == s && e.parent == parent
               && e.tool == tool && e.child == child;
      EdgesExact(es, known, tools, e);
    }
    if SpawnJoined(es, known, tools, ev) {
      EdgesExact(es, known, tools, SpawnOf(ev, AttemptsFor(es, s, child)));
    }
  }

  /** Every attempt on a spawn edge is a recorded return for it, and every return for it is there under its attempt. */
  lemma {:induction false} AttemptContents(es: seq<Event>, known: set<Id>, tools: Tools, e: Edge)
    requires e in Edges(es, known, tools) && e.SpawnEdge?
    ensures forall m :: m in e.attempts ==>
              Return(e.spawnId, m.id, e.child, m.status, m.resultRef, m.error, m.seqNo) in es
    ensures forall r :: r in es && r.Return? && r.spawnId == e.spawnId ==>
              exists m :: m in e.attempts && m.id == r.attempt && m.status == r.status
                          && m.resultRef == r.resultRef && m.error == r.error
  {
    EdgeStatus(es, known, tools, e);
    EdgesExact(es, known, tools, e);
    var ev :| SpawnJoined(es, known, tools, ev) && e == SpawnOf(ev, AttemptsFor(es, ev.spawnId, ev.child));
    forall m | m in e.attempts
      ensures Return(e.spawnId, m.id, e.child, m.status, m.resultRef, m.error, m.seqNo) in es
    {
      FirstHasKey(es, ReturnKey(e.spawnId, m.id));
    }
    forall r | r in es && r.Return? && r.spawnId == e.spawnId
      ensures exists m :: m in e.attempts && m.id == r.attempt && m.status == r.status
                          && m.resultRef == r.resultRef && m.error == r.error
    {
      FirstExists(es, r);
      assert Same(First(es, KeyOf(r)).value, r);
      assert AttemptOf(First(es, KeyOf(r)).value) in e.attempts;
    }
  }

  // ---- gaps ---------------------------------------------------------------------------------------

  /** Those of two ends that were not observed, in order. */
  function Unseen(a: Id, b: Id, known: set<Id>): seq<Id> {
    (if a in known then [] else [a]) + (if b in known then [] else [b])
  }

  lemma {:induction false} MissingIs(a: Id, b: Id, known: set<Id>)
    ensures Missing([a, b], known) == Unseen(a, b, known)
  {
    assert [a, b][1..] == [b] && [b][1..] == [];
    assert Missing([b], known) == (if b !in known then [b] else []);
    assert Missing([a, b], known) == (if a !in known then [a] else []) + Missing([b], known);
  }

  /** The reason given is the case. */
  ghost predicate Justified(es: seq<Event>, known: set<Id>, tools: Tools, g: Gap) {
    var ev := g.event;
    match g.reason
    case Contradiction => exists other :: other in es && Contradict(other, ev)
    case Absent(ids) =>
      ids != [] && ((ev.Supplied? && ids == Unseen(ev.producer, ev.consumer, known))
                    || (ev.Spawn? && ids == Unseen(ev.parent, ev.child, known)))
    case UnknownTool => ev.Spawn? && !Captured(tools, ev.parent, ev.tool)
    case WrongChild => ev.Return? && exists s :: s in es && s.Spawn? && s.spawnId == ev.spawnId && s.child != ev.child
    case NoReturn => ev.Spawn? && forall r :: r in es && r.Return? ==> r.spawnId != ev.spawnId
    case NoSpawn => ev.Return? && forall s :: s in es && s.Spawn? ==> s.spawnId != ev.spawnId
  }

  /** Every gap is about a recorded event and gives a reason that is the case. */
  lemma {:induction false} GapsJustified(es: seq<Event>, known: set<Id>, tools: Tools, g: Gap)
    requires g in Unresolved(es, known, tools)
    ensures g.event in es && Justified(es, known, tools, g)
  {
    GapMeansUnrepresented(es, known, tools, g);
    TransferGaps(es, KeysSeen(es, Transfers), known, g);
    SpawnGaps(es, KeysSeen(es, Spawns), known, tools, g);
    OrphanGaps(es, KeysSeen(es, Returns), g);
    if g in JoinTransfers(es, KeysSeen(es, Transfers), known).1 {
      var k :| k in KeysSeen(es, Transfers) && TransferGapFrom(es, known, k, g);
      var ev := First(es, k).value;
      MissingIs(ev.producer, ev.consumer, known);
    } else if g in JoinSpawns(es, KeysSeen(es, Spawns), known, tools).1 {
      var k :| k in KeysSeen(es, Spawns) && SpawnGapFrom(es, known, tools, k, g);
      SpawnGapJustified(es, known, tools, k, g);
    } else if g in Orphans(es, KeysSeen(es, Returns)) {
      var k :| k in KeysSeen(es, Returns) && OrphanFrom(es, k, g);
      OrphanJustified(es, k, g);
    } else {
      ClashGapJustified(es, Spawns, g);
      ClashGapJustified(es, Returns, g);
      ClashGapJustified(es, Transfers, g);
    }
  }

  lemma {:induction false} SpawnGapJustified(es: seq<Event>, known: set<Id>, tools: Tools, k: Key, g: Gap)
    requires SpawnGapFrom(es, known, tools, k, g)
    ensures Justified(es, known, tools, g)
  {
    FirstHasKey(es, k);
    var ev := First(es, k).value;
    MissingIs(ev.parent, ev.child, known);
    WalkElements(es, ReturnOrder(es), ev.spawnId, ev.child);
    if g.reason == NoReturn {
      ClashingIff(es, ev.spawnId);
      JoinSpawnMeans(es, known, tools, ev);
      AttemptsRecorded(es, known, tools, ev);
      forall r | r in es && r.Return? ensures r.spawnId != ev.spawnId {
        FirstExists(es, r);
        var walked := SpawnOf(ev, AttemptsFor(es, ev.spawnId, ev.child)).attempts;
        assert r.spawnId == ev.spawnId ==> AttemptOf(First(es, KeyOf(r)).value) in walked;
      }
    }
  }

  lemma {:induction false} OrphanJustified(es: seq<Event>, k: Key, g: Gap)
    requires k in KeysSeen(es, Returns) && OrphanFrom(es, k, g)
    ensures g.event.Return? && g.reason == NoSpawn
    ensures forall s :: s in es && s.Spawn? ==> s.spawnId != g.event.spawnId
  {
    KeysSeenElements(es, Returns);
    FirstHasKey(es, k);
    FirstHasKey(es, SpawnKey(k.id));
  }

  lemma {:induction false} ClashGapJustified(es: seq<Event>, kind: Kind, g: Gap)
    ensures g in ClashGaps(es, kind) ==>
              g.reason == Contradiction && exists other :: other in es && Contradict(other, g.event)
  {
    if es != [] {
      var front, ev := es[..|es| - 1], es[|es| - 1];
      ClashGapJustified(front, kind, g);
      assert forall x :: x in front ==> x in es;
      if g == Gap(ev, Contradiction) && Disagrees(front, ev) {
        FirstHasKey(front, KeyOf(ev));
        ContradictIff(First(front, KeyOf(ev)).value, ev);
      }
    }
  }

  // ---- statistics -------------------------------------------------------------------------------------

  function CountTransfers(edges: seq<Edge>): nat {
    if edges == [] then 0
    else CountTransfers(edges[..|edges| - 1]) + if edges[|edges| - 1].TransferEdge? then 1 else 0
  }

  function CountUnattached(edges: seq<Edge>): nat {
    if edges == [] then 0
    else
      var e := edges[|edges| - 1];
      CountUnattached(edges[..|edges| - 1]) + if e.SpawnEdge? && e.attempts == [] then 1 else 0
  }

  lemma {:induction false} CountTransfersJoin(a: seq<Edge>, b: seq<Edge>)
    ensures CountTransfers(a + b) == CountTransfers(a) + CountTransfers(b)
  {
    if b == [] {
      JoinNothing(a);
    } else {
      FrontOfJoin(a, b);
      CountTransfersJoin(a, b[..|b| - 1]);
    }
  }

  lemma {:induction false} CountUnattachedJoin(a: seq<Edge>, b: seq<Edge>)
    ensures CountUnattached(a + b) == CountUnattached(a) + CountUnattached(b)
  {
    if b == [] {
      JoinNothing(a);
    } else {
      FrontOfJoin(a, b);
      CountUnattachedJoin(a, b[..|b| - 1]);
    }
  }

  lemma {:induction false} OnlyTransfers(es: seq<Event>, keys: seq<Key>, known: set<Id>)
    ensures var edges := JoinTransfers(es, keys, known).0;
            CountTransfers(edges) == |edges| && CountUnattached(edges) == 0
  {
    if keys != [] {
      var front := keys[..|keys| - 1];
      OnlyTransfers(es, front, known);
      var before, after := JoinTransfers(es, front, known).0, JoinTransfers(es, keys, known).0;
      if after != before { FrontOfMore(before, after[|after| - 1]); }
    }
  }

  /** As validation leaves them: no return has the status that is kept for spawns without one. */
  ghost predicate StatusesValid(es: seq<Event>) {
    forall r :: r in es && r.Return? ==> r.status in {"returned", "error", "cancelled", "unknown"}
  }

  /** A spawn edge is called unmatched exactly if no attempt is attached to it. */
  lemma {:induction false} UnmatchedIff(es: seq<Event>, known: set<Id>, tools: Tools, e: Edge)
    requires StatusesValid(es) && e in Edges(es, known, tools) && e.SpawnEdge?
    ensures e.returnStatus == "unmatched" <==> e.attempts == []
    ensures e.returnStatus in {"unmatched", "returned", "error", "cancelled", "unknown"}
  {
    EdgeStatus(es, known, tools, e);
    AttemptContents(es, known, tools, e);
    if e.attempts != [] && AttemptLaws.Decisive(e.attempts) {
      var m :| AttemptLaws.Final(m, e.attempts) && e.returnStatus == m.status;
      assert Return(e.spawnId, m.id, e.child, m.status, m.resultRef, m.error, m.seqNo) in es;
      assert m.status in {"returned", "error", "cancelled", "unknown"};
    }
    StatusNames(e.returnStatus);
  }

  lemma {:induction false} StatusNames(s: string)
    ensures s in {"returned", "error", "cancelled", "unknown"} ==> s != "unmatched"
  {
    assert "returned"[0] != "unmatched"[0] && "error"[0] != "unmatched"[0] && "cancelled"[0] != "unmatched"[0];
    assert |"unknown"| != |"unmatched"|;
  }

  lemma {:induction false} OnlySpawns(es: seq<Event>, keys: seq<Key>, known: set<Id>, tools: Tools)
    requires StatusesValid(es) && forall k :: k in keys ==> k in KeysSeen(es, Spawns)
    ensures var edges := JoinSpawns(es, keys, known, tools).0;
            CountTransfers(edges) == 0 && Unmatched(edges) == CountUnattached(edges)
  {
    if keys != [] {
      var front, k := keys[..|keys| - 1], keys[|keys| - 1];
      OnlySpawns(es, front, known, tools);
      var before, after := JoinSpawns(es, front, known, tools).0, JoinSpawns(es, keys, known, tools).0;
      SpawnsGrow(es, keys, known, tools);
      if after != before {
        var e := after[|after| - 1];
        SpawnElements(es, KeysSeen(es, Spawns), known, tools, e);
        assert SpawnFrom(es, known, tools, k, e) && k in KeysSeen(es, Spawns);
        UnmatchedIff(es, known, tools, e);
        CountsMore(before, e);
      }
    }
  }

  lemma {:induction false} CountsMore(before: seq<Edge>, e: Edge)
    ensures CountTransfers(before + [e]) == CountTransfers(before) + if e.TransferEdge? then 1 else 0
    ensures CountUnattached(before + [e])
         == CountUnattached(before) + if e.SpawnEdge? && e.attempts == [] then 1 else 0
    ensures Unmatched(before + [e])
         == Unmatched(before) + if e.SpawnEdge? && e.returnStatus == "unmatched" then 1 else 0
  {
    FrontOfMore(before, e);
  }

  /** One key adds at most one edge, a spawn edge. */
  lemma {:induction false} SpawnsGrow(es: seq<Event>, keys: seq<Key>, known: set<Id>, tools: Tools)
    requires keys != []
    ensures var k := keys[|keys| - 1];
            var before := JoinSpawns(es, keys[..|keys| - 1], known, tools).0;
            var after := JoinSpawns(es, keys, known, tools).0;
            || after == before
            || (after != [] && after == before + [after[|after| - 1]] && after[|after| - 1].SpawnEdge?
                && SpawnFrom(es, known, tools, k, after[|after| - 1]))
  {
  }

  lemma {:induction false} SpawnsAndTransfers(es: seq<Event>, known: set<Id>, tools: Tools)
    requires StatusesValid(es)
    ensures var edges := Edges(es, known, tools);
            var spawns := JoinSpawns(es, KeysSeen(es, Spawns), known, tools).0;
            && CountTransfers(edges) == |edges| - |spawns| && CountUnattached(edges) == Unmatched(spawns)
  {
    var t := JoinTransfers(es, KeysSeen(es, Transfers), known).0;
    var s := JoinSpawns(es, KeysSeen(es, Spawns), known, tools).0;
    OnlyTransfers(es, KeysSeen(es, Transfers), known);
    OnlySpawns(es, KeysSeen(es, Spawns), known, tools);
    CountTransfersJoin(t, s);
    CountUnattachedJoin(t, s);
  }

  /** The statistics count what the lists hold. */
  lemma {:induction false} StatsCount(es: seq<Event>, known: set<Id>, tools: Tools)
    requires StatusesValid(es)
    ensures var st, edges, gaps := StatsOf(es, known, tools), Edges(es, known, tools), Unresolved(es, known, tools);
            && st.supplied == CountTransfers(edges) && st.spawned == |edges| - CountTransfers(edges)
            && st.unresolved == |gaps| && st.orphans == CountOrphans(gaps) && st.unmatched == CountUnattached(edges)
  {
    SpawnsAndTransfers(es, known, tools);
    OrphanCount(es, known, tools);
  }

  // The gaps are counted part by part; only the last part gives NoSpawn as the reason.

  function CountOrphans(gaps: seq<Gap>): nat {
    if gaps == [] then 0
    else CountOrphans(gaps[..|gaps| - 1]) + if gaps[|gaps| - 1].reason == NoSpawn then 1 else 0
  }

  lemma {:induction false} CountOrphansJoin(a: seq<Gap>, b: seq<Gap>)
    ensures CountOrphans(a + b) == CountOrphans(a) + CountOrphans(b)
  {
    if b == [] {
      JoinNothing(a);
    } else {
      FrontOfJoin(a, b);
      CountOrphansJoin(a, b[..|b| - 1]);
    }
  }

  lemma {:induction false} NoneOrphaned(gaps: seq<Gap>)
    requires forall g :: g in gaps ==> g.reason != NoSpawn
    ensures CountOrphans(gaps) == 0
  {
    if gaps != [] {
      assert gaps[|gaps| - 1] in gaps;
      NoneOrphaned(gaps[..|gaps| - 1]);
    }
  }

  lemma {:induction false} AllOrphaned(es: seq<Event>, keys: seq<Key>)
    ensures CountOrphans(Orphans(es, keys)) == |Orphans(es, keys)|
  {
    if keys != [] {
      var front, k := keys[..|keys| - 1], keys[|keys| - 1];
      AllOrphaned(es, front);
      JoinNothing(Orphans(es, front));
      if First(es, k).Some? { FrontOfMore(Orphans(es, front), Gap(First(es, k).value, NoSpawn)); }
    }
  }

  lemma {:induction false} TransferReasons(es: seq<Event>, keys: seq<Key>, known: set<Id>)
    ensures forall g :: g in JoinTransfers(es, keys, known).1 ==> g.reason != NoSpawn
  {
    forall g | g in JoinTransfers(es, keys, known).1 ensures g.reason != NoSpawn {
      TransferGaps(es, keys, known, g);
    }
  }

  lemma {:induction false} SpawnReasons(es: seq<Event>, keys: seq<Key>, known: set<Id>, tools: Tools)
    ensures forall g :: g in JoinSpawns(es, keys, known, tools).1 ==> g.reason != NoSpawn
  {
    forall g | g in JoinSpawns(es, keys, known, tools).1 ensures g.reason != NoSpawn {
      SpawnGaps(es, keys, known, tools, g);
      var k :| k in keys && SpawnGapFrom(es, known, tools, k, g);
      WalkElements(es, ReturnOrder(es), First(es, k).value.spawnId, First(es, k).value.child);
    }
  }

  lemma {:induction false} ClashReasons(es: seq<Event>, kind: Kind)
    ensures forall g :: g in ClashGaps(es, kind) ==> g.reason == Contradiction
  {
    forall g | g in ClashGaps(es, kind) ensures g.reason == Contradiction { ClashGapJustified(es, kind, g); }
  }

  lemma {:induction false} OrphanCount(es: seq<Event>, known: set<Id>, tools: Tools)
    ensures CountOrphans(Unresolved(es, known, tools)) == |Orphans(es, KeysSeen(es, Returns))|
  {
    var a, b, c := ClashGaps(es, Spawns), ClashGaps(es, Returns), ClashGaps(es, Transfers);
    var t := JoinTransfers(es, KeysSeen(es, Transfers), known).1;
    var s := JoinSpawns(es, KeysSeen(es, Spawns), known, tools).1;
    ClashReasons(es, Spawns);
    ClashReasons(es, Returns);
    ClashReasons(es, Transfers);
    TransferReasons(es, KeysSeen(es, Transfers), known);
    SpawnReasons(es, KeysSeen(es, Spawns), known, tools);
    NoneOrphaned(a + b + c + t + s);
    AllOrphaned(es, KeysSeen(es, Returns));
    CountOrphansJoin(a + b + c + t + s, Orphans(es, KeysSeen(es, Returns)));
  }
}
