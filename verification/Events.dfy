/**
 Recorded linkage (interface/geak_trace_events.py, build_edges): validated spawn,
 return and transfer events are joined by identity into edges. A contradiction
 invalidates the join; a join that cannot be made is reported, never inferred.

 `BuildEdges` is the code, loop by loop; `Linkage` is the value it computes.
 */
module Events {
  import opened Wrappers
  import opened Sorting
  import opened Sequences
  import Attempts

  type Id = string

  datatype Forwarding = Literal | Transformed | UnknownForwarding

  datatype Event =
    | Spawn(spawnId: Id, parent: Id, tool: Id, child: Id)
    | Return(spawnId: Id, attempt: Id, child: Id, status: string,
             resultRef: Option<string>, error: Option<string>, seqNo: Option<int>)
    | Supplied(eventId: Id, producer: Id, producerRef: string, consumer: Id, consumerRef: string,
               forwarding: Forwarding, transformation: Option<string>)

  datatype Kind = Spawns | Returns | Transfers

  /** Identity of a record: spawn_event_id, (spawn_event_id, attempt_id) or event_id. */
  datatype Key = SpawnKey(id: Id) | ReturnKey(id: Id, attempt: Id) | TransferKey(id: Id)

  function KeyOf(ev: Event): Key {
    match ev
    case Spawn(s, _, _, _) => SpawnKey(s)
    case Return(s, a, _, _, _, _, _) => ReturnKey(s, a)
    case Supplied(e, _, _, _, _, _, _) => TransferKey(e)
  }

  function KindOf(k: Key): Kind {
    match k
    case SpawnKey(_) => Spawns
    case ReturnKey(_, _) => Returns
    case TransferKey(_) => Transfers
  }

  /** Agreement on every identity-defining field. The order marker of a return is not one of them. */
  predicate Same(a: Event, b: Event) {
    match (a, b)
    case (Spawn(_, p, t, c), Spawn(_, p', t', c')) => p == p' && c == c' && t == t'
    case (Return(_, _, c, st, r, e, _), Return(_, _, c', st', r', e', _)) => c == c' && st == st' && r == r' && e == e'
    case (Supplied(_, p, pr, c, cr, f, t), Supplied(_, p', pr', c', cr', f', t')) =>
      p == p' && pr == pr' && c == c' && cr == cr' && f == f' && t == t'
    case _ => false
  }

  datatype Reason =
    | Contradiction | Absent(ids: seq<Id>) | UnknownTool | WrongChild | NoReturn | NoSpawn

  datatype Gap = Gap(event: Event, reason: Reason)

  datatype Edge =
    | TransferEdge(eventId: Id, producer: Id, consumer: Id, producerRef: string, consumerRef: string,
                   forwarding: Forwarding, transformation: Option<string>, transformationKnown: bool)
    | SpawnEdge(spawnId: Id, parent: Id, child: Id, tool: Id,
                attempts: seq<Attempts.Attempt>, returnStatus: string)

  type Tools = Option<map<Id, set<Id>>>

  /** What the caller is told in numbers. */
  datatype Stats = Stats(supplied: nat, spawned: nat, unresolved: nat, orphans: nat, conflicts: nat, unmatched: nat)

  datatype Report = Report(edges: seq<Edge>, unresolved: seq<Gap>, stats: Stats, invalidated: seq<(Kind, Id)>)

  // ---- reading the stream -----------------------------------------------------

  /** The record a dict keyed by identity keeps: the first one seen. */
  function First(es: seq<Event>, k: Key): Option<Event> {
    if es == [] then None
    else
      var earlier := First(es[..|es| - 1], k);
      if earlier.Some? then earlier
      else if KeyOf(es[|es| - 1]) == k then Some(es[|es| - 1]) else None
  }

  predicate Disagrees(es: seq<Event>, ev: Event) {
    First(es, KeyOf(ev)).Some? && !Same(First(es, KeyOf(ev)).value, ev)
  }

  function KeysSeen(es: seq<Event>, kind: Kind): seq<Key> {
    if es == [] then []
    else
      var front, k := es[..|es| - 1], KeyOf(es[|es| - 1]);
      KeysSeen(front, kind) + (if KindOf(k) == kind && First(front, k).None? then [k] else [])
  }

  function Clashing(es: seq<Event>, kind: Kind): set<Id> {
    if es == [] then {}
    else
      var front, ev := es[..|es| - 1], es[|es| - 1];
      Clashing(front, kind)
      + (if KindOf(KeyOf(ev)) == kind && Disagrees(front, ev) then {KeyOf(ev).id} else {})
  }

  function ClashGaps(es: seq<Event>, kind: Kind): seq<Gap> {
    if es == [] then []
    else
      var front, ev := es[..|es| - 1], es[|es| - 1];
      ClashGaps(front, kind)
      + (if KindOf(KeyOf(ev)) == kind && Disagrees(front, ev) then [Gap(ev, Contradiction)] else [])
  }

  function AllClashing(es: seq<Event>): set<Id> {
    Clashing(es, Spawns) + Clashing(es, Returns) + Clashing(es, Transfers)
  }

  lemma {:induction false} FirstHasKey(es: seq<Event>, k: Key)
    ensures First(es, k).Some? ==> KeyOf(First(es, k).value) == k && First(es, k).value in es
    ensures First(es, k).None? ==> forall ev :: ev in es ==> KeyOf(ev) != k
  {
    if es != [] {
      FirstHasKey(es[..|es| - 1], k);
      assert es == es[..|es| - 1] + [es[|es| - 1]];
    }
  }

  lemma {:induction false} KeysSeenElements(es: seq<Event>, kind: Kind)
    ensures forall k :: k in KeysSeen(es, kind) <==> KindOf(k) == kind && First(es, k).Some?
    ensures Distinct(KeysSeen(es, kind))
  {
    if es != [] {
      KeysSeenElements(es[..|es| - 1], kind);
      FirstHasKey(es[..|es| - 1], KeyOf(es[|es| - 1]));
    }
  }

  /** `First` as the dict the code builds. */
  ghost predicate Indexes(records: map<Key, Event>, es: seq<Event>, kind: Kind) {
    forall k :: (k in records <==> KindOf(k) == kind && First(es, k).Some?)
                && (k in records ==> First(es, k) == Some(records[k]))
  }

  /** One of the three collecting loops: keep the first record of each identity, flag disagreement. */
  method Collect(events: seq<Event>, kind: Kind, conflicted0: set<Id>, unresolved0: seq<Gap>)
    returns (records: map<Key, Event>, order: seq<Key>, conflicted: set<Id>, unresolved: seq<Gap>)
    ensures Indexes(records, events, kind)
    ensures order == KeysSeen(events, kind)
    ensures conflicted == conflicted0 + Clashing(events, kind)
    ensures unresolved == unresolved0 + ClashGaps(events, kind)
  {
    records, order, conflicted, unresolved := map[], [], conflicted0, unresolved0;
    JoinNothing(unresolved0);
    for i := 0 to |events|
      invariant Indexes(records, events[..i], kind)
      invariant order == KeysSeen(events[..i], kind)
      invariant Flagged(conflicted, unresolved, events[..i], kind, conflicted0, unresolved0)
    {
      var ev := events[i];
      SeenStep(records, events, i, kind);
      FlaggedStep(records, conflicted, unresolved, events, i, kind, conflicted0, unresolved0);
      if KindOf(KeyOf(ev)) != kind { continue; }
      var key := KeyOf(ev);
      if key !in records {
        records := records[key := ev];
        order := order + [key];
      } else if !Same(records[key], ev) {
        conflicted := conflicted + {key.id};
        unresolved := unresolved + [Gap(ev, Contradiction)];
      }
    }
    assert events[..|events|] == events;
  }

  lemma {:induction false} CollectStep(events: seq<Event>, i: nat, kind: Kind)
    requires i < |events|
    ensures var es, ev, now := events[..i], events[i], events[..i + 1];
            && (forall k :: k != KeyOf(ev) ==> First(now, k) == First(es, k))
            && First(now, KeyOf(ev)) == (if First(es, KeyOf(ev)).Some? then First(es, KeyOf(ev)) else Some(ev))
            && KeysSeen(now, kind) == KeysSeen(es, kind)
                 + (if KindOf(KeyOf(ev)) == kind && First(es, KeyOf(ev)).None? then [KeyOf(ev)] else [])
            && Clashing(now, kind) == Clashing(es, kind)
                 + (if KindOf(KeyOf(ev)) == kind && Disagrees(es, ev) then {KeyOf(ev).id} else {})
            && ClashGaps(now, kind) == ClashGaps(es, kind)
                 + (if KindOf(KeyOf(ev)) == kind && Disagrees(es, ev) then [Gap(ev, Contradiction)] else [])
  {
    assert events[..i + 1][..i] == events[..i];
  }

  /** The disagreements found so far, on top of those found before. */
  ghost predicate Flagged(conflicted: set<Id>, unresolved: seq<Gap>, es: seq<Event>, kind: Kind,
                          conflicted0: set<Id>, unresolved0: seq<Gap>) {
    conflicted == conflicted0 + Clashing(es, kind) && unresolved == unresolved0 + ClashGaps(es, kind)
  }

  lemma {:induction false} SeenStep(records: map<Key, Event>, events: seq<Event>, i: nat, kind: Kind)
    requires i < |events| && Indexes(records, events[..i], kind)
    ensures var key, order := KeyOf(events[i]), KeysSeen(events[..i], kind);
            if KindOf(key) == kind && key !in records
            then Indexes(records[key := events[i]], events[..i + 1], kind)
                 && KeysSeen(events[..i + 1], kind) == order + [key]
            else Indexes(records, events[..i + 1], kind) && KeysSeen(events[..i + 1], kind) == order
  {
    CollectStep(events, i, kind);
    IndexStep(records, events, i, kind);
    JoinNothing(KeysSeen(events[..i], kind));
  }

  lemma {:induction false} FlaggedStep(records: map<Key, Event>, conflicted: set<Id>, unresolved: seq<Gap>,
                                       events: seq<Event>, i: nat, kind: Kind,
                                       conflicted0: set<Id>, unresolved0: seq<Gap>)
    requires i < |events| && Indexes(records, events[..i], kind)
    requires Flagged(conflicted, unresolved, events[..i], kind, conflicted0, unresolved0)
    ensures var ev, key := events[i], KeyOf(events[i]);
            if KindOf(key) == kind && key in records && !Same(records[key], ev)
            then Flagged(conflicted + {key.id}, unresolved + [Gap(ev, Contradiction)], events[..i + 1], kind,
                         conflicted0, unresolved0)
            else Flagged(conflicted, unresolved, events[..i + 1], kind, conflicted0, unresolved0)
  {
    CollectStep(events, i, kind);
    JoinNothing(ClashGaps(events[..i], kind));
    JoinAssociates(unresolved0, ClashGaps(events[..i], kind), [Gap(events[i], Contradiction)]);
  }

  lemma {:induction false} IndexStep(records: map<Key, Event>, events: seq<Event>, i: nat, kind: Kind)
    requires i < |events| && Indexes(records, events[..i], kind)
    ensures var key := KeyOf(events[i]);
            Indexes(if KindOf(key) == kind && key !in records then records[key := events[i]] else records,
                    events[..i + 1], kind)
  {
    assert events[..i + 1][..i] == events[..i];
  }

  // ---- transfers ----------------------------------------------------------------

  function Missing(ids: seq<Id>, known: set<Id>): seq<Id> {
    if ids == [] then []
    else (if ids[0] !in known then [ids[0]] else []) + Missing(ids[1..], known)
  }

  function TransferOf(ev: Event): Edge
    requires ev.Supplied?
  {
    TransferEdge(ev.eventId, ev.producer, ev.consumer, ev.producerRef, ev.consumerRef,
                 ev.forwarding, ev.transformation, ev.transformation.Some? && ev.transformation.value != "")
  }

  /** What one kept transfer contributes: an edge, a gap, or nothing when its id is in conflict. */
  function JoinTransfer(ev: Event, known: set<Id>, conflicted: set<Id>): (seq<Edge>, seq<Gap>)
    requires ev.Supplied?
  {
    if ev.eventId in conflicted then ([], [])
    else
      var absent := Missing([ev.producer, ev.consumer], known);
      if absent != [] then ([], [Gap(ev, Absent(absent))]) else ([TransferOf(ev)], [])
  }

  ghost function JoinTransfers(es: seq<Event>, keys: seq<Key>, known: set<Id>): (seq<Edge>, seq<Gap>) {
    if keys == [] then ([], [])
    else
      var ev := First(es, keys[|keys| - 1]);
      var (edges, gaps) := JoinTransfers(es, keys[..|keys| - 1], known);
      if ev.None? || !ev.value.Supplied? then (edges, gaps)
      else
        var (e, g) := JoinTransfer(ev.value, known, AllClashing(es));
        (edges + e, gaps + g)
  }

  // ---- spawns ---------------------------------------------------------------------

  function AttemptOf(ret: Event): Attempts.Attempt
    requires ret.Return?
  {
    Attempts.Attempt(ret.attempt, ret.status, ret.resultRef, ret.error, ret.seqNo)
  }

  function AttemptId(k: Key): Id { if k.ReturnKey? then k.attempt else "" }

  predicate KeyLe(a: Key, b: Key) {
    if a.id == b.id then StringLe(AttemptId(a), AttemptId(b)) else StringLe(a.id, b.id)
  }

  /** The returns, sorted by (spawn_event_id, attempt_id), and the walk over those of one spawn. */
  function ReturnOrder(es: seq<Event>): seq<Key> { Sort(KeysSeen(es, Returns), KeyLe) }

  function WalkReturns(es: seq<Event>, keys: seq<Key>, s: Id, child: Id): (seq<Attempts.Attempt>, seq<Gap>) {
    if keys == [] then ([], [])
    else
      var k := keys[|keys| - 1];
      var (attempts, gaps) := WalkReturns(es, keys[..|keys| - 1], s, child);
      var ret := First(es, k);
      if k.id != s || ret.None? || !ret.value.Return? then (attempts, gaps)
      else if ret.value.child != child then (attempts, gaps + [Gap(ret.value, WrongChild)])
      else (attempts + [AttemptOf(ret.value)], gaps)
  }

  function ToolKnown(tools: Tools, parent: Id, tool: Id): bool {
    tools.None? || (parent in tools.value && tool in tools.value[parent])
  }

  ghost function SpawnOf(ev: Event, attempts: seq<Attempts.Attempt>): Edge
    requires ev.Spawn?
  {
    var v := Attempts.Reconciliation(ev.spawnId, attempts, []);
    SpawnEdge(ev.spawnId, ev.parent, ev.child, ev.tool, v.merged,
              if v.merged == [] then "unmatched" else v.outcome)
  }

  /** What one kept spawn contributes: edges, gaps, and ids newly found in conflict. */
  ghost function JoinSpawn(es: seq<Event>, ev: Event, known: set<Id>, tools: Tools): (seq<Edge>, seq<Gap>, set<Id>)
    requires ev.Spawn?
  {
    if ev.spawnId in AllClashing(es) then ([], [], {})
    else
      var absent := Missing([ev.parent, ev.child], known);
      if absent != [] then ([], [Gap(ev, Absent(absent))], {})
      else if !ToolKnown(tools, ev.parent, ev.tool) then ([], [Gap(ev, UnknownTool)], {})
      else
        var (attempts, wrong) := WalkReturns(es, ReturnOrder(es), ev.spawnId, ev.child);
        if wrong != [] then ([], wrong, {ev.spawnId})
        else
          var e := SpawnOf(ev, attempts);
          ([e], if e.attempts == [] then [Gap(ev, NoReturn)] else [], {})
  }

  ghost function JoinSpawns(es: seq<Event>, keys: seq<Key>, known: set<Id>, tools: Tools)
    : (seq<Edge>, seq<Gap>, set<Id>)
  {
    if keys == [] then ([], [], {})
    else
      var ev := First(es, keys[|keys| - 1]);
      var (edges, gaps, bad) := JoinSpawns(es, keys[..|keys| - 1], known, tools);
      if ev.None? || !ev.value.Spawn? then (edges, gaps, bad)
      else
        var (e, g, b) := JoinSpawn(es, ev.value, known, tools);
        (edges + e, gaps + g, bad + b)
  }

  function Orphans(es: seq<Event>, keys: seq<Key>): seq<Gap> {
    if keys == [] then []
    else
      var k := keys[|keys| - 1];
      Orphans(es, keys[..|keys| - 1])
      + (if First(es, k).Some? && First(es, SpawnKey(k.id)).None? then [Gap(First(es, k).value, NoSpawn)] else [])
  }

  // ---- the whole ------------------------------------------------------------------

  ghost function Conflicted(es: seq<Event>, known: set<Id>, tools: Tools): set<Id> {
    AllClashing(es) + JoinSpawns(es, KeysSeen(es, Spawns), known, tools).2
  }

  ghost predicate IsInvalidated(es: seq<Event>, known: set<Id>, tools: Tools, relation: (Kind, Id)) {
    && relation.1 in Conflicted(es, known, tools)
    && ((relation.0 == Transfers && First(es, TransferKey(relation.1)).Some?)
        || (relation.0 == Spawns && First(es, SpawnKey(relation.1)).Some?))
  }

  ghost function Edges(es: seq<Event>, known: set<Id>, tools: Tools): seq<Edge> {
    JoinTransfers(es, KeysSeen(es, Transfers), known).0 + JoinSpawns(es, KeysSeen(es, Spawns), known, tools).0
  }

  ghost function Unresolved(es: seq<Event>, known: set<Id>, tools: Tools): seq<Gap> {
    ClashGaps(es, Spawns) + ClashGaps(es, Returns) + ClashGaps(es, Transfers)
    + JoinTransfers(es, KeysSeen(es, Transfers), known).1
    + JoinSpawns(es, KeysSeen(es, Spawns), known, tools).1
    + Orphans(es, KeysSeen(es, Returns))
  }

  /** Spawn edges without any return. */
  function Unmatched(edges: seq<Edge>): nat {
    if edges == [] then 0
    else
      var e := edges[|edges| - 1];
      Unmatched(edges[..|edges| - 1]) + if e.SpawnEdge? && e.returnStatus == "unmatched" then 1 else 0
  }

  ghost function StatsOf(es: seq<Event>, known: set<Id>, tools: Tools): Stats {
    var transfers := JoinTransfers(es, KeysSeen(es, Transfers), known).0;
    var spawns := JoinSpawns(es, KeysSeen(es, Spawns), known, tools).0;
    Stats(|transfers|, |spawns|, |Unresolved(es, known, tools)|, |Orphans(es, KeysSeen(es, Returns))|,
          |Conflicted(es, known, tools)|, Unmatched(spawns))
  }

  /** The members of a set, each once, in order. */
  ghost predicate Enumerates(ids: seq<Id>, s: set<Id>) {
    Sorted(ids, StringLe) && Distinct(ids) && forall id :: id in ids <==> id in s
  }

  /** The relationships that ids stand for: for each id the transfer, then the spawn, as far as they were seen. */
  function RelationsOf(es: seq<Event>, ids: seq<Id>): seq<(Kind, Id)> {
    if ids == [] then []
    else
      var id := ids[|ids| - 1];
      RelationsOf(es, ids[..|ids| - 1])
      + (if First(es, TransferKey(id)).Some? then [(Transfers, id)] else [])
      + (if First(es, SpawnKey(id)).Some? then [(Spawns, id)] else [])
  }

  lemma {:induction false} RelationsExact(es: seq<Event>, ids: seq<Id>, rel: (Kind, Id))
    ensures rel in RelationsOf(es, ids) <==>
            && rel.1 in ids
            && ((rel.0 == Transfers && First(es, TransferKey(rel.1)).Some?)
                || (rel.0 == Spawns && First(es, SpawnKey(rel.1)).Some?))
  {
    if ids != [] {
      RelationsExact(es, ids[..|ids| - 1], rel);
      InFrontOrLast(ids, rel.1);
    }
  }

  method BuildEdges(events: seq<Event>, known: set<Id>, tools: Tools) returns (r: Report)
    ensures r.edges == Edges(events, known, tools)
    ensures r.unresolved == Unresolved(events, known, tools)
    ensures r.stats == StatsOf(events, known, tools)
    ensures forall rel :: rel in r.invalidated <==> IsInvalidated(events, known, tools, rel)
    ensures exists ids :: Enumerates(ids, Conflicted(events, known, tools)) && r.invalidated == RelationsOf(events, ids)
  {
    KeysSeenElements(events, Spawns);
    KeysSeenElements(events, Returns);
    KeysSeenElements(events, Transfers);
    var spawns, spawnOrder, c1, u1 := Collect(events, Spawns, {}, []);
    var returns_, returnOrder, c2, u2 := Collect(events, Returns, c1, u1);
    var transfers, transferOrder, c3, u3 := Collect(events, Transfers, c2, u2);
    assert c3 == AllClashing(events);
    assert u3 == ClashGaps(events, Spawns) + ClashGaps(events, Returns) + ClashGaps(events, Transfers) by {
      assert u1 == ClashGaps(events, Spawns);
      assert u2 == ClashGaps(events, Spawns) + ClashGaps(events, Returns);
    }
    var transferEdges, u4 := TransferLoop(events, transfers, transferOrder, known, c3, u3);
    var spawnEdges, u5, c5 := SpawnLoop(events, spawns, spawnOrder, returns_, returnOrder, known, tools, c3);
    var u6, orphans := OrphanLoop(events, spawns, returns_, returnOrder, u4 + u5);
    var invalidated := Invalidated(events, transfers, spawns, c3 + c5);
    var unmatched := CountUnmatched(spawnEdges);
    var stats := Stats(|transferEdges|, |spawnEdges|, |u6|, orphans, |c3 + c5|, unmatched);
    r := Report(transferEdges + spawnEdges, u6, stats, invalidated);
  }

  method CountUnmatched(edges: seq<Edge>) returns (n: nat)
    ensures n == Unmatched(edges)
  {
    n := 0;
    for i := 0 to |edges|
      invariant n == Unmatched(edges[..i])
    {
      FrontOfPrefix(edges, i);
      if edges[i].SpawnEdge? && edges[i].returnStatus == "unmatched" { n := n + 1; }
    }
    assert edges[..|edges|] == edges;
  }

  method Invalidated(ghost es: seq<Event>, transfers: map<Key, Event>, spawns: map<Key, Event>, conflicted: set<Id>)
    returns (r: seq<(Kind, Id)>)
    requires Indexes(spawns, es, Spawns) && Indexes(transfers, es, Transfers)
    ensures exists ids :: Enumerates(ids, conflicted) && r == RelationsOf(es, ids)
    ensures forall rel :: rel in r <==>
              && rel.1 in conflicted
              && ((rel.0 == Transfers && First(es, TransferKey(rel.1)).Some?)
                  || (rel.0 == Spawns && First(es, SpawnKey(rel.1)).Some?))
  {
    var ids := Enumerated(conflicted);
    r := [];
    for i := 0 to |ids|
      invariant r == RelationsOf(es, ids[..i])
    {
      FrontOfPrefix(ids, i);
      if TransferKey(ids[i]) in transfers { r := r + [(Transfers, ids[i])]; }
      if SpawnKey(ids[i]) in spawns { r := r + [(Spawns, ids[i])]; }
    }
    assert ids[..|ids|] == ids;
    forall rel { RelationsExact(es, ids, rel); }
  }

  /** Python's `sorted` on a set of strings. */
  method Enumerated(s: set<Id>) returns (ids: seq<Id>)
    ensures Enumerates(ids, s)
  {
    var rest, listed := s, [];
    while rest != {}
      invariant forall id :: id in s <==> id in rest || id in listed
      invariant Distinct(listed) && forall id :: id in listed ==> id !in rest
      decreases rest
    {
      var id :| id in rest;
      rest, listed := rest - {id}, listed + [id];
    }
    ids := Sort(listed, StringLe);
    SortPermutes(listed, StringLe);
    SortDistinct(listed, StringLe);
    StringLeOrders();
    SortSorts(listed, StringLe);
    assert forall id :: id in ids <==> id in multiset(ids);
  }

  method TransferLoop(ghost es: seq<Event>, transfers: map<Key, Event>, order: seq<Key>,
                      known: set<Id>, conflicted: set<Id>, unresolved0: seq<Gap>)
    returns (edges: seq<Edge>, unresolved: seq<Gap>)
    requires Indexes(transfers, es, Transfers) && conflicted == AllClashing(es)
    requires forall k :: k in order ==> k.TransferKey? && First(es, k).Some?
    ensures edges == JoinTransfers(es, order, known).0
    ensures unresolved == unresolved0 + JoinTransfers(es, order, known).1
  {
    edges, unresolved := [], unresolved0;
    for i := 0 to |order|
      invariant edges == JoinTransfers(es, order[..i], known).0
      invariant unresolved == unresolved0 + JoinTransfers(es, order[..i], known).1
    {
      var key := order[i];
      assert order[..i + 1][..i] == order[..i];
      FirstHasKey(es, key);
      var ev := transfers[key];
      if key.id in conflicted { continue; }
      var absent := Missing([ev.producer, ev.consumer], known);
      if absent != [] {
        unresolved := unresolved + [Gap(ev, Absent(absent))];
        continue;
      }
      edges := edges + [TransferOf(ev)];
    }
    assert order[..|order|] == order;
  }

  method SpawnLoop(ghost es: seq<Event>, spawns: map<Key, Event>, order: seq<Key>,
                   returns_: map<Key, Event>, returnOrder: seq<Key>, known: set<Id>, tools: Tools,
                   conflicted: set<Id>)
    returns (edges: seq<Edge>, gaps: seq<Gap>, bad: set<Id>)
    requires Indexes(spawns, es, Spawns) && Indexes(returns_, es, Returns)
    requires order == KeysSeen(es, Spawns) && returnOrder == KeysSeen(es, Returns)
    requires conflicted == AllClashing(es)
    ensures (edges, gaps, bad) == JoinSpawns(es, order, known, tools)
  {
    edges, gaps, bad := [], [], {};
    for i := 0 to |order|
      invariant (edges, gaps, bad) == JoinSpawns(es, order[..i], known, tools)
    {
      var key := order[i];
      LaterKeysUntouched(es, i, known, tools);
      JoinSpawnsStep(es, order, i, known, tools);
      var e, g, b := SpawnBody(es, spawns[key], returns_, returnOrder, known, tools, conflicted + bad);
      edges, gaps, bad := edges + e, gaps + g, bad + b;
    }
    assert order[..|order|] == order;
  }

  /** The body of the spawn loop; `conflicted` may already hold other spawns found to be misnamed. */
  method SpawnBody(ghost es: seq<Event>, ev: Event, returns_: map<Key, Event>, returnOrder: seq<Key>,
                   known: set<Id>, tools: Tools, conflicted: set<Id>)
    returns (edges: seq<Edge>, gaps: seq<Gap>, bad: set<Id>)
    requires ev.Spawn? && Indexes(returns_, es, Returns) && returnOrder == KeysSeen(es, Returns)
    requires ev.spawnId in conflicted <==> ev.spawnId in AllClashing(es)
    ensures (edges, gaps, bad) == JoinSpawn(es, ev, known, tools)
  {
    edges, gaps, bad := [], [], {};
    if ev.spawnId in conflicted { return; }
    var absent := Missing([ev.parent, ev.child], known);
    if absent != [] { return [], [Gap(ev, Absent(absent))], {}; }
    if !ToolKnown(tools, ev.parent, ev.tool) { return [], [Gap(ev, UnknownTool)], {}; }
    var attempts, wrong := ReturnWalk(es, returns_, returnOrder, ev);
    if wrong != [] { return [], wrong, {ev.spawnId}; }
    var v := Attempts.ReconcileAttempts(attempts, [], ev.spawnId);
    edges := [SpawnEdge(ev.spawnId, ev.parent, ev.child, ev.tool, v.merged,
                        if v.merged == [] then "unmatched" else v.outcome)];
    gaps := if v.merged == [] then [Gap(ev, NoReturn)] else [];
  }

  method ReturnWalk(ghost es: seq<Event>, returns_: map<Key, Event>, returnOrder: seq<Key>, ev: Event)
    returns (attempts: seq<Attempts.Attempt>, wrong: seq<Gap>)
    requires ev.Spawn? && Indexes(returns_, es, Returns) && returnOrder == KeysSeen(es, Returns)
    ensures (attempts, wrong) == WalkReturns(es, ReturnOrder(es), ev.spawnId, ev.child)
  {
    var keys := Sort(returnOrder, KeyLe);
    SortPermutes(returnOrder, KeyLe);
    KeysSeenElements(es, Returns);
    forall k | k in keys ensures k in returns_ && returns_[k] == First(es, k).value && returns_[k].Return? {
      assert k in returnOrder;
      FirstHasKey(es, k);
    }
    attempts, wrong := ReturnsInOrder(es, returns_, keys, ev);
  }

  /** The loop over the sorted returns. */
  method ReturnsInOrder(ghost es: seq<Event>, returns_: map<Key, Event>, keys: seq<Key>, ev: Event)
    returns (attempts: seq<Attempts.Attempt>, wrong: seq<Gap>)
    requires ev.Spawn? && Indexes(returns_, es, Returns)
    requires forall k :: k in keys ==> k in returns_ && returns_[k] == First(es, k).value && returns_[k].Return?
    ensures (attempts, wrong) == WalkReturns(es, keys, ev.spawnId, ev.child)
  {
    attempts, wrong := [], [];
    for i := 0 to |keys|
      invariant (attempts, wrong) == WalkReturns(es, keys[..i], ev.spawnId, ev.child)
    {
      var k := keys[i];
      assert keys[..i + 1][..i] == keys[..i];
      FirstHasKey(es, k);
      var ret := returns_[k];
      if k.id != ev.spawnId { continue; }
      if ret.child != ev.child {
        wrong := wrong + [Gap(ret, WrongChild)];
        continue;
      }
      attempts := attempts + [AttemptOf(ret)];
    }
    assert keys[..|keys|] == keys;
  }

  /** Marking one spawn as misnamed never affects another: their ids differ. */
  lemma {:induction false} LaterKeysUntouched(es: seq<Event>, i: nat, known: set<Id>, tools: Tools)
    requires i < |KeysSeen(es, Spawns)|
    ensures var order := KeysSeen(es, Spawns);
            && order[i].SpawnKey? && First(es, order[i]).Some?
            && order[i].id !in JoinSpawns(es, order[..i], known, tools).2
  {
    var order := KeysSeen(es, Spawns);
    KeysSeenElements(es, Spawns);
    BadAreListed(es, order[..i], known, tools);
    assert forall j :: 0 <= j < i ==> order[..i][j] != order[i];
    assert order[i] in order && SpawnKey(order[i].id) !in order[..i];
  }

  lemma {:induction false} BadAreListed(es: seq<Event>, keys: seq<Key>, known: set<Id>, tools: Tools)
    ensures forall id :: id in JoinSpawns(es, keys, known, tools).2 ==> SpawnKey(id) in keys
  {
    if keys != [] {
      BadAreListed(es, keys[..|keys| - 1], known, tools);
      FirstHasKey(es, keys[|keys| - 1]);
    }
  }

  lemma {:induction false} JoinSpawnsStep(es: seq<Event>, order: seq<Key>, i: nat, known: set<Id>, tools: Tools)
    requires i < |order| && order[i].SpawnKey? && First(es, order[i]).Some?
    ensures First(es, order[i]).value.Spawn? && First(es, order[i]).value.spawnId == order[i].id
    ensures var (edges, gaps, bad) := JoinSpawns(es, order[..i], known, tools);
            var (e, g, b) := JoinSpawn(es, First(es, order[i]).value, known, tools);
            JoinSpawns(es, order[..i + 1], known, tools) == (edges + e, gaps + g, bad + b)
  {
    assert order[..i + 1][..i] == order[..i];
    FirstHasKey(es, order[i]);
  }

  method OrphanLoop(ghost es: seq<Event>, spawns: map<Key, Event>, returns_: map<Key, Event>,
                    returnOrder: seq<Key>, unresolved0: seq<Gap>)
    returns (unresolved: seq<Gap>, orphans: nat)
    requires Indexes(spawns, es, Spawns) && Indexes(returns_, es, Returns)
    requires forall k :: k in returnOrder ==> k.ReturnKey? && First(es, k).Some?
    ensures unresolved == unresolved0 + Orphans(es, returnOrder) && orphans == |Orphans(es, returnOrder)|
  {
    unresolved, orphans := unresolved0, 0;
    for i := 0 to |returnOrder|
      invariant unresolved == unresolved0 + Orphans(es, returnOrder[..i]) && orphans == |Orphans(es, returnOrder[..i])|
    {
      var k := returnOrder[i];
      assert returnOrder[..i + 1][..i] == returnOrder[..i];
      if SpawnKey(k.id) !in spawns {
        unresolved := unresolved + [Gap(returns_[k], NoSpawn)];
        orphans := orphans + 1;
      }
    }
    assert returnOrder[..|returnOrder|] == returnOrder;
  }
}
