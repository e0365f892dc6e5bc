/**
 The order in which `build_edges` lists what it made of the events (interface/geak_trace_events.py, lines 200-335):
 the edges, the attempts of each spawn and the relationships that a contradiction invalidated.
 */
module EventOrder {
  import opened Wrappers
  import opened Sorting
  import opened Sequences
  import Attempts
  import AttemptOrder
  import AttemptLaws
  import opened Events
  import opened EventLaws
  import opened LinkageLaws

  /** Some event of the identity `k` comes before every event of the identity `l`. */
  ghost predicate Earlier(es: seq<Event>, k: Key, l: Key) { exists p :: EarlierAt(es, k, l, p) }

  ghost predicate EarlierAt(es: seq<Event>, k: Key, l: Key, p: int) {
    0 <= p < |es| && KeyOf(es[p]) == k && forall q :: 0 <= q <= p ==> KeyOf(es[q]) != l
  }

  lemma {:induction false} KeysInOrder(es: seq<Event>, kind: Kind, a: nat, b: nat)
    requires a < b < |KeysSeen(es, kind)|
    ensures Earlier(es, KeysSeen(es, kind)[a], KeysSeen(es, kind)[b])
  {
    var n := |es| - 1;
    var keys, front := KeysSeen(es, kind), KeysSeen(es[..n], kind);
    if b < |front| {
      KeysInOrder(es[..n], kind, a, b);
      var p :| EarlierAt(es[..n], front[a], front[b], p);
      assert EarlierAt(es, keys[a], keys[b], p);
    } else {
      KeysSeenElements(es[..n], kind);
      assert front[a] in front;
      FirstHasKey(es[..n], front[a]);
      FirstHasKey(es[..n], keys[b]);
      var p :| 0 <= p < n && es[..n][p] == First(es[..n], front[a]).value;
      forall q | 0 <= q <= p ensures KeyOf(es[q]) != keys[b] { assert es[..n][q] in es[..n]; }
      assert EarlierAt(es, keys[a], keys[b], p);
    }
  }

  // ---- edges -----------------------------------------------------------------------------------------------

  function EdgeKey(e: Edge): Key { if e.TransferEdge? then TransferKey(e.eventId) else SpawnKey(e.spawnId) }

  /** The two identities are listed in this order. */
  ghost predicate Follows(keys: seq<Key>, x: Key, y: Key) { exists a, b :: At(keys, x, y, a, b) }

  ghost predicate At(keys: seq<Key>, x: Key, y: Key, a: int, b: int) {
    0 <= a < b < |keys| && keys[a] == x && keys[b] == y
  }

  /** Edges made one after the other, at most one for each key, follow the keys. */
  ghost predicate Ordered(edges: seq<Edge>, keys: seq<Key>) {
    && (forall i :: 0 <= i < |edges| ==> EdgeKey(edges[i]) in keys)
    && (forall i, j :: 0 <= i < j < |edges| ==> Follows(keys, EdgeKey(edges[i]), EdgeKey(edges[j])))
  }

  lemma {:induction false} OrderedMore(edges: seq<Edge>, keys: seq<Key>, e: seq<Edge>)
    requires keys != [] && Ordered(edges, keys[..|keys| - 1])
    requires |e| <= 1 && (e != [] ==> EdgeKey(e[0]) == keys[|keys| - 1])
    ensures Ordered(edges + e, keys)
  {
    var n, all := |keys| - 1, edges + e;
    forall i, j | 0 <= i < j < |all| ensures Follows(keys, EdgeKey(all[i]), EdgeKey(all[j])) {
      if j < |edges| {
        var a, b :| At(keys[..n], EdgeKey(all[i]), EdgeKey(all[j]), a, b);
        assert At(keys, EdgeKey(all[i]), EdgeKey(all[j]), a, b);
      } else {
        assert EdgeKey(edges[i]) in keys[..n];
        var a :| 0 <= a < n && keys[..n][a] == EdgeKey(edges[i]);
        assert At(keys, EdgeKey(all[i]), EdgeKey(all[j]), a, n);
      }
    }
  }

  lemma {:induction false} TransfersOrdered(es: seq<Event>, keys: seq<Key>, known: set<Id>)
    ensures Ordered(JoinTransfers(es, keys, known).0, keys)
  {
    if keys != [] {
      var n := |keys| - 1;
      TransfersOrdered(es, keys[..n], known);
      FirstHasKey(es, keys[n]);
      var ev, front := First(es, keys[n]), JoinTransfers(es, keys[..n], known).0;
      if ev.None? || !ev.value.Supplied? {
        JoinNothing(front);
        OrderedMore(front, keys, []);
      } else {
        OrderedMore(front, keys, JoinTransfer(ev.value, known, AllClashing(es)).0);
      }
    }
  }

  lemma {:induction false} SpawnsOrdered(es: seq<Event>, keys: seq<Key>, known: set<Id>, tools: Tools)
    ensures Ordered(JoinSpawns(es, keys, known, tools).0, keys)
  {
    if keys != [] {
      var n := |keys| - 1;
      SpawnsOrdered(es, keys[..n], known, tools);
      FirstHasKey(es, keys[n]);
      var ev, front := First(es, keys[n]), JoinSpawns(es, keys[..n], known, tools).0;
      if ev.None? || !ev.value.Spawn? {
        JoinNothing(front);
        OrderedMore(front, keys, []);
      } else {
        OneSpawn(es, ev.value, known, tools);
        OrderedMore(front, keys, JoinSpawn(es, ev.value, known, tools).0);
      }
    }
  }

  lemma {:induction false} OneSpawn(es: seq<Event>, ev: Event, known: set<Id>, tools: Tools)
    requires ev.Spawn?
    ensures var e := JoinSpawn(es, ev, known, tools).0;
            |e| <= 1 && (e != [] ==> EdgeKey(e[0]) == KeyOf(ev))
  {
  }

  lemma {:induction false} KindsOfEdges(es: seq<Event>, known: set<Id>, tools: Tools)
    ensures forall e :: e in JoinTransfers(es, KeysSeen(es, Transfers), known).0 ==> e.TransferEdge?
    ensures forall e :: e in JoinSpawns(es, KeysSeen(es, Spawns), known, tools).0 ==> e.SpawnEdge?
  {
    forall e | e in JoinTransfers(es, KeysSeen(es, Transfers), known).0 ensures e.TransferEdge? {
      TransferEdgesExact(es, known, e);
    }
    forall e | e in JoinSpawns(es, KeysSeen(es, Spawns), known, tools).0 ensures e.SpawnEdge? {
      SpawnEdgesExact(es, known, tools, e);
    }
  }

  lemma {:induction false} FollowsSeen(es: seq<Event>, kind: Kind, x: Key, y: Key)
    requires Follows(KeysSeen(es, kind), x, y)
    ensures Earlier(es, x, y)
  {
    var a, b :| At(KeysSeen(es, kind), x, y, a, b);
    KeysInOrder(es, kind, a, b);
  }

  /** Transfers are listed before spawns, and both in the order in which the events first name them, each once. */
  lemma {:induction false} EdgesInOrder(es: seq<Event>, known: set<Id>, tools: Tools, i: nat, j: nat)
    requires i < j < |Edges(es, known, tools)|
    ensures InOrder(es, Edges(es, known, tools)[i], Edges(es, known, tools)[j])
  {
    TransfersOrdered(es, KeysSeen(es, Transfers), known);
    SpawnsOrdered(es, KeysSeen(es, Spawns), known, tools);
    KindsOfEdges(es, known, tools);
    JoinedInOrder(es, JoinTransfers(es, KeysSeen(es, Transfers), known).0,
                  JoinSpawns(es, KeysSeen(es, Spawns), known, tools).0, i, j);
  }

  ghost predicate InOrder(es: seq<Event>, e: Edge, f: Edge) {
    (e.TransferEdge? && f.SpawnEdge?) || ((e.TransferEdge? <==> f.TransferEdge?) && Earlier(es, EdgeKey(e), EdgeKey(f)))
  }

  lemma {:induction false} JoinedInOrder(es: seq<Event>, ts: seq<Edge>, ss: seq<Edge>, i: nat, j: nat)
    requires Ordered(ts, KeysSeen(es, Transfers)) && Ordered(ss, KeysSeen(es, Spawns)) && i < j < |ts + ss|
    requires (forall e :: e in ts ==> e.TransferEdge?) && (forall e :: e in ss ==> e.SpawnEdge?)
    ensures InOrder(es, (ts + ss)[i], (ts + ss)[j])
  {
    if j < |ts| {
      assert ts[i] in ts && ts[j] in ts;
      FollowsSeen(es, Transfers, EdgeKey(ts[i]), EdgeKey(ts[j]));
    } else if i >= |ts| {
      assert ss[i - |ts|] in ss && ss[j - |ts|] in ss;
      FollowsSeen(es, Spawns, EdgeKey(ss[i - |ts|]), EdgeKey(ss[j - |ts|]));
    } else {
      assert ts[i] in ts && ss[j - |ts|] in ss;
    }
  }

  // ---- the attempts of a spawn ---------------------------------------------------------------------------------

  /** The walk over sorted returns leaves the attempts sorted by their ids. */
  ghost predicate ByAttempt(keys: seq<Key>) {
    forall a, b :: 0 <= a < b < |keys| && keys[a].id == keys[b].id ==> StringLe(AttemptId(keys[a]), AttemptId(keys[b]))
  }

  lemma {:induction false} WalkInOrder(es: seq<Event>, keys: seq<Key>, s: Id, child: Id, i: nat, j: nat)
    requires ByAttempt(keys) && i < j < |WalkReturns(es, keys, s, child).0|
    ensures var r := WalkReturns(es, keys, s, child).0; StringLe(r[i].id, r[j].id)
  {
    var n := |keys| - 1;
    var front := WalkReturns(es, keys[..n], s, child).0;
    if j < |front| {
      WalkInOrder(es, keys[..n], s, child, i, j);
    } else {
      FirstHasKey(es, keys[n]);
      var a := WalkedKey(es, keys[..n], s, child, i);
      assert StringLe(AttemptId(keys[a]), AttemptId(keys[n]));
    }
  }

  lemma {:induction false} WalkedKey(es: seq<Event>, keys: seq<Key>, s: Id, child: Id, i: nat) returns (a: nat)
    requires i < |WalkReturns(es, keys, s, child).0|
    ensures a < |keys| && keys[a].id == s && AttemptId(keys[a]) == WalkReturns(es, keys, s, child).0[i].id
  {
    var walked := WalkReturns(es, keys, s, child).0;
    WalkElements(es, keys, s, child);
    assert walked[i] in walked;
    var k :| k in keys && k.id == s && First(es, k).Some? && First(es, k).value.Return?
             && First(es, k).value.child == child && walked[i] == AttemptOf(First(es, k).value);
    FirstHasKey(es, k);
    a :| a < |keys| && keys[a] == k;
  }

  lemma {:induction false} ReturnsByAttempt(es: seq<Event>)
    ensures ByAttempt(ReturnOrder(es))
  {
    KeyLeRanks();
    SortSorts(KeysSeen(es, Returns), KeyLe);
    var keys := ReturnOrder(es);
    forall a, b | 0 <= a < b < |keys| && keys[a].id == keys[b].id
      ensures StringLe(AttemptId(keys[a]), AttemptId(keys[b]))
    {
      assert KeyLe(keys[a], keys[b]);
    }
  }

  lemma {:induction false} KeyLeRanks()
    ensures Ranking(KeyLe)
  {
    StringLeOrders();
  }

  /**
   The attempts of a spawn are listed in the sequence that they record; if they do not record one, by their ids, in
   the order of characters.
   */
  lemma {:induction false} AttemptsInOrder(es: seq<Event>, known: set<Id>, tools: Tools, e: Edge, i: nat, j: nat)
    requires e in Edges(es, known, tools) && e.SpawnEdge? && i < j < |e.attempts|
    ensures if AttemptOrder.Placed(e.attempts) then e.attempts[i].seqNo.value < e.attempts[j].seqNo.value
            else NotAfter(e.attempts[i].id, e.attempts[j].id)
  {
    EdgesExact(es, known, tools, e);
    var ev :| SpawnJoined(es, known, tools, ev) && e == SpawnOf(ev, AttemptsFor(es, ev.spawnId, ev.child));
    var walked := AttemptsFor(es, ev.spawnId, ev.child);
    AttemptOrder.MergedInOrder(ev.spawnId, walked, [], i, j);
    if !AttemptOrder.Placed(e.attempts) {
      assert [] + walked == walked;
      var q := Walked(ev.spawnId, walked, j);
      SoonerIsLess(es, ev.spawnId, ev.child, e.attempts[i].id, q);
    }
  }

  lemma {:induction false} Walked(s: Id, walked: seq<Attempts.Attempt>, j: nat) returns (q: nat)
    requires j < |Attempts.Reconciliation(s, walked, []).merged|
    ensures q < |walked| && walked[q].id == Attempts.Reconciliation(s, walked, []).merged[j].id
  {
    var a := Attempts.Reconciliation(s, walked, []).merged[j];
    AttemptLaws.NoAttemptLost(s, walked, []);
    assert [] + walked == walked;
    Attempts.LastOfFinds(walked, a.id);
    q :| q < |walked| && walked[q] == a;
  }

  lemma {:induction false} SoonerIsLess(es: seq<Event>, s: Id, child: Id, x: Id, q: nat)
    requires q < |AttemptsFor(es, s, child)|
    requires AttemptOrder.Sooner(AttemptLaws.Ids(AttemptsFor(es, s, child)), x, AttemptsFor(es, s, child)[q].id)
    ensures NotAfter(x, AttemptsFor(es, s, child)[q].id)
  {
    var walked := AttemptsFor(es, s, child);
    var y, ids := walked[q].id, AttemptLaws.Ids(walked);
    var p :| 0 <= p < |ids| && ids[p] == x && y !in ids[..p + 1];
    forall k | 0 <= k <= p ensures ids[k] != y { assert ids[..p + 1][k] in ids[..p + 1]; }
    ReturnsByAttempt(es);
    WalkInOrder(es, ReturnOrder(es), s, child, p, q);
    StringLeIff(x, y);
  }

  // ---- what is invalidated ------------------------------------------------------------------------------------------

  /** By id, in the order of characters; for one id the transfer before the spawn. */
  ghost predicate ListedBefore(x: (Kind, Id), y: (Kind, Id)) {
    NotAfter(x.1, y.1) && (x.1 == y.1 ==> x.0 == Transfers && y.0 == Spawns)
  }

  lemma {:induction false} InvalidatedInOrder(es: seq<Event>, ids: seq<Id>, s: set<Id>, i: nat, j: nat)
    requires Enumerates(ids, s) && i < j < |RelationsOf(es, ids)|
    ensures ListedBefore(RelationsOf(es, ids)[i], RelationsOf(es, ids)[j])
  {
    RelationsInOrder(es, ids, i, j);
  }

  lemma {:induction false} RelationsInOrder(es: seq<Event>, ids: seq<Id>, i: nat, j: nat)
    requires Sorted(ids, StringLe) && Distinct(ids) && i < j < |RelationsOf(es, ids)|
    ensures ListedBefore(RelationsOf(es, ids)[i], RelationsOf(es, ids)[j])
  {
    var n := |ids| - 1;
    var r, front := RelationsOf(es, ids), RelationsOf(es, ids[..n]);
    if j < |front| {
      RelationsInOrder(es, ids[..n], i, j);
    } else if i < |front| {
      RelationsExact(es, ids[..n], front[i]);
      assert front[i] in front;
      var a :| 0 <= a < n && ids[..n][a] == front[i].1;
      assert StringLe(ids[a], ids[n]) && ids[a] != ids[n];
      StringLeIff(ids[a], ids[n]);
    } else {
      assert ids[n] <= ids[n];
    }
  }

  // ---- what could not be joined -----------------------------------------------------------------------------------

  /** In which round of the fold a gap is found. */
  function Round(g: Gap): int {
    match g.reason
    case Contradiction => (match KindOf(KeyOf(g.event)) case Spawns => 0 case Returns => 1 case Transfers => 2)
    case Absent(_) => if g.event.Supplied? then 3 else 4
    case NoSpawn => 5
    case _ => 4
  }

  ghost predicate InRound(gaps: seq<Gap>, r: int) { forall g :: g in gaps ==> Round(g) == r }

  lemma {:induction false} ClashRound(es: seq<Event>, kind: Kind)
    ensures InRound(ClashGaps(es, kind), match kind case Spawns => 0 case Returns => 1 case Transfers => 2)
  {
    if es != [] { ClashRound(es[..|es| - 1], kind); }
  }

  lemma {:induction false} TransferRound(es: seq<Event>, known: set<Id>)
    ensures InRound(JoinTransfers(es, KeysSeen(es, Transfers), known).1, 3)
  {
    forall g | g in JoinTransfers(es, KeysSeen(es, Transfers), known).1 ensures Round(g) == 3 {
      TransferGaps(es, KeysSeen(es, Transfers), known, g);
    }
  }

  lemma {:induction false} SpawnRound(es: seq<Event>, known: set<Id>, tools: Tools)
    ensures InRound(JoinSpawns(es, KeysSeen(es, Spawns), known, tools).1, 4)
  {
    forall g | g in JoinSpawns(es, KeysSeen(es, Spawns), known, tools).1 ensures Round(g) == 4 {
      SpawnGaps(es, KeysSeen(es, Spawns), known, tools, g);
      var k :| k in KeysSeen(es, Spawns) && SpawnGapFrom(es, known, tools, k, g);
      SpawnGapRound(es, First(es, k).value, known, tools, g);
    }
  }

  lemma {:induction false} SpawnGapRound(es: seq<Event>, ev: Event, known: set<Id>, tools: Tools, g: Gap)
    requires ev.Spawn? && g in JoinSpawn(es, ev, known, tools).1
    ensures Round(g) == 4
  {
    WalkElements(es, ReturnOrder(es), ev.spawnId, ev.child);
  }

  lemma {:induction false} OrphanRound(es: seq<Event>)
    ensures InRound(Orphans(es, KeysSeen(es, Returns)), 5)
  {
    forall g | g in Orphans(es, KeysSeen(es, Returns)) ensures Round(g) == 5 {
      OrphanGaps(es, KeysSeen(es, Returns), g);
    }
  }

  ghost predicate Rising(gaps: seq<Gap>, hi: int) {
    && (forall i :: 0 <= i < |gaps| ==> Round(gaps[i]) <= hi)
    && (forall i, j :: 0 <= i < j < |gaps| ==> Round(gaps[i]) <= Round(gaps[j]))
  }

  lemma {:induction false} RisingMore(gaps: seq<Gap>, more: seq<Gap>, hi: int, r: int)
    requires Rising(gaps, hi) && InRound(more, r) && hi <= r
    ensures Rising(gaps + more, r)
  {
    var all := gaps + more;
    forall i | |gaps| <= i < |all| ensures Round(all[i]) == r { assert all[i] in more; }
  }

  /** Contradictions come first, by kind of record; then the transfers, the spawns and the returns without a spawn. */
  lemma {:induction false} GapsByRound(es: seq<Event>, known: set<Id>, tools: Tools, i: nat, j: nat)
    requires i < j < |Unresolved(es, known, tools)|
    ensures Round(Unresolved(es, known, tools)[i]) <= Round(Unresolved(es, known, tools)[j])
  {
    ClashRound(es, Spawns);
    ClashRound(es, Returns);
    ClashRound(es, Transfers);
    TransferRound(es, known);
    SpawnRound(es, known, tools);
    OrphanRound(es);
    SixRounds(ClashGaps(es, Spawns), ClashGaps(es, Returns), ClashGaps(es, Transfers),
              JoinTransfers(es, KeysSeen(es, Transfers), known).1,
              JoinSpawns(es, KeysSeen(es, Spawns), known, tools).1, Orphans(es, KeysSeen(es, Returns)));
  }

  lemma {:induction false} SixRounds(a: seq<Gap>, b: seq<Gap>, c: seq<Gap>, d: seq<Gap>, e: seq<Gap>, f: seq<Gap>)
    requires InRound(a, 0) && InRound(b, 1) && InRound(c, 2) && InRound(d, 3) && InRound(e, 4) && InRound(f, 5)
    ensures Rising(a + b + c + d + e + f, 5)
  {
    assert [] + a == a;
    RisingMore([], a, 0, 0);
    RisingMore(a, b, 0, 1);
    RisingMore(a + b, c, 1, 2);
    RisingMore(a + b + c, d, 2, 3);
    RisingMore(a + b + c + d, e, 3, 4);
    RisingMore(a + b + c + d + e, f, 4, 5);
  }

  /** The returns of a spawn that name another child are reported in the order of their attempt ids. */
  lemma {:induction false} WrongInOrder(es: seq<Event>, keys: seq<Key>, s: Id, child: Id, i: nat, j: nat)
    requires ByAttempt(keys) && i < j < |WalkReturns(es, keys, s, child).1|
    ensures var r := WalkReturns(es, keys, s, child).1;
            StringLe(AttemptId(KeyOf(r[i].event)), AttemptId(KeyOf(r[j].event)))
  {
    var n := |keys| - 1;
    var front := WalkReturns(es, keys[..n], s, child).1;
    if j < |front| {
      WrongInOrder(es, keys[..n], s, child, i, j);
    } else {
      FirstHasKey(es, keys[n]);
      var a := WrongKey(es, keys[..n], s, child, i);
      assert StringLe(AttemptId(keys[a]), AttemptId(keys[n]));
    }
  }

  lemma {:induction false} WrongKey(es: seq<Event>, keys: seq<Key>, s: Id, child: Id, i: nat) returns (a: nat)
    requires i < |WalkReturns(es, keys, s, child).1|
    ensures a < |keys| && keys[a].id == s && keys[a] == KeyOf(WalkReturns(es, keys, s, child).1[i].event)
  {
    var n := |keys| - 1;
    FirstHasKey(es, keys[n]);
    if i < |WalkReturns(es, keys[..n], s, child).1| { a := WrongKey(es, keys[..n], s, child, i); } else { a := n; }
  }
}
