/**
 The delegation tree of a run (interface/geak_call_tree_html.py, build_tree): nodes in time order
 are nested by role rank with a stack of open ancestors. The stack finds, for every node, the
 nearest earlier node of strictly higher rank; read in preorder the tree is the time order again.
 */
module DelegationTree {
  import opened Wrappers
  import opened Sorting

  const LEAF := 4

  /** Lower rank is closer to the root; a role that is not listed is a leaf. */
  function RoleRank(role: string): (rank: int)
    ensures 0 <= rank <= LEAF
  {
    if role in {"director", "e2e_director"} then 0
    else if role in {"tech_lead", "techlead", "system_architect"} then 1
    else if role in {"senior_engineer", "profiler", "profile_engineer", "benchmark_engineer", "config_tuner",
                     "kernel_extractor", "tuning_specialist", "integrator", "e2e_integrator"} then 2
    else if role in {"engineer", "verify", "verifier", "file_writer"} then 3
    else LEAF
  }

  /** One agent node: its role, its first timestamp if any, and the children it is given. */
  class Node {
    const role: string
    const ts: Option<int>
    var children: seq<Node>

    constructor (role: string, ts: Option<int>)
      ensures this.role == role && this.ts == ts && children == []
    {
      this.role, this.ts := role, ts;
      children := [];
    }
  }

  // ---- time order ------------------------------------------------------------------

  datatype Entry = Entry(ts: Option<int>, index: nat)

  /** Undated entries last, then by time, then by position in the list. */
  predicate EntryLe(a: Entry, b: Entry) {
    if a.ts.None? != b.ts.None? then b.ts.None?
    else if a.ts.GetOr(0) != b.ts.GetOr(0) then a.ts.GetOr(0) < b.ts.GetOr(0)
    else a.index <= b.index
  }

  function Enumerated(nodes: seq<Node>): (r: seq<Entry>)
    ensures |r| == |nodes| && forall i :: 0 <= i < |nodes| ==> r[i] == Entry(nodes[i].ts, i)
  {
    seq(|nodes|, i requires 0 <= i < |nodes| => Entry(nodes[i].ts, i))
  }

  predicate Within(order: seq<Entry>, n: nat) { forall e :: e in order ==> e.index < n }

  function TimeOrder(nodes: seq<Node>): (r: seq<Entry>)
    ensures |r| == |nodes| && Within(r, |nodes|)
  {
    SortPermutes(Enumerated(nodes), EntryLe);
    Sort(Enumerated(nodes), EntryLe)
  }

  function Ordered(nodes: seq<Node>): (r: seq<Node>)
    ensures |r| == |nodes|
  {
    var order := TimeOrder(nodes);
    seq(|order|, i requires 0 <= i < |order| => assert order[i] in order; nodes[order[i].index])
  }

  /** Every node occurs exactly once, and times never decrease; ties keep the order of the list. */
  lemma {:induction false} TimeOrderIsSorted(nodes: seq<Node>)
    ensures Sorted(TimeOrder(nodes), EntryLe) && Distinct(TimeOrder(nodes))
    ensures forall e :: e in TimeOrder(nodes) <==> e.index < |nodes| && e == Entry(nodes[e.index].ts, e.index)
  {
    SortSorts(Enumerated(nodes), EntryLe);
    SortPermutes(Enumerated(nodes), EntryLe);
    SortDistinct(Enumerated(nodes), EntryLe);
    forall e: Entry | e.index < |nodes| && e == Entry(nodes[e.index].ts, e.index) ensures e in Enumerated(nodes) {
      assert Enumerated(nodes)[e.index] == e;
    }
  }

  /**
   Dated before undated, the earlier before the later, and at one time (or none) the earlier in the list. Together
   with the entries being those of the list, each once, this leaves only one order.
   */
  lemma {:induction false} EarlierFirst(nodes: seq<Node>, i: nat, j: nat)
    requires i < j < |nodes|
    ensures var a, b := TimeOrder(nodes)[i], TimeOrder(nodes)[j];
            && a.index < |nodes| && a.ts == nodes[a.index].ts && Ordered(nodes)[i] == nodes[a.index]
            && b.index < |nodes| && b.ts == nodes[b.index].ts && Ordered(nodes)[j] == nodes[b.index]
            && (a.ts.None? ==> b.ts.None?)
            && (a.ts.Some? && b.ts.Some? ==> a.ts.value <= b.ts.value)
            && (a.ts == b.ts ==> a.index < b.index)
  {
    TimeOrderIsSorted(nodes);
    var a, b := TimeOrder(nodes)[i], TimeOrder(nodes)[j];
    assert a in TimeOrder(nodes) && b in TimeOrder(nodes);
    assert EntryLe(a, b) && a != b;
  }

  /** The roles by rank. */
  lemma {:induction false} RankOfRole(role: string)
    ensures RoleRank(role) == 0 <==> role == "director" || role == "e2e_director"
    ensures RoleRank(role) == 1 <==> role == "tech_lead" || role == "techlead" || role == "system_architect"
    ensures RoleRank(role) == 2 <==>
            || role == "senior_engineer" || role == "profiler" || role == "profile_engineer"
            || role == "benchmark_engineer" || role == "config_tuner" || role == "kernel_extractor"
            || role == "tuning_specialist" || role == "integrator" || role == "e2e_integrator"
    ensures RoleRank(role) == 3 <==>
            role == "engineer" || role == "verify" || role == "verifier" || role == "file_writer"
    ensures RoleRank(role) <= 4
  {
  }

  lemma {:induction false} OrderedDistinct(nodes: seq<Node>)
    requires Distinct(nodes)
    ensures Distinct(Ordered(nodes))
    ensures forall x :: x in Ordered(nodes) <==> x in nodes
  {
    TimeOrderIsSorted(nodes);
    var order, r := TimeOrder(nodes), Ordered(nodes);
    forall i, j | 0 <= i < j < |r| ensures r[i] != r[j] {
      assert order[i] in order && order[j] in order && order[i] != order[j];
      assert order[i].index != order[j].index;
    }
    forall x | x in nodes ensures x in r {
      var k :| 0 <= k < |nodes| && nodes[k] == x;
      assert Entry(x.ts, k) in order;
      var i :| 0 <= i < |order| && order[i] == Entry(x.ts, k);
      assert r[i] == x;
    }
    forall x | x in r ensures x in nodes {
      var i :| 0 <= i < |r| && r[i] == x;
      assert order[i] in order;
    }
  }

  // ---- the nearest earlier node of strictly smaller rank -------------------------------

  /** The last position at or before `j` whose rank is below `r`, or -1 for the root. */
  function NearestBelow(ranks: seq<int>, j: int, r: int): (p: int)
    requires -1 <= j < |ranks|
    ensures -1 <= p <= j
    ensures p >= 0 ==> ranks[p] < r
    ensures forall i :: p < i <= j ==> ranks[i] >= r
    decreases j + 1
  {
    if j < 0 || ranks[j] < r then j else NearestBelow(ranks, j - 1, r)
  }

  function ParentOf(ranks: seq<int>, i: nat): (p: int)
    requires i < |ranks|
    ensures -1 <= p < i
  {
    NearestBelow(ranks, i - 1, ranks[i])
  }

  lemma {:induction false} NearestIs(ranks: seq<int>, j: int, r: int, p: int)
    requires -1 <= p <= j < |ranks|
    requires p >= 0 ==> ranks[p] < r
    requires forall i :: p < i <= j ==> ranks[i] >= r
    ensures NearestBelow(ranks, j, r) == p
  {
  }

  /** Popping a node of no smaller rank loses nothing: everything since its own parent is no smaller either. */
  lemma {:induction false} PopIsSafe(ranks: seq<int>, t: nat, r: int)
    requires t < |ranks| && ranks[t] >= r
    ensures NearestBelow(ranks, t, r) == NearestBelow(ranks, ParentOf(ranks, t), r)
  {
    NearestIs(ranks, t, r, NearestBelow(ranks, ParentOf(ranks, t), r));
  }

  function Ranks(nodes: seq<Node>): (r: seq<int>)
    ensures |r| == |nodes| && forall i :: 0 <= i < |nodes| ==> r[i] == RoleRank(nodes[i].role)
  {
    seq(|nodes|, i requires 0 <= i < |nodes| => RoleRank(nodes[i].role))
  }

  /** The nodes whose parent is the node at `p` (the root if p is -1), among the first `k`, in order. */
  function Kids(ordered: seq<Node>, p: int, k: nat): seq<Node>
    requires k <= |ordered|
  {
    if k == 0 then []
    else Kids(ordered, p, k - 1) + (if ParentOf(Ranks(ordered), k - 1) == p then [ordered[k - 1]] else [])
  }

  ghost function NodeAt(root: Node, ordered: seq<Node>, i: int): Node
    requires -1 <= i < |ordered|
  {
    if i < 0 then root else ordered[i]
  }

  /** The tree as it must be: the children of the root and of every node, among the first `k` nodes. */
  ghost predicate Nested(root: Node, ordered: seq<Node>, k: nat)
    requires k <= |ordered|
    reads root, ordered
  {
    forall p :: -1 <= p < k ==> NodeAt(root, ordered, p).children == Kids(ordered, p, k)
  }

  // ---- the stack algorithm ---------------------------------------------------------------

  /** The stack holds the chain of ancestors of the node placed last, the root at the bottom. */
  ghost predicate Chain(stack: seq<(Node, int)>, ids: seq<int>, root: Node, ordered: seq<Node>, k: nat)
    requires k <= |ordered|
  {
    && |stack| == |ids| > 0 && ids[0] == -1
    && (forall j :: 0 <= j < |ids| ==> -1 <= ids[j] < k && stack[j].0 == NodeAt(root, ordered, ids[j]))
    && (forall j :: 0 < j < |ids| ==>
          ids[j] >= 0 && stack[j].1 == RoleRank(ordered[ids[j]].role)
          && ParentOf(Ranks(ordered), ids[j]) == ids[j - 1])
  }

  /** Among distinct nodes, the children of `p` are those whose parent is at `p`. */
  lemma {:induction false} KidsExact(ordered: seq<Node>, p: int, k: nat, j: nat)
    requires k <= |ordered| && j < |ordered| && Distinct(ordered)
    ensures ordered[j] in Kids(ordered, p, k) <==> j < k && ParentOf(Ranks(ordered), j) == p
  {
    if k > 0 {
      KidsExact(ordered, p, k - 1, j);
      InMoreKids(ordered, p, k - 1, ordered[j]);
      assert ordered[j] == ordered[k - 1] <==> j == k - 1;
    }
  }

  lemma {:induction false} InMoreKids(ordered: seq<Node>, p: int, k: nat, x: Node)
    requires k < |ordered|
    ensures x in Kids(ordered, p, k + 1)
            <==> x in Kids(ordered, p, k) || (ParentOf(Ranks(ordered), k) == p && x == ordered[k])
  {
  }

  /**
   Who is whose child: a later node of greater rank with none between them of less rank than its own; and the
   root's are those that nothing earlier outranks.
   */
  lemma {:induction false} ChildIff(root: Node, ordered: seq<Node>, i: int, j: nat)
    requires Distinct(ordered) && root !in ordered && Nested(root, ordered, |ordered|)
    requires -1 <= i < |ordered| && j < |ordered|
    ensures ordered[j] in NodeAt(root, ordered, i).children <==>
            && i < j && (i >= 0 ==> RoleRank(ordered[i].role) < RoleRank(ordered[j].role))
            && (forall m :: i < m < j ==> RoleRank(ordered[m].role) >= RoleRank(ordered[j].role))
  {
    var ranks := Ranks(ordered);
    KidsExact(ordered, i, |ordered|, j);
    if i < j && (i >= 0 ==> ranks[i] < ranks[j]) && (forall m :: i < m < j ==> ranks[m] >= ranks[j]) {
      NearestIs(ranks, j - 1, ranks[j], i);
    }
  }

  method BuildTree(nodes: seq<Node>) returns (root: Node)
    requires Distinct(nodes)
    modifies nodes
    ensures fresh(root)
    ensures Nested(root, Ordered(nodes), |nodes|)
    ensures ReadBack(root, (set n | n in nodes) + {root}, |nodes| + 1) == [root] + Ordered(nodes)
  {
    var ordered := Ordered(nodes);
    OrderedDistinct(nodes);
    root := new Node("Run", None);
    assert root !in ordered;
    PlaceAll(root, ordered);
    TreeReadsBack(root, ordered, (set n | n in nodes) + {root});
  }

  method PlaceAll(root: Node, ordered: seq<Node>)
    requires Distinct(ordered) && root !in ordered && Nested(root, ordered, 0)
    modifies root, ordered
    ensures Nested(root, ordered, |ordered|)
  {
    var stack: seq<(Node, int)> := [(root, -1)];
    ghost var ids: seq<int> := [-1];
    for k := 0 to |ordered|
      invariant Chain(stack, ids, root, ordered, k) && ids[|ids| - 1] == k - 1
      invariant Nested(root, ordered, k)
    {
      stack, ids := Place(root, ordered, k, stack, ids);
    }
  }

  /** The body of the loop: find the parent of the next node, attach it, and open it. */
  method Place(root: Node, ordered: seq<Node>, k: nat, stack0: seq<(Node, int)>, ghost ids0: seq<int>)
    returns (stack: seq<(Node, int)>, ghost ids: seq<int>)
    requires k < |ordered| && Distinct(ordered) && root !in ordered
    requires Chain(stack0, ids0, root, ordered, k) && ids0[|ids0| - 1] == k - 1
    requires Nested(root, ordered, k)
    modifies root, ordered
    ensures Chain(stack, ids, root, ordered, k + 1) && ids[|ids| - 1] == k
    ensures Nested(root, ordered, k + 1)
  {
    var node := ordered[k];
    var rank := RoleRank(node.role);
    stack, ids := PopClosed(stack0, ids0, root, ordered, k, rank);
    Adopt(root, ordered, k, stack[|stack| - 1].0, node);
    ChainGrows(stack, ids, root, ordered, k);
    stack, ids := stack + [(node, rank)], ids + [k];
  }

  /** The inner loop: pop every open node of equal or lower precedence. */
  method PopClosed(stack0: seq<(Node, int)>, ghost ids0: seq<int>, ghost root: Node, ghost ordered: seq<Node>,
                   ghost k: nat, rank: int)
    returns (stack: seq<(Node, int)>, ghost ids: seq<int>)
    requires k < |ordered| && Chain(stack0, ids0, root, ordered, k) && ids0[|ids0| - 1] == k - 1
    requires rank == RoleRank(ordered[k].role)
    ensures Chain(stack, ids, root, ordered, k)
    ensures ids[|ids| - 1] == ParentOf(Ranks(ordered), k)
  {
    stack, ids := stack0, ids0;
    ghost var ranks := Ranks(ordered);
    while |stack| > 1 && stack[|stack| - 1].1 >= rank
      invariant Chain(stack, ids, root, ordered, k)
      invariant NearestBelow(ranks, ids[|ids| - 1], rank) == ParentOf(ranks, k)
      decreases |stack|
    {
      PopIsSafe(ranks, ids[|ids| - 1], rank);
      stack, ids := stack[..|stack| - 1], ids[..|ids| - 1];
    }
  }

  lemma {:induction false} ChainGrows(stack: seq<(Node, int)>, ids: seq<int>, root: Node, ordered: seq<Node>, k: nat)
    requires k < |ordered| && Chain(stack, ids, root, ordered, k)
    requires ids[|ids| - 1] == ParentOf(Ranks(ordered), k)
    ensures Chain(stack + [(ordered[k], RoleRank(ordered[k].role))], ids + [k], root, ordered, k + 1)
  {
  }

  /** `node["children"] = []` and `stack[-1][0]["children"].append(node)`. */
  method Adopt(root: Node, ghost ordered: seq<Node>, ghost k: nat, parent: Node, node: Node)
    requires k < |ordered| && Distinct(ordered) && root !in ordered
    requires node == ordered[k]
    requires parent == NodeAt(root, ordered, ParentOf(Ranks(ordered), k))
    requires Nested(root, ordered, k)
    modifies parent, node
    ensures Nested(root, ordered, k + 1)
  {
    ghost var p := ParentOf(Ranks(ordered), k);
    node.children := [];
    parent.children := parent.children + [node];
    NoKidsYet(ordered, k, k + 1);
    forall q | -1 <= q <= k && q != p
      ensures NodeAt(root, ordered, q) != parent
    {
    }
    forall q | -1 <= q < k
      ensures NodeAt(root, ordered, q) != node
    {
    }
  }

  lemma {:induction false} NoKidsYet(ordered: seq<Node>, p: nat, k: nat)
    requires k <= |ordered| && k <= p + 1
    ensures Kids(ordered, p, k) == []
  {
    if k > 0 { NoKidsYet(ordered, p, k - 1); }
  }

  // ---- where a subtree ends ---------------------------------------------------------------------

  /** Where the subtree of `i` ends: at the next node of no greater rank. */
  function End(ranks: seq<int>, i: int): (e: nat)
    requires -1 <= i < |ranks|
    ensures i < e <= |ranks|
    ensures i >= 0 ==> forall j :: i < j < e ==> ranks[j] > ranks[i]
    ensures i >= 0 && e < |ranks| ==> ranks[e] <= ranks[i]
    ensures i < 0 ==> e == |ranks| || |ranks| == 0
  {
    if i < 0 then |ranks| else EndFrom(ranks, i, i + 1)
  }

  function EndFrom(ranks: seq<int>, i: nat, j: nat): (e: nat)
    requires i < j <= |ranks|
    ensures j <= e <= |ranks|
    ensures forall k :: j <= k < e ==> ranks[k] > ranks[i]
    ensures e < |ranks| ==> ranks[e] <= ranks[i]
    decreases |ranks| - j
  {
    if j == |ranks| || ranks[j] <= ranks[i] then j else EndFrom(ranks, i, j + 1)
  }

  /** The next sibling of a child of `p` is where that child's subtree ends. */
  lemma {:induction false} NextSibling(ranks: seq<int>, p: int, c: nat)
    requires -1 <= p < c < |ranks| && ParentOf(ranks, c) == p
    ensures End(ranks, c) <= End(ranks, p)
    ensures End(ranks, c) < End(ranks, p) ==> ParentOf(ranks, End(ranks, c)) == p
    ensures forall i :: c < i < End(ranks, c) ==> ParentOf(ranks, i) != p
  {
    var e := End(ranks, c);
    if e < End(ranks, p) {
      NearestIs(ranks, e - 1, ranks[e], p);
    }
  }

  lemma {:induction false} NoLaterKids(ranks: seq<int>, p: nat, i: nat)
    requires p < |ranks| && End(ranks, p) <= i < |ranks|
    ensures ParentOf(ranks, i) != p
  {
    var e := End(ranks, p);
    assert ranks[e] <= ranks[p];
  }

  // ---- the tree itself reads back as the time order ----------------------------------------------

  /** A node and what hangs under it, parents first, read off the children lists of the nodes in `all`. */
  ghost function ReadBack(n: Node, all: set<Node>, depth: nat): seq<Node>
    reads all
    decreases depth, 0, 0
  {
    if depth == 0 || n !in all then [] else [n] + ReadAll(n.children, all, depth - 1)
  }

  ghost function ReadAll(kids: seq<Node>, all: set<Node>, depth: nat): seq<Node>
    reads all
    decreases depth, 1, |kids|
  {
    if kids == [] then [] else ReadBack(kids[0], all, depth) + ReadAll(kids[1..], all, depth)
  }

  /** The nodes from position `lo` on whose parent is the node at `p`. */
  function KidsAfterwards(ordered: seq<Node>, p: int, lo: nat): seq<Node>
    requires lo <= |ordered|
    decreases |ordered| - lo
  {
    if lo == |ordered| then []
    else (if ParentOf(Ranks(ordered), lo) == p then [ordered[lo]] else []) + KidsAfterwards(ordered, p, lo + 1)
  }

  lemma {:induction false} KidsDivided(ordered: seq<Node>, p: int, k: nat)
    requires k <= |ordered|
    ensures Kids(ordered, p, |ordered|) == Kids(ordered, p, k) + KidsAfterwards(ordered, p, k)
    decreases |ordered| - k
  {
    if k == |ordered| {
      assert Kids(ordered, p, k) + [] == Kids(ordered, p, k);
    } else {
      KidsDivided(ordered, p, k + 1);
      var x := if ParentOf(Ranks(ordered), k) == p then [ordered[k]] else [];
      Reassociate(Kids(ordered, p, k), x, KidsAfterwards(ordered, p, k + 1));
    }
  }

  lemma {:induction false} Reassociate(a: seq<Node>, x: seq<Node>, b: seq<Node>)
    ensures a + x + b == a + (x + b)
  {
  }

  lemma {:induction false} NotAKid(ordered: seq<Node>, p: int, lo: nat)
    requires lo < |ordered| && ParentOf(Ranks(ordered), lo) != p
    ensures KidsAfterwards(ordered, p, lo) == KidsAfterwards(ordered, p, lo + 1)
  {
    assert [] + KidsAfterwards(ordered, p, lo + 1) == KidsAfterwards(ordered, p, lo + 1);
  }

  lemma {:induction false} NoneBetween(ordered: seq<Node>, p: int, lo: nat, hi: nat)
    requires lo <= hi <= |ordered| && forall i :: lo <= i < hi ==> ParentOf(Ranks(ordered), i) != p
    ensures KidsAfterwards(ordered, p, lo) == KidsAfterwards(ordered, p, hi)
    decreases hi - lo
  {
    if lo < hi {
      NotAKid(ordered, p, lo);
      NoneBetween(ordered, p, lo + 1, hi);
    }
  }

  /** The first of the remaining children, and the rest of them: those behind its subtree. */
  lemma {:induction false} FirstOfKids(ordered: seq<Node>, p: int, lo: nat)
    requires -1 <= p < lo < |ordered| && ParentOf(Ranks(ordered), lo) == p
    ensures KidsAfterwards(ordered, p, lo) == [ordered[lo]] + KidsAfterwards(ordered, p, End(Ranks(ordered), lo))
  {
    NextSibling(Ranks(ordered), p, lo);
    NoneBetween(ordered, p, lo + 1, End(Ranks(ordered), lo));
  }

  lemma {:induction false} NoneLeft(ordered: seq<Node>, p: int)
    requires -1 <= p < |ordered|
    ensures KidsAfterwards(ordered, p, End(Ranks(ordered), p)) == []
  {
    var ranks := Ranks(ordered);
    if p >= 0 {
      forall i | End(ranks, p) <= i < |ranks| ensures ParentOf(ranks, i) != p { NoLaterKids(ranks, p, i); }
    }
    NoneBetween(ordered, p, End(ranks, p), |ordered|);
  }

  lemma {:induction false} OwnKids(ordered: seq<Node>, i: nat)
    requires i < |ordered|
    ensures Kids(ordered, i, |ordered|) == KidsAfterwards(ordered, i, i + 1)
    ensures i + 1 < End(Ranks(ordered), i) ==> ParentOf(Ranks(ordered), i + 1) == i
  {
    var ranks := Ranks(ordered);
    KidsDivided(ordered, i, i + 1);
    NoKidsYet(ordered, i, i + 1);
    if i + 1 < End(ranks, i) { NearestIs(ranks, i, ranks[i + 1], i); }
  }

  /** The subtree of a node is a contiguous run of the time order. */
  lemma {:induction false} SubtreeReadBack(root: Node, ordered: seq<Node>, all: set<Node>, i: nat, depth: nat)
    requires Nested(root, ordered, |ordered|) && (forall x :: x in ordered ==> x in all)
    requires i < |ordered| && depth >= |ordered| - i
    ensures ReadBack(ordered[i], all, depth) == ordered[i..End(Ranks(ordered), i)]
    decreases |ordered| - i, 1, 0
  {
    ghost var end := End(Ranks(ordered), i);
    KidsOf(root, ordered, i);
    OwnKids(ordered, i);
    KidsReadBack(root, ordered, all, i, i + 1, depth - 1);
    Consed(ordered, i, end);
    Unfolded(ordered[i], all, depth);
  }

  lemma {:induction false} KidsOf(root: Node, ordered: seq<Node>, i: nat)
    requires Nested(root, ordered, |ordered|) && i < |ordered|
    ensures ordered[i].children == Kids(ordered, i, |ordered|)
  {
    assert NodeAt(root, ordered, i) == ordered[i];
  }

  lemma {:induction false} Unfolded(n: Node, all: set<Node>, depth: nat)
    requires depth > 0 && n in all
    ensures ReadBack(n, all, depth) == [n] + ReadAll(n.children, all, depth - 1)
  {
  }

  lemma {:induction false} Consed(s: seq<Node>, lo: nat, hi: nat)
    requires lo < hi <= |s|
    ensures s[lo..hi] == [s[lo]] + s[lo + 1..hi]
  {
  }

  lemma {:induction false} Joined(s: seq<Node>, lo: nat, mid: nat, hi: nat)
    requires lo <= mid <= hi <= |s|
    ensures s[lo..hi] == s[lo..mid] + s[mid..hi]
  {
  }

  lemma {:induction false} ReadAllCons(kid: Node, kids: seq<Node>, all: set<Node>, depth: nat)
    ensures ReadAll([kid] + kids, all, depth) == ReadBack(kid, all, depth) + ReadAll(kids, all, depth)
  {
    assert ([kid] + kids)[1..] == kids;
  }

  lemma {:induction false} KidsReadBack(root: Node, ordered: seq<Node>, all: set<Node>, p: int, lo: nat, depth: nat)
    requires Nested(root, ordered, |ordered|) && (forall x :: x in ordered ==> x in all)
    requires -1 <= p < |ordered| && p < lo <= End(Ranks(ordered), p) && depth >= |ordered| - lo
    requires lo < End(Ranks(ordered), p) ==> ParentOf(Ranks(ordered), lo) == p
    ensures ReadAll(KidsAfterwards(ordered, p, lo), all, depth) == ordered[lo..End(Ranks(ordered), p)]
    decreases |ordered| - p, 0, |ordered| - lo
  {
    var end := End(Ranks(ordered), p);
    if lo == end {
      NoneLeft(ordered, p);
    } else {
      var next := End(Ranks(ordered), lo);
      NextSibling(Ranks(ordered), p, lo);
      FirstOfKids(ordered, p, lo);
      SubtreeReadBack(root, ordered, all, lo, depth);
      KidsReadBack(root, ordered, all, p, next, depth);
      ReadAllCons(ordered[lo], KidsAfterwards(ordered, p, next), all, depth);
      Joined(ordered, lo, next, end);
    }
  }

  /** Read off its own children lists, the tree is the root followed by all nodes in time order, each once. */
  lemma {:induction false} TreeReadsBack(root: Node, ordered: seq<Node>, all: set<Node>)
    requires Nested(root, ordered, |ordered|) && root in all && (forall x :: x in ordered ==> x in all)
    ensures ReadBack(root, all, |ordered| + 1) == [root] + ordered
  {
    if ordered == [] {
      assert NodeAt(root, ordered, -1).children == Kids(ordered, -1, 0) == [];
    } else {
      assert NodeAt(root, ordered, -1).children == Kids(ordered, -1, |ordered|);
      KidsDivided(ordered, -1, 0);
      assert Kids(ordered, -1, 0) + KidsAfterwards(ordered, -1, 0) == KidsAfterwards(ordered, -1, 0);
      KidsReadBack(root, ordered, all, -1, 0, |ordered|);
      assert ordered[0..|ordered|] == ordered;
    }
  }
}
