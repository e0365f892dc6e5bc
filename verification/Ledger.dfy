/**
 Call rows into agent nodes into run totals (interface/geak_call_tree_html.py, _agent_key, agentize,
 node_detail, run_totals). Every call, token and dollar of the rows is in exactly one node, and the
 run's totals and its split by model account for all of them. Money and time are reals.
 */
module Ledger {
  import opened Wrappers
  import opened Sequences

  datatype Tokens = Tokens(input: int, cacheRead: int, write5m: int, write1h: int, output: int)

  datatype Costs = Costs(cacheWrite: real, cacheRead: real, uncached: real, router: real, output: real)

  datatype Amounts = Amounts(calls: int, tokens: Tokens, costs: Costs, usd: real, ms: real)

  const ZERO := Amounts(0, Tokens(0, 0, 0, 0, 0), Costs(0.0, 0.0, 0.0, 0.0, 0.0), 0.0, 0.0)

  function Plus(a: Amounts, b: Amounts): Amounts {
    Amounts(a.calls + b.calls,
            Tokens(a.tokens.input + b.tokens.input, a.tokens.cacheRead + b.tokens.cacheRead,
                   a.tokens.write5m + b.tokens.write5m, a.tokens.write1h + b.tokens.write1h,
                   a.tokens.output + b.tokens.output),
            Costs(a.costs.cacheWrite + b.costs.cacheWrite, a.costs.cacheRead + b.costs.cacheRead,
                  a.costs.uncached + b.costs.uncached, a.costs.router + b.costs.router,
                  a.costs.output + b.costs.output),
            a.usd + b.usd, a.ms + b.ms)
  }

  /** One ledger row: the identity it carries and what the call used. */
  datatype Row = Row(groupId: string, transcript: string, name: string, role: string, subPhase: string,
                     model: string, ts: Option<int>, lastSeen: Option<int>, tokens: Tokens, costs: Costs,
                     usd: real, duration: Option<real>, phase: string, attribution: string, workflowRun: string,
                     prompt: string, output: string, thinking: string, stamp: string, stopReason: string,
                     messageId: string)
  {
    function Ms(): real { duration.GetOr(0.0) }
  }

  /** The conversation a row belongs to: the ledger's own group, else transcript, label, role and sub-phase. */
  datatype Key = Group(id: string) | Loose(transcript: string, name: string, role: string, subPhase: string)

  function AgentKey(r: Row): Key {
    if r.groupId != "" then Group(r.groupId) else Loose(r.transcript, r.name, r.role, r.subPhase)
  }

  /** One provider response as a node keeps it. */
  datatype Response = Response(model: string, usd: real, ts: Option<int>, tokens: Tokens, costs: Costs,
                               output: string, thinking: string, duration: Option<real>, stamp: string,
                               stopReason: string, messageId: string)

  function ResponseOf(r: Row): Response {
    Response(r.model, r.usd, r.ts, r.tokens, r.costs, r.output, r.thinking, r.duration, r.stamp, r.stopReason,
             r.messageId)
  }

  /** What a node is called, as its first row says it. */
  datatype Head = Head(role: string, subPhase: string, title: string, phase: string, attribution: string,
                       workflowRun: string, prompt: string)

  function HeadOf(r: Row): Head {
    Head(if r.role != "" then r.role else "(driver)", r.subPhase, r.name, r.phase, r.attribution,
         r.workflowRun, r.prompt)
  }

  /** From an inferred start to the last moment something was seen, in milliseconds. */
  datatype Window = Window(start: real, end: real)

  /** The window of one call: it steps back from the row's time by its duration, and never ends before it starts. */
  function CallWindow(r: Row): Option<Window> {
    if r.ts.None? then None
    else
      var start := r.ts.value as real - r.Ms();
      var end := (if r.lastSeen.Some? then r.lastSeen.value else r.ts.value) as real;
      Some(Window(start, if end > start then end else start))
  }

  /** The smallest window around both. */
  function Hull(a: Option<Window>, b: Option<Window>): Option<Window> {
    if b.None? then a
    else if a.None? then b
    else Some(Window(if b.value.start < a.value.start then b.value.start else a.value.start,
                     if b.value.end > a.value.end then b.value.end else a.value.end))
  }

  datatype Node = Node(key: Key, sum: Amounts, models: set<string>, ts: Option<int>, span: Option<Window>,
                       responses: seq<Response>, head: Option<Head>, stamp: string, outputs: seq<string>,
                       thinkings: seq<string>)

  function Charge(r: Row): Amounts { Amounts(1, r.tokens, r.costs, r.usd, r.Ms()) }

  // ---- what a node has to hold ------------------------------------------------------------

  /** The rows of one conversation, in order. */
  function RowsOf(rows: seq<Row>, k: Key): seq<Row> {
    if rows == [] then []
    else
      var r := rows[|rows| - 1];
      RowsOf(rows[..|rows| - 1], k) + if AgentKey(r) == k then [r] else []
  }

  function Total(rows: seq<Row>): Amounts {
    if rows == [] then ZERO else Plus(Total(rows[..|rows| - 1]), Charge(rows[|rows| - 1]))
  }

  function Models(rows: seq<Row>): set<string> { set r | r in rows && r.model != "" :: r.model }

  function Responses(rows: seq<Row>): seq<Response> {
    seq(|rows|, i requires 0 <= i < |rows| => ResponseOf(rows[i]))
  }

  function Earlier(a: Option<int>, b: Option<int>): Option<int> {
    if b.Some? && (a.None? || b.value < a.value) then b else a
  }

  function FirstTs(rows: seq<Row>): Option<int> {
    if rows == [] then None else Earlier(FirstTs(rows[..|rows| - 1]), rows[|rows| - 1].ts)
  }

  function SpanOf(rows: seq<Row>): Option<Window> {
    if rows == [] then None else Hull(SpanOf(rows[..|rows| - 1]), CallWindow(rows[|rows| - 1]))
  }

  function FirstHead(rows: seq<Row>): Option<Head> { if rows == [] then None else Some(HeadOf(rows[0])) }

  /** The text of a node's time goes with its earliest row; without any time it is the first row's. */
  function Restamped(first: bool, ts: Option<int>, stamp: string, r: Row): string {
    if first || (r.ts.Some? && (ts.None? || r.ts.value < ts.value)) then r.stamp else stamp
  }

  function FirstStamp(rows: seq<Row>): string {
    if rows == [] then ""
    else
      var front := rows[..|rows| - 1];
      Restamped(front == [], FirstTs(front), FirstStamp(front), rows[|rows| - 1])
  }

  /** The texts written, in order; rows without any leave nothing. */
  function Outputs(rows: seq<Row>): seq<string> {
    if rows == [] then []
    else Outputs(rows[..|rows| - 1]) + NonEmpty(rows[|rows| - 1].output)
  }

  function Thinkings(rows: seq<Row>): seq<string> {
    if rows == [] then []
    else Thinkings(rows[..|rows| - 1]) + NonEmpty(rows[|rows| - 1].thinking)
  }

  function NonEmpty(text: string): seq<string> { if text != "" then [text] else [] }

  /** The node of a conversation, as its rows determine it. */
  function NodeOf(k: Key, rows: seq<Row>): Node {
    Node(k, Total(rows), Models(rows), FirstTs(rows), SpanOf(rows), Responses(rows),
         FirstHead(rows), FirstStamp(rows), Outputs(rows), Thinkings(rows))
  }

  predicate NoRepeats(ks: seq<Key>) { forall a, b :: 0 <= a < b < |ks| ==> ks[a] != ks[b] }

  /** The conversations in the order they first appear. */
  function Keys(rows: seq<Row>): seq<Key> {
    if rows == [] then []
    else
      var before, k := Keys(rows[..|rows| - 1]), AgentKey(rows[|rows| - 1]);
      if k in before then before else before + [k]
  }

  lemma {:induction false} KeysExact(rows: seq<Row>)
    ensures forall k :: k in Keys(rows) <==> exists r :: r in rows && AgentKey(r) == k
    ensures NoRepeats(Keys(rows))
  {
    if rows != [] {
      KeysExact(rows[..|rows| - 1]);
      assert forall r :: r in rows <==> r in rows[..|rows| - 1] || r == rows[|rows| - 1];
    }
  }

  function NodesOf(ks: seq<Key>, rows: seq<Row>): seq<Node> {
    seq(|ks|, i requires 0 <= i < |ks| => NodeOf(ks[i], RowsOf(rows, ks[i])))
  }

  /** A node's time is the earliest that any of its rows carries, and unknown only if none carries one. */
  lemma {:induction false} FirstTsIsEarliest(rows: seq<Row>)
    ensures FirstTs(rows).Some? <==> exists r :: r in rows && r.ts.Some?
    ensures FirstTs(rows).Some? ==> exists r :: r in rows && r.ts == FirstTs(rows)
    ensures forall r :: r in rows && r.ts.Some? ==> FirstTs(rows).Some? && FirstTs(rows).value <= r.ts.value
  {
    if rows != [] {
      FirstTsIsEarliest(rows[..|rows| - 1]);
      assert forall r :: r in rows <==> r in rows[..|rows| - 1] || r == rows[|rows| - 1];
    }
  }

  /** Nodes stay in the order in which their conversations first appeared, whatever rows follow. */
  lemma {:induction false} KeysPrefix(rows: seq<Row>, more: seq<Row>)
    ensures Keys(rows) <= Keys(rows + more)
  {
    if more == [] {
      assert rows + more == rows;
    } else {
      var n := |more| - 1;
      KeysPrefix(rows, more[..n]);
      KeysMore(rows + more[..n], more[n]);
      assert rows + more == rows + more[..n] + [more[n]];
    }
  }

  // ---- the fold ---------------------------------------------------------------------------

  /** A node with one more of its rows. */
  function Added(n: Node, r: Row): Node {
    Node(n.key, Plus(n.sum, Charge(r)), n.models + (if r.model != "" then {r.model} else {}),
         Earlier(n.ts, r.ts), Hull(n.span, CallWindow(r)), n.responses + [ResponseOf(r)],
         if n.head.Some? then n.head else Some(HeadOf(r)), Restamped(n.head.None?, n.ts, n.stamp, r),
         n.outputs + NonEmpty(r.output), n.thinkings + NonEmpty(r.thinking))
  }

  lemma {:induction false} NodeMore(k: Key, rows: seq<Row>, r: Row)
    ensures NodeOf(k, rows + [r]) == Added(NodeOf(k, rows), r)
  {
    FrontOfMore(rows, r);
    ModelsMore(rows, r);
    HeadMore(rows, r);
    assert Responses(rows + [r]) == Responses(rows) + [ResponseOf(r)];
  }

  lemma {:induction false} ModelsMore(rows: seq<Row>, r: Row)
    ensures Models(rows + [r]) == Models(rows) + (if r.model != "" then {r.model} else {})
  {
    assert forall x :: x in rows + [r] <==> x in rows || x == r;
  }

  lemma {:induction false} HeadMore(rows: seq<Row>, r: Row)
    ensures FirstHead(rows + [r]) == if rows == [] then Some(HeadOf(r)) else FirstHead(rows)
  {
  }

  /** A node just opened for a row, before the row is added. */
  function Opening(k: Key, r: Row): Node { Node(k, ZERO, {}, r.ts, None, [], Some(HeadOf(r)), r.stamp, [], []) }

  /** A node just opened differs from an empty one only in knowing the row's time and what the row is called. */
  lemma {:induction false} OpenedNode(k: Key, r: Row)
    ensures Added(Opening(k, r), r) == Added(NodeOf(k, []), r)
  {
  }

  ghost predicate Folded(order: seq<Key>, nodes: map<Key, Node>, rows: seq<Row>) {
    && order == Keys(rows)
    && (forall k :: k in nodes <==> k in order)
    && Right(nodes, rows)
  }

  /** Every node is the one its rows determine. */
  ghost predicate Right(nodes: map<Key, Node>, rows: seq<Row>) {
    forall k :: k in nodes ==> nodes[k] == NodeOf(k, RowsOf(rows, k))
  }

  lemma {:induction false} OtherNodes(rows: seq<Row>, r: Row, k: Key)
    ensures k != AgentKey(r) ==> NodeOf(k, RowsOf(rows + [r], k)) == NodeOf(k, RowsOf(rows, k))
    ensures k == AgentKey(r) ==> NodeOf(k, RowsOf(rows + [r], k)) == Added(NodeOf(k, RowsOf(rows, k)), r)
  {
    RowsMore(rows, r, k);
    if k == AgentKey(r) {
      NodeMore(k, RowsOf(rows, k), r);
    } else {
      assert RowsOf(rows, k) + [] == RowsOf(rows, k);
    }
  }

  lemma {:induction false} AbsorbedKnown(order: seq<Key>, nodes: map<Key, Node>, rows: seq<Row>, r: Row)
    requires Folded(order, nodes, rows) && AgentKey(r) in nodes
    ensures Folded(order, nodes[AgentKey(r) := Added(nodes[AgentKey(r)], r)], rows + [r])
  {
    RightAbsorbed(nodes, rows, r, nodes[AgentKey(r)]);
    Listed(order, nodes, rows, r, Added(nodes[AgentKey(r)], r));
  }

  lemma {:induction false} AbsorbedNew(order: seq<Key>, nodes: map<Key, Node>, rows: seq<Row>, r: Row)
    requires Folded(order, nodes, rows) && AgentKey(r) !in nodes
    ensures Folded(order + [AgentKey(r)], nodes[AgentKey(r) := Added(Opening(AgentKey(r), r), r)], rows + [r])
  {
    RightAbsorbed(nodes, rows, r, Opening(AgentKey(r), r));
    Listed(order, nodes, rows, r, Added(Opening(AgentKey(r), r), r));
  }

  lemma {:induction false} RightAbsorbed(nodes: map<Key, Node>, rows: seq<Row>, r: Row, n: Node)
    requires Right(nodes, rows) && (AgentKey(r) in nodes <==> AgentKey(r) in Keys(rows))
    requires n == if AgentKey(r) in nodes then nodes[AgentKey(r)] else Opening(AgentKey(r), r)
    ensures Right(nodes[AgentKey(r) := Added(n, r)], rows + [r])
  {
    NodeOfRow(n, rows, r, AgentKey(r) in nodes);
    RightMore(nodes, rows, r, Added(n, r));
  }

  lemma {:induction false} Listed(order: seq<Key>, nodes: map<Key, Node>, rows: seq<Row>, r: Row, n: Node)
    requires order == Keys(rows) && forall k :: k in nodes <==> k in order
    ensures var k := AgentKey(r);
            var next := if k in nodes then order else order + [k];
            next == Keys(rows + [r]) && forall j :: j in nodes[k := n] <==> j in next
  {
    KeysMore(rows, r);
  }

  lemma {:induction false} RightMore(nodes: map<Key, Node>, rows: seq<Row>, r: Row, n: Node)
    requires Right(nodes, rows) && n == NodeOf(AgentKey(r), RowsOf(rows + [r], AgentKey(r)))
    ensures Right(nodes[AgentKey(r) := n], rows + [r])
  {
    forall j | j in nodes[AgentKey(r) := n] ensures nodes[AgentKey(r) := n][j] == NodeOf(j, RowsOf(rows + [r], j)) {
      OtherNodes(rows, r, j);
    }
  }

  lemma {:induction false} NodeOfRow(n: Node, rows: seq<Row>, r: Row, known: bool)
    requires var k := AgentKey(r);
             if known then n == NodeOf(k, RowsOf(rows, k)) else k !in Keys(rows) && n == Opening(k, r)
    ensures Added(n, r) == NodeOf(AgentKey(r), RowsOf(rows + [r], AgentKey(r)))
  {
    NoRows(rows, AgentKey(r));
    OpenedNode(AgentKey(r), r);
    OtherNodes(rows, r, AgentKey(r));
  }

  lemma {:induction false} RowsMore(rows: seq<Row>, r: Row, k: Key)
    ensures RowsOf(rows + [r], k) == RowsOf(rows, k) + if AgentKey(r) == k then [r] else []
  {
    assert (rows + [r])[..|rows|] == rows;
  }

  lemma {:induction false} KeysMore(rows: seq<Row>, r: Row)
    ensures Keys(rows + [r]) == if AgentKey(r) in Keys(rows) then Keys(rows) else Keys(rows) + [AgentKey(r)]
  {
    assert (rows + [r])[..|rows|] == rows;
  }

  class Agents {
    var order: seq<Key>
    var nodes: map<Key, Node>

    constructor ()
      ensures Folded(order, nodes, [])
    {
      order, nodes := [], map[];
    }

    /** One row: open its node if it is new, and add to it. */
    method Absorb(r: Row, ghost rows: seq<Row>)
      requires Folded(order, nodes, rows)
      modifies this
      ensures Folded(order, nodes, rows + [r])
    {
      var key := AgentKey(r);
      if key in nodes { AbsorbedKnown(order, nodes, rows, r); } else { AbsorbedNew(order, nodes, rows, r); }
      var n := if key in nodes then nodes[key] else Opening(key, r);
      if key !in nodes { order := order + [key]; }
      KnownHasHead(rows, key);
      n := AddTo(n, r);
      nodes := nodes[key := n];
    }

    method Widened(span: Option<Window>, w: Option<Window>) returns (r: Option<Window>)
      ensures r == Hull(span, w)
    {
      r := span;
      if w.Some? {
        var start := if span.None? || w.value.start < span.value.start then w.value.start else span.value.start;
        var end := if span.None? || w.value.end > span.value.end then w.value.end else span.value.end;
        r := Some(Window(start, end));
      }
    }

    method AddTo(n: Node, r: Row) returns (n': Node)
      requires n.head.Some?
      ensures n' == Added(n, r)
    {
      n' := n.(sum := Plus(n.sum, Charge(r)), responses := n.responses + [ResponseOf(r)]);
      if r.model != "" { n' := n'.(models := n.models + {r.model}); }
      var span := Widened(n.span, CallWindow(r));
      n' := n'.(span := span);
      if r.output != "" { n' := n'.(outputs := n.outputs + [r.output]); }
      if r.thinking != "" { n' := n'.(thinkings := n.thinkings + [r.thinking]); }
      if r.ts.Some? && (n.ts.None? || r.ts.value < n.ts.value) { n' := n'.(ts := r.ts, stamp := r.stamp); }
    }
  }

  lemma {:induction false} KnownHasHead(rows: seq<Row>, k: Key)
    ensures k in Keys(rows) ==> NodeOf(k, RowsOf(rows, k)).head.Some?
  {
    if rows != [] { KnownHasHead(rows[..|rows| - 1], k); }
  }

  lemma {:induction false} NoRows(rows: seq<Row>, k: Key)
    ensures k !in Keys(rows) ==> RowsOf(rows, k) == []
  {
    if rows != [] { NoRows(rows[..|rows| - 1], k); }
  }

  method Agentize(rows: seq<Row>) returns (nodes: seq<Node>)
    ensures nodes == NodesOf(Keys(rows), rows)
  {
    var a := new Agents();
    for i := 0 to |rows|
      invariant Folded(a.order, a.nodes, rows[..i])
    {
      assert rows[..i + 1] == rows[..i] + [rows[i]];
      a.Absorb(rows[i], rows[..i]);
    }
    assert rows[..|rows|] == rows;
    nodes := seq(|a.order|, i requires 0 <= i < |a.order| && a.order[i] in a.nodes reads a => a.nodes[a.order[i]]);
  }

  // ---- conservation -----------------------------------------------------------------------

  function SumOf(nodes: seq<Node>): Amounts {
    if nodes == [] then ZERO else Plus(SumOf(nodes[..|nodes| - 1]), nodes[|nodes| - 1].sum)
  }

  function SumOver(ks: seq<Key>, rows: seq<Row>): Amounts {
    if ks == [] then ZERO else Plus(SumOver(ks[..|ks| - 1], rows), Total(RowsOf(rows, ks[|ks| - 1])))
  }

  lemma {:induction false} PlusZero(a: Amounts)
    ensures Plus(a, ZERO) == a && Plus(ZERO, a) == a
  {
  }

  /** Adding to either summand adds to the sum. */
  lemma {:induction false} PlusInside(a: Amounts, b: Amounts, x: Amounts)
    ensures Plus(Plus(a, x), b) == Plus(Plus(a, b), x)
    ensures Plus(a, Plus(b, x)) == Plus(Plus(a, b), x)
  {
  }

  lemma {:induction false} TotalMore(rows: seq<Row>, r: Row, yes: bool)
    ensures Total(rows + if yes then [r] else []) == if yes then Plus(Total(rows), Charge(r)) else Total(rows)
  {
    if yes {
      assert (rows + [r])[..|rows|] == rows;
    } else {
      assert rows + [] == rows;
    }
  }

  lemma {:induction false} PlusEither(a: Amounts, b: Amounts, x: Amounts, inA: bool, inB: bool)
    requires !(inA && inB)
    ensures Plus(if inA then Plus(a, x) else a, if inB then Plus(b, x) else b)
         == if inA || inB then Plus(Plus(a, b), x) else Plus(a, b)
  {
    PlusInside(a, b, x);
  }

  lemma {:induction false} TotalOfMore(rows: seq<Row>, r: Row, k: Key)
    ensures Total(RowsOf(rows + [r], k))
         == if AgentKey(r) == k then Plus(Total(RowsOf(rows, k)), Charge(r)) else Total(RowsOf(rows, k))
  {
    RowsMore(rows, r, k);
    TotalMore(RowsOf(rows, k), r, AgentKey(r) == k);
  }

  lemma {:induction false} OneOf(ks: seq<Key>, k: Key)
    requires ks != [] && NoRepeats(ks)
    ensures k in ks <==> k in ks[..|ks| - 1] || k == ks[|ks| - 1]
    ensures !(k in ks[..|ks| - 1] && k == ks[|ks| - 1])
    ensures NoRepeats(ks[..|ks| - 1])
  {
  }

  lemma {:induction false} SumOverMore(ks: seq<Key>, rows: seq<Row>, r: Row)
    requires NoRepeats(ks)
    ensures SumOver(ks, rows + [r])
         == if AgentKey(r) in ks then Plus(SumOver(ks, rows), Charge(r)) else SumOver(ks, rows)
  {
    if ks != [] {
      var n := |ks| - 1;
      var k := AgentKey(r);
      OneOf(ks, k);
      SumOverMore(ks[..n], rows, r);
      TotalOfMore(rows, r, ks[n]);
      PlusEither(SumOver(ks[..n], rows), Total(RowsOf(rows, ks[n])), Charge(r), k in ks[..n], k == ks[n]);
    }
  }

  lemma {:induction false} SumOverLast(ks: seq<Key>, k: Key, rows: seq<Row>)
    ensures SumOver(ks + [k], rows) == Plus(SumOver(ks, rows), Total(RowsOf(rows, k)))
  {
    assert (ks + [k])[..|ks|] == ks;
  }

  lemma {:induction false} FirstRow(rows: seq<Row>, r: Row)
    requires AgentKey(r) !in Keys(rows)
    ensures Total(RowsOf(rows + [r], AgentKey(r))) == Charge(r)
  {
    NoRows(rows, AgentKey(r));
    RowsMore(rows, r, AgentKey(r));
    TotalMore([], r, true);
    PlusZero(Charge(r));
  }

  lemma {:induction false} SumOverStep(rows: seq<Row>, r: Row)
    requires SumOver(Keys(rows), rows) == Total(rows)
    ensures SumOver(Keys(rows + [r]), rows + [r]) == Plus(Total(rows), Charge(r))
  {
    KeysExact(rows);
    KeysMore(rows, r);
    SumOverMore(Keys(rows), rows, r);
    if AgentKey(r) !in Keys(rows) {
      FirstRow(rows, r);
      SumOverLast(Keys(rows), AgentKey(r), rows + [r]);
    }
  }

  lemma {:induction false} SumOverAll(rows: seq<Row>)
    ensures SumOver(Keys(rows), rows) == Total(rows)
  {
    if rows != [] {
      var n := |rows| - 1;
      SumOverAll(rows[..n]);
      SumOverStep(rows[..n], rows[n]);
      FrontLast(rows);
    }
  }

  lemma {:induction false} SumOfLast(nodes: seq<Node>)
    requires nodes != []
    ensures SumOf(nodes) == Plus(SumOf(nodes[..|nodes| - 1]), nodes[|nodes| - 1].sum)
  {
  }

  lemma {:induction false} NodesLast(ks: seq<Key>, rows: seq<Row>)
    requires ks != []
    ensures NodesOf(ks, rows)[..|ks| - 1] == NodesOf(ks[..|ks| - 1], rows)
    ensures NodesOf(ks, rows)[|ks| - 1].sum == Total(RowsOf(rows, ks[|ks| - 1]))
    ensures NodesOf(ks, rows)[|ks| - 1].span == SpanOf(RowsOf(rows, ks[|ks| - 1]))
  {
  }

  lemma {:induction false} SumOfNodesLast(ks: seq<Key>, rows: seq<Row>)
    requires ks != []
    ensures SumOf(NodesOf(ks, rows))
         == Plus(SumOf(NodesOf(ks[..|ks| - 1], rows)), Total(RowsOf(rows, ks[|ks| - 1])))
  {
    NodesLast(ks, rows);
    SumOfLast(NodesOf(ks, rows));
  }

  lemma {:induction false} SumOfNodes(ks: seq<Key>, rows: seq<Row>)
    ensures SumOf(NodesOf(ks, rows)) == SumOver(ks, rows)
  {
    if ks != [] {
      SumOfNodes(ks[..|ks| - 1], rows);
      SumOfNodesLast(ks, rows);
    }
  }

  /** Rows to nodes: calls, tokens, cost buckets, dollars and time are all conserved. */
  lemma {:induction false} NodesConserve(rows: seq<Row>)
    ensures SumOf(NodesOf(Keys(rows), rows)) == Total(rows)
    ensures Total(rows).calls == |rows|
  {
    SumOfNodes(Keys(rows), rows);
    SumOverAll(rows);
    CountCalls(rows);
  }

  lemma {:induction false} CountCalls(rows: seq<Row>)
    ensures Total(rows).calls == |rows|
  {
    if rows != [] { CountCalls(rows[..|rows| - 1]); }
  }

  // ---- the span of the run --------------------------------------------------------------------

  function SpanOfNodes(nodes: seq<Node>): Option<Window> {
    if nodes == [] then None else Hull(SpanOfNodes(nodes[..|nodes| - 1]), nodes[|nodes| - 1].span)
  }

  function SpanOver(ks: seq<Key>, rows: seq<Row>): Option<Window> {
    if ks == [] then None else Hull(SpanOver(ks[..|ks| - 1], rows), SpanOf(RowsOf(rows, ks[|ks| - 1])))
  }

  /** Widening either of two windows widens their hull. */
  lemma {:induction false} HullInside(a: Option<Window>, b: Option<Window>, x: Option<Window>)
    ensures Hull(Hull(a, x), b) == Hull(Hull(a, b), x)
    ensures Hull(a, Hull(b, x)) == Hull(Hull(a, b), x)
  {
  }

  lemma {:induction false} SpanMore(rows: seq<Row>, r: Row, yes: bool)
    ensures SpanOf(rows + if yes then [r] else []) == if yes then Hull(SpanOf(rows), CallWindow(r)) else SpanOf(rows)
  {
    if yes { FrontOfMore(rows, r); } else { JoinNothing(rows); }
  }

  lemma {:induction false} SpanOverMore(ks: seq<Key>, rows: seq<Row>, r: Row)
    requires NoRepeats(ks)
    ensures SpanOver(ks, rows + [r])
         == if AgentKey(r) in ks then Hull(SpanOver(ks, rows), CallWindow(r)) else SpanOver(ks, rows)
  {
    if ks != [] {
      var n := |ks| - 1;
      OneOf(ks, AgentKey(r));
      SpanOverMore(ks[..n], rows, r);
      RowsMore(rows, r, ks[n]);
      SpanMore(RowsOf(rows, ks[n]), r, AgentKey(r) == ks[n]);
      HullInside(SpanOver(ks[..n], rows), SpanOf(RowsOf(rows, ks[n])), CallWindow(r));
    }
  }

  lemma {:induction false} SpanOverLast(ks: seq<Key>, k: Key, rows: seq<Row>)
    ensures SpanOver(ks + [k], rows) == Hull(SpanOver(ks, rows), SpanOf(RowsOf(rows, k)))
  {
    FrontOfMore(ks, k);
  }

  lemma {:induction false} SpanOfFirstRow(rows: seq<Row>, r: Row)
    requires AgentKey(r) !in Keys(rows)
    ensures SpanOf(RowsOf(rows + [r], AgentKey(r))) == CallWindow(r)
  {
    NoRows(rows, AgentKey(r));
    RowsMore(rows, r, AgentKey(r));
    SpanMore([], r, true);
  }

  lemma {:induction false} SpanOverStep(rows: seq<Row>, r: Row)
    requires SpanOver(Keys(rows), rows) == SpanOf(rows)
    ensures SpanOver(Keys(rows + [r]), rows + [r]) == Hull(SpanOf(rows), CallWindow(r))
  {
    KeysExact(rows);
    KeysMore(rows, r);
    SpanOverMore(Keys(rows), rows, r);
    if AgentKey(r) !in Keys(rows) {
      SpanOfFirstRow(rows, r);
      SpanOverLast(Keys(rows), AgentKey(r), rows + [r]);
    }
  }

  lemma {:induction false} SpanOverAll(rows: seq<Row>)
    ensures SpanOver(Keys(rows), rows) == SpanOf(rows)
  {
    if rows != [] {
      var n := |rows| - 1;
      SpanOverAll(rows[..n]);
      SpanOverStep(rows[..n], rows[n]);
      FrontLast(rows);
    }
  }

  lemma {:induction false} SpanOfNodesOver(ks: seq<Key>, rows: seq<Row>)
    ensures SpanOfNodes(NodesOf(ks, rows)) == SpanOver(ks, rows)
  {
    if ks != [] {
      SpanOfNodesOver(ks[..|ks| - 1], rows);
      NodesLast(ks, rows);
    }
  }

  ghost predicate Within(w: Option<Window>, span: Option<Window>) {
    w.Some? ==> span.Some? && span.value.start <= w.value.start && w.value.end <= span.value.end
  }

  /** A span contains every call's window, and is no wider than that: both of its ends are some call's. */
  lemma {:induction false} SpanExact(rows: seq<Row>)
    ensures forall r :: r in rows ==> Within(CallWindow(r), SpanOf(rows))
    ensures SpanOf(rows).Some? ==> Attained(rows, SpanOf(rows).value)
  {
    if rows != [] {
      var n := |rows| - 1;
      SpanExact(rows[..n]);
      forall r | r in rows ensures Within(CallWindow(r), SpanOf(rows)) {
        InFrontOrLast(rows, r);
        assert r in rows[..n] ==> Within(CallWindow(r), SpanOf(rows[..n]));
      }
      if SpanOf(rows).Some? { AttainedMore(rows); }
    }
  }

  ghost predicate Starts(rows: seq<Row>, t: real) {
    exists r :: r in rows && CallWindow(r).Some? && CallWindow(r).value.start == t
  }

  ghost predicate Ends(rows: seq<Row>, t: real) {
    exists r :: r in rows && CallWindow(r).Some? && CallWindow(r).value.end == t
  }

  ghost predicate Attained(rows: seq<Row>, w: Window) { Starts(rows, w.start) && Ends(rows, w.end) }

  lemma {:induction false} AttainedMore(rows: seq<Row>)
    requires rows != [] && SpanOf(rows).Some?
    requires SpanOf(rows[..|rows| - 1]).Some? ==> Attained(rows[..|rows| - 1], SpanOf(rows[..|rows| - 1]).value)
    ensures Attained(rows, SpanOf(rows).value)
  {
    var front, last := rows[..|rows| - 1], rows[|rows| - 1];
    assert last in rows && forall r :: r in front ==> r in rows;
    if CallWindow(last).Some? {
      var w := CallWindow(last).value;
      assert Starts(rows, w.start) && Ends(rows, w.end);
    }
  }

  /** The run starts with its earliest call and ends with its latest, however the rows were grouped. */
  lemma {:induction false} RunSpanIsRows(rows: seq<Row>)
    ensures var span := SpanOfNodes(NodesOf(Keys(rows), rows));
            && (span.Some? <==> exists r :: r in rows && r.ts.Some?)
            && (forall r :: r in rows ==> Within(CallWindow(r), span))
            && (span.Some? ==> Attained(rows, span.value) && span.value.start <= span.value.end)
  {
    SpanOfNodesOver(Keys(rows), rows);
    SpanOverAll(rows);
    SpanExact(rows);
    if r :| r in rows && r.ts.Some? { assert Within(CallWindow(r), SpanOf(rows)); }
  }

  // ---- run totals and the split by model ------------------------------------------------------

  /** What the detail panel shows for a node; the two cache-write lifetimes are one figure. */
  datatype Detail = Detail(calls: int, ms: real, usd: real, costs: Costs, uncached: int, cacheRead: int,
                           cacheWrite: int, output: int)

  function DetailOf(a: Amounts): Detail {
    Detail(a.calls, a.ms, a.usd, a.costs, a.tokens.input, a.tokens.cacheRead,
           a.tokens.write5m + a.tokens.write1h, a.tokens.output)
  }

  function AddDetail(a: Detail, b: Detail): Detail {
    Detail(a.calls + b.calls, a.ms + b.ms, a.usd + b.usd,
           Costs(a.costs.cacheWrite + b.costs.cacheWrite, a.costs.cacheRead + b.costs.cacheRead,
                 a.costs.uncached + b.costs.uncached, a.costs.router + b.costs.router, a.costs.output + b.costs.output),
           a.uncached + b.uncached, a.cacheRead + b.cacheRead, a.cacheWrite + b.cacheWrite, a.output + b.output)
  }

  lemma {:induction false} DetailAdds(a: Amounts, b: Amounts)
    ensures DetailOf(Plus(a, b)) == AddDetail(DetailOf(a), DetailOf(b))
  {
  }

  /** One model's share: calls and dollars. */
  datatype Share = Share(calls: int, usd: real)

  function ModelName(m: string): string { if m != "" then m else "(unknown)" }

  function WithResponse(s: Share, r: Response): Share { Share(s.calls + 1, s.usd + r.usd) }

  /** The share of the responses that name model `m`. */
  function ShareOf(rs: seq<Response>, m: string): Share {
    if rs == [] then Share(0, 0.0)
    else
      var before, r := ShareOf(rs[..|rs| - 1], m), rs[|rs| - 1];
      if ModelName(r.model) == m then WithResponse(before, r) else before
  }

  function AllResponses(nodes: seq<Node>): seq<Response> {
    if nodes == [] then [] else AllResponses(nodes[..|nodes| - 1]) + nodes[|nodes| - 1].responses
  }

  function Named(rs: seq<Response>): set<string> { set r | r in rs :: ModelName(r.model) }

  /** The split by model: an entry for every model that some response names. */
  ghost predicate Splits(perModel: map<string, Share>, rs: seq<Response>) {
    && (forall m :: m in perModel <==> m in Named(rs))
    && (forall m :: m in perModel ==> perModel[m] == ShareOf(rs, m))
  }

  lemma {:induction false} ShareMore(rs: seq<Response>, r: Response, m: string)
    ensures ShareOf(rs + [r], m) == if ModelName(r.model) == m then WithResponse(ShareOf(rs, m), r) else ShareOf(rs, m)
    ensures m in Named(rs + [r]) <==> m in Named(rs) || m == ModelName(r.model)
  {
    assert (rs + [r])[..|rs|] == rs;
    assert forall x :: x in rs + [r] <==> x in rs || x == r;
  }

  lemma {:induction false} UnnamedShare(rs: seq<Response>, m: string)
    ensures m !in Named(rs) ==> ShareOf(rs, m) == Share(0, 0.0)
  {
    if rs != [] {
      UnnamedShare(rs[..|rs| - 1], m);
      assert rs[|rs| - 1] in rs;
      assert forall x :: x in rs[..|rs| - 1] ==> x in rs;
    }
  }

  lemma {:induction false} SplitMore(perModel: map<string, Share>, rs: seq<Response>, r: Response)
    requires Splits(perModel, rs)
    ensures var m := ModelName(r.model);
            Splits(perModel[m := WithResponse(if m in perModel then perModel[m] else Share(0, 0.0), r)], rs + [r])
  {
    UnnamedShare(rs, ModelName(r.model));
    forall m ensures m in Named(rs + [r]) <==> m in Named(rs) || m == ModelName(r.model) { ShareMore(rs, r, m); }
    forall m
      ensures ShareOf(rs + [r], m)
           == if ModelName(r.model) == m then WithResponse(ShareOf(rs, m), r) else ShareOf(rs, m)
    {
      ShareMore(rs, r, m);
    }
  }

  method SplitNode(perModel0: map<string, Share>, rs: seq<Response>, ghost before: seq<Response>)
    returns (perModel: map<string, Share>)
    requires Splits(perModel0, before)
    ensures Splits(perModel, before + rs)
  {
    perModel := perModel0;
    assert before + rs[..0] == before;
    for i := 0 to |rs|
      invariant Splits(perModel, before + rs[..i])
    {
      assert before + rs[..i + 1] == before + rs[..i] + [rs[i]];
      SplitMore(perModel, before + rs[..i], rs[i]);
      var m := ModelName(rs[i].model);
      perModel := perModel[m := WithResponse(if m in perModel then perModel[m] else Share(0, 0.0), rs[i])];
    }
    assert rs[..|rs|] == rs;
  }

  /** The whole run: the nodes' figures added up, its span, and the split of every response by its model. */
  method RunTotals(nodes: seq<Node>) returns (total: Detail, span: Option<Window>, perModel: map<string, Share>)
    ensures total == DetailOf(SumOf(nodes))
    ensures span == SpanOfNodes(nodes)
    ensures Splits(perModel, AllResponses(nodes))
  {
    span := RunSpan(nodes);
    total, perModel := DetailOf(ZERO), map[];
    for i := 0 to |nodes|
      invariant total == DetailOf(SumOf(nodes[..i]))
      invariant Splits(perModel, AllResponses(nodes[..i]))
    {
      assert nodes[..i + 1][..i] == nodes[..i];
      DetailAdds(SumOf(nodes[..i]), nodes[i].sum);
      total := AddDetail(total, DetailOf(nodes[i].sum));
      perModel := SplitNode(perModel, nodes[i].responses, AllResponses(nodes[..i]));
    }
    assert nodes[..|nodes|] == nodes;
  }

  method RunSpan(nodes: seq<Node>) returns (span: Option<Window>)
    ensures span == SpanOfNodes(nodes)
  {
    span := None;
    for i := 0 to |nodes|
      invariant span == SpanOfNodes(nodes[..i])
    {
      FrontOfPrefix(nodes, i);
      span := Hull(span, nodes[i].span);
    }
    assert nodes[..|nodes|] == nodes;
  }

  function AddShare(a: Share, b: Share): Share { Share(a.calls + b.calls, a.usd + b.usd) }

  /** The shares of a set of models, added up in any order. */
  function ShareSum(ms: seq<string>, rs: seq<Response>): Share {
    if ms == [] then Share(0, 0.0) else AddShare(ShareSum(ms[..|ms| - 1], rs), ShareOf(rs, ms[|ms| - 1]))
  }

  lemma {:induction false} ShareSumMore(ms: seq<string>, rs: seq<Response>, r: Response)
    requires forall a, b :: 0 <= a < b < |ms| ==> ms[a] != ms[b]
    ensures ShareSum(ms, rs + [r])
         == if ModelName(r.model) in ms then WithResponse(ShareSum(ms, rs), r) else ShareSum(ms, rs)
  {
    if ms != [] {
      var n := |ms| - 1;
      ShareSumMore(ms[..n], rs, r);
      ShareMore(rs, r, ms[n]);
      assert ModelName(r.model) in ms <==> ModelName(r.model) in ms[..n] || ModelName(r.model) == ms[n];
    }
  }

  /** Calls and dollars of a list of responses. */
  function Whole(rs: seq<Response>): Share {
    if rs == [] then Share(0, 0.0) else WithResponse(Whole(rs[..|rs| - 1]), rs[|rs| - 1])
  }

  lemma {:induction false} NoResponses(ms: seq<string>)
    ensures ShareSum(ms, []) == Share(0, 0.0)
  {
    if ms != [] { NoResponses(ms[..|ms| - 1]); }
  }

  /** However the models are ordered, their shares add up to all the responses. */
  lemma {:induction false} SharesAddUp(ms: seq<string>, rs: seq<Response>)
    requires forall a, b :: 0 <= a < b < |ms| ==> ms[a] != ms[b]
    requires forall r :: r in rs ==> ModelName(r.model) in ms
    ensures ShareSum(ms, rs) == Whole(rs)
  {
    if rs == [] {
      NoResponses(ms);
    } else {
      var n := |rs| - 1;
      FrontLast(rs);
      SharesAddUp(ms, rs[..n]);
      ShareSumMore(ms, rs[..n], rs[n]);
      assert ModelName(rs[n].model) in ms;
    }
  }

  lemma {:induction false} WholeMore(rs: seq<Response>, r: Response)
    ensures Whole(rs + [r]) == WithResponse(Whole(rs), r)
  {
    assert (rs + [r])[..|rs|] == rs;
  }

  lemma {:induction false} WholeJoin(a: seq<Response>, b: seq<Response>)
    ensures Whole(a + b) == AddShare(Whole(a), Whole(b))
  {
    if b == [] {
      assert a + b == a;
    } else {
      var n := |b| - 1;
      assert a + b == (a + b[..n]) + [b[n]];
      WholeMore(a + b[..n], b[n]);
      WholeJoin(a, b[..n]);
    }
  }

  lemma {:induction false} WholeOfRows(rows: seq<Row>)
    ensures Whole(Responses(rows)) == Share(Total(rows).calls, Total(rows).usd)
  {
    if rows != [] {
      var n := |rows| - 1;
      WholeOfRows(rows[..n]);
      assert Responses(rows)[..n] == Responses(rows[..n]);
    }
  }

  function ShareIn(a: Amounts): Share { Share(a.calls, a.usd) }

  lemma {:induction false} ShareInPlus(a: Amounts, b: Amounts)
    ensures ShareIn(Plus(a, b)) == AddShare(ShareIn(a), ShareIn(b))
  {
  }

  lemma {:induction false} WholeLast(ks: seq<Key>, rows: seq<Row>)
    requires ks != []
    ensures var n := |ks| - 1;
            Whole(AllResponses(NodesOf(ks, rows)))
            == AddShare(Whole(AllResponses(NodesOf(ks[..n], rows))), ShareIn(Total(RowsOf(rows, ks[n]))))
  {
    var n := |ks| - 1;
    ResponsesLast(ks, rows);
    WholeOfRows(RowsOf(rows, ks[n]));
    WholeJoin(AllResponses(NodesOf(ks[..n], rows)), Responses(RowsOf(rows, ks[n])));
  }

  lemma {:induction false} ResponsesLast(ks: seq<Key>, rows: seq<Row>)
    requires ks != []
    ensures AllResponses(NodesOf(ks, rows))
            == AllResponses(NodesOf(ks[..|ks| - 1], rows)) + Responses(RowsOf(rows, ks[|ks| - 1]))
  {
    NodesLast(ks, rows);
  }

  lemma {:induction false} WholeOfNodes(ks: seq<Key>, rows: seq<Row>)
    ensures Whole(AllResponses(NodesOf(ks, rows))) == ShareIn(SumOver(ks, rows))
  {
    if ks != [] {
      var n := |ks| - 1;
      WholeOfNodes(ks[..n], rows);
      WholeLast(ks, rows);
      ShareInPlus(SumOver(ks[..n], rows), Total(RowsOf(rows, ks[n])));
    }
  }

  /**
   Whatever models the nodes switched between, the split by model accounts for exactly the run's calls
   and dollars, which are those of the rows.
   */
  lemma {:induction false} SplitConserves(rows: seq<Row>, ms: seq<string>)
    requires forall a, b :: 0 <= a < b < |ms| ==> ms[a] != ms[b]
    requires forall m :: m in ms <==> m in Named(AllResponses(NodesOf(Keys(rows), rows)))
    ensures ShareSum(ms, AllResponses(NodesOf(Keys(rows), rows))) == Share(|rows|, Total(rows).usd)
  {
    var rs := AllResponses(NodesOf(Keys(rows), rows));
    SharesAddUp(ms, rs);
    WholeOfNodes(Keys(rows), rows);
    SumOverAll(rows);
    CountCalls(rows);
  }

  // ---- the split does not depend on how rows were grouped ----------------------------------------

  lemma {:induction false} ShareJoin(a: seq<Response>, b: seq<Response>, m: string)
    ensures ShareOf(a + b, m) == AddShare(ShareOf(a, m), ShareOf(b, m))
  {
    if b == [] {
      assert a + b == a;
    } else {
      var n := |b| - 1;
      assert a + b == (a + b[..n]) + [b[n]];
      ShareMore(a + b[..n], b[n], m);
      ShareJoin(a, b[..n], m);
    }
  }

  /** The shares of model `m` in the given conversations. */
  function ShareOver(ks: seq<Key>, rows: seq<Row>, m: string): Share {
    if ks == [] then Share(0, 0.0)
    else AddShare(ShareOver(ks[..|ks| - 1], rows, m), ShareOf(Responses(RowsOf(rows, ks[|ks| - 1])), m))
  }

  lemma {:induction false} ShareOfNodes(ks: seq<Key>, rows: seq<Row>, m: string)
    ensures ShareOf(AllResponses(NodesOf(ks, rows)), m) == ShareOver(ks, rows, m)
  {
    if ks != [] {
      var n := |ks| - 1;
      ShareOfNodes(ks[..n], rows, m);
      ResponsesLast(ks, rows);
      ShareJoin(AllResponses(NodesOf(ks[..n], rows)), Responses(RowsOf(rows, ks[n])), m);
    }
  }

  lemma {:induction false} ResponsesMore(rows: seq<Row>, r: Row, yes: bool, m: string)
    ensures ShareOf(Responses(rows + if yes then [r] else []), m)
         == if yes && ModelName(r.model) == m then WithResponse(ShareOf(Responses(rows), m), ResponseOf(r))
            else ShareOf(Responses(rows), m)
  {
    if yes {
      assert Responses(rows + [r]) == Responses(rows) + [ResponseOf(r)];
      ShareMore(Responses(rows), ResponseOf(r), m);
    } else {
      assert rows + [] == rows;
    }
  }

  lemma {:induction false} ShareOfRowsMore(rows: seq<Row>, r: Row, k: Key, m: string)
    ensures ShareOf(Responses(RowsOf(rows + [r], k)), m)
         == if AgentKey(r) == k && ModelName(r.model) == m
            then WithResponse(ShareOf(Responses(RowsOf(rows, k)), m), ResponseOf(r))
            else ShareOf(Responses(RowsOf(rows, k)), m)
  {
    RowsMore(rows, r, k);
    ResponsesMore(RowsOf(rows, k), r, AgentKey(r) == k, m);
  }

  lemma {:induction false} ShareOverMore(ks: seq<Key>, rows: seq<Row>, r: Row, m: string)
    requires NoRepeats(ks)
    ensures ShareOver(ks, rows + [r], m)
         == if AgentKey(r) in ks && ModelName(r.model) == m then WithResponse(ShareOver(ks, rows, m), ResponseOf(r))
            else ShareOver(ks, rows, m)
  {
    if ks != [] {
      var n := |ks| - 1;
      OneOf(ks, AgentKey(r));
      ShareOverMore(ks[..n], rows, r, m);
      ShareOfRowsMore(rows, r, ks[n], m);
    }
  }

  lemma {:induction false} ShareOverLast(ks: seq<Key>, k: Key, rows: seq<Row>, m: string)
    ensures ShareOver(ks + [k], rows, m) == AddShare(ShareOver(ks, rows, m), ShareOf(Responses(RowsOf(rows, k)), m))
  {
    assert (ks + [k])[..|ks|] == ks;
  }

  /** A share with one more response, when that response names the model. */
  function Counted(s: Share, r: Row, m: string): Share {
    if ModelName(r.model) == m then WithResponse(s, ResponseOf(r)) else s
  }

  lemma {:induction false} ShareOfFirstRow(rows: seq<Row>, r: Row, m: string)
    requires AgentKey(r) !in Keys(rows)
    ensures ShareOf(Responses(RowsOf(rows + [r], AgentKey(r))), m) == Counted(Share(0, 0.0), r, m)
  {
    NoRows(rows, AgentKey(r));
    ShareOfRowsMore(rows, r, AgentKey(r), m);
  }

  lemma {:induction false} ShareOfNewKey(rows: seq<Row>, r: Row, m: string)
    requires AgentKey(r) !in Keys(rows)
    ensures ShareOver(Keys(rows) + [AgentKey(r)], rows + [r], m) == Counted(ShareOver(Keys(rows), rows, m), r, m)
  {
    ShareWithoutRow(rows, r, m);
    ShareOfFirstRow(rows, r, m);
    ShareOverLast(Keys(rows), AgentKey(r), rows + [r], m);
    AddCounted(ShareOver(Keys(rows), rows, m), r, m);
  }

  lemma {:induction false} AddCounted(s: Share, r: Row, m: string)
    ensures AddShare(s, Counted(Share(0, 0.0), r, m)) == Counted(s, r, m)
  {
  }

  /** A row of a new conversation is no part of the conversations seen so far. */
  lemma {:induction false} ShareWithoutRow(rows: seq<Row>, r: Row, m: string)
    requires AgentKey(r) !in Keys(rows)
    ensures ShareOver(Keys(rows), rows + [r], m) == ShareOver(Keys(rows), rows, m)
  {
    KeysExact(rows);
    ShareOverMore(Keys(rows), rows, r, m);
  }

  lemma {:induction false} ShareOfKnownKey(rows: seq<Row>, r: Row, m: string)
    requires AgentKey(r) in Keys(rows)
    ensures ShareOver(Keys(rows), rows + [r], m) == Counted(ShareOver(Keys(rows), rows, m), r, m)
  {
    KeysExact(rows);
    ShareOverMore(Keys(rows), rows, r, m);
  }

  lemma {:induction false} ShareOverStep(rows: seq<Row>, r: Row, m: string)
    requires ShareOver(Keys(rows), rows, m) == ShareOf(Responses(rows), m)
    ensures ShareOver(Keys(rows + [r]), rows + [r], m) == ShareOf(Responses(rows + [r]), m)
  {
    KeysMore(rows, r);
    ResponsesMore(rows, r, true, m);
    if AgentKey(r) in Keys(rows) { ShareOfKnownKey(rows, r, m); } else { ShareOfNewKey(rows, r, m); }
  }

  lemma {:induction false} ShareOverAll(rows: seq<Row>, m: string)
    ensures ShareOver(Keys(rows), rows, m) == ShareOf(Responses(rows), m)
  {
    if rows != [] {
      ShareOverAll(rows[..|rows| - 1], m);
      ShareOverStep(rows[..|rows| - 1], rows[|rows| - 1], m);
      FrontLast(rows);
    }
  }

  /** Each model is charged for exactly the rows that name it, whichever nodes those rows went to. */
  lemma {:induction false} ModelPaysForItsRows(rows: seq<Row>, m: string)
    ensures ShareOf(AllResponses(NodesOf(Keys(rows), rows)), m) == ShareOf(Responses(rows), m)
  {
    ShareOfNodes(Keys(rows), rows, m);
    ShareOverAll(rows, m);
  }
}
