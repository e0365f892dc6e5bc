/**
 What each figure of a node and of the run is (interface/geak_call_tree_html.py, _agent_key, agentize, node_detail,
 run_totals), field by field, in terms of the ledger's rows.
 */
module LedgerFigures {
  import opened Wrappers
  import opened Sequences
  import opened Ledger

  // ---- which rows ------------------------------------------------------------------------------------

  /** Two rows are of one conversation if the ledger groups them, or, grouped neither, they agree in all four fields. */
  lemma {:induction false} SameConversationIff(r: Row, s: Row)
    ensures AgentKey(r) == AgentKey(s) <==>
            || (r.groupId != "" && r.groupId == s.groupId)
            || (r.groupId == "" && s.groupId == "" && r.transcript == s.transcript && r.name == s.name
                && r.role == s.role && r.subPhase == s.subPhase)
  {
  }

  /** A conversation keeps its rows in order. */
  lemma {:induction false} RowsJoin(a: seq<Row>, b: seq<Row>, k: Key)
    ensures RowsOf(a + b, k) == RowsOf(a, k) + RowsOf(b, k)
  {
    if b == [] {
      JoinNothing(a);
      JoinNothing(RowsOf(a, k));
    } else {
      var n := |b| - 1;
      FrontOfJoin(a, b);
      RowsJoin(a, b[..n], k);
      JoinAssociates(RowsOf(a, k), RowsOf(b[..n], k), if AgentKey(b[n]) == k then [b[n]] else []);
    }
  }

  lemma {:induction false} RowsOne(r: Row, k: Key)
    ensures RowsOf([r], k) == if AgentKey(r) == k then [r] else []
  {
    assert [r][..0] == [];
  }

  // ---- what is added up --------------------------------------------------------------------------------

  function SumInt(rows: seq<Row>, f: Row -> int): int {
    if rows == [] then 0 else SumInt(rows[..|rows| - 1], f) + f(rows[|rows| - 1])
  }

  function SumReal(rows: seq<Row>, f: Row -> real): real {
    if rows == [] then 0.0 else SumReal(rows[..|rows| - 1], f) + f(rows[|rows| - 1])
  }

  lemma {:induction false} TokensAddUp(rows: seq<Row>)
    ensures var t := Total(rows).tokens;
            && t.input == SumInt(rows, (r: Row) => r.tokens.input)
            && t.cacheRead == SumInt(rows, (r: Row) => r.tokens.cacheRead)
            && t.write5m == SumInt(rows, (r: Row) => r.tokens.write5m)
            && t.write1h == SumInt(rows, (r: Row) => r.tokens.write1h)
            && t.output == SumInt(rows, (r: Row) => r.tokens.output)
  {
    if rows != [] { TokensAddUp(rows[..|rows| - 1]); }
  }

  lemma {:induction false} CostsAddUp(rows: seq<Row>)
    ensures var c := Total(rows).costs;
            && c.cacheWrite == SumReal(rows, (r: Row) => r.costs.cacheWrite)
            && c.cacheRead == SumReal(rows, (r: Row) => r.costs.cacheRead)
            && c.uncached == SumReal(rows, (r: Row) => r.costs.uncached)
            && c.router == SumReal(rows, (r: Row) => r.costs.router)
            && c.output == SumReal(rows, (r: Row) => r.costs.output)
  {
    if rows != [] { CostsAddUp(rows[..|rows| - 1]); }
  }

  lemma {:induction false} MoneyAndTimeAddUp(rows: seq<Row>)
    ensures Total(rows).usd == SumReal(rows, (r: Row) => r.usd)
    ensures Total(rows).ms == SumReal(rows, (r: Row) => if r.duration.Some? then r.duration.value else 0.0)
  {
    if rows != [] { MoneyAndTimeAddUp(rows[..|rows| - 1]); }
  }

  /** The figures shown for the run, or for a node, are those of its rows added up. */
  ghost predicate ShowsRows(d: Detail, rows: seq<Row>) {
    && d.calls == |rows|
    && d.ms == SumReal(rows, (r: Row) => if r.duration.Some? then r.duration.value else 0.0)
    && d.usd == SumReal(rows, (r: Row) => r.usd)
    && d.costs.cacheWrite == SumReal(rows, (r: Row) => r.costs.cacheWrite)
    && d.costs.cacheRead == SumReal(rows, (r: Row) => r.costs.cacheRead)
    && d.costs.uncached == SumReal(rows, (r: Row) => r.costs.uncached)
    && d.costs.router == SumReal(rows, (r: Row) => r.costs.router)
    && d.costs.output == SumReal(rows, (r: Row) => r.costs.output)
    && d.uncached == SumInt(rows, (r: Row) => r.tokens.input)
    && d.cacheRead == SumInt(rows, (r: Row) => r.tokens.cacheRead)
    && d.cacheWrite == SumInt(rows, (r: Row) => r.tokens.write5m) + SumInt(rows, (r: Row) => r.tokens.write1h)
    && d.output == SumInt(rows, (r: Row) => r.tokens.output)
  }

  lemma {:induction false} TotalShows(rows: seq<Row>)
    ensures ShowsRows(DetailOf(Total(rows)), rows)
  {
    CountCalls(rows);
    TokensAddUp(rows);
    CostsAddUp(rows);
    MoneyAndTimeAddUp(rows);
  }

  /** So the run shows what all the rows add up to, and each node what its own do. */
  lemma {:induction false} RunShowsRows(rows: seq<Row>)
    ensures ShowsRows(DetailOf(SumOf(NodesOf(Keys(rows), rows))), rows)
    ensures forall i :: 0 <= i < |Keys(rows)| ==>
              ShowsRows(DetailOf(NodesOf(Keys(rows), rows)[i].sum), RowsOf(rows, Keys(rows)[i]))
  {
    NodesConserve(rows);
    TotalShows(rows);
    forall i | 0 <= i < |Keys(rows)|
      ensures ShowsRows(DetailOf(NodesOf(Keys(rows), rows)[i].sum), RowsOf(rows, Keys(rows)[i]))
    {
      TotalShows(RowsOf(rows, Keys(rows)[i]));
    }
  }

  // ---- one call ------------------------------------------------------------------------------------------

  /** A call is placed in time if its row is: it ends when last seen, and its start is the duration before the row. */
  lemma {:induction false} WindowIs(r: Row)
    ensures CallWindow(r).Some? <==> r.ts.Some?
    ensures r.ts.Some? ==>
            var w := CallWindow(r).value;
            var seen := if r.lastSeen.Some? then r.lastSeen.value else r.ts.value;
            && w.start + (if r.duration.Some? then r.duration.value else 0.0) == r.ts.value as real
            && w.end >= w.start && w.end >= seen as real && (w.end == w.start || w.end == seen as real)
  {
  }

  /** A node keeps one response for each of its rows, in order. */
  ghost predicate Keeps(p: Response, r: Row) {
    && p.model == r.model && p.usd == r.usd && p.ts == r.ts && p.tokens == r.tokens && p.costs == r.costs
    && p.output == r.output && p.thinking == r.thinking && p.duration == r.duration && p.stamp == r.stamp
    && p.stopReason == r.stopReason && p.messageId == r.messageId
  }

  ghost predicate Names(r: Row, h: Head) {
    && (r.role != "" ==> h.role == r.role) && (r.role == "" ==> h.role == "(driver)")
    && h.subPhase == r.subPhase && h.title == r.name && h.phase == r.phase && h.attribution == r.attribution
    && h.workflowRun == r.workflowRun && h.prompt == r.prompt
  }

  /** What a node holds besides its figures: the responses, the names its first row gives it, and its models. */
  lemma {:induction false} NodeHolds(k: Key, rows: seq<Row>)
    ensures var n := NodeOf(k, rows);
            && n.key == k && |n.responses| == |rows|
            && (forall i :: 0 <= i < |rows| ==> Keeps(n.responses[i], rows[i]))
            && (n.head.Some? <==> rows != []) && (rows != [] ==> Names(rows[0], n.head.value))
            && (forall m :: m in n.models <==> m != "" && exists r :: r in rows && r.model == m)
            && n.ts == FirstTs(rows) && n.stamp == FirstStamp(rows) && n.span == SpanOf(rows)
            && n.outputs == Outputs(rows) && n.thinkings == Thinkings(rows)
  {
    forall i | 0 <= i < |rows| ensures Keeps(NodeOf(k, rows).responses[i], rows[i]) {
    }
  }

  /** Row `i` is the first with the earliest time of all. */
  ghost predicate Earliest(rows: seq<Row>, i: int) {
    && 0 <= i < |rows| && rows[i].ts.Some?
    && (forall j :: 0 <= j < |rows| && rows[j].ts.Some? ==> rows[i].ts.value <= rows[j].ts.value)
    && (forall j :: 0 <= j < i && rows[j].ts.Some? ==> rows[i].ts.value < rows[j].ts.value)
  }

  /** The stamp is that of the first row with the earliest time, and without any time the first row's. */
  lemma {:induction false} StampIs(rows: seq<Row>)
    requires rows != []
    ensures forall i :: Earliest(rows, i) ==> FirstStamp(rows) == rows[i].stamp && FirstTs(rows) == rows[i].ts
    ensures (forall r :: r in rows ==> r.ts.None?) ==> FirstStamp(rows) == rows[0].stamp
  {
    var n := |rows| - 1;
    FirstTsIsEarliest(rows[..n]);
    FirstTsIsEarliest(rows);
    if n > 0 {
      StampIs(rows[..n]);
      assert rows[n] in rows && forall r :: r in rows[..n] ==> r in rows;
      forall i | Earliest(rows, i) ensures FirstStamp(rows) == rows[i].stamp && FirstTs(rows) == rows[i].ts {
        EarliestMore(rows, i);
      }
    }
  }

  lemma {:induction false} EarliestMore(rows: seq<Row>, i: int)
    requires |rows| > 1 && Earliest(rows, i)
    ensures var n := |rows| - 1;
            if i < n then Earliest(rows[..n], i) && (rows[n].ts.Some? ==> rows[i].ts.value <= rows[n].ts.value)
            else forall r :: r in rows[..n] && r.ts.Some? ==> rows[n].ts.value < r.ts.value
  {
  }

  /** The texts are those that are not empty, in order. */
  lemma {:induction false} TextsJoin(a: seq<Row>, b: seq<Row>)
    ensures Outputs(a + b) == Outputs(a) + Outputs(b) && Thinkings(a + b) == Thinkings(a) + Thinkings(b)
  {
    if b == [] {
      JoinNothing(a);
    } else {
      var n := |b| - 1;
      FrontOfJoin(a, b);
      TextsJoin(a, b[..n]);
      JoinAssociates(Outputs(a), Outputs(b[..n]), NonEmpty(b[n].output));
      JoinAssociates(Thinkings(a), Thinkings(b[..n]), NonEmpty(b[n].thinking));
    }
  }

  lemma {:induction false} TextsOne(r: Row)
    ensures Outputs([r]) == (if r.output == "" then [] else [r.output])
    ensures Thinkings([r]) == (if r.thinking == "" then [] else [r.thinking])
  {
    assert [r][..0] == [];
  }

  // ---- the split by model -----------------------------------------------------------------------------------

  /** The row names the model, or names none and the model is the unknown one. */
  predicate IsOf(r: Row, m: string) { if r.model == "" then m == "(unknown)" else r.model == m }

  /** A model is charged for exactly the calls that name it, each at its own price. */
  lemma {:induction false} ModelIsCharged(rows: seq<Row>, m: string)
    ensures var s := ShareOf(AllResponses(NodesOf(Keys(rows), rows)), m);
            && s.calls == SumInt(rows, (r: Row) => if IsOf(r, m) then 1 else 0)
            && s.usd == SumReal(rows, (r: Row) => if IsOf(r, m) then r.usd else 0.0)
  {
    ModelPaysForItsRows(rows, m);
    ShareIs(rows, m);
  }

  lemma {:induction false} ShareIs(rows: seq<Row>, m: string)
    ensures var s := ShareOf(Responses(rows), m);
            && s.calls == SumInt(rows, (r: Row) => if IsOf(r, m) then 1 else 0)
            && s.usd == SumReal(rows, (r: Row) => if IsOf(r, m) then r.usd else 0.0)
  {
    if rows != [] {
      var n := |rows| - 1;
      ShareIs(rows[..n], m);
      ResponsesMore(rows[..n], rows[n], true, m);
      FrontLast(rows);
    }
  }

  ghost predicate NamedIn(rows: seq<Row>, m: string) { exists r :: r in rows && IsOf(r, m) }

  /** And has an entry if there is such a call. */
  lemma {:induction false} ModelIsNamedIff(rows: seq<Row>, m: string)
    ensures m in Named(AllResponses(NodesOf(Keys(rows), rows))) <==> NamedIn(rows, m)
  {
    NamedOver(Keys(rows), rows, m);
    if NamedIn(rows, m) { var k := NamedSomewhere(rows, m); }
    if k :| k in Keys(rows) && NamedIn(RowsOf(rows, k), m) { NamedAtAll(rows, k, m); }
  }

  lemma {:induction false} NamedSomewhere(rows: seq<Row>, m: string) returns (k: Key)
    requires NamedIn(rows, m)
    ensures k in Keys(rows) && NamedIn(RowsOf(rows, k), m)
  {
    var r :| r in rows && IsOf(r, m);
    k := AgentKey(r);
    KeysExact(rows);
    InRowsOf(rows, r, k);
  }

  lemma {:induction false} NamedAtAll(rows: seq<Row>, k: Key, m: string)
    requires NamedIn(RowsOf(rows, k), m)
    ensures NamedIn(rows, m)
  {
    var r :| r in RowsOf(rows, k) && IsOf(r, m);
    InRowsOf(rows, r, k);
  }

  lemma {:induction false} InRowsOf(rows: seq<Row>, r: Row, k: Key)
    ensures r in RowsOf(rows, k) <==> r in rows && AgentKey(r) == k
  {
    if rows != [] {
      InRowsOf(rows[..|rows| - 1], r, k);
      InFrontOrLast(rows, r);
    }
  }

  lemma {:induction false} NamedOver(ks: seq<Key>, rows: seq<Row>, m: string)
    ensures m in Named(AllResponses(NodesOf(ks, rows))) <==> exists k :: k in ks && NamedIn(RowsOf(rows, k), m)
  {
    if ks != [] {
      var n := |ks| - 1;
      NamedOver(ks[..n], rows, m);
      ResponsesLast(ks, rows);
      NamedRows(RowsOf(rows, ks[n]), m);
      NamedJoin(AllResponses(NodesOf(ks[..n], rows)), Responses(RowsOf(rows, ks[n])), m);
      assert forall k :: k in ks <==> k in ks[..n] || k == ks[n];
    }
  }

  lemma {:induction false} NamedJoin(a: seq<Response>, b: seq<Response>, m: string)
    ensures m in Named(a + b) <==> m in Named(a) || m in Named(b)
  {
    assert forall x :: x in a + b <==> x in a || x in b;
  }

  lemma {:induction false} NamedRows(rows: seq<Row>, m: string)
    ensures m in Named(Responses(rows)) <==> NamedIn(rows, m)
  {
    forall r | r in rows ensures ResponseOf(r) in Responses(rows) {
      var i :| 0 <= i < |rows| && rows[i] == r;
      assert Responses(rows)[i] == ResponseOf(r);
    }
    forall p | p in Responses(rows) ensures exists r :: r in rows && ResponseOf(r) == p {
      var i :| 0 <= i < |rows| && Responses(rows)[i] == p;
      assert rows[i] in rows;
    }
  }

  /** So the split holds an entry for each model that some row names, and that is what its rows cost. */
  lemma {:induction false} SplitIs(rows: seq<Row>, perModel: map<string, Share>, m: string)
    requires Splits(perModel, AllResponses(NodesOf(Keys(rows), rows)))
    ensures m in perModel <==> NamedIn(rows, m)
    ensures m in perModel ==>
            && perModel[m].calls == SumInt(rows, (r: Row) => if IsOf(r, m) then 1 else 0)
            && perModel[m].usd == SumReal(rows, (r: Row) => if IsOf(r, m) then r.usd else 0.0)
  {
    ModelIsNamedIff(rows, m);
    ModelIsCharged(rows, m);
  }
}
