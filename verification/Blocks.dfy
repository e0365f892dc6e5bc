/**
 Legacy input blocks (interface/geak_trace_reconcile.py, block_key and migrate_blocks):
 a block captured before source positions were recorded is given one only where the
 current capture leaves no choice, and is marked unresolved for good otherwise.
 */
module Blocks {
  import opened Wrappers

  datatype Block = Block(source: Option<string>, kind: string, pos: Option<int>, text: string,
                         toolUse: string,            // "" when the block carries no tool_use_id
                         unresolved: bool, resolved: bool)

  /** List entries that are not records at all are passed through untouched. */
  datatype Entry = Rec(b: Block) | Foreign(raw: string)

  type Group = (string, string)     // (source record, kind)
  type Place = (string, int)        // (source record, position in it)

  predicate Sourced(e: Entry) { e.Rec? && e.b.source.Some? }

  predicate Held(e: Entry) { Sourced(e) && e.b.pos.Some? }

  predicate Legacy(e: Entry) { Sourced(e) && e.b.pos.None? && !e.b.unresolved }

  function GroupOf(e: Entry): Group
    requires Sourced(e)
  {
    (e.b.source.value, e.b.kind)
  }

  function PlaceOf(e: Entry): Place
    requires Held(e)
  {
    (e.b.source.value, e.b.pos.value)
  }

  // ---- the specification ------------------------------------------------------

  function Grouped(current: seq<Entry>, g: Group): seq<Block> {
    if current == [] then []
    else
      var e := current[|current| - 1];
      Grouped(current[..|current| - 1], g) + (if Sourced(e) && GroupOf(e) == g then [e.b] else [])
  }

  function LegacyCount(blocks: seq<Entry>, g: Group): nat {
    if blocks == [] then 0
    else
      var e := blocks[|blocks| - 1];
      LegacyCount(blocks[..|blocks| - 1], g) + (if Legacy(e) && GroupOf(e) == g then 1 else 0)
  }

  function Claimed(blocks: seq<Entry>): set<Place> {
    set e | e in blocks && Held(e) :: PlaceOf(e)
  }

  function Free(group: seq<Block>, claimed: set<Place>): seq<Block> {
    if group == [] then []
    else
      var b := group[|group| - 1];
      Free(group[..|group| - 1], claimed)
      + (if b.pos.Some? && b.source.Some? && (b.source.value, b.pos.value) !in claimed then [b] else [])
  }

  function Settle(b: Block, candidates: seq<Block>, rivals: nat): Block {
    if |candidates| == 1 && rivals == 1
    then b.(pos := candidates[0].pos, resolved := true)
    else b.(unresolved := true)
  }

  function Migrated(blocks: seq<Entry>, current: seq<Entry>, e: Entry): Entry {
    if !Legacy(e) then e
    else
      var g := GroupOf(e);
      Rec(Settle(e.b, Free(Grouped(current, g), Claimed(blocks)), LegacyCount(blocks, g)))
  }

  function Migrate(blocks: seq<Entry>, current: seq<Entry>): (out: seq<Entry>)
    ensures |out| == |blocks|
    ensures forall i :: 0 <= i < |blocks| ==> out[i] == Migrated(blocks, current, blocks[i])
  {
    seq(|blocks|, i requires 0 <= i < |blocks| => Migrated(blocks, current, blocks[i]))
  }

  // ---- the code: three passes over the inputs, then the decision ---------------

  method MigrateBlocks(blocks: seq<Entry>, current: seq<Entry>) returns (out: seq<Entry>)
    ensures out == Migrate(blocks, current)
  {
    if blocks == [] { return []; }
    var bySource := GroupBySource(current);
    var counts := CountLegacy(blocks);
    var claimed: set<Place> := set e | e in blocks && Held(e) :: PlaceOf(e);
    out := [];
    for i := 0 to |blocks|
      invariant |out| == i && forall j :: 0 <= j < i ==> out[j] == Migrated(blocks, current, blocks[j])
    {
      var e := blocks[i];
      if !Sourced(e) || e.b.pos.Some? || e.b.unresolved {
        out := out + [e];
      } else {
        var g := GroupOf(e);
        var candidates := Free(if g in bySource then bySource[g] else [], claimed);
        var rivals := if g in counts then counts[g] else 0;
        out := out + [Rec(Settle(e.b, candidates, rivals))];
      }
    }
  }

  method GroupBySource(current: seq<Entry>) returns (bySource: map<Group, seq<Block>>)
    ensures forall g :: (if g in bySource then bySource[g] else []) == Grouped(current, g)
  {
    bySource := map[];
    for i := 0 to |current|
      invariant forall g :: (if g in bySource then bySource[g] else []) == Grouped(current[..i], g)
    {
      var e := current[i];
      assert current[..i + 1][..i] == current[..i];
      forall g ensures Grouped(current[..i], g) + [] == Grouped(current[..i], g) {}
      if Sourced(e) {
        var g := GroupOf(e);
        bySource := bySource[g := (if g in bySource then bySource[g] else []) + [e.b]];
      }
    }
    assert current[..|current|] == current;
  }

  method CountLegacy(blocks: seq<Entry>) returns (counts: map<Group, nat>)
    ensures forall g :: (if g in counts then counts[g] else 0) == LegacyCount(blocks, g)
  {
    counts := map[];
    for i := 0 to |blocks|
      invariant forall g :: (if g in counts then counts[g] else 0) == LegacyCount(blocks[..i], g)
    {
      var e := blocks[i];
      assert blocks[..i + 1][..i] == blocks[..i];
      if Legacy(e) {
        var g := GroupOf(e);
        counts := counts[g := (if g in counts then counts[g] else 0) + 1];
      }
    }
    assert blocks[..|blocks|] == blocks;
  }

  // ---- what migration keeps ----------------------------------------------------

  /** Only a legacy block changes, and only its position and its two markers. */
  lemma {:induction false} MigrationKeepsContent(blocks: seq<Entry>, current: seq<Entry>, i: nat)
    requires i < |blocks|
    ensures !Legacy(blocks[i]) ==> Migrate(blocks, current)[i] == blocks[i]
    ensures Legacy(blocks[i]) ==>
              var o, b := Migrate(blocks, current)[i], blocks[i].b;
              o.Rec? && o.b == b.(pos := o.b.pos, resolved := o.b.resolved, unresolved := o.b.unresolved)
              && (o.b.pos.Some? <==> !o.b.unresolved)
  {
    var e := blocks[i];
    if Legacy(e) {
      var c := Free(Grouped(current, GroupOf(e)), Claimed(blocks));
      if |c| == 1 { FreeElements(Grouped(current, GroupOf(e)), Claimed(blocks), c[0]); assert c[0] in c; }
    }
  }

  /** A migrated list is settled: migrating it again, against any later capture, changes nothing. */
  lemma {:induction false} MigrationSettles(blocks: seq<Entry>, current: seq<Entry>, later: seq<Entry>)
    ensures Migrate(Migrate(blocks, current), later) == Migrate(blocks, current)
  {
    var out := Migrate(blocks, current);
    forall i | 0 <= i < |out| ensures Migrated(out, later, out[i]) == out[i] {
      MigrationKeepsContent(blocks, current, i);
    }
  }

  lemma {:induction false} FreeElements(group: seq<Block>, claimed: set<Place>, b: Block)
    ensures b in Free(group, claimed) <==>
              b in group && b.pos.Some? && b.source.Some? && (b.source.value, b.pos.value) !in claimed
  {
    if group != [] {
      FreeElements(group[..|group| - 1], claimed, b);
      assert group == group[..|group| - 1] + [group[|group| - 1]];
    }
  }

  lemma {:induction false} GroupedElements(current: seq<Entry>, g: Group, b: Block)
    ensures b in Grouped(current, g) <==> Rec(b) in current && Sourced(Rec(b)) && GroupOf(Rec(b)) == g
  {
    if current != [] {
      GroupedElements(current[..|current| - 1], g, b);
      assert current == current[..|current| - 1] + [current[|current| - 1]];
    }
  }

  // ---- no two blocks are given one place ------------------------------------------

  predicate FreshlyPlaced(blocks: seq<Entry>, out: seq<Entry>, i: nat)
    requires i < |blocks| == |out|
  {
    Legacy(blocks[i]) && Held(out[i])
  }

  ghost predicate NoCollision(blocks: seq<Entry>, out: seq<Entry>)
    requires |blocks| == |out|
  {
    forall i, j ::
      (0 <= i < |out| && 0 <= j < |out| && i != j && FreshlyPlaced(blocks, out, i) && Held(out[j]))
      ==> PlaceOf(out[i]) != PlaceOf(out[j])
  }

  function At(group: seq<Block>, p: int): seq<Block> {
    if group == [] then []
    else
      var b := group[|group| - 1];
      At(group[..|group| - 1], p) + (if b.pos == Some(p) then [b] else [])
  }

  /** The capture shows exactly one block of kind `k` at place `p` of source `u`. */
  predicate Sole(current: seq<Entry>, u: string, k: string, p: int) {
    |At(Grouped(current, (u, k)), p)| == 1
  }

  /** No place of the capture is shown once under each of two kinds. */
  ghost predicate Unshared(current: seq<Entry>) {
    forall u, k, l, p :: k != l && Sole(current, u, k, p) ==> !Sole(current, u, l, p)
  }

  lemma {:induction false} LegacyCountTwo(blocks: seq<Entry>, i: nat, j: nat)
    requires i < j < |blocks| && Legacy(blocks[i]) && Legacy(blocks[j]) && GroupOf(blocks[i]) == GroupOf(blocks[j])
    ensures LegacyCount(blocks, GroupOf(blocks[i])) >= 2
  {
    var n := |blocks| - 1;
    if j < n {
      LegacyCountTwo(blocks[..n], i, j);
    } else {
      LegacyCountOne(blocks[..n], i);
    }
  }

  lemma {:induction false} LegacyCountOne(blocks: seq<Entry>, i: nat)
    requires i < |blocks| && Legacy(blocks[i])
    ensures LegacyCount(blocks, GroupOf(blocks[i])) >= 1
  {
    var n := |blocks| - 1;
    if i < n { LegacyCountOne(blocks[..n], i); }
  }

  lemma {:induction false} FreeAt(group: seq<Block>, claimed: set<Place>, u: string, p: int)
    requires (u, p) !in claimed && forall b :: b in group ==> b.source == Some(u)
    ensures At(Free(group, claimed), p) == At(group, p)
  {
    if group != [] {
      var front, b := group[..|group| - 1], group[|group| - 1];
      assert forall x :: x in front ==> x in group;
      FreeAt(front, claimed, u, p);
      assert b in group;
      if b.pos.Some? && (u, b.pos.value) !in claimed {
        assert Free(group, claimed)[..|Free(group, claimed)| - 1] == Free(front, claimed);
      } else {
        assert Free(group, claimed) == Free(front, claimed) + [] == Free(front, claimed);
      }
    }
  }

  /** What a freshly placed block knows: it was the only legacy block, and the place shown once, unclaimed. */
  lemma {:induction false} PlacedOnEvidence(blocks: seq<Entry>, current: seq<Entry>, i: nat)
    requires i < |blocks| && FreshlyPlaced(blocks, Migrate(blocks, current), i)
    ensures var (u, p) := PlaceOf(Migrate(blocks, current)[i]);
            && blocks[i].b.source == Some(u)
            && (u, p) !in Claimed(blocks)
            && Sole(current, u, blocks[i].b.kind, p)
            && LegacyCount(blocks, GroupOf(blocks[i])) == 1
  {
    var g := GroupOf(blocks[i]);
    var group := Grouped(current, g);
    var c := Free(group, Claimed(blocks));
    assert |c| == 1 && c[0] in c;
    FreeElements(group, Claimed(blocks), c[0]);
    GroupedElements(current, g, c[0]);
    forall b | b in group ensures b.source == Some(g.0) { GroupedElements(current, g, b); }
    FreeAt(group, Claimed(blocks), g.0, c[0].pos.value);
    assert c[..0] == [] && c == [] + [c[0]];
    assert At(c, c[0].pos.value) == At(c[..0], c[0].pos.value) + [c[0]];
  }

  lemma {:induction false} UnsharedIsSafe(blocks: seq<Entry>, current: seq<Entry>)
    requires Unshared(current)
    ensures NoCollision(blocks, Migrate(blocks, current))
  {
    var out := Migrate(blocks, current);
    forall i, j | 0 <= i < |out| && 0 <= j < |out| && i != j && FreshlyPlaced(blocks, out, i) && Held(out[j])
      ensures PlaceOf(out[i]) != PlaceOf(out[j])
    {
      PlacedOnEvidence(blocks, current, i);
      if FreshlyPlaced(blocks, out, j) {
        PlacedOnEvidence(blocks, current, j);
        if GroupOf(blocks[i]) == GroupOf(blocks[j]) {
          LegacyCountTwo(blocks, if i < j then i else j, if i < j then j else i);
        }
      } else {
        MigrationKeepsContent(blocks, current, j);
        assert blocks[j] in blocks;
      }
    }
  }

  // The converse: a shared place makes two blocks collide.

  function Lone(u: string, k: string): Entry { Rec(Block(Some(u), k, None, "", "", false, false)) }

  /** Every block of source `u` that the capture shows elsewhere than `p`. */
  function Elsewhere(current: seq<Entry>, u: string, p: int): seq<Entry> {
    if current == [] then []
    else
      var e := current[|current| - 1];
      Elsewhere(current[..|current| - 1], u, p)
      + (if Held(e) && e.b.source == Some(u) && e.b.pos != Some(p) then [e] else [])
  }

  lemma {:induction false} ElsewhereElements(current: seq<Entry>, u: string, p: int, e: Entry)
    ensures e in Elsewhere(current, u, p) <==>
              e in current && Held(e) && e.b.source == Some(u) && e.b.pos != Some(p)
  {
    if current != [] {
      ElsewhereElements(current[..|current| - 1], u, p, e);
      assert current == current[..|current| - 1] + [current[|current| - 1]];
    }
  }

  lemma {:induction false} NoLegacyNoCount(blocks: seq<Entry>, g: Group)
    requires forall e :: e in blocks ==> !Legacy(e) || GroupOf(e) != g
    ensures LegacyCount(blocks, g) == 0
  {
    if blocks != [] {
      var n := |blocks| - 1;
      assert blocks[n] in blocks;
      assert forall e :: e in blocks[..n] ==> e in blocks;
      NoLegacyNoCount(blocks[..n], g);
    }
  }

  lemma {:induction false} LegacyCountConcat(a: seq<Entry>, b: seq<Entry>, g: Group)
    ensures LegacyCount(a + b, g) == LegacyCount(a, g) + LegacyCount(b, g)
  {
    if b == [] {
      assert a + b == a;
    } else {
      LegacyCountConcat(a, b[..|b| - 1], g);
      assert (a + b)[..|a + b| - 1] == a + b[..|b| - 1];
    }
  }

  lemma {:induction false} OnlyHereFree(group: seq<Block>, claimed: set<Place>, u: string, p: int)
    requires forall b :: b in group ==> b.source == Some(u)
    requires (u, p) !in claimed
    requires forall b :: b in group && b.pos.Some? && b.pos != Some(p) ==> (u, b.pos.value) in claimed
    ensures Free(group, claimed) == At(group, p)
  {
    if group != [] {
      var n := |group| - 1;
      assert group[n] in group && forall b :: b in group[..n] ==> b in group;
      OnlyHereFree(group[..n], claimed, u, p);
    }
  }

  lemma {:induction false} SharedPlaceCollides(current: seq<Entry>, u: string, k: string, l: string, p: int)
    requires k != l && Sole(current, u, k, p) && Sole(current, u, l, p)
    ensures var blocks := [Lone(u, k), Lone(u, l)] + Elsewhere(current, u, p);
            !NoCollision(blocks, Migrate(blocks, current))
  {
    var rest := Elsewhere(current, u, p);
    var blocks := [Lone(u, k), Lone(u, l)] + rest;
    var out := Migrate(blocks, current);
    LonePlaced(current, u, k, l, p, k);
    LonePlaced(current, u, k, l, p, l);
    assert blocks[0] == Lone(u, k) && blocks[1] == Lone(u, l);
    assert FreshlyPlaced(blocks, out, 0) && Held(out[1]) && PlaceOf(out[0]) == PlaceOf(out[1]);
  }

  lemma {:induction false} LonePlaced(current: seq<Entry>, u: string, k: string, l: string, p: int, m: string)
    requires k != l && Sole(current, u, k, p) && Sole(current, u, l, p) && (m == k || m == l)
    ensures var blocks := [Lone(u, k), Lone(u, l)] + Elsewhere(current, u, p);
            Migrated(blocks, current, Lone(u, m)) == Rec(Lone(u, m).b.(pos := Some(p), resolved := true))
  {
    var rest := Elsewhere(current, u, p);
    var two := [Lone(u, k), Lone(u, l)];
    var blocks := two + rest;
    var g, claimed := (u, m), Claimed(blocks);
    forall e | e in rest ensures Held(e) && e.b.source == Some(u) && e.b.pos != Some(p) {
      ElsewhereElements(current, u, p, e);
    }
    LegacyCountConcat(two, rest, g);
    NoLegacyNoCount(rest, g);
    assert two[..1] == [Lone(u, k)] && two[..1][..0] == [];
    assert LegacyCount(two[..1], g) == if m == k then 1 else 0;
    assert LegacyCount(two, g) == 1;
    assert forall e :: e in blocks && Held(e) ==> e in rest;
    var group := Grouped(current, g);
    forall b | b in group
      ensures b.source == Some(u)
      ensures b.pos.Some? && b.pos != Some(p) ==> (u, b.pos.value) in claimed
    {
      GroupedElements(current, g, b);
      if b.pos.Some? && b.pos != Some(p) {
        ElsewhereElements(current, u, p, Rec(b));
        assert Rec(b) in blocks && PlaceOf(Rec(b)) == (u, b.pos.value);
      }
    }
    OnlyHereFree(group, claimed, u, p);
    AtElements(group, p, At(group, p)[0]);
  }

  lemma {:induction false} AtElements(group: seq<Block>, p: int, b: Block)
    ensures b in At(group, p) ==> b in group && b.pos == Some(p)
  {
    if group != [] {
      AtElements(group[..|group| - 1], p, b);
      assert group == group[..|group| - 1] + [group[|group| - 1]];
    }
  }

  /**
   Whatever legacy list is migrated against it, a capture never hands one place to two
   blocks, nor a place already held, exactly when it shows no place once under each of two kinds.
   */
  lemma {:induction false} CollisionFreeIff(current: seq<Entry>)
    ensures (forall blocks :: NoCollision(blocks, Migrate(blocks, current))) <==> Unshared(current)
  {
    if Unshared(current) {
      forall blocks ensures NoCollision(blocks, Migrate(blocks, current)) { UnsharedIsSafe(blocks, current); }
    } else {
      var u, k, l, p :| k != l && Sole(current, u, k, p) && Sole(current, u, l, p);
      SharedPlaceCollides(current, u, k, l, p);
    }
  }

  /** Such a capture, and two legacy blocks that it gives one position. */
  lemma {:induction false} TwoKindsOnePlace(u: string, x: string, y: string)
    ensures var current := [Rec(Block(Some(u), "text", Some(0), x, "", false, false)),
                            Rec(Block(Some(u), "tool_result", Some(0), y, "", false, false))];
            var blocks := [Rec(Block(Some(u), "text", None, x, "", false, false)),
                           Rec(Block(Some(u), "tool_result", None, y, "", false, false))];
            && !NoCollision(blocks, Migrate(blocks, current))
            && (forall e :: e in Migrate(blocks, current) ==> Held(e) && PlaceOf(e) == (u, 0))
  {
    var a := Block(Some(u), "text", Some(0), x, "", false, false);
    var b := Block(Some(u), "tool_result", Some(0), y, "", false, false);
    assert |"text"| != |"tool_result"|;
    TwoCollide(a, b, u, 0);
  }

  lemma {:induction false} TwoCollide(a: Block, b: Block, u: string, p: int)
    requires a.source == b.source == Some(u) && a.pos == b.pos == Some(p) && a.kind != b.kind
    requires !a.unresolved && !b.unresolved
    ensures var current, blocks := [Rec(a), Rec(b)], [Rec(a.(pos := None)), Rec(b.(pos := None))];
            && !NoCollision(blocks, Migrate(blocks, current))
            && (forall e :: e in Migrate(blocks, current) ==> Held(e) && PlaceOf(e) == (u, p))
  {
    var c, d := a.(pos := None), b.(pos := None);
    var current, blocks := [Rec(a), Rec(b)], [Rec(c), Rec(d)];
    GroupsOfTwo(a, b, u);
    RivalsOfTwo(c, d, u);
    NothingClaimed(c, d);
    PlacedAlone(blocks, current, c, a);
    PlacedAlone(blocks, current, d, b);
    var out := Migrate(blocks, current);
    assert out == [Migrated(blocks, current, Rec(c)), Migrated(blocks, current, Rec(d))];
    assert FreshlyPlaced(blocks, out, 0) && Held(out[1]) && PlaceOf(out[0]) == PlaceOf(out[1]) == (u, p);
  }

  lemma {:induction false} NothingClaimed(c: Block, d: Block)
    requires c.pos.None? && d.pos.None?
    ensures Claimed([Rec(c), Rec(d)]) == {}
  {
  }

  lemma {:induction false} PlacedAlone(blocks: seq<Entry>, current: seq<Entry>, c: Block, a: Block)
    requires Legacy(Rec(c)) && a.pos.Some? && a.source.Some?
    requires Grouped(current, GroupOf(Rec(c))) == [a]
    requires LegacyCount(blocks, GroupOf(Rec(c))) == 1 && Claimed(blocks) == {}
    ensures Migrated(blocks, current, Rec(c)) == Rec(c.(pos := a.pos, resolved := true))
  {
    FreeOne(a);
  }

  lemma {:induction false} GroupsOfTwo(a: Block, b: Block, u: string)
    requires a.source == b.source == Some(u) && a.kind != b.kind
    ensures Grouped([Rec(a), Rec(b)], (u, a.kind)) == [a] && Grouped([Rec(a), Rec(b)], (u, b.kind)) == [b]
  {
    assert [Rec(a), Rec(b)][..1] == [Rec(a)] && [Rec(a)][..0] == [];
    assert Grouped([Rec(a)], (u, a.kind)) == [a] && Grouped([Rec(a)], (u, b.kind)) == [];
  }

  lemma {:induction false} RivalsOfTwo(c: Block, d: Block, u: string)
    requires c.source == d.source == Some(u) && c.kind != d.kind
    requires c.pos.None? && d.pos.None? && !c.unresolved && !d.unresolved
    ensures LegacyCount([Rec(c), Rec(d)], (u, c.kind)) == 1 == LegacyCount([Rec(c), Rec(d)], (u, d.kind))
  {
    assert [Rec(c), Rec(d)][..1] == [Rec(c)] && [Rec(c)][..0] == [];
    assert LegacyCount([Rec(c)], (u, c.kind)) == 1 && LegacyCount([Rec(c)], (u, d.kind)) == 0;
  }

  lemma {:induction false} FreeOne(b: Block)
    requires b.pos.Some? && b.source.Some?
    ensures Free([b], {}) == [b]
  {
    assert [b][..0] == [];
  }

  // ---- identities ------------------------------------------------------------------

  /** The last component of a key: text, or a position. */
  datatype Mark = Text(s: string) | Number(n: int)

  datatype BlockKey = BlockKey(call: string, source: Option<string>, kind: string, mark: Mark)

  const UNRESOLVED := "#legacy-unresolved-"
  const NO_SOURCE := "#nosource"

  function Decimal(n: nat): (s: string)
    ensures s != ""
  {
    var digit := ('0' as int + n % 10) as char;
    if n < 10 then [digit] else Decimal(n / 10) + [digit]
  }

  /** What a string of digits says. */
  function Said(s: string): int {
    if s == "" then 0 else 10 * Said(s[..|s| - 1]) + (s[|s| - 1] as int - '0' as int)
  }

  lemma {:induction false} DecimalSays(n: nat)
    ensures Said(Decimal(n)) == n
    ensures forall c :: c in Decimal(n) ==> '0' <= c <= '9'
    ensures n > 0 ==> Decimal(n)[0] != '0'
  {
    if n >= 10 { DecimalSays(n / 10); }
    assert Decimal(n)[..|Decimal(n)| - 1] == if n < 10 then "" else Decimal(n / 10);
  }

  lemma {:induction false} DecimalInjective(m: nat, n: nat)
    ensures Decimal(m) == Decimal(n) <==> m == n
  {
    if Decimal(m) == Decimal(n) {
      var s := Decimal(m);
      assert s[|s| - 1] as int == '0' as int + m % 10 == '0' as int + n % 10;
      assert (m < 10 <==> |s| == 1) && (n < 10 <==> |s| == 1);
      if m >= 10 {
        assert s[..|s| - 1] == Decimal(m / 10) == Decimal(n / 10);
        DecimalInjective(m / 10, n / 10);
      }
    }
  }

  function KeyOf(call: string, b: Block, index: nat): BlockKey {
    if b.pos.None? && b.unresolved then BlockKey(call, b.source, b.kind, Text(UNRESOLVED + Decimal(index)))
    else
      var within := b.pos.GetOr(index);
      if b.source.None? then BlockKey(call, Some(NO_SOURCE), b.kind, Number(index))
      else BlockKey(call, b.source, b.kind, if b.toolUse != "" then Text(b.toolUse) else Number(within))
  }

  /** Its position was lost and could not be recovered: it is known by its index. */
  predicate Stranded(b: Block) { b.pos.None? && b.unresolved }

  /** A block in the place `d` was recorded under: by tool id, else by position. */
  predicate SamePlace(b: Block, i: nat, d: Block, j: nat) {
    && b.source.Some? && b.source == d.source && b.kind == d.kind && b.toolUse == d.toolUse
    && (b.toolUse == "" ==> b.pos.GetOr(i) == d.pos.GetOr(j))
  }

  /** `d` carries the tool id that the stranded block `b` at index `i` is known by. */
  predicate NamedLikeStranded(b: Block, i: nat, d: Block) {
    && Stranded(b) && !Stranded(d) && d.source.Some?
    && b.source == d.source && b.kind == d.kind && d.toolUse == UNRESOLVED + Decimal(i)
  }

  /** `d` carries the source and the position that a block `b` without a source at index `i` is known by. */
  predicate NamedLikeSourceless(b: Block, i: nat, d: Block, j: nat) {
    && !Stranded(b) && !Stranded(d) && b.source.None?
    && d.source == Some(NO_SOURCE) && b.kind == d.kind && d.toolUse == "" && d.pos.GetOr(j) == i
  }

  /** `d` carries a name that the key of `b` makes up. */
  predicate Impersonates(b: Block, i: nat, d: Block, j: nat) {
    NamedLikeStranded(b, i, d) || NamedLikeSourceless(b, i, d, j)
  }

  /**
   Two blocks at different indices share a key exactly if they were recorded under the same place, or one of
   them carries a name that the key of the other makes up.
   */
  lemma {:induction false} SameKeyIff(call: string, b: Block, i: nat, other: string, d: Block, j: nat)
    requires i != j
    ensures KeyOf(call, b, i) == KeyOf(other, d, j) <==>
            && call == other
            && (|| (!Stranded(b) && !Stranded(d) && SamePlace(b, i, d, j))
                || Impersonates(b, i, d, j) || Impersonates(d, j, b, i))
  {
    DecimalInjective(i, j);
    var m, n := UNRESOLVED + Decimal(i), UNRESOLVED + Decimal(j);
    assert m[|UNRESOLVED|..] == Decimal(i) && n[|UNRESOLVED|..] == Decimal(j);
  }

  /** No recorded name looks like one that a key makes up. */
  predicate Unmarked(b: Block) { b.source != Some(NO_SOURCE) && !(UNRESOLVED <= b.toolUse) }

  /** Then only the first of these can happen. */
  lemma {:induction false} SameKeyMeans(call: string, b: Block, i: nat, d: Block, j: nat)
    requires Unmarked(b) && Unmarked(d) && i != j
    ensures KeyOf(call, b, i) == KeyOf(call, d, j) <==> !Stranded(b) && !Stranded(d) && SamePlace(b, i, d, j)
  {
    SameKeyIff(call, b, i, call, d, j);
    assert UNRESOLVED <= UNRESOLVED + Decimal(i) && UNRESOLVED <= UNRESOLVED + Decimal(j);
  }

  /** Otherwise they can collide: a source that is named like the missing one, and a block that has none. */
  lemma {:induction false} MarkerCollides(call: string, kind: string, i: nat, j: nat)
    ensures var b := Block(None, kind, None, "", "", false, false);
            var d := Block(Some("#nosource"), kind, Some(i), "", "", false, false);
            KeyOf(call, b, i) == KeyOf(call, d, j)
  {
  }

  /** And so can a stranded block and a block with the tool id that its key makes up. */
  lemma {:induction false} ToolIdCollides(call: string, u: string, kind: string, p: int, i: nat, j: nat)
    ensures var b := Block(Some(u), kind, None, "", "", true, false);
            var d := Block(Some(u), kind, Some(p), "", "#legacy-unresolved-" + Decimal(i), false, false);
            KeyOf(call, b, i) == KeyOf(call, d, j)
  {
  }

  /** The list itself names no block twice, by tool id or by recorded place. */
  ghost predicate Nameable(blocks: seq<Entry>) {
    forall i, j ::
      (0 <= i < j < |blocks| && Sourced(blocks[i]) && Sourced(blocks[j])
       && GroupOf(blocks[i]) == GroupOf(blocks[j])) ==>
      && (blocks[i].b.toolUse != "" ==> blocks[i].b.toolUse != blocks[j].b.toolUse)
      && (Held(blocks[i]) && Held(blocks[j]) ==> blocks[i].b.pos != blocks[j].b.pos)
  }

  /**
   After migration against such a capture, different blocks of one call share an identity exactly if one
   carries a name that the key of the other makes up.
   */
  lemma {:induction false} MigratedKeysIff(call: string, blocks: seq<Entry>, current: seq<Entry>, i: nat, j: nat)
    requires i < j < |blocks| && blocks[i].Rec? && blocks[j].Rec?
    requires Nameable(blocks) && Unshared(current)
    ensures var out := Migrate(blocks, current);
            && out[i].Rec? && out[j].Rec?
            && (KeyOf(call, out[i].b, i) == KeyOf(call, out[j].b, j)
                <==> Impersonates(out[i].b, i, out[j].b, j) || Impersonates(out[j].b, j, out[i].b, i))
  {
    var out := Migrate(blocks, current);
    MigrationKeepsContent(blocks, current, i);
    MigrationKeepsContent(blocks, current, j);
    UnsharedIsSafe(blocks, current);
    SameKeyIff(call, out[i].b, i, call, out[j].b, j);
    if Held(out[i]) && Held(out[j]) && (FreshlyPlaced(blocks, out, i) || FreshlyPlaced(blocks, out, j)) {
      assert PlaceOf(out[i]) != PlaceOf(out[j]);
    }
  }

  /** So names that look like nothing a key makes up are enough for different identities. */
  lemma {:induction false} MigratedKeysDistinct(call: string, blocks: seq<Entry>, current: seq<Entry>, i: nat, j: nat)
    requires i < j < |blocks| && blocks[i].Rec? && blocks[j].Rec?
    requires Nameable(blocks) && Unshared(current) && Unmarked(blocks[i].b) && Unmarked(blocks[j].b)
    ensures var out := Migrate(blocks, current);
            out[i].Rec? && out[j].Rec? && KeyOf(call, out[i].b, i) != KeyOf(call, out[j].b, j)
  {
    MigratedKeysIff(call, blocks, current, i, j);
    MigrationKeepsContent(blocks, current, i);
    MigrationKeepsContent(blocks, current, j);
    assert UNRESOLVED <= UNRESOLVED + Decimal(i) && UNRESOLVED <= UNRESOLVED + Decimal(j);
  }

  function Erased(e: Entry): Entry {
    if e.Rec? then Rec(e.b.(pos := None)) else e
  }

  /** Every block recorded with its position, and no two of the same source and kind. */
  ghost predicate Unrepeated(current: seq<Entry>) {
    && (forall a :: 0 <= a < |current| ==> Held(current[a]) && !current[a].b.unresolved)
    && (forall a, b :: 0 <= a < b < |current| ==> GroupOf(current[a]) != GroupOf(current[b]))
  }

  function Stripped(current: seq<Entry>): seq<Entry> {
    seq(|current|, n requires 0 <= n < |current| => Erased(current[n]))
  }

  /**
   Round trip: if no two blocks of a capture share source and kind, a copy that lost its
   positions gets exactly those positions back from the capture.
   */
  lemma {:induction false} PositionsRecovered(current: seq<Entry>, i: nat)
    requires Unrepeated(current) && i < |current|
    ensures Migrate(Stripped(current), current)[i] == Rec(current[i].b.(resolved := true))
  {
    var bare, b := Stripped(current), current[i].b;
    assert Claimed(bare) == {};
    OnlyMember(current, i, |current|);
    OnlyLegacy(current, i, |current|);
    assert current[..|current|] == current && bare[..|current|] == bare;
    assert [b][..0] == [];
    assert Free([b], {}) == Free([], {}) + [b];
  }

  lemma {:induction false} OnlyMember(current: seq<Entry>, i: nat, n: nat)
    requires Unrepeated(current) && i < |current| && n <= |current|
    ensures Grouped(current[..n], GroupOf(current[i])) == if i < n then [current[i].b] else []
  {
    if n > 0 {
      OnlyMember(current, i, n - 1);
      assert current[..n][..n - 1] == current[..n - 1];
    }
  }

  lemma {:induction false} OnlyLegacy(current: seq<Entry>, i: nat, n: nat)
    requires Unrepeated(current) && i < |current| && n <= |current|
    ensures LegacyCount(Stripped(current)[..n], GroupOf(current[i])) == if i < n then 1 else 0
  {
    if n > 0 {
      OnlyLegacy(current, i, n - 1);
      var bare := Stripped(current);
      assert bare[..n][..n - 1] == bare[..n - 1];
      assert GroupOf(bare[n - 1]) == GroupOf(current[n - 1]);
    }
  }
}
