/**
 What the record of overridden values says (interface/effective_config.py, _merge_layer): every entry names the
 layer whose value was replaced and the layer that replaced it, and there is one for each such pair of layers.
 */
module LayerConflicts {
  import opened Wrappers
  import opened Sequences
  import opened EffectiveConfig

  /** Layer `j` gives the key another value than layer `i`, the highest below it that defines the key. */
  ghost predicate Clash<V>(layers: seq<Layer<V>>, k: string, i: int, j: int) {
    && 0 <= i < j < |layers| && k in layers[i].values.at && k in layers[j].values.at
    && (forall m :: i < m < j ==> k !in layers[m].values.at)
    && layers[i].values.at[k] != layers[j].values.at[k]
  }

  ghost predicate SaysClash<V>(c: Conflict<V>, layers: seq<Layer<V>>, i: int, j: int) {
    && Clash(layers, c.key, i, j)
    && c.lowerSource == layers[i].source && c.lowerValue == layers[i].values.at[c.key]
    && c.higherSource == layers[j].source && c.higherValue == layers[j].values.at[c.key]
  }

  /** The entry is about two layers, or about some layer and layer `n`. */
  ghost predicate Said<V>(c: Conflict<V>, layers: seq<Layer<V>>) { exists i, j :: SaysClash(c, layers, i, j) }

  ghost predicate SaidOf<V>(c: Conflict<V>, layers: seq<Layer<V>>, n: int) { exists i :: SaysClash(c, layers, i, n) }

  ghost predicate Clashes<V>(layers: seq<Layer<V>>, k: string, n: int) { exists i :: Clash(layers, k, i, n) }

  /** A layer that clashes with one below it adds the one entry that says so. */
  lemma {:induction false} ClashAdds<V>(layers: seq<Layer<V>>, k: string, i: nat)
    requires AllWf(layers) && layers != [] && Clash(layers, k, i, |layers| - 1)
    ensures var n := |layers| - 1;
            About(LayeredAll(layers).conflicts, k)
            == About(LayeredAll(layers[..n]).conflicts, k)
               + [Conflict(k, layers[i].source, layers[i].values.at[k], layers[n].source, layers[n].values.at[k])]
  {
    var n := |layers| - 1;
    AboutLayer(layers, k);
    ClashInForce(layers, k, i, n);
    OverrideSays(LayeredAll(layers[..n]), layers[i], layers[n], k);
  }

  lemma {:induction false} ClashInForce<V>(layers: seq<Layer<V>>, k: string, i: nat, n: nat)
    requires Clash(layers, k, i, n)
    ensures InForce(LayeredAll(layers[..n]), k, layers[i])
  {
    InForceOf(layers[..n], i, k);
  }

  lemma {:induction false} OverrideSays<V>(m: Merged<V>, lower: Layer<V>, l: Layer<V>, k: string)
    requires InForce(m, k, lower) && k in l.values.at && lower.values.at[k] != l.values.at[k]
    ensures Override(k, l.values, l.source, m)
         == [Conflict(k, lower.source, lower.values.at[k], l.source, l.values.at[k])]
  {
  }

  /** And a layer that does not adds none. */
  lemma {:induction false} NothingAdded<V>(layers: seq<Layer<V>>, k: string)
    requires AllWf(layers) && layers != [] && !Clashes(layers, k, |layers| - 1)
    ensures About(LayeredAll(layers).conflicts, k) == About(LayeredAll(layers[..|layers| - 1]).conflicts, k)
  {
    var front, last := layers[..|layers| - 1], layers[|layers| - 1];
    assert layers == front + [last];
    AboutLayer(layers, k);
    MergedKeys(front);
    if k in last.values.at && Defines(front, k) { SameBelow(front, last, k); }
  }

  lemma {:induction false} SameBelow<V>(front: seq<Layer<V>>, last: Layer<V>, k: string)
    requires AllWf(front) && Defines(front, k) && k in last.values.at && !Clashes(front + [last], k, |front|)
    ensures k in LayeredAll(front).target.at && LayeredAll(front).target.at[k] == last.values.at[k]
  {
    var i := HighestDefining(front, k);
    HighestWins(front, i, k);
    assert !Clash(front + [last], k, i, |front|);
  }

  lemma {:induction false} HighestDefining<V>(layers: seq<Layer<V>>, k: string) returns (i: nat)
    requires Defines(layers, k)
    ensures i < |layers| && k in layers[i].values.at
    ensures forall m :: i < m < |layers| ==> k !in layers[m].values.at
  {
    var n := |layers| - 1;
    if k in layers[n].values.at {
      i := n;
    } else {
      DefinesMore(layers, k);
      i := HighestDefining(layers[..n], k);
    }
  }

  /** The conflicts are the clashes, for every key and pair of layers. */
  lemma {:induction false} ConflictsExact<V>(layers: seq<Layer<V>>, c: Conflict<V>)
    requires AllWf(layers)
    ensures c in LayeredAll(layers).conflicts <==> Said(c, layers)
  {
    if layers != [] {
      var n := |layers| - 1;
      ConflictsExact(layers[..n], c);
      InAbout(LayeredAll(layers[..n]).conflicts, c);
      InAbout(LayeredAll(layers).conflicts, c);
      OlderOrOfLast(layers, c);
      SaidMore(layers, c);
    }
  }

  lemma {:induction false} OlderOrOfLast<V>(layers: seq<Layer<V>>, c: Conflict<V>)
    requires AllWf(layers) && layers != []
    ensures c in About(LayeredAll(layers).conflicts, c.key) <==>
            c in About(LayeredAll(layers[..|layers| - 1]).conflicts, c.key) || SaidOf(c, layers, |layers| - 1)
  {
    var n, k := |layers| - 1, c.key;
    if i: int :| Clash(layers, k, i, n) {
      ClashAdds(layers, k, i);
      OneClash(layers, c, i);
      InJoin(About(LayeredAll(layers[..n]).conflicts, k),
             Conflict(k, layers[i].source, layers[i].values.at[k], layers[n].source, layers[n].values.at[k]), c);
    } else {
      NothingAdded(layers, k);
    }
  }

  lemma {:induction false} OneClash<V>(layers: seq<Layer<V>>, c: Conflict<V>, i: nat)
    requires layers != [] && Clash(layers, c.key, i, |layers| - 1)
    ensures var n, k := |layers| - 1, c.key;
            SaidOf(c, layers, |layers| - 1) <==>
            c == Conflict(k, layers[i].source, layers[i].values.at[k], layers[n].source, layers[n].values.at[k])
  {
    var n, k := |layers| - 1, c.key;
    if c == Conflict(k, layers[i].source, layers[i].values.at[k], layers[n].source, layers[n].values.at[k]) {
      assert SaysClash(c, layers, i, n);
    }
  }

  lemma {:induction false} InJoin<V>(s: seq<Conflict<V>>, x: Conflict<V>, c: Conflict<V>)
    ensures c in s + [x] <==> c in s || c == x
  {
  }

  lemma {:induction false} InAbout<V>(cs: seq<Conflict<V>>, c: Conflict<V>)
    ensures c in cs <==> c in About(cs, c.key)
  {
    if cs != [] {
      InAbout(cs[..|cs| - 1], c);
      InFrontOrLast(cs, c);
    }
  }

  lemma {:induction false} SaidMore<V>(layers: seq<Layer<V>>, c: Conflict<V>)
    requires layers != []
    ensures Said(c, layers) <==> Said(c, layers[..|layers| - 1]) || SaidOf(c, layers, |layers| - 1)
  {
    var front := layers[..|layers| - 1];
    if i, j :| SaysClash(c, layers, i, j) {
      if j < |front| { assert SaysClash(c, front, i, j); }
    }
    if i, j :| SaysClash(c, front, i, j) { assert SaysClash(c, layers, i, j); }
  }

  // ---- in which order -----------------------------------------------------------------------------

  ghost predicate Precedes(x: string, y: string, keys: seq<string>) {
    exists p, q :: InOrder(x, y, keys, p, q)
  }

  ghost predicate InOrder(x: string, y: string, keys: seq<string>, p: int, q: int) {
    0 <= p < q < |keys| && keys[p] == x && keys[q] == y
  }

  /** What a layer adds comes last, in the order in which the layer lists its keys. */
  lemma {:induction false} ConflictsFollowKeys<V>(layers: seq<Layer<V>>, a: nat, b: nat)
    requires AllWf(layers) && layers != []
    requires |LayeredAll(layers[..|layers| - 1]).conflicts| <= a < b < |LayeredAll(layers).conflicts|
    ensures LayeredAll(layers[..|layers| - 1]).conflicts <= LayeredAll(layers).conflicts
    ensures Precedes(LayeredAll(layers).conflicts[a].key, LayeredAll(layers).conflicts[b].key,
                     layers[|layers| - 1].values.keys)
  {
    ConflictsJoin(layers);
    AddedInOrder(LayeredAll(layers).conflicts, layers[|layers| - 1], LayeredAll(layers[..|layers| - 1]), a, b);
  }

  lemma {:induction false} ConflictsJoin<V>(layers: seq<Layer<V>>)
    requires layers != []
    ensures var l, m := layers[|layers| - 1], LayeredAll(layers[..|layers| - 1]);
            LayeredAll(layers).conflicts == m.conflicts + Overrides(l.values.keys, l.values, l.source, m)
  {
  }

  lemma {:induction false} AddedInOrder<V>(all: seq<Conflict<V>>, l: Layer<V>, m: Merged<V>, a: nat, b: nat)
    requires all == m.conflicts + Overrides(l.values.keys, l.values, l.source, m) && |m.conflicts| <= a < b < |all|
    ensures m.conflicts <= all && Precedes(all[a].key, all[b].key, l.values.keys)
  {
    OverridesFollowKeys(l.values.keys, l.values, l.source, m, a - |m.conflicts|, b - |m.conflicts|);
  }

  lemma {:induction false} OverridesFollowKeys<V>(keys: seq<string>, d: Dict<V>, source: string, m: Merged<V>,
                                                  a: nat, b: nat)
    requires a < b < |Overrides(keys, d, source, m)|
    ensures Precedes(Overrides(keys, d, source, m)[a].key, Overrides(keys, d, source, m)[b].key, keys)
  {
    var n := |keys| - 1;
    var front := Overrides(keys[..n], d, source, m);
    MoreOverrides(keys, d, source, m);
    if b < |front| {
      OverridesFollowKeys(keys[..n], d, source, m, a, b);
      var p, q :| InOrder(front[a].key, front[b].key, keys[..n], p, q);
      assert InOrder(front[a].key, front[b].key, keys, p, q);
    } else {
      OverrideKeys(keys[..n], d, source, m, a);
      var p :| 0 <= p < n && keys[..n][p] == front[a].key;
      assert InOrder(front[a].key, keys[n], keys, p, n);
    }
  }

  lemma {:induction false} OverrideKeys<V>(keys: seq<string>, d: Dict<V>, source: string, m: Merged<V>, a: nat)
    requires a < |Overrides(keys, d, source, m)|
    ensures Overrides(keys, d, source, m)[a].key in keys
  {
    var n := |keys| - 1;
    MoreOverrides(keys, d, source, m);
    if a < |Overrides(keys[..n], d, source, m)| {
      OverrideKeys(keys[..n], d, source, m, a);
      InFrontOrLast(keys, Overrides(keys, d, source, m)[a].key);
    }
  }

  // ---- the layers of the launcher --------------------------------------------------------------------

  /** The last flag with a name. */
  function LastNamed(flags: seq<Flag>, k: string): Option<Flag> {
    if flags == [] then None
    else if flags[|flags| - 1].name == k then Some(flags[|flags| - 1])
    else LastNamed(flags[..|flags| - 1], k)
  }

  lemma {:induction false} MappedIsLast(flags: seq<Flag>, k: string)
    ensures k in FlagMap(flags).at <==> LastNamed(flags, k).Some?
    ensures k in FlagMap(flags).at ==> LastNamed(flags, k) == Some(FlagMap(flags).at[k])
  {
    if flags != [] { MappedIsLast(flags[..|flags| - 1], k); }
  }

  /** What the three statements say of a flag: of the current best (its accepted part first), the launch, the recipe. */
  function Stated(recipe: seq<Flag>, launch: seq<Flag>, extra: seq<Flag>, accepted: seq<Flag>, k: string)
    : (Option<Flag>, string)
  {
    if LastNamed(accepted, k).Some? then (LastNamed(accepted, k), "current_best_delta")
    else if LastNamed(extra, k).Some? then (LastNamed(extra, k), "current_best_delta")
    else if LastNamed(launch, k).Some? then (LastNamed(launch, k), "server_launch_flags")
    else (LastNamed(recipe, k), "launch_recipe")
  }

  ghost predicate Resolves(m: Merged<Flag>, k: string, f: Option<Flag>, from: string) {
    && (k in m.target.at <==> f.Some?)
    && (f.Some? ==> k in m.source && m.target.at[k] == f.value && m.source[k] == from)
  }

  /** Each flag resolves to the last one of its name in the highest statement that names it, and is from there. */
  lemma {:induction false} ResolvedFlagIs(recipe: seq<Flag>, launch: seq<Flag>, extra: seq<Flag>, accepted: seq<Flag>,
                                          k: string)
    ensures var (f, from) := Stated(recipe, launch, extra, accepted, k);
            Resolves(LayeredAll(FlagLayers(recipe, launch, extra, accepted)), k, f, from)
  {
    WellFormed(recipe, launch, extra, accepted);
    var i := TopLayer(FlagLayers(recipe, launch, extra, accepted), k);
    StatedIs(recipe, launch, extra, accepted, k, LayeredAll(FlagLayers(recipe, launch, extra, accepted)), i);
  }

  /** The highest layer that defines the key, which then is in force; none if it is -1. */
  ghost predicate Tops<V>(m: Merged<V>, layers: seq<Layer<V>>, k: string, i: int) {
    && -1 <= i < |layers| && (forall j :: i < j < |layers| ==> k !in layers[j].values.at)
    && if i < 0 then k !in m.target.at else InForce(m, k, layers[i])
  }

  lemma {:induction false} TopLayer<V>(layers: seq<Layer<V>>, k: string) returns (i: int)
    requires AllWf(layers)
    ensures Tops(LayeredAll(layers), layers, k, i)
  {
    MergedKeys(layers);
    i := -1;
    if Defines(layers, k) {
      i := HighestDefining(layers, k);
      InForceOf(layers, i, k);
    }
  }

  lemma {:induction false} StatedIs(recipe: seq<Flag>, launch: seq<Flag>, extra: seq<Flag>, accepted: seq<Flag>,
                                    k: string, m: Merged<Flag>, i: int)
    requires Tops(m, FlagLayers(recipe, launch, extra, accepted), k, i)
    ensures var (f, from) := Stated(recipe, launch, extra, accepted, k); Resolves(m, k, f, from)
  {
    var layers := FlagLayers(recipe, launch, extra, accepted);
    MappedIsLast(recipe, k);
    MappedIsLast(launch, k);
    BestIsLast(extra, accepted, k);
    assert i < 2 ==> k !in layers[2].values.at;
    assert i < 1 ==> k !in layers[1].values.at;
    assert i < 0 ==> k !in layers[0].values.at;
  }

  lemma {:induction false} BestIsLast(extra: seq<Flag>, accepted: seq<Flag>, k: string)
    ensures var d := Over(FlagMap(extra), FlagMap(accepted)).at;
            var f := if LastNamed(accepted, k).Some? then LastNamed(accepted, k) else LastNamed(extra, k);
            (k in d <==> f.Some?) && (k in d ==> f == Some(d[k]))
  {
    MappedIsLast(extra, k);
    MappedIsLast(accepted, k);
  }

  /** The layer's value is in force, and known to be from there. */
  ghost predicate InForce<V>(m: Merged<V>, k: string, l: Layer<V>) {
    && k in m.target.at && k in l.values.at && m.target.at[k] == l.values.at[k]
    && k in m.source && m.source[k] == l.source
  }

  lemma {:induction false} InForceOf<V>(layers: seq<Layer<V>>, i: nat, k: string)
    requires i < |layers| && k in layers[i].values.at && forall j :: i < j < |layers| ==> k !in layers[j].values.at
    ensures InForce(LayeredAll(layers), k, layers[i])
  {
    HighestWins(layers, i, k);
  }

  lemma {:induction false} WellFormed(recipe: seq<Flag>, launch: seq<Flag>, extra: seq<Flag>, accepted: seq<Flag>)
    ensures AllWf(FlagLayers(recipe, launch, extra, accepted))
  {
    FlagMapKeys(recipe);
    FlagMapKeys(launch);
    FlagMapKeys(extra);
    FlagMapKeys(accepted);
    OverWf(FlagMap(extra), FlagMap(accepted));
  }
}
