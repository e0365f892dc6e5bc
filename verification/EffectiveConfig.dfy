/**
 The layered launch configuration (interface/effective_config.py): shell tokens into flags and back,
 reconciling two statements of the current best, and merging layers with a record of every override.

 Works on tokens: quoting and the protection of bare JSON are not modelled. What Python accepts as a
 number, and the canonical spelling of a JSON value, are parameters.
 */
module EffectiveConfig {
  import opened Wrappers
  import opened Sequences

  datatype Lex = Lex(numeric: string -> bool, canonical: string -> string)

  datatype Flag = Flag(name: string, value: Option<string>)

  datatype Parsed<+T> = Ok(value: T) | Err(at: string)

  predicate LooksLikeFlag(lex: Lex, token: string) {
    token != "-" && token != "" && token[0] == '-' && !lex.numeric(token)
  }

  // ---- tokens into flags -----------------------------------------------------------------

  /** The position of the first '=', or the length. */
  function Split(t: string): (n: nat)
    ensures n <= |t|
    ensures n < |t| ==> t[n] == '='
    ensures forall i :: 0 <= i < n ==> t[i] != '='
  {
    if t == "" || t[0] == '=' then 0 else 1 + Split(t[1..])
  }

  lemma {:induction false} NoSplit(t: string)
    ensures Split(t) == |t| <==> '=' !in t
  {
    assert t[..|t|] == t;
  }

  /** The flag at the head of some tokens, and how many of them it takes. */
  function Head(lex: Lex, ts: seq<string>): (r: (Flag, nat))
    requires ts != []
    ensures 1 <= r.1 <= |ts|
  {
    var n := Split(ts[0]);
    if n < |ts[0]| then (Flag(ts[0][..n], Some(lex.canonical(ts[0][n + 1..]))), 1)
    else if |ts| > 1 && !LooksLikeFlag(lex, ts[1]) then (Flag(ts[0], Some(lex.canonical(ts[1]))), 2)
    else (Flag(ts[0], None), 1)
  }

  function Then(f: Flag, rest: Parsed<seq<Flag>>): Parsed<seq<Flag>> {
    if rest.Ok? then Ok([f] + rest.value) else rest
  }

  function Parse(lex: Lex, ts: seq<string>): Parsed<seq<Flag>> {
    if ts == [] then Ok([])
    else if !LooksLikeFlag(lex, ts[0]) then Err(ts[0])
    else Then(Head(lex, ts).0, Parse(lex, ts[Head(lex, ts).1..]))
  }

  function After(flags: seq<Flag>, rest: Parsed<seq<Flag>>): Parsed<seq<Flag>> {
    if rest.Ok? then Ok(flags + rest.value) else rest
  }

  method ParseFlags(lex: Lex, tokens: seq<string>) returns (r: Parsed<seq<Flag>>)
    ensures r == Parse(lex, tokens)
  {
    var flags: seq<Flag> := [];
    var index := 0;
    assert tokens[0..] == tokens;
    AfterNothing(Parse(lex, tokens));
    while index < |tokens|
      invariant 0 <= index <= |tokens|
      invariant After(flags, Parse(lex, tokens[index..])) == Parse(lex, tokens)
    {
      ghost var start, before := index, flags;
      var token := tokens[index];
      if !LooksLikeFlag(lex, token) { return Err(token); }
      var n := Split(token);
      if n < |token| {
        flags := flags + [Flag(token[..n], Some(lex.canonical(token[n + 1..])))];
      } else {
        var value := None;
        if index + 1 < |tokens| && !LooksLikeFlag(lex, tokens[index + 1]) {
          value := Some(lex.canonical(tokens[index + 1]));
          index := index + 1;
        }
        flags := flags + [Flag(token, value)];
      }
      index := index + 1;
      OneFlag(lex, tokens, start, before);
    }
    assert tokens[index..] == [] && flags + [] == flags;
    r := Ok(flags);
  }

  lemma {:induction false} AfterNothing(rest: Parsed<seq<Flag>>)
    ensures After([], rest) == rest
  {
    if rest.Ok? { assert [] + rest.value == rest.value; }
  }

  lemma {:induction false} OneFlag(lex: Lex, tokens: seq<string>, k: nat, flags: seq<Flag>)
    requires k < |tokens| && LooksLikeFlag(lex, tokens[k])
    ensures var h := Head(lex, tokens[k..]);
            After(flags, Parse(lex, tokens[k..])) == After(flags + [h.0], Parse(lex, tokens[k + h.1..]))
  {
    var h := Head(lex, tokens[k..]);
    assert tokens[k..][h.1..] == tokens[k + h.1..];
    var rest := Parse(lex, tokens[k + h.1..]);
    if rest.Ok? { assert flags + ([h.0] + rest.value) == flags + [h.0] + rest.value; }
  }

  // ---- and back ------------------------------------------------------------------------------

  function Written(f: Flag): seq<string> { [f.name] + if f.value.Some? then [f.value.value] else [] }

  function Render(flags: seq<Flag>): seq<string> {
    if flags == [] then [] else Written(flags[0]) + Render(flags[1..])
  }

  /** A flag that is read back as itself. */
  predicate Readable(lex: Lex, f: Flag) {
    && LooksLikeFlag(lex, f.name) && '=' !in f.name
    && (f.value.Some? ==> !LooksLikeFlag(lex, f.value.value) && lex.canonical(f.value.value) == f.value.value)
  }

  /** Nothing follows that would be taken for the value. */
  predicate Bounded(lex: Lex, f: Flag, rest: seq<string>) {
    f.value.Some? || rest == [] || LooksLikeFlag(lex, rest[0])
  }

  lemma {:induction false} HeadOfWritten(lex: Lex, f: Flag, rest: seq<string>)
    requires LooksLikeFlag(lex, f.name)
    ensures Head(lex, Written(f) + rest).0 == f <==> Readable(lex, f) && Bounded(lex, f, rest)
    ensures Head(lex, Written(f) + rest).0 == f ==> Head(lex, Written(f) + rest).1 == |Written(f)|
    ensures (Written(f) + rest)[|Written(f)|..] == rest
  {
    var ts := Written(f) + rest;
    NoSplit(f.name);
    assert ts[0] == f.name;
    if f.value.Some? { assert ts[1] == f.value.value; }
    assert '=' in f.name ==> '=' !in Head(lex, ts).0.name;
  }

  lemma {:induction false} RenderedBounded(lex: Lex, f: Flag, flags: seq<Flag>)
    requires forall g :: g in flags ==> Readable(lex, g)
    ensures Bounded(lex, f, Render(flags))
  {
    if flags != [] { assert Readable(lex, flags[0]) && Render(flags)[0] == flags[0].name; }
  }

  /**
   Printing flags and parsing them again gives the same flags exactly when every name reads as a flag
   without '=', and every value is canonical and does not itself read as a flag.
   */
  lemma {:induction false} RoundTripIff(lex: Lex, flags: seq<Flag>)
    ensures Parse(lex, Render(flags)) == Ok(flags) <==> forall f :: f in flags ==> Readable(lex, f)
  {
    if flags != [] {
      RoundTripIff(lex, flags[1..]);
      RoundTripStep(lex, flags[0], flags[1..]);
      assert flags == [flags[0]] + flags[1..];
    }
  }

  lemma {:induction false} RoundTripStep(lex: Lex, f: Flag, flags: seq<Flag>)
    requires Parse(lex, Render(flags)) == Ok(flags) <==> forall g :: g in flags ==> Readable(lex, g)
    ensures Parse(lex, Render([f] + flags)) == Ok([f] + flags)
            <==> Readable(lex, f) && forall g :: g in flags ==> Readable(lex, g)
  {
    RenderMore(f, flags);
    var ts := Written(f) + Render(flags);
    assert ts[0] == f.name;
    if LooksLikeFlag(lex, f.name) {
      HeadOfWritten(lex, f, Render(flags));
      var h := Head(lex, ts);
      ThenIff(f, h.0, flags, Parse(lex, ts[h.1..]));
      if forall g :: g in flags ==> Readable(lex, g) { RenderedBounded(lex, f, flags); }
    }
  }

  lemma {:induction false} RenderMore(f: Flag, flags: seq<Flag>)
    ensures Render([f] + flags) == Written(f) + Render(flags)
  {
    assert ([f] + flags)[1..] == flags;
  }

  lemma {:induction false} ThenIff(f: Flag, g: Flag, flags: seq<Flag>, rest: Parsed<seq<Flag>>)
    ensures Then(g, rest) == Ok([f] + flags) <==> f == g && rest == Ok(flags)
  {
    if rest.Ok? && [g] + rest.value == [f] + flags {
      assert ([g] + rest.value)[0] == g && ([g] + rest.value)[1..] == rest.value;
      assert ([f] + flags)[1..] == flags;
    }
  }

  /** What parsing guarantees of a flag, and what it does not: a value given after '=' can read as a flag. */
  lemma {:induction false} ParsedFlags(lex: Lex, ts: seq<string>, f: Flag)
    requires Parse(lex, ts).Ok? && f in Parse(lex, ts).value
    requires forall v :: lex.canonical(lex.canonical(v)) == lex.canonical(v)
    ensures '=' !in f.name
    ensures f.value.Some? ==> lex.canonical(f.value.value) == f.value.value
    decreases |ts|
  {
    var h := Head(lex, ts);
    NoSplit(ts[0]);
    if f != h.0 { ParsedFlags(lex, ts[h.1..], f); }
  }

  /** So what parsing gives is read back as itself unless a name or value says otherwise. */
  lemma {:induction false} ParseRoundTripIff(lex: Lex, ts: seq<string>)
    requires Parse(lex, ts).Ok?
    requires forall v :: lex.canonical(lex.canonical(v)) == lex.canonical(v)
    ensures var flags := Parse(lex, ts).value;
            Parse(lex, Render(flags)) == Ok(flags) <==>
            forall f :: f in flags ==>
              LooksLikeFlag(lex, f.name) && (f.value.Some? ==> !LooksLikeFlag(lex, f.value.value))
  {
    var flags := Parse(lex, ts).value;
    RoundTripIff(lex, flags);
    forall f | f in flags
      ensures '=' !in f.name && (f.value.Some? ==> lex.canonical(f.value.value) == f.value.value)
    {
      ParsedFlags(lex, ts, f);
    }
  }

  /** `--a=-b` is accepted, printed as `--a -b`, and read back as two flags. */
  lemma {:induction false} FlagLikeValueLost(lex: Lex)
    requires !lex.numeric("--a=-b") && !lex.numeric("--a") && !lex.numeric("-b") && lex.canonical("-b") == "-b"
    ensures Parse(lex, ["--a=-b"]) == Ok([Flag("--a", Some("-b"))])
    ensures Parse(lex, Render([Flag("--a", Some("-b"))])) == Ok([Flag("--a", None), Flag("-b", None)])
  {
    EqualsTaken(lex);
    SpaceNotTaken(lex);
    var f := Flag("--a", Some("-b"));
    assert [f][1..] == [] && Written(f) + [] == ["--a", "-b"];
  }

  lemma {:induction false} EqualsTaken(lex: Lex)
    requires !lex.numeric("--a=-b") && lex.canonical("-b") == "-b"
    ensures Parse(lex, ["--a=-b"]) == Ok([Flag("--a", Some("-b"))])
  {
    var t := "--a=-b";
    assert |t| == 6 && |"--a"| == 3 && |"-"| == 1;
    assert LooksLikeFlag(lex, t);
    assert t[3] == '=' && '=' !in t[..3];
    assert '=' in t;
    NoSplit(t);
    assert t[..3] == "--a" && t[4..] == "-b";
    assert Head(lex, [t]) == (Flag("--a", Some("-b")), 1);
    ParseOne(lex, t);
  }

  lemma {:induction false} SpaceNotTaken(lex: Lex)
    requires !lex.numeric("--a") && !lex.numeric("-b")
    ensures Parse(lex, ["--a", "-b"]) == Ok([Flag("--a", None), Flag("-b", None)])
  {
    assert |"--a"| == 3 && |"-b"| == 2 && |"-"| == 1;
    assert LooksLikeFlag(lex, "--a") && LooksLikeFlag(lex, "-b");
    NoSplit("--a");
    NoSplit("-b");
    ParseOne(lex, "-b");
    var g, h, ts := Flag("--a", None), Flag("-b", None), ["--a", "-b"];
    assert Head(lex, ts) == (g, 1) && ts[1..] == ["-b"];
    assert [g] + [h] == [g, h];
  }

  lemma {:induction false} ParseOne(lex: Lex, t: string)
    requires LooksLikeFlag(lex, t)
    ensures Parse(lex, [t]) == Ok([Head(lex, [t]).0])
  {
    assert [t][1..] == [];
    JoinNothing([Head(lex, [t]).0]);
  }

  // ---- ordered dictionaries ------------------------------------------------------------------

  /** Python's insertion-ordered dictionary. */
  datatype Dict<V> = Dict(keys: seq<string>, at: map<string, V>)
  {
    ghost predicate Wf() {
      && (forall k :: k in keys <==> k in at)
      && (forall a, b :: 0 <= a < b < |keys| ==> keys[a] != keys[b])
    }

    function Set(k: string, v: V): Dict<V> { Dict(if k in at then keys else keys + [k], at[k := v]) }
  }

  /** The keys that are not in `d`, in order. */
  function Missing<V>(keys: seq<string>, d: map<string, V>): (r: seq<string>)
    ensures forall k :: k in r <==> k in keys && k !in d
  {
    if keys == [] then []
    else Missing(keys[..|keys| - 1], d) + if keys[|keys| - 1] in d then [] else [keys[|keys| - 1]]
  }

  /** The higher dictionary over the lower: its values win, its new keys come after. */
  function Over<V>(lower: Dict<V>, higher: Dict<V>): Dict<V> {
    Dict(lower.keys + Missing(higher.keys, lower.at), lower.at + higher.at)
  }

  /** The first `i` entries. */
  ghost function First<V>(d: Dict<V>, i: nat): Dict<V> {
    var keys := if i <= |d.keys| then d.keys[..i] else d.keys;
    Dict(keys, map k | k in d.at && k in keys :: d.at[k])
  }

  lemma {:induction false} NothingOver<V>(lower: Dict<V>, d: Dict<V>)
    ensures Over(lower, First(d, 0)) == lower
  {
    assert d.keys[..0] == [];
    assert lower.at + First(d, 0).at == lower.at;
  }

  lemma {:induction false} AllOver<V>(lower: Dict<V>, d: Dict<V>)
    requires d.Wf()
    ensures First(d, |d.keys|) == d
  {
    assert d.keys[..|d.keys|] == d.keys;
    assert First(d, |d.keys|).at == d.at;
  }

  lemma {:induction false} KeyIsNew<V>(d: Dict<V>, i: nat)
    requires d.Wf() && i < |d.keys|
    ensures d.keys[i] in d.at && d.keys[i] !in d.keys[..i]
  {
    assert d.keys[i] in d.keys;
  }

  lemma {:induction false} FirstMore<V>(d: Dict<V>, i: nat)
    requires d.Wf() && i < |d.keys|
    ensures d.keys[i] in d.at && d.keys[i] !in First(d, i).at
    ensures First(d, i + 1) == First(d, i).Set(d.keys[i], d.at[d.keys[i]])
  {
    KeyIsNew(d, i);
    var k := d.keys[i];
    assert d.keys[..i + 1] == d.keys[..i] + [k];
    assert First(d, i + 1).at == First(d, i).at[k := d.at[k]];
  }

  lemma {:induction false} MissingMore<V>(keys: seq<string>, k: string, d: map<string, V>)
    ensures Missing(keys + [k], d) == Missing(keys, d) + if k in d then [] else [k]
  {
    assert (keys + [k])[..|keys|] == keys;
  }

  lemma {:induction false} OverSet<V>(lower: Dict<V>, d: Dict<V>, k: string, v: V)
    requires k !in d.at
    ensures Over(lower, d.Set(k, v)) == Over(lower, d).Set(k, v)
  {
    MissingMore(d.keys, k, lower.at);
    JoinAssociates(lower.keys, Missing(d.keys, lower.at), [k]);
    JoinNothing(Missing(d.keys, lower.at));
    MergeUpdated(lower.at, d.at, k, v);
  }

  lemma {:induction false} MergeUpdated<V>(a: map<string, V>, b: map<string, V>, k: string, v: V)
    ensures a + b[k := v] == (a + b)[k := v]
  {
  }

  lemma {:induction false} OneOver<V>(lower: Dict<V>, d: Dict<V>, i: nat)
    requires d.Wf() && i < |d.keys|
    ensures d.keys[i] in d.at && d.keys[i] !in First(d, i).at
    ensures First(d, i + 1) == First(d, i).Set(d.keys[i], d.at[d.keys[i]])
    ensures Over(lower, First(d, i + 1)) == Over(lower, First(d, i)).Set(d.keys[i], d.at[d.keys[i]])
  {
    FirstMore(d, i);
    OverSet(lower, First(d, i), d.keys[i], d.at[d.keys[i]]);
  }

  function FlagMap(flags: seq<Flag>): Dict<Flag> {
    if flags == [] then Dict([], map[])
    else FlagMap(flags[..|flags| - 1]).Set(flags[|flags| - 1].name, flags[|flags| - 1])
  }

  method FlagMapOf(flags: seq<Flag>) returns (d: Dict<Flag>)
    ensures d == FlagMap(flags)
  {
    d := Dict([], map[]);
    for k := 0 to |flags|
      invariant d == FlagMap(flags[..k])
    {
      assert flags[..k + 1][..k] == flags[..k];
      d := d.Set(flags[k].name, flags[k]);
    }
    assert flags[..|flags|] == flags;
  }

  /** A name means its last flag; there is an entry for each name and no other. */
  lemma {:induction false} LastFlagWins(flags: seq<Flag>, k: nat)
    requires k < |flags| && forall j :: k < j < |flags| ==> flags[j].name != flags[k].name
    ensures flags[k].name in FlagMap(flags).at && FlagMap(flags).at[flags[k].name] == flags[k]
  {
    if k < |flags| - 1 { LastFlagWins(flags[..|flags| - 1], k); }
  }

  lemma {:induction false} FlagMapKeys(flags: seq<Flag>)
    ensures FlagMap(flags).Wf()
    ensures forall n :: n in FlagMap(flags).at <==> exists f :: f in flags && f.name == n
    ensures forall n :: n in FlagMap(flags).at ==> FlagMap(flags).at[n].name == n && FlagMap(flags).at[n] in flags
  {
    if flags != [] {
      var k := |flags| - 1;
      FlagMapKeys(flags[..k]);
      assert forall f :: f in flags <==> f in flags[..k] || f == flags[k];
    }
  }

  // ---- reconciling the two statements of the current best -------------------------------------

  ghost predicate Agree<V>(a: Dict<V>, b: Dict<V>) { forall k :: k in a.at && k in b.at ==> a.at[k] == b.at[k] }

  /** Succeeds exactly when the two agree on every key they share, and then is their union. */
  method Reconcile<V(==)>(extra: Dict<V>, accepted: Dict<V>) returns (r: Parsed<Dict<V>>)
    requires extra.Wf() && accepted.Wf()
    ensures r.Ok? <==> Agree(extra, accepted)
    ensures r.Ok? ==> r.value == Over(extra, accepted)
    ensures r.Err? ==> r.at in extra.at && r.at in accepted.at && extra.at[r.at] != accepted.at[r.at]
  {
    var d := extra;
    NothingOver(extra, accepted);
    for i := 0 to |accepted.keys|
      invariant d == Over(extra, First(accepted, i))
      invariant Agree(extra, First(accepted, i))
    {
      OneOver(extra, accepted, i);
      var key := accepted.keys[i];
      if key in d.at && d.at[key] != accepted.at[key] { return Err(key); }
      d := d.Set(key, accepted.at[key]);
    }
    AllOver(extra, accepted);
    r := Ok(d);
  }

  /** Which of the two is read first changes neither the outcome nor any value. */
  lemma {:induction false} ReconcileSymmetric<V>(a: Dict<V>, b: Dict<V>)
    ensures Agree(a, b) <==> Agree(b, a)
    ensures Agree(a, b) ==> Over(a, b).at == Over(b, a).at
  {
  }

  // ---- merging layers ---------------------------------------------------------------------------

  datatype Conflict<V> = Conflict(key: string, lowerSource: string, lowerValue: V, higherSource: string, higherValue: V)

  datatype Layer<V> = Layer(source: string, values: Dict<V>)

  datatype Merged<V> = Merged(target: Dict<V>, source: map<string, string>, conflicts: seq<Conflict<V>>)

  /** The entry, if any, that setting `k` to the layer's value calls for. */
  ghost function Override<V>(k: string, d: Dict<V>, source: string, m: Merged<V>): seq<Conflict<V>> {
    if k in d.at && k in m.target.at && k in m.source && m.target.at[k] != d.at[k]
    then [Conflict(k, m.source[k], m.target.at[k], source, d.at[k])] else []
  }

  /** The overrides one layer makes, in its own order. */
  ghost function Overrides<V>(keys: seq<string>, d: Dict<V>, source: string, m: Merged<V>): seq<Conflict<V>> {
    if keys == [] then []
    else Overrides(keys[..|keys| - 1], d, source, m) + Override(keys[|keys| - 1], d, source, m)
  }

  ghost function Sources<V>(d: Dict<V>, source: string): map<string, string> { map k | k in d.at :: source }

  ghost function Layered<V>(m: Merged<V>, l: Layer<V>): Merged<V> {
    Merged(Over(m.target, l.values),
           m.source + Sources(l.values, l.source),
           m.conflicts + Overrides(l.values.keys, l.values, l.source, m))
  }

  ghost function LayeredAll<V>(layers: seq<Layer<V>>): Merged<V> {
    if layers == [] then Merged(Dict([], map[]), map[], [])
    else Layered(LayeredAll(layers[..|layers| - 1]), layers[|layers| - 1])
  }

  ghost predicate AllWf<V>(layers: seq<Layer<V>>) { forall l :: l in layers ==> l.values.Wf() }

  /** A layer's first `i` entries merged. */
  ghost function Partway<V>(m: Merged<V>, l: Layer<V>, i: nat): Merged<V> {
    Merged(Over(m.target, First(l.values, i)),
           m.source + Sources(First(l.values, i), l.source),
           m.conflicts + Overrides(First(l.values, i).keys, l.values, l.source, m))
  }

  lemma {:induction false} NothingYet<V>(m: Merged<V>, l: Layer<V>)
    ensures Partway(m, l, 0) == m
  {
    NothingOver(m.target, l.values);
    assert m.source + Sources(First(l.values, 0), l.source) == m.source;
  }

  lemma {:induction false} AllDone<V>(m: Merged<V>, l: Layer<V>)
    requires l.values.Wf()
    ensures Partway(m, l, |l.values.keys|) == Layered(m, l)
  {
    AllOver(m.target, l.values);
  }

  ghost function Stepped<V>(m: Merged<V>, key: string, value: V, from: string): Merged<V> {
    Merged(m.target.Set(key, value), m.source[key := from],
           m.conflicts + if key in m.target.at && key in m.source && m.target.at[key] != value
                         then [Conflict(key, m.source[key], m.target.at[key], from, value)] else [])
  }

  lemma {:induction false} SourcesMore<V>(m: map<string, string>, d: Dict<V>, k: string, v: V, from: string)
    ensures m + Sources(d.Set(k, v), from) == (m + Sources(d, from))[k := from]
  {
  }

  lemma {:induction false} OverridesMore<V>(m: Merged<V>, l: Layer<V>, i: nat)
    requires i < |l.values.keys|
    ensures Partway(m, l, i + 1).conflicts
         == Partway(m, l, i).conflicts + Override(l.values.keys[i], l.values, l.source, m)
  {
    var keys := l.values.keys;
    FrontOfPrefix(keys, i);
    MoreOverrides(keys[..i + 1], l.values, l.source, m);
    JoinAssociates(m.conflicts, Overrides(keys[..i], l.values, l.source, m), Override(keys[i], l.values, l.source, m));
  }

  lemma {:induction false} OneMore<V>(m: Merged<V>, l: Layer<V>, i: nat)
    requires l.values.Wf() && i < |l.values.keys| && m.source.Keys == m.target.at.Keys
    ensures l.values.keys[i] in l.values.at
    ensures Partway(m, l, i + 1) == Stepped(Partway(m, l, i), l.values.keys[i], l.values.at[l.values.keys[i]], l.source)
  {
    var d, k := l.values, l.values.keys[i];
    OneOver(m.target, d, i);
    SourcesMore(m.source, First(d, i), k, d.at[k], l.source);
    OverridesMore(m, l, i);
  }

  lemma {:induction false} MoreOverrides<V>(keys: seq<string>, d: Dict<V>, source: string, m: Merged<V>)
    requires keys != []
    ensures Overrides(keys, d, source, m)
         == Overrides(keys[..|keys| - 1], d, source, m) + Override(keys[|keys| - 1], d, source, m)
  {
  }

  /** The dictionaries that the layers are merged into. */
  class Resolution<V(==)> {
    var target: Dict<V>
    var source: map<string, string>
    var conflicts: seq<Conflict<V>>

    constructor ()
      ensures State() == Merged(Dict([], map[]), map[], [])
    {
      target, source, conflicts := Dict([], map[]), map[], [];
    }

    function State(): Merged<V>
      reads this
    {
      Merged(target, source, conflicts)
    }

    method MergeLayer(l: Layer<V>)
      requires l.values.Wf() && target.Wf() && source.Keys == target.at.Keys
      modifies this
      ensures State() == Layered(old(State()), l)
    {
      ghost var m := State();
      var d := l.values;
      NothingYet(m, l);
      for i := 0 to |d.keys|
        invariant State() == Partway(m, l, i) && source.Keys == target.at.Keys
      {
        OneMore(m, l, i);
        assert d.keys[i] in d.keys;
        Step(d.keys[i], d.at[d.keys[i]], l.source);
      }
      AllDone(m, l);
    }

    method Step(key: string, value: V, from: string)
      requires source.Keys == target.at.Keys
      modifies this
      ensures State() == Stepped(old(State()), key, value, from)
      ensures source.Keys == target.at.Keys
    {
      if key in target.at && target.at[key] != value {
        conflicts := conflicts + [Conflict(key, source[key], target.at[key], from, value)];
      }
      target := target.Set(key, value);
      source := source[key := from];
    }
  }

  // ---- what the merge means -----------------------------------------------------------------------

  ghost predicate Defines<V>(layers: seq<Layer<V>>, k: string) { exists l :: l in layers && k in l.values.at }

  lemma {:induction false} DefinesMore<V>(layers: seq<Layer<V>>, k: string)
    requires layers != []
    ensures Defines(layers, k) <==> Defines(layers[..|layers| - 1], k) || k in layers[|layers| - 1].values.at
  {
    assert forall l :: l in layers <==> l in layers[..|layers| - 1] || l == layers[|layers| - 1];
  }

  lemma {:induction false} OverWf<V>(a: Dict<V>, b: Dict<V>)
    requires a.Wf() && b.Wf()
    ensures Over(a, b).Wf()
  {
    MissingDistinct(b.keys, a.at);
    var more := Missing(b.keys, a.at);
    assert forall i :: 0 <= i < |more| ==> more[i] in more && more[i] !in a.keys;
  }

  lemma {:induction false} MissingDistinct<V>(keys: seq<string>, d: map<string, V>)
    requires forall a, b :: 0 <= a < b < |keys| ==> keys[a] != keys[b]
    ensures forall a, b :: 0 <= a < b < |Missing(keys, d)| ==> Missing(keys, d)[a] != Missing(keys, d)[b]
  {
    if keys != [] { MissingDistinct(keys[..|keys| - 1], d); }
  }

  /** The merged dictionary holds every key that some layer defines, and knows where each came from. */
  lemma {:induction false} MergedKeys<V>(layers: seq<Layer<V>>)
    requires AllWf(layers)
    ensures LayeredAll(layers).target.Wf() && LayeredAll(layers).source.Keys == LayeredAll(layers).target.at.Keys
    ensures forall k :: k in LayeredAll(layers).target.at <==> Defines(layers, k)
  {
    if layers != [] {
      var n := |layers| - 1;
      MergedKeys(layers[..n]);
      assert layers[n] in layers;
      OverWf(LayeredAll(layers[..n]).target, layers[n].values);
      forall k ensures k in LayeredAll(layers).target.at <==> Defines(layers, k) { DefinesMore(layers, k); }
    }
  }

  /** Every key has the value, and the source, of the highest layer that defines it. */
  lemma {:induction false} HighestWins<V>(layers: seq<Layer<V>>, j: nat, k: string)
    requires j < |layers| && k in layers[j].values.at
    requires forall i :: j < i < |layers| ==> k !in layers[i].values.at
    ensures k in LayeredAll(layers).target.at && LayeredAll(layers).target.at[k] == layers[j].values.at[k]
    ensures k in LayeredAll(layers).source && LayeredAll(layers).source[k] == layers[j].source
  {
    if j < |layers| - 1 { HighestWins(layers[..|layers| - 1], j, k); }
  }

  ghost function About<V>(cs: seq<Conflict<V>>, k: string): seq<Conflict<V>> {
    if cs == [] then []
    else About(cs[..|cs| - 1], k) + if cs[|cs| - 1].key == k then [cs[|cs| - 1]] else []
  }

  lemma {:induction false} AboutJoin<V>(a: seq<Conflict<V>>, b: seq<Conflict<V>>, k: string)
    ensures About(a + b, k) == About(a, k) + About(b, k)
  {
    if b == [] {
      assert a + b == a;
    } else {
      var n := |b| - 1;
      assert a + b == (a + b[..n]) + [b[n]];
      AboutLast(a + b[..n], b[n], k);
      AboutJoin(a, b[..n], k);
    }
  }

  lemma {:induction false} AboutLast<V>(a: seq<Conflict<V>>, c: Conflict<V>, k: string)
    ensures About(a + [c], k) == About(a, k) + if c.key == k then [c] else []
  {
    assert (a + [c])[..|a|] == a;
  }

  lemma {:induction false} AboutOverrides<V>(keys: seq<string>, d: Dict<V>, source: string, m: Merged<V>, k: string)
    requires forall a, b :: 0 <= a < b < |keys| ==> keys[a] != keys[b]
    ensures About(Overrides(keys, d, source, m), k) == if k in keys then Override(k, d, source, m) else []
  {
    if keys != [] {
      var n := |keys| - 1;
      AboutOverrides(keys[..n], d, source, m, k);
      AboutJoin(Overrides(keys[..n], d, source, m), Override(keys[n], d, source, m), k);
      AboutOverride(keys[n], d, source, m, k);
      InFrontOrLast(keys, k);
    }
  }

  lemma {:induction false} AboutOverride<V>(key: string, d: Dict<V>, source: string, m: Merged<V>, k: string)
    ensures About(Override(key, d, source, m), k) == if key == k then Override(key, d, source, m) else []
  {
  }

  /** The conflicts lead from one value to another, each starting where the one before ended. */
  ghost predicate Chains<V>(from: V, cs: seq<Conflict<V>>, to: V) {
    if cs == [] then from == to
    else
      var c := cs[|cs| - 1];
      c.higherValue == to && c.lowerValue != to && Chains(from, cs[..|cs| - 1], c.lowerValue)
  }

  /** The value of the lowest layer that defines the key. */
  ghost function Lowest<V>(layers: seq<Layer<V>>, k: string): (v: Option<V>)
    ensures v.Some? <==> Defines(layers, k)
  {
    if layers == [] then None
    else
      var n := |layers| - 1;
      var below := Lowest(layers[..n], k);
      DefinesMore(layers, k);
      if below.Some? then below
      else if k in layers[n].values.at then Some(layers[n].values.at[k])
      else None
  }

  /**
   The record of overrides about a key is exactly the path of its value through the layers: it starts
   at the lowest layer's value, every entry changes it, and it ends at the final value.
   */
  lemma {:induction false} ConflictsChain<V>(layers: seq<Layer<V>>, k: string)
    requires AllWf(layers) && Defines(layers, k)
    ensures k in LayeredAll(layers).target.at
    ensures Chains(Lowest(layers, k).value, About(LayeredAll(layers).conflicts, k), LayeredAll(layers).target.at[k])
  {
    var n := |layers| - 1;
    var m, l := LayeredAll(layers[..n]), layers[n];
    MergedKeys(layers);
    MergedKeys(layers[..n]);
    assert l in layers && l.values.Wf();
    AboutJoin(m.conflicts, Overrides(l.values.keys, l.values, l.source, m), k);
    AboutOverrides(l.values.keys, l.values, l.source, m, k);
    if Defines(layers[..n], k) {
      ConflictsChain(layers[..n], k);
      ChainStep(Lowest(layers[..n], k).value, About(m.conflicts, k), m, l, k);
    } else {
      NoConflictAbout(layers[..n], k);
      DefinesMore(layers, k);
    }
  }

  lemma {:induction false} ChainStep<V>(from: V, cs: seq<Conflict<V>>, m: Merged<V>, l: Layer<V>, k: string)
    requires l.values.Wf() && k in m.target.at && k in m.source && Chains(from, cs, m.target.at[k])
    ensures Chains(from, cs + (if k in l.values.keys then Override(k, l.values, l.source, m) else []),
                   Layered(m, l).target.at[k])
  {
    var o := Override(k, l.values, l.source, m);
    assert k in l.values.keys <==> k in l.values.at;
    if o == [] || k !in l.values.keys {
      assert cs + [] == cs;
    } else {
      assert (cs + o)[..|cs|] == cs;
    }
  }

  lemma {:induction false} NoConflictAbout<V>(layers: seq<Layer<V>>, k: string)
    requires AllWf(layers) && !Defines(layers, k)
    ensures About(LayeredAll(layers).conflicts, k) == []
  {
    if layers != [] {
      var n := |layers| - 1;
      var m, l := LayeredAll(layers[..n]), layers[n];
      DefinesMore(layers, k);
      NoConflictAbout(layers[..n], k);
      assert l in layers && l.values.Wf();
      AboutJoin(m.conflicts, Overrides(l.values.keys, l.values, l.source, m), k);
      AboutOverrides(l.values.keys, l.values, l.source, m, k);
    }
  }

  /** All the layers that define the key give it the value `v`. */
  ghost predicate Unanimous<V>(layers: seq<Layer<V>>, k: string, v: V) {
    forall l :: l in layers && k in l.values.at ==> l.values.at[k] == v
  }

  lemma {:induction false} UnanimousMore<V>(layers: seq<Layer<V>>, k: string, v: V)
    requires layers != []
    ensures var l := layers[|layers| - 1];
            Unanimous(layers, k, v) <==>
            Unanimous(layers[..|layers| - 1], k, v) && (k in l.values.at ==> l.values.at[k] == v)
  {
    assert forall x :: x in layers <==> x in layers[..|layers| - 1] || x == layers[|layers| - 1];
  }

  /** What the last layer adds to the record about a key. */
  lemma {:induction false} AboutLayer<V>(layers: seq<Layer<V>>, k: string)
    requires AllWf(layers) && layers != []
    ensures var n := |layers| - 1;
            var m := LayeredAll(layers[..n]);
            About(LayeredAll(layers).conflicts, k)
            == About(m.conflicts, k)
               + if k in layers[n].values.at then Override(k, layers[n].values, layers[n].source, m) else []
  {
    var n := |layers| - 1;
    var m, l := LayeredAll(layers[..n]), layers[n];
    assert l in layers && l.values.Wf();
    AboutJoin(m.conflicts, Overrides(l.values.keys, l.values, l.source, m), k);
    AboutOverrides(l.values.keys, l.values, l.source, m, k);
  }

  lemma {:induction false} SameThroughout<V>(from: V, cs: seq<Conflict<V>>, to: V, o: seq<Conflict<V>>)
    requires Chains(from, cs, to)
    ensures cs + o == [] <==> cs == [] && o == []
    ensures cs == [] ==> from == to
  {
  }

  lemma {:induction false} NotDefined<V>(layers: seq<Layer<V>>, k: string, v: V)
    requires !Defines(layers, k)
    ensures Unanimous(layers, k, v)
  {
  }

  /** A key is without conflict exactly when all the layers that define it give it one value. */
  lemma {:induction false} NoConflictIff<V>(layers: seq<Layer<V>>, k: string)
    requires AllWf(layers) && Defines(layers, k)
    ensures About(LayeredAll(layers).conflicts, k) == [] <==> Unanimous(layers, k, Lowest(layers, k).value)
  {
    var n := |layers| - 1;
    var m, l := LayeredAll(layers[..n]), layers[n];
    var v, o := Lowest(layers, k).value, if k in l.values.at then Override(k, l.values, l.source, m) else [];
    AboutLayer(layers, k);
    UnanimousMore(layers, k, v);
    MergedKeys(layers[..n]);
    if Defines(layers[..n], k) {
      NoConflictIff(layers[..n], k);
      ConflictsChain(layers[..n], k);
      SameThroughout(v, About(m.conflicts, k), m.target.at[k], o);
      assert o == [] <==> (k in l.values.at ==> l.values.at[k] == m.target.at[k]);
    } else {
      NoConflictAbout(layers[..n], k);
      DefinesMore(layers, k);
      NotDefined(layers[..n], k, v);
      assert o == [];
    }
  }

  // ---- the whole resolution --------------------------------------------------------------------------

  function ValuesOf<V>(d: Dict<V>): seq<V>
    requires forall k :: k in d.keys ==> k in d.at
  {
    seq(|d.keys|, i requires 0 <= i < |d.keys| => d.at[d.keys[i]])
  }

  datatype Resolved = Resolved(flags: Dict<Flag>, conflicts: seq<Conflict<Flag>>, args: seq<string>)

  ghost function FlagLayers(recipe: seq<Flag>, launch: seq<Flag>, extra: seq<Flag>, accepted: seq<Flag>)
    : seq<Layer<Flag>>
  {
    [Layer("launch_recipe", FlagMap(recipe)), Layer("server_launch_flags", FlagMap(launch)),
     Layer("current_best_delta", Over(FlagMap(extra), FlagMap(accepted)))]
  }

  method MapOf(lex: Lex, tokens: seq<string>) returns (r: Parsed<Dict<Flag>>)
    ensures r.Ok? <==> Parse(lex, tokens).Ok?
    ensures r.Ok? ==> r.value == FlagMap(Parse(lex, tokens).value) && r.value.Wf()
  {
    var p := ParseFlags(lex, tokens);
    if p.Err? { return Err(p.at); }
    var d := FlagMapOf(p.value);
    FlagMapKeys(p.value);
    r := Ok(d);
  }

  /** The layers merged one after the other, lowest first. */
  method MergeLayers<V(==)>(layers: seq<Layer<V>>) returns (target: Dict<V>, conflicts: seq<Conflict<V>>)
    requires AllWf(layers)
    ensures target == LayeredAll(layers).target && conflicts == LayeredAll(layers).conflicts
  {
    var r := new Resolution<V>();
    for k := 0 to |layers|
      invariant r.State() == LayeredAll(layers[..k])
    {
      assert layers[..k + 1][..k] == layers[..k] && layers[k] in layers;
      MergedKeys(layers[..k]);
      r.MergeLayer(layers[k]);
    }
    assert layers[..|layers|] == layers;
    target, conflicts := r.target, r.conflicts;
  }

  /** Parse every source, reconcile the current best, merge the layers, print the result. */
  method ResolveFlags(lex: Lex, recipe: seq<string>, launch: seq<string>, extra: seq<string>, accepted: seq<string>)
    returns (r: Parsed<Resolved>)
    ensures r.Ok? <==>
            && Parse(lex, recipe).Ok? && Parse(lex, launch).Ok? && Parse(lex, extra).Ok? && Parse(lex, accepted).Ok?
            && Agree(FlagMap(Parse(lex, extra).value), FlagMap(Parse(lex, accepted).value))
    ensures r.Ok? ==>
            var m := LayeredAll(FlagLayers(Parse(lex, recipe).value, Parse(lex, launch).value,
                                           Parse(lex, extra).value, Parse(lex, accepted).value));
            && r.value.flags == m.target && r.value.conflicts == m.conflicts && m.target.Wf()
            && r.value.args == Render(ValuesOf(m.target))
  {
    var a := MapOf(lex, recipe);
    if a.Err? { return Err(a.at); }
    var b := MapOf(lex, launch);
    if b.Err? { return Err(b.at); }
    var x := MapOf(lex, extra);
    if x.Err? { return Err(x.at); }
    var y := MapOf(lex, accepted);
    if y.Err? { return Err(y.at); }
    var d := Reconcile(x.value, y.value);
    if d.Err? { return Err(d.at); }
    OverWf(x.value, y.value);
    var layers := [Layer("launch_recipe", a.value), Layer("server_launch_flags", b.value),
                   Layer("current_best_delta", d.value)];
    var flags, conflicts := MergeLayers(layers);
    MergedKeys(layers);
    r := Ok(Resolved(flags, conflicts, Render(ValuesOf(flags))));
  }

  /** Each flag is filed under its own name. */
  ghost predicate Named(d: Dict<Flag>) { d.Wf() && forall k :: k in d.at ==> d.at[k].name == k }

  lemma {:induction false} OverNamed(a: Dict<Flag>, b: Dict<Flag>)
    requires Named(a) && Named(b)
    ensures Named(Over(a, b))
  {
    OverWf(a, b);
  }

  lemma {:induction false} LayersNamed(layers: seq<Layer<Flag>>)
    requires forall l :: l in layers ==> Named(l.values)
    ensures Named(LayeredAll(layers).target)
  {
    if layers != [] {
      var n := |layers| - 1;
      LayersNamed(layers[..n]);
      assert layers[n] in layers;
      OverNamed(LayeredAll(layers[..n]).target, layers[n].values);
    }
  }

  lemma {:induction false} FlagMapMore(flags: seq<Flag>, f: Flag)
    ensures FlagMap(flags + [f]) == FlagMap(flags).Set(f.name, f)
  {
    assert (flags + [f])[..|flags|] == flags;
  }

  lemma {:induction false} ValuesMore(d: Dict<Flag>, i: nat)
    requires Named(d) && i < |d.keys|
    ensures d.keys[i] in d.at && d.at[d.keys[i]].name == d.keys[i]
    ensures ValuesOf(d)[..i + 1] == ValuesOf(d)[..i] + [d.at[d.keys[i]]]
  {
    assert d.keys[i] in d.keys;
  }

  lemma {:induction false} FlagMapOfValues(d: Dict<Flag>, i: nat)
    requires Named(d) && i <= |d.keys|
    ensures FlagMap(ValuesOf(d)[..i]) == First(d, i)
  {
    if i == 0 {
      FirstNothing(d);
    } else {
      FlagMapOfValues(d, i - 1);
      FirstMore(d, i - 1);
      ValuesMore(d, i - 1);
      FlagMapMore(ValuesOf(d)[..i - 1], d.at[d.keys[i - 1]]);
    }
  }

  /**
   The printed arguments mean the resolved configuration: read back, they give its flags in its order,
   exactly when every flag in it is readable; and then the last flag of each name is the resolved one.
   */
  lemma {:induction false} PrintedMeaning(lex: Lex, d: Dict<Flag>)
    requires Named(d)
    ensures Parse(lex, Render(ValuesOf(d))) == Ok(ValuesOf(d)) <==> forall k :: k in d.at ==> Readable(lex, d.at[k])
    ensures FlagMap(ValuesOf(d)) == d
  {
    RoundTripIff(lex, ValuesOf(d));
    ValuesExact(d);
    FlagMapOfValues(d, |d.keys|);
    AllOver(d, d);
    assert ValuesOf(d)[..|d.keys|] == ValuesOf(d);
  }

  lemma {:induction false} ValuesExact(d: Dict<Flag>)
    requires d.Wf()
    ensures forall f :: f in ValuesOf(d) <==> exists k :: k in d.at && d.at[k] == f
  {
    forall k | k in d.at ensures d.at[k] in ValuesOf(d) {
      var i :| 0 <= i < |d.keys| && d.keys[i] == k;
      assert ValuesOf(d)[i] == d.at[k];
    }
    forall f | f in ValuesOf(d) ensures exists k :: k in d.at && d.at[k] == f {
      var i :| 0 <= i < |d.keys| && ValuesOf(d)[i] == f;
      assert d.keys[i] in d.keys;
    }
  }

  /** What `ResolveFlags` returns for parsed sources, and what its printed arguments mean when read back. */
  lemma {:induction false} ResolvedMeaning(lex: Lex, recipe: seq<Flag>, launch: seq<Flag>, extra: seq<Flag>,
                                           accepted: seq<Flag>)
    ensures var d := LayeredAll(FlagLayers(recipe, launch, extra, accepted)).target;
            && Named(d)
            && (Parse(lex, Render(ValuesOf(d))) == Ok(ValuesOf(d)) <==>
                forall k :: k in d.at ==> Readable(lex, d.at[k]))
            && FlagMap(ValuesOf(d)) == d
  {
    var layers := FlagLayers(recipe, launch, extra, accepted);
    FlagMapKeys(recipe);
    FlagMapKeys(launch);
    FlagMapKeys(extra);
    FlagMapKeys(accepted);
    OverNamed(FlagMap(extra), FlagMap(accepted));
    LayersNamed(layers);
    PrintedMeaning(lex, LayeredAll(layers).target);
  }

  // ---- the environment ----------------------------------------------------------------------------------

  /** `KEY=VALUE` with a key; later assignments of a key win, in its first place. */
  predicate IsAssignment(t: string) { 0 < Split(t) < |t| }

  function EnvOf(ts: seq<string>): Dict<string> {
    if ts == [] then Dict([], map[])
    else
      var t := ts[|ts| - 1];
      var before := EnvOf(ts[..|ts| - 1]);
      if IsAssignment(t) then before.Set(t[..Split(t)], t[Split(t) + 1..]) else before
  }

  method ParseEnv(tokens: seq<string>) returns (r: Parsed<Dict<string>>)
    ensures r.Ok? <==> forall t :: t in tokens ==> IsAssignment(t)
    ensures r.Ok? ==> r.value == EnvOf(tokens) && r.value.Wf()
    ensures r.Err? ==> r.at in tokens && !IsAssignment(r.at)
  {
    var d: Dict<string> := Dict([], map[]);
    for k := 0 to |tokens|
      invariant d == EnvOf(tokens[..k]) && d.Wf()
      invariant forall t :: t in tokens[..k] ==> IsAssignment(t)
    {
      assert tokens[..k + 1][..k] == tokens[..k] && tokens[k] in tokens;
      var n := Split(tokens[k]);
      if n == |tokens[k]| || n == 0 { return Err(tokens[k]); }
      d := d.Set(tokens[k][..n], tokens[k][n + 1..]);
    }
    assert tokens[..|tokens|] == tokens;
    r := Ok(d);
  }

  function Assigned(d: Dict<string>): (ts: seq<string>)
    requires forall k :: k in d.keys ==> k in d.at
    ensures |ts| == |d.keys| && forall i :: 0 <= i < |ts| ==> ts[i] == d.keys[i] + "=" + d.at[d.keys[i]]
  {
    seq(|d.keys|, i requires 0 <= i < |d.keys| => d.keys[i] + "=" + d.at[d.keys[i]])
  }

  lemma {:induction false} SplitAt(n: string, v: string)
    requires '=' !in n
    ensures Split(n + "=" + v) == |n|
  {
    var t := n + "=" + v;
    assert t[|n|] == '=';
    assert forall i :: 0 <= i < |n| ==> t[i] == n[i] && n[i] in n;
  }

  lemma {:induction false} EnvMore(ts: seq<string>, n: string, v: string)
    requires '=' !in n && n != ""
    ensures EnvOf(ts + [n + "=" + v]) == EnvOf(ts).Set(n, v)
  {
    var t := n + "=" + v;
    SplitAt(n, v);
    assert t[..|n|] == n && t[|n| + 1..] == v;
    assert (ts + [t])[..|ts|] == ts;
  }

  /** An environment written as assignments and parsed again is the same, values with '=' included. */
  lemma {:induction false} EnvRoundTrip(d: Dict<string>)
    requires d.Wf() && forall k :: k in d.at ==> k != "" && '=' !in k
    ensures EnvOf(Assigned(d)) == d
  {
    EnvRoundTripTo(d, |d.keys|);
    AllOver(d, d);
    assert Assigned(d)[..|d.keys|] == Assigned(d);
  }

  lemma {:induction false} EnvRoundTripTo(d: Dict<string>, i: nat)
    requires d.Wf() && i <= |d.keys| && forall k :: k in d.at ==> k != "" && '=' !in k
    ensures EnvOf(Assigned(d)[..i]) == First(d, i)
  {
    if i == 0 {
      FirstNothing(d);
    } else {
      EnvRoundTripTo(d, i - 1);
      EnvRoundTripStep(d, i - 1);
    }
  }

  lemma {:induction false} EnvRoundTripStep(d: Dict<string>, i: nat)
    requires d.Wf() && i < |d.keys| && forall k :: k in d.at ==> k != "" && '=' !in k
    requires EnvOf(Assigned(d)[..i]) == First(d, i)
    ensures EnvOf(Assigned(d)[..i + 1]) == First(d, i + 1)
  {
    FirstMore(d, i);
    AssignedMore(d, i);
    EnvMore(Assigned(d)[..i], d.keys[i], d.at[d.keys[i]]);
  }

  lemma {:induction false} FirstNothing<V>(d: Dict<V>)
    ensures First(d, 0) == Dict([], map[])
  {
    assert First(d, 0).keys == [];
    assert First(d, 0).at == map[];
  }

  lemma {:induction false} AssignedMore(d: Dict<string>, i: nat)
    requires d.Wf() && i < |d.keys|
    ensures d.keys[i] in d.at
    ensures Assigned(d)[..i + 1] == Assigned(d)[..i] + [d.keys[i] + "=" + d.at[d.keys[i]]]
  {
    assert d.keys[i] in d.keys;
  }

  /** A handoff states an environment as text or as a mapping, which is taken as it is. */
  datatype EnvSource = Tokens(tokens: seq<string>) | Mapping(entries: Dict<string>)
  {
    predicate IsReadable() { Tokens? ==> forall t :: t in tokens ==> IsAssignment(t) }

    function Meant(): Dict<string> { if Tokens? then EnvOf(tokens) else entries }
  }

  method ReadEnv(src: EnvSource) returns (r: Parsed<Dict<string>>)
    requires src.Mapping? ==> src.entries.Wf()
    ensures r.Ok? <==> src.IsReadable()
    ensures r.Ok? ==> r.value == src.Meant() && r.value.Wf()
  {
    match src
    case Mapping(entries) => r := Ok(entries);
    case Tokens(tokens) => r := ParseEnv(tokens);
  }

  /** The environment: the recipe's, under the reconciled statements of the current best. */
  method ResolveEnv(recipe: Dict<string>, extra: EnvSource, accepted: EnvSource)
    returns (r: Parsed<(Dict<string>, seq<Conflict<string>>)>)
    requires recipe.Wf() && (extra.Mapping? ==> extra.entries.Wf()) && (accepted.Mapping? ==> accepted.entries.Wf())
    ensures r.Ok? <==> extra.IsReadable() && accepted.IsReadable() && Agree(extra.Meant(), accepted.Meant())
    ensures r.Ok? ==>
            var m := LayeredAll([Layer("launch_recipe", recipe),
                                 Layer("current_best_delta", Over(extra.Meant(), accepted.Meant()))]);
            r.value == (m.target, m.conflicts)
  {
    var x := ReadEnv(extra);
    if x.Err? { return Err(x.at); }
    var y := ReadEnv(accepted);
    if y.Err? { return Err(y.at); }
    var d := Reconcile(x.value, y.value);
    if d.Err? { return Err(d.at); }
    OverWf(x.value, y.value);
    var target, conflicts := MergeLayers([Layer("launch_recipe", recipe), Layer("current_best_delta", d.value)]);
    r := Ok((target, conflicts));
  }
}
