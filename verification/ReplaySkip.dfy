/**
 The test that skips the replay of a recalled configuration (e2e_workflow/e2e_workflow.js, the merge of a
 recalled record onto the baseline): it compares texts, and this says for which inputs the answer is that
 of the merge's own report.
 */
module ReplaySkip {
  import opened Wrappers
  import opened Sequences
  import opened Text
  import opened Flags
  import opened ConfigMerge
  import opened MergeLaws

  // ---- what the merge reports --------------------------------------------------------------------

  /** A recovered item for which the baseline has a place. */
  predicate Lands(base: seq<Item>, it: Item, repeatable: set<string>) {
    it.name.Some? && it.name.value !in repeatable && Names(base, it.name.value)
  }

  /** And that shows what stands there already. */
  predicate Confirms(base: seq<Item>, it: Item, repeatable: set<string>) {
    Lands(base, it, repeatable) && Shown(LastValue(base, it.name.value).value) == Shown(it.value)
  }

  predicate Confirmed(base: seq<Item>, rec: seq<Item>, repeatable: set<string>) {
    forall it :: it in rec && it.name.Some? ==> Confirms(base, it, repeatable)
  }

  predicate NamedLand(base: seq<Item>, rec: seq<Item>, repeatable: set<string>) {
    forall it :: it in rec && it.name.Some? ==> Lands(base, it, repeatable)
  }

  predicate Silent(m: Merge) { m.overrides == [] && m.added == [] }

  predicate AllStray(items: seq<Item>) { forall it :: it in items ==> IsStray(it) }

  lemma {:induction false} SelectStray(items: seq<Item>)
    ensures AllStray(Select(items, None))
    ensures Select(items, None) == [] <==> !Nameless(items)
  {
    if items != [] {
      SelectStray(items[..|items| - 1]);
      forall it ensures it in items <==> it in items[..|items| - 1] || it == items[|items| - 1] {
        InFrontOrLast(items, it);
      }
    }
  }

  lemma {:induction false} StraysNameNothing(base: seq<Item>, strays: seq<Item>, n: string)
    requires AllStray(strays)
    ensures LastIndex(base + strays, n) == LastIndex(base, n)
  {
    var all := base + strays;
    forall j | |base| <= j < |all| ensures all[j].name != Some(n) { assert all[j] in strays; }
    LastIndexUnique(all, n, LastIndex(base, n));
  }

  lemma {:induction false} SilentStep(m: Merge, base: seq<Item>, strays: seq<Item>, it: Item, repeatable: set<string>)
    requires Silent(m) && AllStray(strays) && m.out == base + strays
    ensures Silent(MergeStep(m, it, repeatable)) <==> it.name.None? || Confirms(base, it, repeatable)
    ensures Silent(MergeStep(m, it, repeatable)) ==>
              MergeStep(m, it, repeatable).out == base + (strays + if it.name.None? then [it] else [])
  {
    if it.name.Some? { StraysNameNothing(base, strays, it.name.value); }
    JoinAssociates(base, strays, [it]);
    JoinNothing(strays);
  }

  lemma {:induction false} ConfirmedLast(base: seq<Item>, rec: seq<Item>, repeatable: set<string>)
    requires rec != []
    ensures var last := rec[|rec| - 1];
            Confirmed(base, rec, repeatable) <==>
            Confirmed(base, rec[..|rec| - 1], repeatable) && (last.name.None? || Confirms(base, last, repeatable))
  {
    forall it ensures it in rec <==> it in rec[..|rec| - 1] || it == rec[|rec| - 1] { InFrontOrLast(rec, it); }
  }

  /** Nothing is overridden and nothing added exactly if every named recovered item shows what the baseline has. */
  lemma {:induction false} SilentIff(base: seq<Item>, rec: seq<Item>, repeatable: set<string>)
    ensures Silent(Merged(base, rec, repeatable)) <==> Confirmed(base, rec, repeatable)
    ensures Silent(Merged(base, rec, repeatable)) ==> Merged(base, rec, repeatable).out == base + Select(rec, None)
  {
    if rec == [] {
      JoinNothing(base);
    } else {
      var front, it := rec[..|rec| - 1], rec[|rec| - 1];
      SilentIff(base, front, repeatable);
      ConfirmedLast(base, rec, repeatable);
      SelectStray(front);
      if Silent(Merged(base, front, repeatable)) {
        SilentStep(Merged(base, front, repeatable), base, Select(front, None), it, repeatable);
      }
    }
  }

  // ---- when the merge is the baseline ----------------------------------------------------------------

  lemma {:induction false} NamedLandLast(base: seq<Item>, rec: seq<Item>, repeatable: set<string>)
    requires rec != []
    ensures var last := rec[|rec| - 1];
            NamedLand(base, rec, repeatable) <==>
            NamedLand(base, rec[..|rec| - 1], repeatable) && (last.name.None? || Lands(base, last, repeatable))
  {
    forall it ensures it in rec <==> it in rec[..|rec| - 1] || it == rec[|rec| - 1] { InFrontOrLast(rec, it); }
  }

  /** If every named item lands, only the nameless ones open places of their own. */
  lemma {:induction false} OpenedByStrays(base: seq<Item>, rec: seq<Item>, repeatable: set<string>)
    requires NamedLand(base, rec, repeatable)
    ensures Opened(base, rec, repeatable) == base + Select(rec, None)
  {
    if rec == [] {
      JoinNothing(base);
    } else {
      var front, it := rec[..|rec| - 1], rec[|rec| - 1];
      NamedLandLast(base, rec, repeatable);
      OpenedByStrays(base, front, repeatable);
      SelectStray(front);
      if it.name.Some? { StraysNameNothing(base, Select(front, None), it.name.value); }
      JoinAssociates(base, Select(front, None), [it]);
      JoinNothing(Select(front, None));
      JoinNothing(Opened(base, front, repeatable));
    }
  }

  /** Otherwise one of them does. */
  lemma {:induction false} OpenedByName(base: seq<Item>, rec: seq<Item>, repeatable: set<string>) returns (p: nat)
    requires !NamedLand(base, rec, repeatable)
    ensures |base| <= p < |Opened(base, rec, repeatable)| && !IsStray(Opened(base, rec, repeatable)[p])
  {
    var front, it := rec[..|rec| - 1], rec[|rec| - 1];
    NamedLandLast(base, rec, repeatable);
    OpenedPrefix(base, front, repeatable);
    if NamedLand(base, front, repeatable) {
      OpenedByStrays(base, front, repeatable);
      SelectStray(front);
      StraysNameNothing(base, Select(front, None), it.name.value);
      p := |Opened(base, front, repeatable)|;
    } else {
      p := OpenedByName(base, front, repeatable);
    }
  }

  /** The first `n` places end up holding what they held. */
  predicate Resettles(base: seq<Item>, rec: seq<Item>, repeatable: set<string>, n: nat)
    requires n <= |base|
  {
    forall i :: 0 <= i < n && IsMergedPlace(base, i, repeatable) ==> Settled(base[i], rec) == base[i]
  }

  lemma {:induction false} FrontIs(base: seq<Item>, rec: seq<Item>, repeatable: set<string>, i: nat)
    requires i < |base|
    ensures |base| <= |Merged(base, rec, repeatable).out| == |Opened(base, rec, repeatable)|
    ensures Merged(base, rec, repeatable).out[i]
         == if IsMergedPlace(base, i, repeatable) then Settled(base[i], rec) else base[i]
  {
    MergedIs(base, rec, repeatable);
    StandingInBase(base, rec, repeatable, i);
  }

  lemma {:induction false} ResettlesIff(base: seq<Item>, rec: seq<Item>, repeatable: set<string>, n: nat)
    requires n <= |base|
    ensures |base| <= |Merged(base, rec, repeatable).out|
    ensures Merged(base, rec, repeatable).out[..n] == base[..n] <==> Resettles(base, rec, repeatable, n)
  {
    var out := Merged(base, rec, repeatable).out;
    MergedIs(base, rec, repeatable);
    OpenedPrefix(base, rec, repeatable);
    forall i | 0 <= i < n
      ensures out[i] == base[i] <==> (IsMergedPlace(base, i, repeatable) ==> Settled(base[i], rec) == base[i])
    {
      FrontIs(base, rec, repeatable, i);
    }
    SamePrefixIff(out, base, n);
  }

  lemma {:induction false} SamePrefixIff(a: seq<Item>, b: seq<Item>, n: nat)
    requires n <= |a| && n <= |b|
    ensures a[..n] == b[..n] <==> forall i :: 0 <= i < n ==> a[i] == b[i]
  {
    if a[..n] == b[..n] {
      forall i | 0 <= i < n ensures a[i] == b[i] { assert a[i] == a[..n][i] && b[i] == b[..n][i]; }
    }
  }

  /** Nothing opens a place, and every place ends up as it was. */
  predicate ItemsKept(base: seq<Item>, rec: seq<Item>, repeatable: set<string>) {
    NamedLand(base, rec, repeatable) && !Nameless(rec) && Resettles(base, rec, repeatable, |base|)
  }

  /** The merge is the baseline exactly then. */
  lemma {:induction false} UnchangedIff(base: seq<Item>, rec: seq<Item>, repeatable: set<string>)
    ensures Merged(base, rec, repeatable).out == base <==> ItemsKept(base, rec, repeatable)
  {
    var out := Merged(base, rec, repeatable).out;
    MergedIs(base, rec, repeatable);
    ResettlesIff(base, rec, repeatable, |base|);
    SelectStray(rec);
    assert base[..|base|] == base && out[..|out|] == out;
    if NamedLand(base, rec, repeatable) {
      OpenedByStrays(base, rec, repeatable);
    } else {
      var p := OpenedByName(base, rec, repeatable);
    }
  }

  /** Something was overridden, and everything was put back. */
  predicate Restored(base: seq<Item>, rec: seq<Item>, repeatable: set<string>) {
    ItemsKept(base, rec, repeatable) && !Confirmed(base, rec, repeatable)
  }

  /**
   "Unchanged iff nothing is reported" holds of a merge exactly if it did not put back what it overrode, and
   did not add a nameless token without reporting anything.
   */
  lemma {:induction false} ReportIsRightIff(base: seq<Item>, rec: seq<Item>, repeatable: set<string>)
    ensures var m := Merged(base, rec, repeatable);
            (m.out == base <==> Silent(m)) <==>
            !Restored(base, rec, repeatable) && !(Confirmed(base, rec, repeatable) && Nameless(rec))
  {
    SilentIff(base, rec, repeatable);
    UnchangedIff(base, rec, repeatable);
    SelectStray(rec);
    JoinNothing(base);
  }

  // ---- what the texts say --------------------------------------------------------------------------------

  lemma {:induction false} JoinParts(a: seq<string>, b: seq<string>)
    requires a != [] && b != []
    ensures Join(a + b) == Join(a) + " " + Join(b)
  {
    assert (a + b)[1..] == a[1..] + b;
    if |a| > 1 { JoinParts(a[1..], b); }
  }

  lemma {:induction false} ItemIsItsTokens(it: Item)
    requires Good(it)
    ensures RenderItem(it) == Join(ItemTokens(it)) && ItemTokens(it) != []
  {
    if it.name.Some? && it.value.Some? && !it.eq { JoinParts([it.name.value], Tokens(it.value.value)); }
  }

  lemma {:induction false} TextIsItsTokens(items: seq<Item>)
    requires AllGood(items)
    ensures Join(RenderAll(items)) == Join(AllTokens(items))
    ensures items != [] ==> AllTokens(items) != []
  {
    if items != [] {
      var it, rest := items[0], items[1..];
      assert it in items && forall x :: x in rest ==> x in items;
      ItemIsItsTokens(it);
      TextIsItsTokens(rest);
      assert RenderAll(items)[1..] == RenderAll(rest);
      if rest == [] {
        JoinNothing(ItemTokens(it));
      } else {
        JoinParts(ItemTokens(it), AllTokens(rest));
      }
    }
  }

  /** Two lists of items print alike exactly if they print the same words. */
  lemma {:induction false} SameTextIff(a: seq<Item>, b: seq<Item>)
    requires AllGood(a) && AllGood(b)
    ensures RenderFlags(a) == RenderFlags(b) <==> AllTokens(a) == AllTokens(b)
  {
    TextIsItsTokens(a);
    TextIsItsTokens(b);
    TokensOfRendered(a);
    TokensOfRendered(b);
    TokensOfTrim(Join(RenderAll(a)));
    TokensOfTrim(Join(RenderAll(b)));
  }

  /** The words of an open flag's value. */
  function ValueWords(it: Item): seq<string> { if it.value.Some? then Tokens(it.value.value) else [] }

  /** `tail`, printed behind the open flag `o`, makes up the value of `b`. */
  predicate Completes(b: Item, o: Item, tail: seq<Item>) {
    IsOpen(b) && IsOpen(o) && tail != [] && AllStray(tail) && ValueWords(b) == ValueWords(o) + AllTokens(tail)
  }

  /** The list `out` is `base` with the words of its last value spread over a shorter value and nameless tokens. */
  predicate Spreads(base: seq<Item>, out: seq<Item>) {
    && base != [] && |base| <= |out|
    && var n := |base| - 1;
       out[..n] == base[..n] && Completes(base[n], out[n], out[n + 1..])
  }

  /** Places of one list that a merge of it kept: same names, and nameless tokens untouched. */
  predicate KeepsNames(base: seq<Item>, out: seq<Item>) {
    |base| <= |out| && forall i :: 0 <= i < |base| ==>
      out[i].name == base[i].name && (IsStray(base[i]) ==> out[i] == base[i])
  }

  lemma {:induction false} OpenTokens(it: Item)
    requires Good(it) && IsOpen(it)
    ensures ItemTokens(it) == [it.name.value] + ValueWords(it)
    ensures forall t :: t in ValueWords(it) ==> !LooksLikeFlag(t)
    ensures it == FlagWith(it.name.value, ValueWords(it))
  {
  }

  lemma {:induction false} StrayTokens(items: seq<Item>)
    requires AllGood(items)
    ensures AllStray(items) <==> forall t :: t in AllTokens(items) ==> !LooksLikeFlag(t)
  {
    if items != [] {
      var it, rest := items[0], items[1..];
      assert it in items && forall x :: x in rest ==> x in items;
      assert items == [it] + rest;
      FirstTokenFlag(it);
      StrayTokens(rest);
      assert forall t :: t in AllTokens(items) <==> t in ItemTokens(it) || t in AllTokens(rest);
      assert ItemTokens(it)[0] in ItemTokens(it);
    }
  }

  /** Two flags of one name that differ cannot begin the same words if one of them is written with `=`. */
  lemma {:induction false} AssignedApart(b: Item, o: Item, tb: seq<string>, to: seq<string>)
    requires Good(b) && Good(o) && b.name.Some? && o.name == b.name && b != o && (b.eq || o.eq)
    ensures ItemTokens(b) + tb != ItemTokens(o) + to
  {
    var n := b.name.value;
    assert (ItemTokens(b) + tb)[0] == ItemTokens(b)[0] && (ItemTokens(o) + to)[0] == ItemTokens(o)[0];
    if b.eq && o.eq {
      assert (n + "=" + b.value.value)[|n| + 1..] == b.value.value;
      assert (n + "=" + o.value.value)[|n| + 1..] == o.value.value;
    } else {
      assert b.eq ==> '=' in n + "=" + b.value.value;
      assert o.eq ==> '=' in n + "=" + o.value.value;
    }
  }

  /** Behind values, the next flag ends the comparison: the values must be the same. */
  lemma {:induction false} ValuesThenFlag(v: seq<string>, tb: seq<string>, w: seq<string>, to: seq<string>)
    requires (forall t :: t in v ==> !LooksLikeFlag(t)) && (forall t :: t in w ==> !LooksLikeFlag(t))
    requires tb != [] && to != [] && LooksLikeFlag(tb[0]) && LooksLikeFlag(to[0])
    ensures v + tb == w + to ==> v == w
  {
    ValuesBefore(v, tb);
    ValuesBefore(w, to);
  }

  lemma {:induction false} ValuesBefore(v: seq<string>, more: seq<string>)
    requires forall t :: t in v ==> !LooksLikeFlag(t)
    requires more != [] && LooksLikeFlag(more[0])
    ensures v == (v + more)[..Values(v + more)]
  {
    var all := v + more;
    forall i | 0 <= i < |v| ensures !LooksLikeFlag(all[i]) { assert all[i] == v[i] && v[i] in v; }
    ValuesIs(all, |v|);
  }

  lemma {:induction false} NamedTokens(n: string, v: seq<string>, tb: seq<string>, w: seq<string>, to: seq<string>)
    ensures [n] + v + tb == [n] + w + to <==> v + tb == w + to
  {
    assert ([n] + v + tb)[1..] == v + tb && ([n] + w + to)[1..] == w + to;
    assert [n] + v + tb == [n] + (v + tb) && [n] + w + to == [n] + (w + to);
  }

  /** Two different open flags of one name, the first of them last in its list. */
  lemma {:induction false} LastOpen(b: Item, o: Item, tail: seq<Item>)
    requires Good(b) && Good(o) && IsOpen(b) && IsOpen(o) && b.name == o.name && b != o && AllGood(tail)
    ensures ItemTokens(b) == ItemTokens(o) + AllTokens(tail) <==> Completes(b, o, tail)
  {
    OpenTokens(b);
    OpenTokens(o);
    var v, w, to := ValueWords(b), ValueWords(o), AllTokens(tail);
    NamedTokens(b.name.value, v, [], w, to);
    JoinNothing(v);
    JoinNothing([b.name.value] + v);
    JoinNothing(w);
    if v == w + to {
      forall t | t in to ensures !LooksLikeFlag(t) { assert t in w + to; }
      StrayTokens(tail);
    }
  }

  lemma {:induction false} FirstApart(base: seq<Item>, out: seq<Item>)
    requires AllGood(base) && AllGood(out) && NoAbsorb(base) && KeepsNames(base, out)
    requires base != [] && base[0] != out[0]
    ensures AllTokens(out) == AllTokens(base) <==> |base| == 1 && Completes(base[0], out[0], out[1..])
  {
    var b, o, tb, to := base[0], out[0], AllTokens(base[1..]), AllTokens(out[1..]);
    assert b in base && o in out && forall x :: x in out[1..] ==> x in out;
    if !(IsOpen(b) && IsOpen(o)) {
      AssignedApart(b, o, tb, to);
    } else if |base| == 1 {
      assert AllTokens(base[1..]) == [];
      JoinNothing(ItemTokens(b));
      LastOpen(b, o, out[1..]);
    } else {
      OpenTokens(b);
      OpenTokens(o);
      FirstTokenOfRest(base, 1);
      FirstTokenOfRest(out, 1);
      NamedTokens(b.name.value, ValueWords(b), tb, ValueWords(o), to);
      ValuesThenFlag(ValueWords(b), tb, ValueWords(o), to);
    }
  }

  lemma {:induction false} SpreadsAtOnce(base: seq<Item>, out: seq<Item>)
    requires |base| <= |out| && base != [] && base[0] != out[0]
    ensures out != base
    ensures Spreads(base, out) <==> |base| == 1 && Completes(base[0], out[0], out[1..])
  {
    var n := |base| - 1;
    assert n > 0 ==> out[..n][0] == out[0] && base[..n][0] == base[0];
    assert n == 0 ==> out[..n] == base[..n];
  }

  lemma {:induction false} FirstTokenOfRest(items: seq<Item>, i: nat)
    requires AllGood(items) && i < |items|
    ensures AllTokens(items[i..]) != [] && (LooksLikeFlag(AllTokens(items[i..])[0]) <==> !IsStray(items[i]))
  {
    assert items[i] in items && items[i..][0] == items[i];
    FirstTokenFlag(items[i]);
  }

  lemma {:induction false} RestOf(base: seq<Item>, out: seq<Item>)
    requires AllGood(base) && AllGood(out) && NoAbsorb(base) && KeepsNames(base, out) && base != []
    ensures AllGood(base[1..]) && AllGood(out[1..]) && NoAbsorb(base[1..]) && KeepsNames(base[1..], out[1..])
  {
    var rest := base[1..];
    forall i | 0 <= i < |rest| - 1 && IsOpen(rest[i]) ensures !IsStray(rest[i + 1]) { assert IsOpen(base[i + 1]); }
    forall x | x in base[1..] ensures x in base {}
    forall x | x in out[1..] ensures x in out {}
  }

  lemma {:induction false} SpreadsRest(base: seq<Item>, out: seq<Item>)
    requires KeepsNames(base, out) && base != [] && base[0] == out[0]
    ensures Spreads(base, out) <==> Spreads(base[1..], out[1..])
  {
    var n := |base| - 1;
    if n == 0 {
      OwnWords(base[0], out[1..]);
    } else {
      assert base[1..][n - 1] == base[n] && out[1..][n - 1] == out[n] && out[1..][n..] == out[n + 1..];
      HeadAndFront(out, n);
      HeadAndFront(base, n);
      SameCons(out[0], out[1..][..n - 1], base[1..][..n - 1]);
    }
  }

  lemma {:induction false} HeadAndFront(s: seq<Item>, n: nat)
    requires 0 < n <= |s|
    ensures s[..n] == [s[0]] + s[1..][..n - 1]
  {
  }

  lemma {:induction false} SameCons(x: Item, a: seq<Item>, b: seq<Item>)
    ensures [x] + a == [x] + b <==> a == b
  {
    assert ([x] + a)[1..] == a && ([x] + b)[1..] == b;
  }

  lemma {:induction false} OwnWords(b: Item, tail: seq<Item>)
    ensures !Completes(b, b, tail)
  {
    if tail != [] && AllStray(tail) { assert tail[0] in tail && AllTokens(tail) != []; }
  }

  /**
   A list that kept the names of `base` prints like it exactly if it is `base`, or spreads its last value over
   nameless tokens.
   */
  lemma {:induction false} SameWordsIff(base: seq<Item>, out: seq<Item>)
    requires AllGood(base) && AllGood(out) && NoAbsorb(base) && KeepsNames(base, out)
    ensures AllTokens(out) == AllTokens(base) <==> out == base || Spreads(base, out)
  {
    if base == [] {
      TextIsItsTokens(out);
    } else if base[0] != out[0] {
      FirstApart(base, out);
      SpreadsAtOnce(base, out);
    } else {
      RestOf(base, out);
      SameWordsIff(base[1..], out[1..]);
      SameWordsStep(base, out);
    }
  }

  lemma {:induction false} SameWordsStep(base: seq<Item>, out: seq<Item>)
    requires KeepsNames(base, out) && base != [] && base[0] == out[0]
    requires AllTokens(out[1..]) == AllTokens(base[1..]) <==> out[1..] == base[1..] || Spreads(base[1..], out[1..])
    ensures AllTokens(out) == AllTokens(base) <==> out == base || Spreads(base, out)
  {
    SpreadsRest(base, out);
    SameHeadIff(base, out);
    SameRest(base, out);
  }

  lemma {:induction false} SameRest(base: seq<Item>, out: seq<Item>)
    requires base != [] && out != [] && base[0] == out[0]
    ensures out == base <==> out[1..] == base[1..]
  {
    assert base == [base[0]] + base[1..] && out == [out[0]] + out[1..];
  }

  lemma {:induction false} SameHeadIff(base: seq<Item>, out: seq<Item>)
    requires base != [] && out != [] && base[0] == out[0]
    ensures AllTokens(out) == AllTokens(base) <==> AllTokens(out[1..]) == AllTokens(base[1..])
  {
    var t := ItemTokens(base[0]);
    assert (t + AllTokens(out[1..]))[|t|..] == AllTokens(out[1..]);
    assert (t + AllTokens(base[1..]))[|t|..] == AllTokens(base[1..]);
  }

  // ---- the test on flags -------------------------------------------------------------------------------------

  /**
   The last baseline flag is overridden by one with fewer words, and the nameless tokens of the recovered list
   are the words it lost; nothing else changes.
   */
  predicate SpreadsLast(base: seq<Item>, rec: seq<Item>, repeatable: set<string>) {
    && NamedLand(base, rec, repeatable) && base != []
    && var n := |base| - 1;
       && Resettles(base, rec, repeatable, n)
       && base[n].name.Some? && base[n].name.value !in repeatable
       && Completes(base[n], Settled(base[n], rec), Select(rec, None))
  }

  lemma {:induction false} TailIs(base: seq<Item>, rec: seq<Item>, repeatable: set<string>)
    requires NamedLand(base, rec, repeatable)
    ensures |base| <= |Merged(base, rec, repeatable).out|
    ensures Merged(base, rec, repeatable).out[|base|..] == Select(rec, None)
  {
    MergedIs(base, rec, repeatable);
    OpenedByStrays(base, rec, repeatable);
    SelectStray(rec);
    var out, strays := Merged(base, rec, repeatable).out, Select(rec, None);
    forall i | 0 <= i < |strays| ensures out[|base| + i] == strays[i] {
      assert strays[i] in strays && Opened(base, rec, repeatable)[|base| + i] == strays[i];
    }
  }

  lemma {:induction false} TailOfNames(base: seq<Item>, rec: seq<Item>, repeatable: set<string>)
    requires |base| <= |Merged(base, rec, repeatable).out|
    ensures AllStray(Merged(base, rec, repeatable).out[|base|..]) ==> NamedLand(base, rec, repeatable)
  {
    var out := Merged(base, rec, repeatable).out;
    if !NamedLand(base, rec, repeatable) {
      var p := OpenedByName(base, rec, repeatable);
      MergedIs(base, rec, repeatable);
      assert out[p] == out[|base|..][p - |base|];
      assert out[p] in out[|base|..] && !IsStray(out[p]);
    }
  }

  lemma {:induction false} LastPlace(base: seq<Item>, repeatable: set<string>)
    requires base != []
    ensures var it := base[|base| - 1];
            IsMergedPlace(base, |base| - 1, repeatable) <==> it.name.Some? && it.name.value !in repeatable
  {
  }

  lemma {:induction false} SpreadsIff(base: seq<Item>, rec: seq<Item>, repeatable: set<string>)
    ensures Spreads(base, Merged(base, rec, repeatable).out) <==> SpreadsLast(base, rec, repeatable)
  {
    if base != [] {
      var n := |base| - 1;
      ResettlesIff(base, rec, repeatable, n);
      TailOfNames(base, rec, repeatable);
      if NamedLand(base, rec, repeatable) {
        TailIs(base, rec, repeatable);
        FrontIs(base, rec, repeatable, n);
        LastPlace(base, repeatable);
        OwnWords(base[n], Select(rec, None));
      }
    }
  }

  /** What the merge leaves as it was: every item, or only the words that the items print. */
  predicate FlagsKept(base: seq<Item>, rec: seq<Item>, repeatable: set<string>) {
    ItemsKept(base, rec, repeatable) || SpreadsLast(base, rec, repeatable)
  }

  lemma {:induction false} MergedKeepsNames(base: seq<Item>, rec: seq<Item>, repeatable: set<string>)
    ensures KeepsNames(base, Merged(base, rec, repeatable).out)
  {
    MergedPlaces(base, rec, repeatable);
  }

  /** The merged flags print as the baseline's do exactly under that condition on the two strings. */
  lemma {:induction false} FlagTextIff(baseFlags: string, storedFlags: string)
    ensures MergeFlags(baseFlags, storedFlags) == RenderFlags(ParseFlags(baseFlags)) <==>
            FlagsKept(ParseFlags(baseFlags), ParseFlags(storedFlags), REPEATABLE_FLAGS)
  {
    var base, rec := ParseFlags(baseFlags), ParseFlags(storedFlags);
    ParseRoundTrip(baseFlags);
    MergeFlagItemsGood(baseFlags, storedFlags);
    MergedKeepsNames(base, rec, REPEATABLE_FLAGS);
    SameTextIff(MergeFlagItems(baseFlags, storedFlags), base);
    SameWordsIff(base, MergeFlagItems(baseFlags, storedFlags));
    UnchangedIff(base, rec, REPEATABLE_FLAGS);
    SpreadsIff(base, rec, REPEATABLE_FLAGS);
  }

  lemma {:induction false} SpreadsReports(base: seq<Item>, rec: seq<Item>, repeatable: set<string>)
    requires SpreadsLast(base, rec, repeatable)
    ensures !Confirmed(base, rec, repeatable)
  {
    SilentIff(base, rec, repeatable);
    SpreadsIff(base, rec, repeatable);
    OwnWords(base[|base| - 1], Select(rec, None));
    OutBehind(base, Select(rec, None));
  }

  lemma {:induction false} OutBehind(base: seq<Item>, tail: seq<Item>)
    requires base != []
    ensures (base + tail)[|base| - 1] == base[|base| - 1] && (base + tail)[|base|..] == tail
  {
  }

  /**
   On flags, the test answers as the report does exactly if nothing that was overridden was put back, as an
   item or as words, and no nameless token was added in silence.
   */
  lemma {:induction false} FlagSkipIff(baseFlags: string, storedFlags: string)
    ensures var base, rec := ParseFlags(baseFlags), ParseFlags(storedFlags);
            var m := Merged(base, rec, REPEATABLE_FLAGS);
            (MergeFlags(baseFlags, storedFlags) == RenderFlags(base) <==> Silent(m)) <==>
            && !Restored(base, rec, REPEATABLE_FLAGS) && !SpreadsLast(base, rec, REPEATABLE_FLAGS)
            && !(Confirmed(base, rec, REPEATABLE_FLAGS) && Nameless(rec))
  {
    var base, rec := ParseFlags(baseFlags), ParseFlags(storedFlags);
    FlagTextIff(baseFlags, storedFlags);
    SilentIff(base, rec, REPEATABLE_FLAGS);
    UnchangedIff(base, rec, REPEATABLE_FLAGS);
    ReportIsRightIff(base, rec, REPEATABLE_FLAGS);
    if SpreadsLast(base, rec, REPEATABLE_FLAGS) { SpreadsReports(base, rec, REPEATABLE_FLAGS); }
  }

  // ---- the test on environments, and the whole test ----------------------------------------------------------

  lemma {:induction false} EnvTextIff(baseEnv: string, storedEnv: string)
    ensures RenderFlags(MergeEnvItems(baseEnv, storedEnv)) == RenderFlags(ParseEnv(baseEnv)) <==>
            ItemsKept(ParseEnv(baseEnv), ParseEnv(storedEnv), {})
  {
    var base, rec := ParseEnv(baseEnv), ParseEnv(storedEnv);
    ParseEnvIsGood(baseEnv);
    ParseEnvIsGood(storedEnv);
    MergedItems(base, rec, {});
    EnvRoundTrip(MergeEnvItems(baseEnv, storedEnv));
    UnchangedIff(base, rec, {});
  }

  /** On environments there are no words to spread. */
  lemma {:induction false} EnvSkipIff(baseEnv: string, storedEnv: string)
    ensures var base, rec := ParseEnv(baseEnv), ParseEnv(storedEnv);
            (RenderFlags(MergeEnvItems(baseEnv, storedEnv)) == RenderFlags(base)
             <==> Silent(Merged(base, rec, {}))) <==>
            !Restored(base, rec, {}) && !(Confirmed(base, rec, {}) && Nameless(rec))
  {
    var base, rec := ParseEnv(baseEnv), ParseEnv(storedEnv);
    EnvTextIff(baseEnv, storedEnv);
    UnchangedIff(base, rec, {});
    ReportIsRightIff(base, rec, {});
  }

  /** The test: both merged texts are the baseline's. */
  predicate Skips(baseFlags: string, storedFlags: string, baseEnv: string, storedEnv: string) {
    && MergeFlags(baseFlags, storedFlags) == RenderFlags(ParseFlags(baseFlags))
    && RenderFlags(MergeEnvItems(baseEnv, storedEnv)) == RenderFlags(ParseEnv(baseEnv))
  }

  /** Neither merge overrides or adds anything. */
  predicate NothingReported(baseFlags: string, storedFlags: string, baseEnv: string, storedEnv: string) {
    && Silent(Merged(ParseFlags(baseFlags), ParseFlags(storedFlags), REPEATABLE_FLAGS))
    && Silent(Merged(ParseEnv(baseEnv), ParseEnv(storedEnv), {}))
  }

  /**
   When a replay is skipped, when nothing is reported, and when the two agree, each read off the four strings:
   they agree exactly if whatever is reported changes a text, and a silent merge has no nameless token.
   */
  lemma {:induction false} SkipTestIff(baseFlags: string, storedFlags: string, baseEnv: string, storedEnv: string)
    ensures var fb, fr := ParseFlags(baseFlags), ParseFlags(storedFlags);
            var eb, er := ParseEnv(baseEnv), ParseEnv(storedEnv);
            var kept := FlagsKept(fb, fr, REPEATABLE_FLAGS) && ItemsKept(eb, er, {});
            var confirmed := Confirmed(fb, fr, REPEATABLE_FLAGS) && Confirmed(eb, er, {});
            && (Skips(baseFlags, storedFlags, baseEnv, storedEnv) <==> kept)
            && (NothingReported(baseFlags, storedFlags, baseEnv, storedEnv) <==> confirmed)
            && ((Skips(baseFlags, storedFlags, baseEnv, storedEnv)
                 <==> NothingReported(baseFlags, storedFlags, baseEnv, storedEnv))
                <==> if confirmed then !Nameless(fr) && !Nameless(er) else !kept)
  {
    var fb, fr := ParseFlags(baseFlags), ParseFlags(storedFlags);
    var eb, er := ParseEnv(baseEnv), ParseEnv(storedEnv);
    FlagTextIff(baseFlags, storedFlags);
    EnvTextIff(baseEnv, storedEnv);
    SilentIff(fb, fr, REPEATABLE_FLAGS);
    SilentIff(eb, er, {});
    if Confirmed(fb, fr, REPEATABLE_FLAGS) { KeptWhenConfirmed(fb, fr, REPEATABLE_FLAGS); }
    if Confirmed(eb, er, {}) { KeptWhenConfirmed(eb, er, {}); }
  }

  lemma {:induction false} KeptWhenConfirmed(base: seq<Item>, rec: seq<Item>, repeatable: set<string>)
    requires Confirmed(base, rec, repeatable)
    ensures ItemsKept(base, rec, repeatable) <==> !Nameless(rec)
    ensures FlagsKept(base, rec, repeatable) <==> !Nameless(rec)
  {
    SilentIff(base, rec, repeatable);
    UnchangedIff(base, rec, repeatable);
    SelectStray(rec);
    JoinNothing(base);
    if SpreadsLast(base, rec, repeatable) { SpreadsReports(base, rec, repeatable); }
  }

  // ---- strings on which the test and the report disagree -------------------------------------------------

  /** A nameless token is added, and nothing is reported. */
  lemma {:induction false} StrayUnreported()
    ensures Silent(Merged(ParseFlags("-a"), ParseFlags("x"), REPEATABLE_FLAGS))
    ensures MergeFlags("-a", "x") != RenderFlags(ParseFlags("-a"))
  {
    ParseDashA();
    ParseX();
    var a, x := Item(Some("-a"), None, false), Stray("x");
    SilentIff([a], [x], REPEATABLE_FLAGS);
    FlagTextIff("-a", "x");
    assert x in [x];
    assert [x][..0] == [];
    OwnWords(a, Select([x], None));
  }

  lemma {:induction false} ParseWords()
    ensures ParseFlags("-a x") == [Item(Some("-a"), Some("x"), false)]
    ensures ParseFlags("x -a") == [Stray("x"), Item(Some("-a"), None, false)]
  {
    TwoTokens("-a", "x", "-a x");
    TwoTokens("x", "-a", "x -a");
    ParsedAsValue();
    var a, x := Item(Some("-a"), None, false), Stray("x");
    GoodDashA(a);
    assert Good(x) && ItemTokens(x) == ["x"];
    ParsedPair(x, "x", a, "-a");
  }

  /** The flag loses its value and the value comes back as a nameless token: reported, yet the text is the same. */
  lemma {:induction false} PutBackAsWords()
    ensures MergeFlags("-a x", "x -a") == RenderFlags(ParseFlags("-a x"))
    ensures !Silent(Merged(ParseFlags("-a x"), ParseFlags("x -a"), REPEATABLE_FLAGS))
    ensures MergeFlagItems("-a x", "x -a") != ParseFlags("-a x")
  {
    ParseWords();
    var b, x, o := Item(Some("-a"), Some("x"), false), Stray("x"), Item(Some("-a"), None, false);
    LostValue(b, x, o);
    SpreadsReports([b], [x, o], REPEATABLE_FLAGS);
    SilentIff([b], [x, o], REPEATABLE_FLAGS);
    FlagTextIff("-a x", "x -a");
    UnchangedIff([b], [x, o], REPEATABLE_FLAGS);
    assert x in [x, o] && x.name.None?;
  }

  lemma {:induction false} LostValue(b: Item, x: Item, o: Item)
    requires b == Item(Some("-a"), Some("x"), false) && x == Stray("x") && o == Item(Some("-a"), None, false)
    ensures SpreadsLast([b], [x, o], REPEATABLE_FLAGS)
  {
    TokensOfWord("x");
    assert [x, o][..1] == [x] && [x][..0] == [];
    assert Settled(b, []) == b && Settled(b, [x]) == b && Settled(b, [x, o]) == o;
    OnlyStray(x, o);
    assert [x][1..] == [] && AllTokens([x]) == ["x"];
    assert LastIndex([b], "-a") == 0;
    assert "-a"[1] != "--lora-path"[1] && "-a"[1] != "--lora-paths"[1];
  }

  lemma {:induction false} OnlyStray(x: Item, o: Item)
    requires x.name.None? && o.name.Some?
    ensures Select([x, o], None) == [x]
  {
    assert [x, o][..1] == [x] && [x][..0] == [];
    assert Select([x], None) == [] + [x];
    JoinNothing([x]);
  }
}
