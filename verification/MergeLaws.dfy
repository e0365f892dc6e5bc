/**
 The merge in closed form (e2e_workflow/e2e_workflow.js, mergeConfig, mergeFlags): which item stands at
 which place, which value is in force, and, on the two strings before they are merged, exactly when the
 merge means what it should.
 */
module MergeLaws {
  import opened Wrappers
  import opened Sequences
  import opened Text
  import opened Flags
  import opened ConfigMerge

  // ---- which item stands at which place --------------------------------------------------

  /** What a place opened by `cur` holds in the end: every later item of its name that shows a new value replaces it. */
  function Settled(cur: Item, rec: seq<Item>): (r: Item)
    ensures r.name == cur.name
  {
    if rec == [] then cur
    else
      var before, it := Settled(cur, rec[..|rec| - 1]), rec[|rec| - 1];
      if cur.name.Some? && it.name == cur.name && Shown(before.value) != Shown(it.value) then it else before
  }

  /** A recovered item that finds no place to go to opens one of its own. */
  predicate OpensPlace(o: seq<Item>, it: Item, repeatable: set<string>) {
    it.name.None? || it.name.value in repeatable || !Names(o, it.name.value)
  }

  /** The items that open a place, in order: the baseline's, then the recovered ones that find none. */
  function Opened(base: seq<Item>, rec: seq<Item>, repeatable: set<string>): seq<Item> {
    if rec == [] then base
    else
      var before, it := Opened(base, rec[..|rec| - 1], repeatable), rec[|rec| - 1];
      before + if OpensPlace(before, it, repeatable) then [it] else []
  }

  /** Only the last place of a name that is merged is ever overridden. */
  predicate IsMergedPlace(o: seq<Item>, i: nat, repeatable: set<string>)
    requires i < |o|
  {
    o[i].name.Some? && o[i].name.value !in repeatable && LastIndex(o, o[i].name.value) == i
  }

  function Standing(o: seq<Item>, rec: seq<Item>, repeatable: set<string>, i: nat): (r: Item)
    requires i < |o|
    ensures r.name == o[i].name
  {
    if IsMergedPlace(o, i, repeatable) then Settled(o[i], rec) else o[i]
  }

  lemma {:induction false} NamesMore(items: seq<Item>, it: Item, n: string)
    ensures Names(items + [it], n) <==> Names(items, n) || it.name == Some(n)
  {
    LastIndexPushed(items, it, n);
  }

  lemma {:induction false} NamesLast(rec: seq<Item>, n: string)
    requires rec != []
    ensures Names(rec, n) <==> Names(rec[..|rec| - 1], n) || rec[|rec| - 1].name == Some(n)
  {
  }

  lemma {:induction false} OpenedNames(base: seq<Item>, rec: seq<Item>, repeatable: set<string>, n: string)
    requires n !in repeatable
    ensures Names(Opened(base, rec, repeatable), n) <==> Names(base, n) || Names(rec, n)
  {
    if rec != [] {
      var before, it := Opened(base, rec[..|rec| - 1], repeatable), rec[|rec| - 1];
      OpenedNames(base, rec[..|rec| - 1], repeatable, n);
      NamesMore(before, it, n);
      NamesLast(rec, n);
      assert before + [] == before;
    }
  }

  lemma {:induction false} SettledUnnamed(cur: Item, rec: seq<Item>)
    requires cur.name.Some? && !Names(rec, cur.name.value)
    ensures Settled(cur, rec) == cur
  {
    if rec != [] {
      NamesLast(rec, cur.name.value);
      SettledUnnamed(cur, rec[..|rec| - 1]);
    }
  }

  /** The places of two lists with the same names are the same. */
  lemma {:induction false} SameLastIndex(a: seq<Item>, b: seq<Item>, n: string)
    requires |a| == |b| && forall i :: 0 <= i < |a| ==> a[i].name == b[i].name
    ensures LastIndex(a, n) == LastIndex(b, n)
  {
    LastIndexUnique(a, n, LastIndex(b, n));
  }

  /** What is to hold of the merged items. */
  ghost predicate IsClosedForm(out: seq<Item>, o: seq<Item>, rec: seq<Item>, repeatable: set<string>) {
    |out| == |o| && forall i :: 0 <= i < |o| ==> out[i] == Standing(o, rec, repeatable, i)
  }

  /** The merge, place by place. */
  lemma {:induction false} MergedIs(base: seq<Item>, rec: seq<Item>, repeatable: set<string>)
    ensures IsClosedForm(Merged(base, rec, repeatable).out, Opened(base, rec, repeatable), rec, repeatable)
  {
    if rec != [] {
      var front, it := rec[..|rec| - 1], rec[|rec| - 1];
      MergedIs(base, front, repeatable);
      var m, o := Merged(base, front, repeatable), Opened(base, front, repeatable);
      if it.name.Some? { SameLastIndex(m.out, o, it.name.value); }
      if OpensPlace(o, it, repeatable) {
        Pushed(base, rec, repeatable, m.out);
      } else {
        Overridden(base, rec, repeatable, m.out);
      }
    }
  }

  lemma {:induction false} Pushed(base: seq<Item>, rec: seq<Item>, repeatable: set<string>, out: seq<Item>)
    requires rec != [] && OpensPlace(Opened(base, rec[..|rec| - 1], repeatable), rec[|rec| - 1], repeatable)
    requires IsClosedForm(out, Opened(base, rec[..|rec| - 1], repeatable), rec[..|rec| - 1], repeatable)
    ensures IsClosedForm(out + [rec[|rec| - 1]], Opened(base, rec, repeatable), rec, repeatable)
  {
    var front, it := rec[..|rec| - 1], rec[|rec| - 1];
    var before, o := Opened(base, front, repeatable), Opened(base, rec, repeatable);
    assert o == before + [it];
    forall i | 0 <= i < |before| ensures Standing(o, rec, repeatable, i) == Standing(before, front, repeatable, i) {
      assert o[i] == before[i];
      if o[i].name.Some? { LastIndexPushed(before, it, o[i].name.value); }
    }
    NewPlace(base, rec, repeatable);
  }

  lemma {:induction false} NewPlace(base: seq<Item>, rec: seq<Item>, repeatable: set<string>)
    requires rec != [] && OpensPlace(Opened(base, rec[..|rec| - 1], repeatable), rec[|rec| - 1], repeatable)
    ensures var o := Opened(base, rec, repeatable);
            o != [] && Standing(o, rec, repeatable, |o| - 1) == rec[|rec| - 1]
  {
    var front, it := rec[..|rec| - 1], rec[|rec| - 1];
    if it.name.Some? && it.name.value !in repeatable {
      OpenedNames(base, front, repeatable, it.name.value);
      SettledUnnamed(it, front);
    }
  }

  lemma {:induction false} Overridden(base: seq<Item>, rec: seq<Item>, repeatable: set<string>, out: seq<Item>)
    requires rec != [] && !OpensPlace(Opened(base, rec[..|rec| - 1], repeatable), rec[|rec| - 1], repeatable)
    requires IsClosedForm(out, Opened(base, rec[..|rec| - 1], repeatable), rec[..|rec| - 1], repeatable)
    ensures var it := rec[|rec| - 1];
            var i := LastIndex(Opened(base, rec, repeatable), it.name.value);
            && Opened(base, rec, repeatable) == Opened(base, rec[..|rec| - 1], repeatable) && 0 <= i < |out|
            && IsClosedForm(if Shown(out[i].value) == Shown(it.value) then out else out[i := it],
                            Opened(base, rec, repeatable), rec, repeatable)
  {
    var front, it := rec[..|rec| - 1], rec[|rec| - 1];
    var o := Opened(base, front, repeatable);
    assert o + [] == o;
    var i := LastIndex(o, it.name.value);
    forall j | 0 <= j < |o| && j != i ensures Standing(o, rec, repeatable, j) == Standing(o, front, repeatable, j) {}
  }

  // ---- which value is in force -------------------------------------------------------------

  /** The values given for `n`: the baseline's last one, then all the recovered ones, in order. */
  function Given(base: seq<Item>, rec: seq<Item>, n: string): seq<Option<string>> {
    if rec == [] then (if Names(base, n) then [LastValue(base, n).value] else [])
    else
      Given(base, rec[..|rec| - 1], n) + if rec[|rec| - 1].name == Some(n) then [rec[|rec| - 1].value] else []
  }

  /** The first of the values at the end that all show alike. */
  function RunStart(vs: seq<Option<string>>): (v: Option<string>)
    requires vs != []
    ensures Shown(v) == Shown(vs[|vs| - 1])
  {
    var n := |vs| - 1;
    if n == 0 || Shown(vs[n - 1]) != Shown(vs[n]) then vs[n] else RunStart(vs[..n])
  }

  lemma {:induction false} RunStartMore(vs: seq<Option<string>>, v: Option<string>)
    ensures RunStart(vs + [v]) == if vs != [] && Shown(RunStart(vs)) == Shown(v) then RunStart(vs) else v
  {
    assert (vs + [v])[..|vs|] == vs;
  }

  lemma {:induction false} StepExact(m: Merge, it: Item, repeatable: set<string>, n: string)
    requires n !in repeatable && it.name == Some(n)
    ensures LastValue(MergeStep(m, it, repeatable).out, n)
         == if Names(m.out, n) && Shown(LastValue(m.out, n).value) == Shown(it.value)
            then LastValue(m.out, n) else Some(it.value)
  {
    LastIndexPushed(m.out, it, n);
    if Names(m.out, n) { LastIndexReplaced(m.out, it, LastIndex(m.out, n), n); }
  }

  /** The value in force is the first of the given values that shows as the last one given does, without a break. */
  lemma {:induction false} ValueInForce(base: seq<Item>, rec: seq<Item>, repeatable: set<string>, n: string)
    requires n !in repeatable
    ensures Given(base, rec, n) == [] <==> !Names(base, n) && !Names(rec, n)
    ensures LastValue(Merged(base, rec, repeatable).out, n)
         == if Given(base, rec, n) == [] then None else Some(RunStart(Given(base, rec, n)))
  {
    if rec != [] {
      var front, it := rec[..|rec| - 1], rec[|rec| - 1];
      ValueInForce(base, front, repeatable, n);
      NamesLast(rec, n);
      StepValue(Merged(base, front, repeatable), it, repeatable, n);
      if it.name == Some(n) {
        StepExact(Merged(base, front, repeatable), it, repeatable, n);
        RunStartMore(Given(base, front, n), it.value);
      } else {
        assert Given(base, front, n) + [] == Given(base, front, n);
      }
    }
  }

  lemma {:induction false} GivenLast(base: seq<Item>, rec: seq<Item>, n: string)
    requires Names(rec, n)
    ensures Given(base, rec, n) != [] && Some(Given(base, rec, n)[|Given(base, rec, n)| - 1]) == LastValue(rec, n)
  {
    if rec[|rec| - 1].name != Some(n) {
      GivenLast(base, rec[..|rec| - 1], n);
      assert Given(base, rec[..|rec| - 1], n) + [] == Given(base, rec[..|rec| - 1], n);
    }
  }

  /**
   A recovered value is the one in force exactly if the values before it that show alike begin with the
   same one: the only thing lost is the difference between no value and an empty value.
   */
  lemma {:induction false} RecoveredWinsIff(base: seq<Item>, rec: seq<Item>, repeatable: set<string>, n: string)
    requires n !in repeatable && Names(rec, n)
    ensures Given(base, rec, n) != []
    ensures LastValue(Merged(base, rec, repeatable).out, n) == LastValue(rec, n)
            <==> Some(RunStart(Given(base, rec, n))) == LastValue(rec, n)
    ensures Shown(RunStart(Given(base, rec, n))) != "" ==>
              LastValue(Merged(base, rec, repeatable).out, n) == LastValue(rec, n)
  {
    ValueInForce(base, rec, repeatable, n);
    GivenLast(base, rec, n);
  }

  lemma {:induction false} OnceNotBefore(rec: seq<Item>, n: string)
    requires rec != [] && NamesOnce(rec) && rec[|rec| - 1].name == Some(n)
    ensures !Names(rec[..|rec| - 1], n)
  {
    assert forall j :: 0 <= j < |rec| - 1 ==> rec[..|rec| - 1][j] == rec[j] && rec[j].name != Some(n);
  }

  lemma {:induction false} GivenOnce(base: seq<Item>, rec: seq<Item>, n: string)
    requires NamesOnce(rec)
    ensures Given(base, rec, n)
         == (if Names(base, n) then [LastValue(base, n).value] else [])
            + if Names(rec, n) then [LastValue(rec, n).value] else []
  {
    if rec != [] {
      var front, it := rec[..|rec| - 1], rec[|rec| - 1];
      GivenOnce(base, front, n);
      NamesLast(rec, n);
      if it.name == Some(n) {
        OnceNotBefore(rec, n);
        assert Given(base, front, n) == (if Names(base, n) then [LastValue(base, n).value] else []) + [];
      }
    }
  }

  /**
   For a recovered string that names nothing twice: the recovered value wins unless one side has none and the
   other an empty one.
   */
  lemma {:induction false} RecoveredWinsOnceIff(base: seq<Item>, rec: seq<Item>, repeatable: set<string>, n: string)
    requires n !in repeatable && Names(rec, n) && NamesOnce(rec)
    ensures LastValue(Merged(base, rec, repeatable).out, n) == LastValue(rec, n)
            <==> || !Names(base, n)
                 || LastValue(base, n) == LastValue(rec, n)
                 || Shown(LastValue(base, n).value) != Shown(LastValue(rec, n).value)
  {
    ValueInForce(base, rec, repeatable, n);
    GivenOnce(base, rec, n);
    if Names(base, n) {
      RunStartMore([LastValue(base, n).value], LastValue(rec, n).value);
    } else {
      assert [] + [LastValue(rec, n).value] == [LastValue(rec, n).value];
    }
  }

  // ---- when the merged string reads back as what was merged -------------------------------------

  /** A baseline item written with `=`, in front of a nameless token, is overridden by one written without. */
  predicate OpensBeforeStray(base: seq<Item>, rec: seq<Item>, repeatable: set<string>) {
    exists i :: 0 <= i < |base| && OpensAt(base, rec, repeatable, i)
  }

  predicate OpensAt(base: seq<Item>, rec: seq<Item>, repeatable: set<string>, i: int) {
    && 0 <= i < |base| - 1 && IsStray(base[i + 1])
    && base[i].name.Some? && base[i].name.value !in repeatable && LastIndex(base, base[i].name.value) == i
    && IsOpen(Settled(base[i], rec))
  }

  /** The recovered item `k` has no place to go to: nameless, repeatable, or the first to name its flag. */
  predicate Opens(base: seq<Item>, rec: seq<Item>, repeatable: set<string>, k: nat)
    requires k < |rec|
  {
    var name := rec[k].name;
    name.None? || name.value in repeatable || (!Names(base, name.value) && !Names(rec[..k], name.value))
  }

  /**
   What was put last before the recovered item `k`: the nearest earlier one without a place, else the last of
   the baseline.
   */
  function InFront(base: seq<Item>, rec: seq<Item>, repeatable: set<string>, k: nat): Option<Item>
    requires k <= |rec|
    decreases k
  {
    if k == 0 then LastItem(base)
    else if Opens(base, rec, repeatable, k - 1) then Some(rec[k - 1])
    else InFront(base, rec, repeatable, k - 1)
  }

  /** Whatever the recovered list makes of it, the item is written without `=` in the end. */
  predicate StaysOpen(it: Item, rec: seq<Item>, repeatable: set<string>) {
    it.name.Some? && IsOpen(if it.name.value in repeatable then it else Settled(it, rec))
  }

  /** A nameless recovered token is put behind an item that is written without `=` in the end. */
  predicate StrayPushedBehindOpen(base: seq<Item>, rec: seq<Item>, repeatable: set<string>) {
    exists k :: 0 <= k < |rec| && IsStray(rec[k]) && InFront(base, rec, repeatable, k).Some?
      && StaysOpen(InFront(base, rec, repeatable, k).value, rec, repeatable)
  }

  lemma {:induction false} OpensIs(base: seq<Item>, rec: seq<Item>, repeatable: set<string>, k: nat)
    requires k < |rec|
    ensures Opens(base, rec, repeatable, k) <==> OpensPlace(Opened(base, rec[..k], repeatable), rec[k], repeatable)
    ensures Opened(base, rec[..k + 1], repeatable)
         == Opened(base, rec[..k], repeatable) + if Opens(base, rec, repeatable, k) then [rec[k]] else []
  {
    FrontOfPrefix(rec, k);
    if rec[k].name.Some? && rec[k].name.value !in repeatable {
      OpenedNames(base, rec[..k], repeatable, rec[k].name.value);
    }
  }

  lemma {:induction false} InFrontIs(base: seq<Item>, rec: seq<Item>, repeatable: set<string>, k: nat)
    requires k <= |rec|
    ensures InFront(base, rec, repeatable, k) == LastItem(Opened(base, rec[..k], repeatable))
    decreases k
  {
    if k == 0 {
      assert rec[..0] == [];
    } else {
      InFrontIs(base, rec, repeatable, k - 1);
      OpensIs(base, rec, repeatable, k - 1);
      LastItemMore(Opened(base, rec[..k - 1], repeatable), rec[k - 1]);
    }
  }

  function LastItem(items: seq<Item>): Option<Item> { if items == [] then None else Some(items[|items| - 1]) }

  lemma {:induction false} LastItemMore(items: seq<Item>, it: Item)
    ensures LastItem(items + [it]) == Some(it) && LastItem(items + []) == LastItem(items)
  {
    JoinNothing(items);
  }

  lemma {:induction false} OpenedGrows(base: seq<Item>, rec: seq<Item>, repeatable: set<string>, k: nat)
    requires k <= |rec|
    ensures Opened(base, rec[..k], repeatable) <= Opened(base, rec, repeatable)
    decreases |rec| - k
  {
    if k < |rec| {
      OpensIs(base, rec, repeatable, k);
      OpenedGrows(base, rec, repeatable, k + 1);
    } else {
      assert rec[..k] == rec;
    }
  }

  /** Behind the baseline, each name that is merged has one place. */
  lemma {:induction false} LateIsLast(base: seq<Item>, rec: seq<Item>, repeatable: set<string>, i: nat)
    requires |base| <= i + 1 && i < |Opened(base, rec, repeatable)|
    ensures var o := Opened(base, rec, repeatable);
            o[i].name.Some? && o[i].name.value !in repeatable ==> LastIndex(o, o[i].name.value) == i
  {
    if rec != [] {
      var before, it := Opened(base, rec[..|rec| - 1], repeatable), rec[|rec| - 1];
      JoinNothing(before);
      if i < |before| { LateIsLast(base, rec[..|rec| - 1], repeatable, i); }
      if OpensPlace(before, it, repeatable) {
        assert Opened(base, rec, repeatable) == before + [it];
        LatePushed(before, it, repeatable, i);
      }
    }
  }

  lemma {:induction false} LatePushed(before: seq<Item>, it: Item, repeatable: set<string>, i: nat)
    requires i <= |before| && OpensPlace(before, it, repeatable)
    requires i < |before| && before[i].name.Some? && before[i].name.value !in repeatable ==>
               LastIndex(before, before[i].name.value) == i
    ensures var o := before + [it];
            o[i].name.Some? && o[i].name.value !in repeatable ==> LastIndex(o, o[i].name.value) == i
  {
    var o := before + [it];
    if o[i].name.Some? { LastIndexPushed(before, it, o[i].name.value); }
  }

  lemma {:induction false} LateStaysOpen(base: seq<Item>, rec: seq<Item>, repeatable: set<string>, i: nat)
    requires |base| <= i + 1 && i < |Opened(base, rec, repeatable)|
    ensures var o := Opened(base, rec, repeatable);
            IsOpen(Standing(o, rec, repeatable, i)) <==> StaysOpen(o[i], rec, repeatable)
  {
    LateIsLast(base, rec, repeatable, i);
  }

  /** Behind the baseline, every place was opened by some recovered item. */
  lemma {:induction false} OpenedBy(base: seq<Item>, rec: seq<Item>, repeatable: set<string>, p: nat) returns (k: nat)
    requires |base| <= p < |Opened(base, rec, repeatable)|
    ensures k < |rec| && Opens(base, rec, repeatable, k) && |Opened(base, rec[..k], repeatable)| == p
    ensures Opened(base, rec, repeatable)[p] == rec[k]
  {
    var n := |rec| - 1;
    var before := Opened(base, rec[..n], repeatable);
    assert rec[..n + 1] == rec;
    OpensIs(base, rec, repeatable, n);
    if p < |before| {
      k := OpenedBy(base, rec[..n], repeatable, p);
      assert rec[..n][..k] == rec[..k];
    } else {
      k := n;
    }
  }

  /** Place `i` ends up open, and a nameless recovered token is put behind it. */
  predicate PushedAt(base: seq<Item>, rec: seq<Item>, repeatable: set<string>, i: int) {
    var o := Opened(base, rec, repeatable);
    |base| <= i + 1 < |o| && 0 <= i && IsStray(o[i + 1]) && IsOpen(Standing(o, rec, repeatable, i))
  }

  lemma {:induction false} PushedFrom(base: seq<Item>, rec: seq<Item>, repeatable: set<string>, i: nat) returns (k: nat)
    requires PushedAt(base, rec, repeatable, i)
    ensures k < |rec| && IsStray(rec[k]) && InFront(base, rec, repeatable, k).Some?
            && StaysOpen(InFront(base, rec, repeatable, k).value, rec, repeatable)
  {
    k := OpenedBy(base, rec, repeatable, i + 1);
    InFrontIs(base, rec, repeatable, k);
    OpenedGrows(base, rec, repeatable, k);
    LateStaysOpen(base, rec, repeatable, i);
  }

  lemma {:induction false} PushedTo(base: seq<Item>, rec: seq<Item>, repeatable: set<string>, k: nat) returns (i: nat)
    requires k < |rec| && IsStray(rec[k]) && InFront(base, rec, repeatable, k).Some?
    requires StaysOpen(InFront(base, rec, repeatable, k).value, rec, repeatable)
    ensures PushedAt(base, rec, repeatable, i)
  {
    InFrontIs(base, rec, repeatable, k);
    OpensIs(base, rec, repeatable, k);
    OpenedPrefix(base, rec[..k], repeatable);
    OpenedGrows(base, rec, repeatable, k);
    OpenedGrows(base, rec, repeatable, k + 1);
    i := |Opened(base, rec[..k], repeatable)| - 1;
    assert Opened(base, rec, repeatable)[i + 1] == Opened(base, rec[..k + 1], repeatable)[i + 1] == rec[k];
    LateStaysOpen(base, rec, repeatable, i);
  }

  lemma {:induction false} PushedIff(base: seq<Item>, rec: seq<Item>, repeatable: set<string>)
    ensures StrayPushedBehindOpen(base, rec, repeatable) <==> exists i :: PushedAt(base, rec, repeatable, i)
  {
    if i :| PushedAt(base, rec, repeatable, i) { var k := PushedFrom(base, rec, repeatable, i); }
    if StrayPushedBehindOpen(base, rec, repeatable) {
      var k :| 0 <= k < |rec| && IsStray(rec[k]) && InFront(base, rec, repeatable, k).Some?
               && StaysOpen(InFront(base, rec, repeatable, k).value, rec, repeatable);
      var i := PushedTo(base, rec, repeatable, k);
    }
  }

  lemma {:induction false} OpenedPrefix(base: seq<Item>, rec: seq<Item>, repeatable: set<string>)
    ensures base <= Opened(base, rec, repeatable)
  {
    if rec != [] { OpenedPrefix(base, rec[..|rec| - 1], repeatable); }
  }

  lemma {:induction false} OpenedLastIndex(base: seq<Item>, rec: seq<Item>, repeatable: set<string>, n: string)
    requires n !in repeatable && Names(base, n)
    ensures LastIndex(Opened(base, rec, repeatable), n) == LastIndex(base, n)
  {
    if rec != [] {
      var before, it := Opened(base, rec[..|rec| - 1], repeatable), rec[|rec| - 1];
      OpenedLastIndex(base, rec[..|rec| - 1], repeatable, n);
      LastIndexPushed(before, it, n);
      assert before + [] == before;
    }
  }

  lemma {:induction false} StandingInBase(base: seq<Item>, rec: seq<Item>, repeatable: set<string>, i: nat)
    requires i < |base|
    ensures |base| <= |Opened(base, rec, repeatable)| && Opened(base, rec, repeatable)[i] == base[i]
    ensures Standing(Opened(base, rec, repeatable), rec, repeatable, i)
         == if IsMergedPlace(base, i, repeatable) then Settled(base[i], rec) else base[i]
  {
    OpenedPrefix(base, rec, repeatable);
    if base[i].name.Some? && base[i].name.value !in repeatable {
      OpenedLastIndex(base, rec, repeatable, base[i].name.value);
    }
  }

  /** Places `i` and `i + 1` of the merge: an open item in front of a nameless token. */
  predicate AbsorbsAt(out: seq<Item>, i: int) { 0 <= i < |out| - 1 && IsOpen(out[i]) && IsStray(out[i + 1]) }

  lemma {:induction false} AbsorbsAtIff(base: seq<Item>, rec: seq<Item>, repeatable: set<string>, i: int)
    requires NoAbsorb(base)
    ensures AbsorbsAt(Merged(base, rec, repeatable).out, i) <==>
            OpensAt(base, rec, repeatable, i) || PushedAt(base, rec, repeatable, i)
  {
    MergedIs(base, rec, repeatable);
    OpenedPrefix(base, rec, repeatable);
    if 0 <= i < |base| - 1 {
      StandingInBase(base, rec, repeatable, i);
      StandingInBase(base, rec, repeatable, i + 1);
    }
  }

  lemma {:induction false} NoAbsorbIff(base: seq<Item>, rec: seq<Item>, repeatable: set<string>)
    requires NoAbsorb(base)
    ensures NoAbsorb(Merged(base, rec, repeatable).out)
            <==> !OpensBeforeStray(base, rec, repeatable) && !StrayPushedBehindOpen(base, rec, repeatable)
  {
    var out := Merged(base, rec, repeatable).out;
    AbsorbsSomewhere(out);
    PushedIff(base, rec, repeatable);
    forall i: int
      ensures AbsorbsAt(out, i) <==> OpensAt(base, rec, repeatable, i) || PushedAt(base, rec, repeatable, i)
    {
      AbsorbsAtIff(base, rec, repeatable, i);
    }
  }

  lemma {:induction false} AbsorbsSomewhere(out: seq<Item>)
    ensures NoAbsorb(out) <==> forall i :: !AbsorbsAt(out, i)
  {
    if !NoAbsorb(out) {
      var i :| 0 <= i < |out| - 1 && IsOpen(out[i]) && IsStray(out[i + 1]);
      assert AbsorbsAt(out, i);
    } else {
      forall i ensures !AbsorbsAt(out, i) {}
    }
  }

  /**
   The launcher reads back exactly the items that were merged, if and only if, of the two strings, no
   baseline item before a nameless token is overridden by one written without `=`, and no nameless
   recovered token is pushed behind a place that ends up holding one.
   */
  lemma {:induction false} ReparsesIff(baseFlags: string, storedFlags: string)
    ensures var base, rec := ParseFlags(baseFlags), ParseFlags(storedFlags);
            ParseFlags(MergeFlags(baseFlags, storedFlags)) == MergeFlagItems(baseFlags, storedFlags)
            <==> !OpensBeforeStray(base, rec, REPEATABLE_FLAGS) && !StrayPushedBehindOpen(base, rec, REPEATABLE_FLAGS)
  {
    ParseRoundTrip(baseFlags);
    MergedReparsesIff(baseFlags, storedFlags);
    NoAbsorbIff(ParseFlags(baseFlags), ParseFlags(storedFlags), REPEATABLE_FLAGS);
  }

  // ---- two strings on which the merge does not mean what it should ------------------------------

  lemma {:induction false} ParseDashA()
    ensures ParseFlags("-a") == [Item(Some("-a"), None, false)]
  {
    TokensOfWord("-a");
    NoEquals("-a");
    assert ["-a"][1..] == [] && ParseTokens([]) == [] && Values([]) == 0;
  }

  lemma {:induction false} ParseX()
    ensures ParseFlags("x") == [Stray("x")]
  {
    TokensOfWord("x");
    assert ["x"][1..] == [] && ParseTokens([]) == [];
  }

  lemma {:induction false} ParseDashAEmpty()
    ensures ParseFlags("-a=") == [Item(Some("-a"), Some(""), true)]
  {
    TokensOfWord("-a=");
    IndexOfAssigned("-a", "");
    assert "-a" + "=" + "" == "-a=";
    assert "-a="[..2] == "-a" && "-a="[3..] == "";
    assert ["-a="][1..] == [] && ParseTokens([]) == [];
  }

  /** A flag that the baseline names twice is named twice by the result. */
  lemma {:induction false} NamedTwice()
    ensures |Select(MergeFlagItems("-a -a", ""), Some("-a"))| == 2
  {
    var a := Item(Some("-a"), None, false);
    TwoTokens("-a", "-a", "-a -a");
    ParsedTwice(a);
    assert MergeFlagItems("-a -a", "") == [a, a];
    SelectTwo(a);
  }

  lemma {:induction false} TwoTokens(v: string, w: string, s: string)
    requires Word(v) && Word(w) && s == v + " " + w
    ensures Tokens(s) == [v, w]
  {
    TokensOfWord(v);
    TokensOfWord(w);
    TokensOfJoined(v, w);
  }

  /** Two items that print one word each are read back from these words. */
  lemma {:induction false} ParsedPair(x: Item, u: string, y: Item, w: string)
    requires Good(x) && Good(y) && !(IsOpen(x) && IsStray(y))
    requires ItemTokens(x) == [u] && ItemTokens(y) == [w]
    ensures ParseTokens([u, w]) == [x, y]
  {
    assert AllGood([x, y]) && NoAbsorb([x, y]);
    ReparseTokens([x, y]);
    TokensOfPair(x, u, y, w);
  }

  lemma {:induction false} TokensOfPair(x: Item, u: string, y: Item, w: string)
    requires ItemTokens(x) == [u] && ItemTokens(y) == [w]
    ensures AllTokens([x, y]) == [u, w]
  {
    assert [x, y][1..] == [y] && [y][1..] == [];
    assert AllTokens([y]) == [w] + AllTokens([]) == [w];
    assert AllTokens([x, y]) == [u] + [w];
  }

  lemma {:induction false} GoodDashA(a: Item)
    requires a == Item(Some("-a"), None, false)
    ensures Good(a) && IsOpen(a) && ItemTokens(a) == ["-a"]
  {
  }

  lemma {:induction false} ParsedTwice(a: Item)
    requires a == Item(Some("-a"), None, false)
    ensures ParseTokens(["-a", "-a"]) == [a, a]
  {
    GoodDashA(a);
    ParsedPair(a, "-a", a, "-a");
  }

  lemma {:induction false} SelectTwo(a: Item)
    ensures |Select([a, a], a.name)| == 2
  {
    assert [a, a][..1] == [a] && [a][..0] == [];
    assert Select([], a.name) == [];
    assert Select([a], a.name) == [] + [a];
    assert Select([a, a], a.name) == Select([a], a.name) + [a];
  }

  ghost predicate NamesEachOnce(items: seq<Item>, repeatable: set<string>) {
    forall n: string :: n !in repeatable ==> |Select(items, Some(n))| <= 1
  }

  /** The result names every single-valued flag at most once exactly if the baseline does. */
  lemma {:induction false} NamesEachOnceIff(base: seq<Item>, rec: seq<Item>, repeatable: set<string>)
    ensures NamesEachOnce(Merged(base, rec, repeatable).out, repeatable) <==> NamesEachOnce(base, repeatable)
  {
    forall n: string | n !in repeatable
      ensures |Select(Merged(base, rec, repeatable).out, Some(n))| <= 1 <==> |Select(base, Some(n))| <= 1
    {
      MergedCount(base, rec, repeatable, n);
      SelectNamed(base, n);
    }
  }

  lemma {:induction false} MergedWithOne(base: seq<Item>, it: Item, repeatable: set<string>)
    ensures Merged(base, [it], repeatable) == MergeStep(Merge(base, [], [], []), it, repeatable)
  {
    assert [it][..0] == [];
    assert Merged(base, [], repeatable) == Merge(base, [], [], []);
  }

  /** A nameless recovered token pushed behind a valueless flag is read back as that flag's value. */
  lemma {:induction false} StraySwallowed()
    ensures MergeFlagItems("-a", "x") == [Item(Some("-a"), None, false), Stray("x")]
    ensures ParseFlags(MergeFlags("-a", "x")) == [Item(Some("-a"), Some("x"), false)]
  {
    ParseDashA();
    ParseX();
    var a, x := Item(Some("-a"), None, false), Stray("x");
    MergedWithOne([a], x, REPEATABLE_FLAGS);
    assert MergeFlagItems("-a", "x") == [a] + [x] == [a, x];
    MergeFlagItemsGood("-a", "x");
    TokensOfRendered([a, x]);
    RenderedTokens(a, x);
    ParsedAsValue();
  }

  lemma {:induction false} RenderedTokens(a: Item, x: Item)
    requires a == Item(Some("-a"), None, false) && x == Stray("x")
    requires Tokens(Join(RenderAll([a, x]))) == AllTokens([a, x])
    ensures Tokens(RenderFlags([a, x])) == ["-a", "x"]
  {
    TokensOfTrim(Join(RenderAll([a, x])));
    TokensOfPair(a, "-a", x, "x");
  }

  lemma {:induction false} ParsedAsValue()
    ensures ParseTokens(["-a", "x"]) == [Item(Some("-a"), Some("x"), false)]
  {
    NoEquals("-a");
    var ts := ["-a", "x"];
    assert ts[1..] == ["x"] && ts[1..][1..] == [] && ts[1..2] == ["x"] && ts[2..] == [];
    assert Values([]) == 0 && Values(ts[1..]) == 1;
    assert Join(["x"]) == "x" && ParseTokens([]) == [];
    assert FlagWith("-a", ["x"]) == Item(Some("-a"), Some("x"), false);
  }

  /** A recovered empty value leaves a valueless flag as it was, also in the string the launcher reads. */
  lemma {:induction false} EmptyLosesToAbsentText()
    ensures LastValue(ParseFlags("-a="), "-a") == Some(Some(""))
    ensures LastValue(ParseFlags(MergeFlags("-a", "-a=")), "-a") == Some(None)
  {
    ParseDashA();
    ParseDashAEmpty();
    var a, b := Item(Some("-a"), None, false), Item(Some("-a"), Some(""), true);
    MergedWithOne([a], b, REPEATABLE_FLAGS);
    assert LastIndex([a], "-a") == 0 && LastIndex([b], "-a") == 0;
    assert MergeFlagItems("-a", "-a=") == [a] == ParseFlags("-a");
    ParseRoundTrip("-a");
  }
}
