/**
 Key-by-key merge of a recovered configuration onto the baseline (e2e_workflow/e2e_workflow.js,
 mergeConfig, mergeFlags, mergeEnv and the replay-skip test): what the merged string means to a
 launcher that reads it with last-wins.
 */
module ConfigMerge {
  import opened Wrappers
  import opened Flags

  datatype Override = Override(flag: string, baseline: Option<string>, recalled: Option<string>)

  datatype Merge = Merge(out: seq<Item>, overrides: seq<Override>, added: seq<string>, same: seq<string>)

  const REPEATABLE_FLAGS: set<string> := {"--lora-path", "--lora-paths"}

  /** `String(v == null ? '' : v)` */
  function Shown(v: Option<string>): string { v.GetOr("") }

  /** Index of the last item named `n`, or -1. */
  function LastIndex(items: seq<Item>, n: string): (i: int)
    ensures -1 <= i < |items|
    ensures i >= 0 ==> items[i].name == Some(n)
    ensures forall j :: i < j < |items| ==> items[j].name != Some(n)
  {
    if items == [] then -1
    else if items[|items| - 1].name == Some(n) then |items| - 1
    else LastIndex(items[..|items| - 1], n)
  }

  // ---- the merge -----------------------------------------------------------------

  function MergeStep(m: Merge, it: Item, repeatable: set<string>): Merge {
    if it.name.None? then m.(out := m.out + [it])
    else
      var n := it.name.value;
      var i := LastIndex(m.out, n);
      if n in repeatable || i < 0 then m.(out := m.out + [it], added := m.added + [n])
      else if Shown(m.out[i].value) == Shown(it.value) then m.(same := m.same + [n])
      else m.(out := m.out[i := it],
              overrides := m.overrides + [Override(n, m.out[i].value, it.value)])
  }

  function Merged(base: seq<Item>, rec: seq<Item>, repeatable: set<string>): Merge {
    if rec == [] then Merge(base, [], [], [])
    else MergeStep(Merged(base, rec[..|rec| - 1], repeatable), rec[|rec| - 1], repeatable)
  }

  /** The index `at` names, for every key that is merged rather than repeated, its last item in `out`. */
  ghost predicate Locates(at: map<string, nat>, out: seq<Item>, repeatable: set<string>) {
    && (forall n :: n in at <==> n !in repeatable && LastIndex(out, n) >= 0)
    && (forall n :: n in at ==> at[n] == LastIndex(out, n))
  }

  method MergeConfig(base: seq<Item>, rec: seq<Item>, repeatable: set<string>) returns (m: Merge)
    ensures m == Merged(base, rec, repeatable)
  {
    var at: map<string, nat> := Locate(base, repeatable);
    m := Merge(base, [], [], []);
    for k := 0 to |rec|
      invariant m == Merged(base, rec[..k], repeatable)
      invariant Locates(at, m.out, repeatable)
    {
      var it := rec[k];
      assert rec[..k + 1][..k] == rec[..k];
      if it.name.None? || it.name.value in repeatable || it.name.value !in at {
        LocatePushed(at, m.out, it, repeatable);
        if it.name.Some? {
          m := m.(added := m.added + [it.name.value]);
          if it.name.value !in repeatable { at := at[it.name.value := |m.out|]; }
        }
        m := m.(out := m.out + [it]);
        continue;
      }
      var n := it.name.value;
      var prev := m.out[at[n]];
      if Shown(prev.value) == Shown(it.value) {
        m := m.(same := m.same + [n]);
        continue;
      }
      LocateReplaced(at, m.out, it, repeatable);
      m := m.(overrides := m.overrides + [Override(n, prev.value, it.value)], out := m.out[at[n] := it]);
    }
    assert rec[..|rec|] == rec;
  }

  method Locate(out: seq<Item>, repeatable: set<string>) returns (at: map<string, nat>)
    ensures Locates(at, out, repeatable)
  {
    at := map[];
    for i := 0 to |out|
      invariant Locates(at, out[..i], repeatable)
    {
      assert out[..i + 1] == out[..i] + [out[i]];
      LocatePushed(at, out[..i], out[i], repeatable);
      if out[i].name.Some? && out[i].name.value !in repeatable { at := at[out[i].name.value := i]; }
    }
    assert out[..|out|] == out;
  }

  lemma {:induction false} LastIndexPushed(out: seq<Item>, it: Item, n: string)
    ensures LastIndex(out + [it], n) == if it.name == Some(n) then |out| else LastIndex(out, n)
  {
    assert (out + [it])[..|out|] == out;
  }

  lemma {:induction false} LastIndexUnique(items: seq<Item>, n: string, i: int)
    requires -1 <= i < |items| && (i >= 0 ==> items[i].name == Some(n))
    requires forall j :: i < j < |items| ==> items[j].name != Some(n)
    ensures LastIndex(items, n) == i
  {
  }

  /** Replacing the last item of a name in place moves no name. */
  lemma {:induction false} LastIndexReplaced(out: seq<Item>, it: Item, i: nat, n: string)
    requires i < |out| && it.name == out[i].name
    ensures LastIndex(out[i := it], n) == LastIndex(out, n)
  {
    LastIndexUnique(out[i := it], n, LastIndex(out, n));
  }

  lemma {:induction false} LocatePushed(at: map<string, nat>, out: seq<Item>, it: Item, repeatable: set<string>)
    requires Locates(at, out, repeatable)
    ensures Locates(if it.name.Some? && it.name.value !in repeatable then at[it.name.value := |out|] else at,
                    out + [it], repeatable)
  {
    forall n { LastIndexPushed(out, it, n); }
  }

  lemma {:induction false} LocateReplaced(at: map<string, nat>, out: seq<Item>, it: Item, repeatable: set<string>)
    requires Locates(at, out, repeatable) && it.name.Some? && it.name.value in at
    ensures Locates(at, out[at[it.name.value] := it], repeatable)
  {
    forall n { LastIndexReplaced(out, it, at[it.name.value], n); }
  }

  // ---- what a launcher reads: the last value of each name ---------------------------

  /** None when `n` is not named at all; otherwise its last value, which may itself be absent. */
  function LastValue(items: seq<Item>, n: string): Option<Option<string>> {
    var i := LastIndex(items, n);
    if i < 0 then None else Some(items[i].value)
  }

  predicate Names(items: seq<Item>, n: string) { LastIndex(items, n) >= 0 }

  /** Equal up to the one confusion the merge makes: no value and an empty value look the same. */
  predicate LooksEqual(a: Option<Option<string>>, b: Option<Option<string>>) {
    (a.None? && b.None?) || (a.Some? && b.Some? && Shown(a.value) == Shown(b.value))
  }

  lemma {:induction false} StepValue(m: Merge, it: Item, repeatable: set<string>, n: string)
    requires n !in repeatable
    ensures it.name != Some(n) ==> LastValue(MergeStep(m, it, repeatable).out, n) == LastValue(m.out, n)
    ensures it.name == Some(n) ==> LooksEqual(LastValue(MergeStep(m, it, repeatable).out, n), Some(it.value))
  {
    LastIndexPushed(m.out, it, n);
    if it.name.Some? && LastIndex(m.out, it.name.value) >= 0 {
      LastIndexReplaced(m.out, it, LastIndex(m.out, it.name.value), n);
    }
  }

  /**
   For every key that is not repeatable: if the recovered configuration names it, its last recovered
   value is the one in force, and otherwise the baseline's last value is, unchanged.
   */
  lemma {:induction false} MergedValue(base: seq<Item>, rec: seq<Item>, repeatable: set<string>, n: string)
    requires n !in repeatable
    ensures Names(rec, n) ==> LooksEqual(LastValue(Merged(base, rec, repeatable).out, n), LastValue(rec, n))
    ensures !Names(rec, n) ==> LastValue(Merged(base, rec, repeatable).out, n) == LastValue(base, n)
  {
    if rec != [] {
      MergedValue(base, rec[..|rec| - 1], repeatable, n);
      StepValue(Merged(base, rec[..|rec| - 1], repeatable), rec[|rec| - 1], repeatable, n);
    }
  }

  // ---- what keeps its place -----------------------------------------------------------

  ghost predicate MayChange(base: seq<Item>, rec: seq<Item>, repeatable: set<string>, i: nat)
    requires i < |base|
  {
    && base[i].name.Some?
    && base[i].name.value !in repeatable
    && LastIndex(base, base[i].name.value) == i
    && Names(rec, base[i].name.value)
  }

  lemma {:induction false} MergedPlaces(base: seq<Item>, rec: seq<Item>, repeatable: set<string>)
    ensures var out := Merged(base, rec, repeatable).out;
            && |base| <= |out|
            && (forall i :: 0 <= i < |base| ==> out[i].name == base[i].name)
            && (forall i :: 0 <= i < |base| && !MayChange(base, rec, repeatable, i) ==> out[i] == base[i])
            && (forall n :: n !in repeatable && Names(base, n) ==> LastIndex(out, n) == LastIndex(base, n))
  {
    MergedNames(base, rec, repeatable);
    forall i | 0 <= i < |base| && !MayChange(base, rec, repeatable, i)
      ensures Merged(base, rec, repeatable).out[i] == base[i]
    {
      PlaceKept(base, rec, repeatable, i);
    }
    forall n | n !in repeatable && Names(base, n)
      ensures LastIndex(Merged(base, rec, repeatable).out, n) == LastIndex(base, n)
    {
      IndexKept(base, rec, repeatable, n);
    }
  }

  lemma {:induction false} MergedNames(base: seq<Item>, rec: seq<Item>, repeatable: set<string>)
    ensures |base| <= |Merged(base, rec, repeatable).out|
    ensures forall i :: 0 <= i < |base| ==> Merged(base, rec, repeatable).out[i].name == base[i].name
  {
    if rec != [] { MergedNames(base, rec[..|rec| - 1], repeatable); }
  }

  lemma {:induction false} IndexKept(base: seq<Item>, rec: seq<Item>, repeatable: set<string>, n: string)
    requires n !in repeatable && Names(base, n)
    ensures LastIndex(Merged(base, rec, repeatable).out, n) == LastIndex(base, n)
  {
    if rec != [] {
      IndexKept(base, rec[..|rec| - 1], repeatable, n);
      StepIndexKept(Merged(base, rec[..|rec| - 1], repeatable), rec[|rec| - 1], repeatable, n);
    }
  }

  lemma {:induction false} StepIndexKept(m: Merge, it: Item, repeatable: set<string>, n: string)
    requires n !in repeatable && Names(m.out, n)
    ensures LastIndex(MergeStep(m, it, repeatable).out, n) == LastIndex(m.out, n)
  {
    LastIndexPushed(m.out, it, n);
    if it.name.Some? && LastIndex(m.out, it.name.value) >= 0 {
      LastIndexReplaced(m.out, it, LastIndex(m.out, it.name.value), n);
    }
  }

  lemma {:induction false} PlaceKept(base: seq<Item>, rec: seq<Item>, repeatable: set<string>, i: nat)
    requires i < |base| && !MayChange(base, rec, repeatable, i)
    ensures i < |Merged(base, rec, repeatable).out| && Merged(base, rec, repeatable).out[i] == base[i]
  {
    if rec != [] {
      var front, it := rec[..|rec| - 1], rec[|rec| - 1];
      NamedMore(rec);
      PlaceKept(base, front, repeatable, i);
      var m := Merged(base, front, repeatable);
      if it.name.Some? && it.name == base[i].name && it.name.value !in repeatable {
        IndexKept(base, front, repeatable, it.name.value);
      }
    }
  }

  lemma {:induction false} NamedMore(rec: seq<Item>)
    requires rec != []
    ensures rec[|rec| - 1].name.Some? ==> Names(rec, rec[|rec| - 1].name.value)
    ensures forall n :: Names(rec[..|rec| - 1], n) ==> Names(rec, n)
  {
  }

  // ---- repeatable flags and nameless tokens are concatenated ----------------------------

  function Select(items: seq<Item>, name: Option<string>): seq<Item> {
    if items == [] then []
    else
      var it := items[|items| - 1];
      Select(items[..|items| - 1], name) + (if it.name == name then [it] else [])
  }

  lemma {:induction false} SelectReplaced(items: seq<Item>, i: nat, it: Item, name: Option<string>)
    requires i < |items| && items[i].name == it.name && it.name != name
    ensures Select(items[i := it], name) == Select(items, name)
  {
    var n := |items| - 1;
    if i < n {
      SelectReplaced(items[..n], i, it, name);
      assert items[i := it][..n] == items[..n][i := it];
    } else {
      assert items[i := it][..n] == items[..n];
    }
  }

  lemma {:induction false} StepSelects(m: Merge, it: Item, repeatable: set<string>, name: Option<string>)
    requires name.Some? ==> name.value in repeatable
    ensures Select(MergeStep(m, it, repeatable).out, name)
            == Select(m.out, name) + (if it.name == name then [it] else [])
  {
    assert (m.out + [it])[..|m.out|] == m.out;
    if it.name.Some? && it.name != name && LastIndex(m.out, it.name.value) >= 0 {
      SelectReplaced(m.out, LastIndex(m.out, it.name.value), it, name);
    }
  }

  lemma {:induction false} MergedConcatenates(base: seq<Item>, rec: seq<Item>, repeatable: set<string>,
                                              name: Option<string>)
    requires name.Some? ==> name.value in repeatable
    ensures Select(Merged(base, rec, repeatable).out, name) == Select(base, name) + Select(rec, name)
  {
    if rec != [] {
      var front, it := rec[..|rec| - 1], rec[|rec| - 1];
      MergedConcatenates(base, front, repeatable, name);
      StepSelects(Merged(base, front, repeatable), it, repeatable, name);
    } else {
      assert Select(base, name) + [] == Select(base, name);
    }
  }

  // ---- how often a key is named -----------------------------------------------------------

  /**
   The output names a key as often as the baseline did, or once if only the recovered
   configuration names it. So it names every key once exactly when the baseline does.
   */
  lemma {:induction false} MergedCount(base: seq<Item>, rec: seq<Item>, repeatable: set<string>, n: string)
    requires n !in repeatable
    ensures |Select(Merged(base, rec, repeatable).out, Some(n))|
            == if Names(base, n) then |Select(base, Some(n))| else if Names(rec, n) then 1 else 0
  {
    SelectNamed(base, n);
    if rec != [] {
      var front, it := rec[..|rec| - 1], rec[|rec| - 1];
      var m := Merged(base, front, repeatable);
      MergedCount(base, front, repeatable, n);
      SelectNamed(m.out, n);
      StepCount(m, it, repeatable, n);
      MergedValue(base, front, repeatable, n);
    }
  }

  lemma {:induction false} SelectNamed(items: seq<Item>, n: string)
    ensures Names(items, n) <==> Select(items, Some(n)) != []
  {
    if items != [] { SelectNamed(items[..|items| - 1], n); }
  }

  lemma {:induction false} SelectReplacedCount(items: seq<Item>, i: nat, it: Item, name: Option<string>)
    requires i < |items| && items[i].name == it.name
    ensures |Select(items[i := it], name)| == |Select(items, name)|
  {
    var n := |items| - 1;
    if i < n {
      SelectReplacedCount(items[..n], i, it, name);
      assert items[i := it][..n] == items[..n][i := it];
    } else {
      assert items[i := it][..n] == items[..n];
    }
  }

  lemma {:induction false} StepCount(m: Merge, it: Item, repeatable: set<string>, n: string)
    requires n !in repeatable
    ensures |Select(MergeStep(m, it, repeatable).out, Some(n))|
            == |Select(m.out, Some(n))| + (if it.name == Some(n) && !Names(m.out, n) then 1 else 0)
  {
    assert (m.out + [it])[..|m.out|] == m.out;
    if it.name.Some? && LastIndex(m.out, it.name.value) >= 0 {
      SelectReplacedCount(m.out, LastIndex(m.out, it.name.value), it, Some(n));
    }
  }

  // ---- was there anything to merge? ---------------------------------------------------------

  predicate Nameless(items: seq<Item>) { exists it :: it in items && it.name.None? }

  predicate NamesOnce(items: seq<Item>) {
    forall i, j :: 0 <= i < j < |items| && items[i].name.Some? ==> items[i].name != items[j].name
  }

  lemma {:induction false} NothingReported(base: seq<Item>, rec: seq<Item>, repeatable: set<string>)
    requires !Nameless(rec)
    requires Merged(base, rec, repeatable).overrides == [] && Merged(base, rec, repeatable).added == []
    ensures Merged(base, rec, repeatable).out == base
  {
    if rec != [] {
      assert rec[|rec| - 1] in rec;
      forall it | it in rec[..|rec| - 1] ensures it in rec {}
      NothingReported(base, rec[..|rec| - 1], repeatable);
    }
  }

  /** Anything reported as added lengthens the output; anything overridden changes the place it names. */
  lemma {:induction false} ReportedShows(base: seq<Item>, rec: seq<Item>, repeatable: set<string>)
    requires NamesOnce(rec)
    ensures var m := Merged(base, rec, repeatable);
            && |m.out| >= |base| + |m.added|
            && (m.added == [] && m.overrides != [] ==> m.out != base)
  {
    if rec != [] {
      var front, it := rec[..|rec| - 1], rec[|rec| - 1];
      var m := Merged(base, front, repeatable);
      ReportedShows(base, front, repeatable);
      MergedPlaces(base, front, repeatable);
      var m' := Merged(base, rec, repeatable);
      if m'.added == [] && m'.overrides != [] {
        if |m'.out| == |base| && it.name.Some? && m.out == base {
          assert m.overrides == [];
        } else if |m'.out| == |base| && it.name.Some? {
          OverrideStays(base, rec, repeatable);
        }
      }
    }
  }

  /** With each key named once, a place changed by an earlier override is not changed back. */
  lemma {:induction false} OverrideStays(base: seq<Item>, rec: seq<Item>, repeatable: set<string>)
    requires rec != [] && NamesOnce(rec) && rec[|rec| - 1].name.Some?
    requires |Merged(base, rec, repeatable).out| == |base|
    requires Merged(base, rec[..|rec| - 1], repeatable).out != base
    ensures Merged(base, rec, repeatable).out != base
  {
    var front, it := rec[..|rec| - 1], rec[|rec| - 1];
    var n := it.name.value;
    var m, m' := Merged(base, front, repeatable), Merged(base, rec, repeatable);
    MergedPlaces(base, front, repeatable);
    assert |m.out| == |base|;
    var j :| 0 <= j < |base| && m.out[j] != base[j];
    assert MayChange(base, front, repeatable, j);
    var k := LastIndex(front, base[j].name.value);
    assert rec[k].name == base[j].name && rec[k].name != it.name;
    assert m'.out[j] == m.out[j];
  }

  /**
   The replay-skip test compares the merged configuration with the baseline. Read on items it
   succeeds exactly when the merge reports no override and no addition, provided the recovered
   configuration names no key twice and has no nameless token.
   */
  lemma {:induction false} UnchangedIffNothingReported(base: seq<Item>, rec: seq<Item>, repeatable: set<string>)
    requires !Nameless(rec) && NamesOnce(rec)
    ensures var m := Merged(base, rec, repeatable);
            m.out == base <==> m.overrides == [] && m.added == []
  {
    ReportedShows(base, rec, repeatable);
    if Merged(base, rec, repeatable).overrides == [] && Merged(base, rec, repeatable).added == [] {
      NothingReported(base, rec, repeatable);
    }
  }

  // ---- the strings ----------------------------------------------------------------------------

  lemma {:induction false} MergedItems(base: seq<Item>, rec: seq<Item>, repeatable: set<string>)
    ensures forall it :: it in Merged(base, rec, repeatable).out ==> it in base || it in rec
  {
    if rec != [] {
      MergedItems(base, rec[..|rec| - 1], repeatable);
      forall it | it in rec[..|rec| - 1] ensures it in rec {}
      assert rec[|rec| - 1] in rec;
    }
  }

  function MergeFlagItems(baseFlags: string, storedFlags: string): seq<Item> {
    Merged(ParseFlags(baseFlags), ParseFlags(storedFlags), REPEATABLE_FLAGS).out
  }

  function MergeFlags(baseFlags: string, storedFlags: string): string {
    RenderFlags(MergeFlagItems(baseFlags, storedFlags))
  }

  lemma {:induction false} MergeFlagItemsGood(baseFlags: string, storedFlags: string)
    ensures AllGood(MergeFlagItems(baseFlags, storedFlags))
  {
    MergedItems(ParseFlags(baseFlags), ParseFlags(storedFlags), REPEATABLE_FLAGS);
    ParseRoundTrip(baseFlags);
    ParseRoundTrip(storedFlags);
  }

  /**
   The launcher reads back exactly the items that were merged, if and only if the merge left no
   nameless token directly behind a flag written without `=`.
   */
  lemma {:induction false} MergedReparsesIff(baseFlags: string, storedFlags: string)
    ensures ParseFlags(MergeFlags(baseFlags, storedFlags)) == MergeFlagItems(baseFlags, storedFlags)
            <==> NoAbsorb(MergeFlagItems(baseFlags, storedFlags))
  {
    MergeFlagItemsGood(baseFlags, storedFlags);
    RoundTripIff(MergeFlagItems(baseFlags, storedFlags));
  }

  /** Without nameless tokens on either side that always holds. */
  lemma {:induction false} StrayFreeReparses(baseFlags: string, storedFlags: string)
    requires !Nameless(ParseFlags(baseFlags)) && !Nameless(ParseFlags(storedFlags))
    ensures NoAbsorb(MergeFlagItems(baseFlags, storedFlags))
  {
    MergedItems(ParseFlags(baseFlags), ParseFlags(storedFlags), REPEATABLE_FLAGS);
    var out := MergeFlagItems(baseFlags, storedFlags);
    forall j | 0 <= j < |out| ensures !IsStray(out[j]) { assert out[j] in out; }
  }

  /**
   Read by a launcher for which the last occurrence wins, the merged string gives every flag that is
   not repeatable the recovered value if the recovered string names it and the baseline's otherwise,
   and gives repeatable flags all their values, the baseline's first.
   */
  lemma {:induction false} MergedMeaning(baseFlags: string, storedFlags: string, n: string)
    requires NoAbsorb(MergeFlagItems(baseFlags, storedFlags))
    ensures var base, rec := ParseFlags(baseFlags), ParseFlags(storedFlags);
            var read := ParseFlags(MergeFlags(baseFlags, storedFlags));
            && (n !in REPEATABLE_FLAGS && Names(rec, n) ==> LooksEqual(LastValue(read, n), LastValue(rec, n)))
            && (n !in REPEATABLE_FLAGS && !Names(rec, n) ==> LastValue(read, n) == LastValue(base, n))
            && (n in REPEATABLE_FLAGS ==> Select(read, Some(n)) == Select(base, Some(n)) + Select(rec, Some(n)))
  {
    var base, rec := ParseFlags(baseFlags), ParseFlags(storedFlags);
    MergedReparsesIff(baseFlags, storedFlags);
    if n in REPEATABLE_FLAGS {
      MergedConcatenates(base, rec, REPEATABLE_FLAGS, Some(n));
    } else {
      MergedValue(base, rec, REPEATABLE_FLAGS, n);
    }
  }

  function MergeEnvItems(baseEnv: string, storedEnv: string): seq<Item> {
    Merged(ParseEnv(baseEnv), ParseEnv(storedEnv), {}).out
  }

  /** For environment strings no condition is needed: every variable gets exactly the value it should. */
  lemma {:induction false} MergedEnvMeaning(baseEnv: string, storedEnv: string, n: string)
    ensures var base, rec := ParseEnv(baseEnv), ParseEnv(storedEnv);
            var read := ParseEnv(RenderFlags(MergeEnvItems(baseEnv, storedEnv)));
            && read == MergeEnvItems(baseEnv, storedEnv)
            && LastValue(read, n) == if Names(rec, n) then LastValue(rec, n) else LastValue(base, n)
  {
    var base, rec := ParseEnv(baseEnv), ParseEnv(storedEnv);
    var out := MergeEnvItems(baseEnv, storedEnv);
    ParseEnvIsGood(baseEnv);
    ParseEnvIsGood(storedEnv);
    MergedItems(base, rec, {});
    EnvRoundTrip(out);
    MergedValue(base, rec, {}, n);
    LastGood(out, n);
    LastGood(rec, n);
  }

  lemma {:induction false} LastGood(items: seq<Item>, n: string)
    requires AllGoodEnv(items)
    ensures Names(items, n) ==> LastValue(items, n).value.Some?
  {
    if Names(items, n) { assert items[LastIndex(items, n)] in items; }
  }

  // ---- where the merge does not do what its comments say ----------------------------------------

  /** A recovered empty value does not replace an absent one: they compare equal. */
  lemma {:induction false} EmptyLosesToAbsent(n: string)
    ensures var base, rec := [Item(Some(n), None, false)], [Item(Some(n), Some(""), true)];
            var m := Merged(base, rec, {});
            m.out == base && LastValue(m.out, n) != LastValue(rec, n)
  {
    var base, rec := [Item(Some(n), None, false)], [Item(Some(n), Some(""), true)];
    assert rec[..0] == [];
    assert Merged(base, [], {}).out == base;
  }

  /** A key the recovered string names twice can be overridden and put back: reported, yet nothing changed. */
  lemma {:induction false} OverriddenAndRestored(n: string, v: string, w: string)
    requires v != w
    ensures var a, b := Item(Some(n), Some(v), true), Item(Some(n), Some(w), true);
            var base, rec := [a], [b, a];
            var m := Merged(base, rec, {});
            m.out == base && |m.overrides| == 2
  {
    var a, b := Item(Some(n), Some(v), true), Item(Some(n), Some(w), true);
    var base, rec := [a], [b, a];
    assert rec[..1] == [b] && [b][..0] == [];
    assert Merged(base, [], {}) == Merge(base, [], [], []);
    var one := Merged(base, [b], {});
    assert one == MergeStep(Merge(base, [], [], []), b, {});
    assert one.out == [b] && LastIndex([b], n) == 0;
  }
}
