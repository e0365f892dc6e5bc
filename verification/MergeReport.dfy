/**
 What a merge reports (e2e_workflow/e2e_workflow.js, mergeConfig): which recovered items it lists as overriding,
 as added and as unchanged, in order, and with which values. All of it is said of the two lists.
 */
module MergeReport {
  import opened Wrappers
  import opened Sequences
  import opened Flags
  import opened ConfigMerge
  import opened MergeLaws

  /** The same value, or one missing and the other empty. */
  predicate Alike(a: Option<string>, b: Option<string>) {
    a == b || (a in {None, Some("")} && b in {None, Some("")})
  }

  lemma {:induction false} AlikeIff(a: Option<string>, b: Option<string>)
    ensures Alike(a, b) <==> Shown(a) == Shown(b)
  {
  }

  /** The value a name has when some values were given for it: the first of those at the end that are all alike. */
  function InForce(vs: seq<Option<string>>): Option<string>
    requires vs != []
  {
    var n := |vs| - 1;
    if n == 0 || !Alike(vs[n - 1], vs[n]) then vs[n] else InForce(vs[..n])
  }

  lemma {:induction false} InForceIs(vs: seq<Option<string>>)
    requires vs != []
    ensures InForce(vs) == RunStart(vs)
  {
    var n := |vs| - 1;
    if n > 0 {
      AlikeIff(vs[n - 1], vs[n]);
      InForceIs(vs[..n]);
    }
  }

  datatype Role = Added | Same | Overriding

  /** What becomes of the recovered item `k`, which has a name. */
  function RoleOf(base: seq<Item>, rec: seq<Item>, repeatable: set<string>, k: nat): Role
    requires k < |rec| && rec[k].name.Some?
  {
    var n := rec[k].name.value;
    var before := Given(base, rec[..k], n);
    if n in repeatable || before == [] then Added
    else if Alike(InForce(before), rec[k].value) then Same
    else Overriding
  }

  predicate Plays(base: seq<Item>, rec: seq<Item>, repeatable: set<string>, role: Role, k: nat) {
    k < |rec| && rec[k].name.Some? && RoleOf(base, rec, repeatable, k) == role
  }

  /** The positions of the named items among the first `m` that play a part, in order. */
  function Playing(base: seq<Item>, rec: seq<Item>, repeatable: set<string>, role: Role, m: nat): (ks: seq<nat>)
    requires m <= |rec|
    ensures forall j :: 0 <= j < |ks| ==> ks[j] < m && rec[ks[j]].name.Some?
    ensures forall i, j :: 0 <= i < j < |ks| ==> ks[i] < ks[j]
  {
    if m == 0 then []
    else
      Playing(base, rec, repeatable, role, m - 1)
      + if Plays(base, rec, repeatable, role, m - 1) then [m - 1] else []
  }

  /** Exactly the items that play the part are listed. */
  lemma {:induction false} PlayingIff(base: seq<Item>, rec: seq<Item>, repeatable: set<string>, role: Role, m: nat,
                                      k: nat)
    requires m <= |rec|
    ensures k in Playing(base, rec, repeatable, role, m) <==> k < m && Plays(base, rec, repeatable, role, k)
  {
    if m > 0 {
      PlayingIff(base, rec, repeatable, role, m - 1, k);
      OnePosition(Playing(base, rec, repeatable, role, m - 1), m - 1, k);
    }
  }

  lemma {:induction false} OnePosition(ks: seq<nat>, m: nat, k: nat)
    ensures k in ks + [m] <==> k in ks || k == m
    ensures ks + [] == ks
  {
  }

  /** An entry says which value the name had, and which one the recovered item gives it. */
  ghost predicate Tells(o: Override, base: seq<Item>, rec: seq<Item>, k: nat) {
    && k < |rec| && rec[k].name == Some(o.flag) && o.recalled == rec[k].value
    && Given(base, rec[..k], o.flag) != [] && o.baseline == InForce(Given(base, rec[..k], o.flag))
  }

  ghost predicate Reports(m: Merge, base: seq<Item>, rec: seq<Item>, repeatable: set<string>, n: nat)
    requires n <= |rec|
  {
    var adds := Playing(base, rec, repeatable, Added, n);
    var sames := Playing(base, rec, repeatable, Same, n);
    var overs := Playing(base, rec, repeatable, Overriding, n);
    && |m.added| == |adds| && (forall j :: 0 <= j < |adds| ==> rec[adds[j]].name == Some(m.added[j]))
    && |m.same| == |sames| && (forall j :: 0 <= j < |sames| ==> rec[sames[j]].name == Some(m.same[j]))
    && |m.overrides| == |overs| && (forall j :: 0 <= j < |overs| ==> Tells(m.overrides[j], base, rec, overs[j]))
  }

  /** The report lists exactly these items, in order, with these values. */
  lemma {:induction false} ReportExact(base: seq<Item>, rec: seq<Item>, repeatable: set<string>)
    ensures Reports(Merged(base, rec, repeatable), base, rec, repeatable, |rec|)
  {
    ReportSoFar(base, rec, repeatable, |rec|);
    assert rec[..|rec|] == rec;
  }

  lemma {:induction false} ReportSoFar(base: seq<Item>, rec: seq<Item>, repeatable: set<string>, n: nat)
    requires n <= |rec|
    ensures Reports(Merged(base, rec[..n], repeatable), base, rec, repeatable, n)
  {
    if n > 0 {
      ReportSoFar(base, rec, repeatable, n - 1);
      FrontOfPrefix(rec, n - 1);
      StepReports(Merged(base, rec[..n - 1], repeatable), base, rec, repeatable, n - 1);
    }
  }

  lemma {:induction false} StepReports(m: Merge, base: seq<Item>, rec: seq<Item>, repeatable: set<string>, k: nat)
    requires k < |rec| && m == Merged(base, rec[..k], repeatable) && Reports(m, base, rec, repeatable, k)
    ensures Reports(MergeStep(m, rec[k], repeatable), base, rec, repeatable, k + 1)
  {
    if rec[k].name.Some? { StepPlays(m, base, rec, repeatable, k); }
  }

  /** One step adds one entry to one of the three lists, according to the part its item plays. */
  lemma {:induction false} StepPlays(m: Merge, base: seq<Item>, rec: seq<Item>, repeatable: set<string>, k: nat)
    requires k < |rec| && rec[k].name.Some? && m == Merged(base, rec[..k], repeatable)
    ensures var next, n := MergeStep(m, rec[k], repeatable), rec[k].name.value;
            match RoleOf(base, rec, repeatable, k)
            case Added => next.added == m.added + [n] && next.same == m.same && next.overrides == m.overrides
            case Same => next.added == m.added && next.same == m.same + [n] && next.overrides == m.overrides
            case Overriding =>
              && next.added == m.added && next.same == m.same
              && next.overrides == m.overrides + [Override(n, InForce(Given(base, rec[..k], n)), rec[k].value)]
  {
    var n := rec[k].name.value;
    if n !in repeatable {
      ValueInForce(base, rec[..k], repeatable, n);
      var before := Given(base, rec[..k], n);
      if before != [] {
        InForceIs(before);
        AlikeIff(InForce(before), rec[k].value);
      }
    }
  }

  /**
   For a recovered list that names nothing twice: an item is reported as overriding exactly if the baseline has a
   value for its name that is not alike, and the entry then gives the two last values, the baseline's first.
   */
  lemma {:induction false} OverridesOnce(base: seq<Item>, rec: seq<Item>, repeatable: set<string>, k: nat)
    requires NamesOnce(rec) && k < |rec| && rec[k].name.Some?
    ensures var n, overs := rec[k].name.value, Playing(base, rec, repeatable, Overriding, |rec|);
            && LastValue(rec, n) == Some(rec[k].value)
            && (k in overs <==>
                n !in repeatable && Names(base, n) && !Alike(LastValue(base, n).value, rec[k].value))
            && |Merged(base, rec, repeatable).overrides| == |overs|
            && forall j :: 0 <= j < |overs| && overs[j] == k ==>
                 && Names(base, n)
                 && Merged(base, rec, repeatable).overrides[j] == Override(n, LastValue(base, n).value, rec[k].value)
  {
    var n := rec[k].name.value;
    PlayingIff(base, rec, repeatable, Overriding, |rec|, k);
    ReportExact(base, rec, repeatable);
    LastIndexUnique(rec, n, k);
    GivenBefore(base, rec, k);
  }

  /** Before an item that is the only one of its name, only the baseline has given it a value. */
  lemma {:induction false} GivenBefore(base: seq<Item>, rec: seq<Item>, k: nat)
    requires NamesOnce(rec) && k < |rec| && rec[k].name.Some?
    ensures Given(base, rec[..k], rec[k].name.value)
         == if Names(base, rec[k].name.value) then [LastValue(base, rec[k].name.value).value] else []
  {
    var n := rec[k].name.value;
    LastIndexUnique(rec[..k], n, -1);
    GivenUnnamed(base, rec[..k], n);
  }

  lemma {:induction false} GivenUnnamed(base: seq<Item>, rec: seq<Item>, n: string)
    requires !Names(rec, n)
    ensures Given(base, rec, n) == if Names(base, n) then [LastValue(base, n).value] else []
  {
    if rec != [] {
      NamesLast(rec, n);
      GivenUnnamed(base, rec[..|rec| - 1], n);
      JoinNothing(Given(base, rec[..|rec| - 1], n));
    }
  }
}
