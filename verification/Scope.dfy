/**
 Which agent transcripts a run owns, and whether that is all of them
 (interface/claude_trace_mirror.py, resolve_run_scope).

 The ownership evidence is data: for each requested instance, the invocations that own its directory,
 the record its identity resolves to when there is none, and the enclosing run when there is neither.
 */
module Scope {
  import opened Sorting
  import opened Sequences
  import opened Wrappers

  /** One owning workflow invocation; a journal may or may not name the agent that declared it. */
  datatype Evidence = Record | Journal(declared: bool)

  datatype Site = Site(runId: string, glob: string, evidence: Evidence, filesExist: bool,
                       empty: nat, unreadable: nat)
  {
    predicate Holed() { filesExist && (empty > 0 || unreadable > 0) }
  }

  /** A directory of transcripts reached without ownership evidence. */
  datatype Found = Found(glob: string, usable: bool, empty: nat, unreadable: nat)
  {
    predicate Holed() { empty > 0 || unreadable > 0 }
  }

  /** A journal that names the directory although its workflow record assigns the run to another one. */
  datatype Elsewhere = Elsewhere(runId: string, dir: string)

  datatype Anchor = NoAnchor | Ambiguous | Anchored(found: Found)

  /**
   A requested directory; only the top-level one may be anchored to an enclosing run. The look for owners
   also comes across journals that are not adopted: some contradicted by a record, some that only
   mention the directory.
   */
  datatype Instance = Instance(name: string, top: bool, sites: seq<Site>, one: Option<Found>, enclosing: Anchor,
                               conflicting: seq<Elsewhere>, mentioned: seq<string>)

  datatype Reason =
    | PartlyCaptured | UnattributedOwner | AbsentTranscripts | JournalOnly | AmbiguousTop
    | ContainedTop | NoRecord | NoTranscripts | PartlyFlushed | TopUnresolved
    | ConflictingRecord(dir: string) | MentionOnly

  datatype Warning = Warning(reason: Reason, name: string)

  datatype TopAnchor = EvalDir | LiveJournal | RecordAndJournal | ExpRootAncestor

  datatype Verdict = Verdict(offered: seq<string>, captured: bool, inferred: bool, backed: bool,
                             anchor: TopAnchor, warnings: seq<Warning>)

  datatype Kind = RunScoped | RunScopedInferred | PartialScope | UnresolvedScope

  datatype Scope = Scope(globs: seq<string>, kind: Kind, complete: bool, requested: seq<string>,
                         resolved: seq<string>, missing: seq<string>, inferred: seq<string>,
                         warnings: seq<Warning>, anchor: Option<TopAnchor>, invocations: seq<Site>)

  // ---- what the evidence means ---------------------------------------------------------

  function Usable(sites: seq<Site>): (r: seq<Site>)
    ensures forall s :: s in r <==> s in sites && s.filesExist
  {
    if sites == [] then []
    else Usable(sites[..|sites| - 1]) + (if sites[|sites| - 1].filesExist then [sites[|sites| - 1]] else [])
  }

  function Globs(sites: seq<Site>): (r: seq<string>)
    ensures |r| == |sites| && forall k :: 0 <= k < |r| ==> r[k] == sites[k].glob
  {
    seq(|sites|, k requires 0 <= k < |sites| => sites[k].glob)
  }

  /** The directory used when nothing owns the instance. */
  function Fallback(i: Instance): Option<Found> {
    if i.one.Some? then i.one
    else if i.top && i.enclosing.Anchored? then Some(i.enclosing.found)
    else None
  }

  /** The globs an instance contributes. */
  function Offered(i: Instance): seq<string> {
    if i.sites != [] then Globs(Usable(i.sites))
    else if Fallback(i).Some? && Fallback(i).value.usable then [Fallback(i).value.glob]
    else []
  }

  /** Every transcript of everything that owns the instance is there and readable. */
  predicate Captured(i: Instance) {
    if i.sites != [] then forall s :: s in i.sites ==> s.filesExist && !s.Holed()
    else Fallback(i).Some? && Fallback(i).value.usable && !Fallback(i).value.Holed()
  }

  /** Ownership rests on a journal or on containment rather than on a record. */
  predicate Inferred(i: Instance) {
    if i.sites != [] then exists s :: s in i.sites && s.filesExist && s.evidence.Journal?
    else i.one.None? && i.top && i.enclosing.Anchored?
  }

  predicate Backed(i: Instance) { Offered(i) != [] }

  /** Ownership on record, every transcript readable: what a complete scope has to mean. */
  predicate Proven(i: Instance) {
    if i.sites != []
    then forall s :: s in i.sites ==> s.evidence.Record? && s.filesExist && s.empty == 0 && s.unreadable == 0
    else i.one.Some? && i.one.value.usable && i.one.value.empty == 0 && i.one.value.unreadable == 0
  }

  /** How the identity of a top-level run was established. */
  function AnchorOf(i: Instance): TopAnchor {
    if !Inferred(i) then EvalDir
    else if i.sites == [] then ExpRootAncestor
    else if forall s :: s in Usable(i.sites) ==> s.evidence.Journal? then LiveJournal
    else RecordAndJournal
  }

  /** Adopted on a journal that does not say which agent wrote it. */
  predicate Unsigned(s: Site) { s.filesExist && s.evidence.Journal? && !s.evidence.declared }

  function Note(yes: bool, reason: Reason, i: Instance): seq<Warning> { if yes then [Warning(reason, i.name)] else [] }

  predicate SomeHoled(sites: seq<Site>) { exists s :: s in sites && s.Holed() }

  predicate SomeGone(sites: seq<Site>) { exists s :: s in sites && !s.filesExist }

  predicate SomeUnsigned(sites: seq<Site>) { exists s :: s in sites && Unsigned(s) }

  /** What is warned of about an instance that some invocation owns. */
  function OwnedWarnings(i: Instance): seq<Warning> {
    Note(SomeHoled(i.sites), PartlyCaptured, i) + Note(SomeUnsigned(i.sites), UnattributedOwner, i)
    + Note(SomeGone(i.sites), AbsentTranscripts, i)
    + Note(Inferred(i), JournalOnly, i)
  }

  /** What is warned of about an instance that nothing owns: the enclosing run, then the transcripts. */
  function UnownedWarnings(i: Instance): seq<Warning> {
    (if i.one.Some? || !i.top then []
     else match i.enclosing
       case Ambiguous => [Warning(AmbiguousTop, i.name)]
       case Anchored(_) => [Warning(ContainedTop, i.name)]
       case NoAnchor => [])
    + (match Fallback(i)
       case None => [Warning(NoRecord, i.name)]
       case Some(f) =>
         if !f.usable then [Warning(NoTranscripts, i.name)] else Note(f.Holed(), PartlyFlushed, i))
  }

  function WarningsOf(i: Instance): seq<Warning> { if i.sites != [] then OwnedWarnings(i) else UnownedWarnings(i) }

  function InstanceWarnings(all: seq<Instance>): seq<Warning> {
    if all == [] then [] else InstanceWarnings(all[..|all| - 1]) + WarningsOf(all[|all| - 1])
  }

  /** An instance is warned of exactly if it is short of proof, and under its own name. */
  lemma {:induction false} WarnedOfIff(i: Instance)
    ensures WarningsOf(i) == [] <==> Proven(i)
    ensures forall w :: w in WarningsOf(i) ==> w.name == i.name
  {
  }

  lemma {:induction false} ProvenIff(i: Instance)
    ensures Proven(i) <==> Captured(i) && !Inferred(i)
    ensures Captured(i) ==> Backed(i)
  {
    if i.sites != [] { assert i.sites[0] in i.sites; assert i.sites[0].filesExist ==> i.sites[0] in Usable(i.sites); }
  }

  // ---- one instance ----------------------------------------------------------------------

  /** The usable invocations that only a journal ties to the run. */
  function JournalOnlySites(usable: seq<Site>): (r: seq<Site>)
    ensures |r| <= |usable|
    ensures r != [] <==> exists s :: s in usable && s.evidence.Journal?
    ensures |r| == |usable| <==> forall s :: s in usable ==> s.evidence.Journal?
  {
    if usable == [] then []
    else
      var s := usable[|usable| - 1];
      JournalOnlySites(usable[..|usable| - 1]) + if s.evidence.Journal? then [s] else []
  }

  /** The owned branch: some invocation owns the instance. */
  method ExamineOwned(i: Instance) returns (v: Verdict)
    requires i.sites != []
    ensures v.offered == Offered(i) && v.captured == Captured(i) && v.inferred == Inferred(i)
    ensures v.backed == Backed(i) && v.anchor == AnchorOf(i) && v.warnings == OwnedWarnings(i)
  {
    var usable := Usable(i.sites);
    var holed, gone := SomeHoled(i.sites), SomeGone(i.sites);
    var warnings := Note(holed, PartlyCaptured, i);
    warnings := warnings + Note(SomeUnsigned(i.sites), UnattributedOwner, i);
    warnings := warnings + Note(gone, AbsentTranscripts, i);
    var journals := JournalOnlySites(usable);
    var anchor := EvalDir;
    if journals != [] { anchor := if |journals| == |usable| then LiveJournal else RecordAndJournal; }
    warnings := warnings + Note(journals != [], JournalOnly, i);
    v := Verdict(Globs(usable), !gone && !holed, journals != [], usable != [], anchor, warnings);
    JournalsInfer(i);
    OwnedEvidence(i);
  }

  lemma {:induction false} OwnedEvidence(i: Instance)
    requires i.sites != []
    ensures Captured(i) <==> !SomeGone(i.sites) && !SomeHoled(i.sites)
    ensures Offered(i) == Globs(Usable(i.sites)) && (Backed(i) <==> Usable(i.sites) != [])
  {
  }

  lemma {:induction false} JournalsInfer(i: Instance)
    requires i.sites != []
    ensures JournalOnlySites(Usable(i.sites)) != [] <==> Inferred(i)
    ensures Inferred(i) <==> exists s :: s in i.sites && s.filesExist && s.evidence.Journal?
    ensures AnchorOf(i) == if !Inferred(i) then EvalDir
                           else if |JournalOnlySites(Usable(i.sites))| == |Usable(i.sites)| then LiveJournal
                           else RecordAndJournal
  {
  }

  /** The fallback branch: nothing owns the instance. */
  method ExamineUnowned(i: Instance) returns (v: Verdict)
    requires i.sites == []
    ensures v.offered == Offered(i) && v.captured == Captured(i) && v.inferred == Inferred(i)
    ensures v.backed == Backed(i) && v.anchor == AnchorOf(i) && v.warnings == UnownedWarnings(i)
  {
    var res, inferred, anchor, warnings := i.one, false, EvalDir, [];
    if res.None? && i.top {
      match i.enclosing
      case Ambiguous => warnings := [Warning(AmbiguousTop, i.name)];
      case Anchored(found) =>
        res, anchor, inferred := Some(found), ExpRootAncestor, true;
        warnings := [Warning(ContainedTop, i.name)];
      case NoAnchor =>
    }
    if res.None? {
      return Verdict([], false, inferred, false, anchor, warnings + [Warning(NoRecord, i.name)]);
    }
    if !res.value.usable {
      return Verdict([], false, inferred, false, anchor, warnings + [Warning(NoTranscripts, i.name)]);
    }
    var partlyFlushed := res.value.empty > 0 || res.value.unreadable > 0;
    if partlyFlushed { warnings := warnings + [Warning(PartlyFlushed, i.name)]; }
    v := Verdict([res.value.glob], !partlyFlushed, inferred, true, anchor, warnings);
  }

  // ---- all instances ---------------------------------------------------------------------

  /** The values of a list without its repetitions, first occurrence kept. */
  function Deduplicated<T(==, !new)>(s: seq<T>): (r: seq<T>)
    ensures forall x :: x in r <==> x in s
    ensures forall a, b :: 0 <= a < b < |r| ==> r[a] != r[b]
  {
    if s == [] then []
    else
      var rest := Deduplicated(s[..|s| - 1]);
      if s[|s| - 1] in rest then rest else rest + [s[|s| - 1]]
  }

  function AllOffered(all: seq<Instance>): seq<string> {
    if all == [] then [] else AllOffered(all[..|all| - 1]) + Offered(all[|all| - 1])
  }

  function Labels(all: seq<Instance>): seq<string> {
    if all == [] then [] else Labels(all[..|all| - 1]) + [all[|all| - 1].name]
  }

  function ResolvedLabels(all: seq<Instance>): seq<string> {
    if all == [] then []
    else
      var i := all[|all| - 1];
      ResolvedLabels(all[..|all| - 1]) + if Captured(i) then [i.name] else []
  }

  function InferredLabels(all: seq<Instance>): seq<string> {
    if all == [] then []
    else
      var i := all[|all| - 1];
      InferredLabels(all[..|all| - 1]) + if Inferred(i) then [i.name] else []
  }

  /** A name is repeated here only by instances that nothing owns. */
  function MissingLabels(all: seq<Instance>): seq<string> {
    if all == [] then []
    else
      var i, before := all[|all| - 1], MissingLabels(all[..|all| - 1]);
      if Captured(i) || (i.sites != [] && i.name in before) then before else before + [i.name]
  }

  lemma {:induction false} LabelsExact(all: seq<Instance>)
    ensures forall x :: x in Labels(all) <==> exists i :: i in all && i.name == x
    ensures forall x :: x in ResolvedLabels(all) <==> exists i :: i in all && i.name == x && Captured(i)
    ensures forall x :: x in MissingLabels(all) <==> exists i :: i in all && i.name == x && !Captured(i)
    ensures forall x :: x in InferredLabels(all) <==> exists i :: i in all && i.name == x && Inferred(i)
  {
    if all != [] {
      var n := |all| - 1;
      LabelsExact(all[..n]);
      assert forall i :: i in all <==> i in all[..n] || i == all[n];
    }
  }

  lemma {:induction false} OfferedExact(all: seq<Instance>)
    ensures forall g :: g in AllOffered(all) <==> exists i :: i in all && g in Offered(i)
  {
    if all != [] {
      OfferedExact(all[..|all| - 1]);
      forall g ensures g in AllOffered(all) <==> exists i :: i in all && g in Offered(i) { OfferedLast(all, g); }
    }
  }

  lemma {:induction false} OfferedLast(all: seq<Instance>, g: string)
    requires all != []
    requires g in AllOffered(all[..|all| - 1]) <==> exists i :: i in all[..|all| - 1] && g in Offered(i)
    ensures g in AllOffered(all) <==> exists i :: i in all && g in Offered(i)
  {
    var last := all[|all| - 1];
    forall i ensures i in all <==> i in all[..|all| - 1] || i == last { InFrontOrLast(all, i); }
    assert g in AllOffered(all) <==> g in AllOffered(all[..|all| - 1]) || g in Offered(last);
  }

  /** The instances asked for: the top-level run, then its lanes, those without a name left out. */
  function Requested(top: Instance, lanes: seq<Instance>): (r: seq<Instance>)
    ensures forall i :: i in r <==> i.name != "" && (i == top || i in lanes)
  {
    if lanes == [] then (if top.name == "" then [] else [top])
    else Requested(top, lanes[..|lanes| - 1])
         + if lanes[|lanes| - 1].name == "" then [] else [lanes[|lanes| - 1]]
  }

  /** The globs not seen yet, in order. */
  method Merge(globs: seq<string>, offered: seq<string>, ghost all: seq<string>) returns (r: seq<string>)
    requires globs == Deduplicated(all)
    ensures r == Deduplicated(all + offered)
  {
    r := globs;
    JoinNothing(all);
    for k := 0 to |offered|
      invariant r == Deduplicated(all + offered[..k])
    {
      OneOffered(all, offered, k);
      if offered[k] !in r { r := r + [offered[k]]; }
    }
    assert offered[..|offered|] == offered;
  }

  lemma {:induction false} OneOffered(all: seq<string>, offered: seq<string>, k: nat)
    requires k < |offered|
    ensures var r := Deduplicated(all + offered[..k]);
            Deduplicated(all + offered[..k + 1]) == if offered[k] in r then r else r + [offered[k]]
  {
    FrontOfPrefix(offered, k);
    FrontOfJoin(all, offered[..k + 1]);
  }

  method Examine(i: Instance) returns (v: Verdict)
    ensures v.offered == Offered(i) && v.captured == Captured(i) && v.inferred == Inferred(i)
    ensures v.backed == Backed(i) && v.anchor == AnchorOf(i) && v.warnings == WarningsOf(i)
  {
    if i.sites != [] { v := ExamineOwned(i); } else { v := ExamineUnowned(i); }
  }

  /** Everything the scope reports about the instances asked for. */
  ghost predicate Reports(all: seq<Instance>, topOk: bool, s: Scope) {
    && s.requested == Labels(all) && s.resolved == ResolvedLabels(all)
    && s.missing == MissingLabels(all) && s.inferred == InferredLabels(all)
    && s.complete == (topOk && s.missing == [] && s.inferred == [])
    && s.globs == (if topOk then Deduplicated(AllOffered(all)) else [])
    && s.kind == (if !topOk then UnresolvedScope else if s.complete then RunScoped
                  else if s.missing == [] then RunScopedInferred else PartialScope)
  }

  predicate Warned(warnings: seq<Warning>, name: string) {
    exists w :: w in warnings && w.name == name
  }

  predicate Unproven(all: seq<Instance>, name: string) {
    exists i :: i in all && i.name == name && !Proven(i)
  }

  /** A warning for every instance short of proof, and no warning about any other. */
  ghost predicate Warns(all: seq<Instance>, warnings: seq<Warning>) {
    forall name :: Warned(warnings, name) <==> Unproven(all, name)
  }

  lemma {:induction false} WarnedMore(warnings: seq<Warning>, more: seq<Warning>, name: string)
    ensures Warned(warnings + more, name) <==> Warned(warnings, name) || Warned(more, name)
  {
    assert forall w :: w in warnings + more <==> w in warnings || w in more;
  }

  lemma {:induction false} UnprovenMore(all: seq<Instance>, i: Instance, name: string)
    ensures Unproven(all + [i], name) <==> Unproven(all, name) || (i.name == name && !Proven(i))
  {
    assert forall j :: j in all + [i] <==> j in all || j == i;
  }

  lemma {:induction false} WarnsMore(all: seq<Instance>, warnings: seq<Warning>, i: Instance, more: seq<Warning>)
    requires Warns(all, warnings)
    requires more == [] <==> Proven(i)
    requires forall w :: w in more ==> w.name == i.name
    ensures Warns(all + [i], warnings + more)
  {
    forall name
      ensures Warned(warnings + more, name) <==> Unproven(all + [i], name)
    {
      WarnedMore(warnings, more, name);
      UnprovenMore(all, i, name);
      assert more != [] ==> more[0] in more;
    }
  }

  /** The loop warns of every instance short of proof, by name, and of no other. */
  lemma {:induction false} InstancesWarned(all: seq<Instance>)
    ensures Warns(all, InstanceWarnings(all))
  {
    if all != [] {
      var front, i := all[..|all| - 1], all[|all| - 1];
      InstancesWarned(front);
      WarnedOfIff(i);
      WarnsMore(front, InstanceWarnings(front), i, WarningsOf(i));
      FrontLast(all);
    }
  }

  // ---- journals seen but not adopted ------------------------------------------------------

  function AllConflicting(all: seq<Instance>): seq<Elsewhere> {
    if all == [] then [] else AllConflicting(all[..|all| - 1]) + all[|all| - 1].conflicting
  }

  function AllMentioned(all: seq<Instance>): seq<string> {
    if all == [] then [] else AllMentioned(all[..|all| - 1]) + all[|all| - 1].mentioned
  }

  predicate ElsewhereLe(a: Elsewhere, b: Elsewhere) {
    if a.runId == b.runId then StringLe(a.dir, b.dir) else StringLe(a.runId, b.runId)
  }

  function ConflictWarnings(cs: seq<Elsewhere>): (r: seq<Warning>)
    ensures |r| == |cs| && forall k :: 0 <= k < |r| ==> r[k] == Warning(ConflictingRecord(cs[k].dir), cs[k].runId)
  {
    seq(|cs|, k requires 0 <= k < |cs| => Warning(ConflictingRecord(cs[k].dir), cs[k].runId))
  }

  function MentionWarnings(runs: seq<string>): (r: seq<Warning>)
    ensures |r| == |runs| && forall k :: 0 <= k < |r| ==> r[k] == Warning(MentionOnly, runs[k])
  {
    seq(|runs|, k requires 0 <= k < |runs| => Warning(MentionOnly, runs[k]))
  }

  /** One warning for each distinct conflict, then one for each distinct run only mentioned, both in order. */
  function JournalWarnings(all: seq<Instance>): seq<Warning> {
    ConflictWarnings(Sort(Deduplicated(AllConflicting(all)), ElsewhereLe))
    + MentionWarnings(Sort(Deduplicated(AllMentioned(all)), StringLe))
  }

  method WarnOfJournals(all: seq<Instance>) returns (warnings: seq<Warning>)
    ensures warnings == JournalWarnings(all)
  {
    var conflicts: seq<Elsewhere>, mentions: seq<string> := [], [];
    for k := 0 to |all|
      invariant conflicts == AllConflicting(all[..k]) && mentions == AllMentioned(all[..k])
    {
      assert all[..k + 1][..k] == all[..k];
      conflicts := conflicts + all[k].conflicting;
      mentions := mentions + all[k].mentioned;
    }
    assert all[..|all|] == all;
    warnings := ConflictWarnings(Sort(Deduplicated(conflicts), ElsewhereLe))
                + MentionWarnings(Sort(Deduplicated(mentions), StringLe));
  }

  /** No journal was met that was not adopted. */
  predicate Undisturbed(all: seq<Instance>) { forall i :: i in all ==> i.conflicting == [] && i.mentioned == [] }

  lemma {:induction false} EmptyIff<T(!new)>(s: seq<T>)
    ensures s == [] <==> forall x :: x !in s
  {
    if s != [] {
      var x := s[0];
      assert x in s;
    }
  }

  lemma {:induction false} SortedEmptyIff<T(!new)>(s: seq<T>, le: (T, T) -> bool)
    ensures Sort(Deduplicated(s), le) == [] <==> s == []
  {
    SortPermutes(Deduplicated(s), le);
    EmptyIff(s);
    EmptyIff(Deduplicated(s));
  }

  lemma {:induction false} UndisturbedIff(all: seq<Instance>)
    ensures Undisturbed(all) <==> AllConflicting(all) == [] && AllMentioned(all) == []
  {
    if all != [] {
      UndisturbedIff(all[..|all| - 1]);
      assert forall i :: i in all <==> i in all[..|all| - 1] || i == all[|all| - 1];
    }
  }

  lemma {:induction false} JournalsSilentIff(all: seq<Instance>)
    ensures JournalWarnings(all) == [] <==> Undisturbed(all)
  {
    UndisturbedIff(all);
    SortedEmptyIff(AllConflicting(all), ElsewhereLe);
    SortedEmptyIff(AllMentioned(all), StringLe);
  }

  /** The top-level run is asked for and has a file-backed identity. */
  predicate TopOk(top: Instance) { top.name != "" && Backed(top) }

  /** The lists of instances asked for, as the loops that read the arguments build them. */
  method Gather(top: Instance, lanes: seq<Instance>) returns (all: seq<Instance>)
    ensures all == Requested(top, lanes)
  {
    all := if top.name == "" then [] else [top];
    for k := 0 to |lanes|
      invariant all == Requested(top, lanes[..k])
    {
      assert lanes[..k + 1][..k] == lanes[..k];
      if lanes[k].name != "" { all := all + [lanes[k]]; }
    }
    assert lanes[..|lanes|] == lanes;
  }

  /** What one pass over the instances gathers, before anything is claimed. */
  datatype Tally = Tally(globs: seq<string>, resolved: seq<string>, missing: seq<string>,
                         inferred: seq<string>, warnings: seq<Warning>)

  ghost predicate Tallied(all: seq<Instance>, t: Tally) {
    && t.globs == Deduplicated(AllOffered(all)) && t.resolved == ResolvedLabels(all)
    && t.missing == MissingLabels(all) && t.inferred == InferredLabels(all)
    && t.warnings == InstanceWarnings(all)
  }

  method Add(t: Tally, i: Instance, ghost before: seq<Instance>) returns (r: Tally, v: Verdict)
    requires Tallied(before, t)
    ensures Tallied(before + [i], r)
    ensures v.backed == Backed(i) && v.anchor == AnchorOf(i)
  {
    assert (before + [i])[..|before|] == before;
    v := Examine(i);
    var globs := Merge(t.globs, v.offered, AllOffered(before));
    var missing := t.missing;
    if !v.captured && (i.sites == [] || i.name !in missing) { missing := missing + [i.name]; }
    r := Tally(globs,
               t.resolved + if v.captured then [i.name] else [],
               missing,
               t.inferred + if v.inferred then [i.name] else [],
               t.warnings + v.warnings);
  }

  /** The warnings about the instances, then about the journals, then about the whole run. */
  function AllWarnings(top: Instance, lanes: seq<Instance>): seq<Warning> {
    InstanceWarnings(Requested(top, lanes)) + JournalWarnings(Requested(top, lanes))
    + if TopOk(top) || top.name == "" then [] else [Warning(TopUnresolved, top.name)]
  }

  /**
   The scope of a run. Nothing is claimed without a file-backed top-level identity; otherwise the
   globs are everything offered, and every instance is reported as what its evidence makes it.
   */
  method ResolveRunScope(top: Instance, lanes: seq<Instance>) returns (s: Scope)
    requires top.top && forall l :: l in lanes ==> !l.top
    ensures Reports(Requested(top, lanes), TopOk(top), s)
    ensures s.invocations == if TopOk(top) then Usable(top.sites) else []
    ensures s.anchor == if TopOk(top) then Some(AnchorOf(top)) else None
    ensures s.warnings == AllWarnings(top, lanes)
  {
    var all := Gather(top, lanes);
    var t, topOk, anchor, invocations := Inspect(all, top);
    TopOnly(top, lanes);
    s := Conclude(top, lanes, all, t, topOk, anchor, invocations);
  }

  /** What is claimed at the end, and with which warnings. */
  method Conclude(top: Instance, ghost lanes: seq<Instance>, all: seq<Instance>, t: Tally, topOk: bool,
                  anchor: TopAnchor, invocations: seq<Site>)
    returns (s: Scope)
    requires all == Requested(top, lanes) && Tallied(all, t) && (topOk <==> TopOk(top))
    ensures Reports(all, topOk, s)
    ensures s.warnings == AllWarnings(top, lanes)
    ensures s.invocations == if topOk then invocations else []
    ensures s.anchor == if topOk then Some(anchor) else None
  {
    var labels := LabelList(all);
    var journals := WarnOfJournals(all);
    var warnings := t.warnings + journals;
    JoinNothing(warnings);
    if !topOk {
      var more := if top.name == "" then [] else [Warning(TopUnresolved, top.name)];
      return Scope([], UnresolvedScope, false, labels, t.resolved, t.missing, t.inferred, warnings + more, None, []);
    }
    var complete := t.missing == [] && t.inferred == [];
    var kind := if complete then RunScoped else if t.missing == [] then RunScopedInferred else PartialScope;
    s := Scope(t.globs, kind, complete, labels, t.resolved, t.missing, t.inferred, warnings, Some(anchor), invocations);
  }

  lemma {:induction false} TopOnly(top: Instance, lanes: seq<Instance>)
    requires top.top && forall l :: l in lanes ==> !l.top
    ensures TopOk(top) <==> exists i :: i in Requested(top, lanes) && i.top && Backed(i)
    ensures forall i :: i in Requested(top, lanes) && i.top ==> i == top
  {
  }

  method LabelList(all: seq<Instance>) returns (r: seq<string>)
    ensures r == Labels(all)
  {
    r := [];
    for k := 0 to |all|
      invariant r == Labels(all[..k])
    {
      assert all[..k + 1][..k] == all[..k];
      r := r + [all[k].name];
    }
    assert all[..|all|] == all;
  }

  /** The loop over the instances. */
  method Inspect(all: seq<Instance>, ghost top: Instance)
    returns (t: Tally, topOk: bool, anchor: TopAnchor, invocations: seq<Site>)
    requires forall i :: i in all && i.top ==> i == top
    ensures Tallied(all, t)
    ensures topOk <==> exists i :: i in all && i.top && Backed(i)
    ensures topOk ==> anchor == AnchorOf(top) && invocations == Usable(top.sites)
  {
    t, topOk, anchor, invocations := Tally([], [], [], [], []), false, EvalDir, [];
    for k := 0 to |all|
      invariant Tallied(all[..k], t)
      invariant topOk <==> exists i :: i in all[..k] && i.top && Backed(i)
      invariant topOk ==> anchor == AnchorOf(top) && invocations == Usable(top.sites)
    {
      OneInstance(all, k);
      var v;
      t, v := Add(t, all[k], all[..k]);
      if all[k].top && v.backed {
        topOk, anchor := true, v.anchor;
        invocations := Usable(all[k].sites);
      }
    }
    assert all[..|all|] == all;
  }

  lemma {:induction false} OneInstance(all: seq<Instance>, k: nat)
    requires k < |all|
    ensures all[..k + 1] == all[..k] + [all[k]]
    ensures (exists i :: i in all[..k + 1] && i.top && Backed(i)) <==>
            (exists i :: i in all[..k] && i.top && Backed(i)) || (all[k].top && Backed(all[k]))
  {
    forall i ensures i in all[..k + 1] <==> i in all[..k] || i == all[k] { InFrontOrLast(all[..k + 1], i); }
  }

  // ---- what a scope certifies --------------------------------------------------------------

  /**
   A scope is complete exactly when a top-level run was asked for and everything asked for is proven:
   owned on record, with every transcript of every owning invocation there, non-empty and readable.
   */
  lemma {:induction false} CompleteIff(top: Instance, lanes: seq<Instance>, s: Scope)
    requires Reports(Requested(top, lanes), TopOk(top), s)
    ensures s.complete <==> top.name != "" && forall i :: i in Requested(top, lanes) ==> Proven(i)
  {
    var all := Requested(top, lanes);
    LabelsExact(all);
    forall i | i in all ensures Proven(i) <==> Captured(i) && !Inferred(i) { ProvenIff(i); }
    ProvenIff(top);
    if s.missing != [] {
      assert s.missing[0] in s.missing;
    } else if s.inferred != [] {
      assert s.inferred[0] in s.inferred;
    } else {
      forall i | i in all ensures Proven(i) {
        assert i.name !in s.missing && i.name !in s.inferred;
      }
    }
  }

  /** Every instance asked for is resolved or missing, and nothing else is either. */
  lemma {:induction false} ResolvedOrMissing(all: seq<Instance>, topOk: bool, s: Scope)
    requires Reports(all, topOk, s)
    ensures forall x :: x in s.requested <==> x in s.resolved || x in s.missing
    ensures forall x :: x in s.inferred ==> x in s.requested
  {
    LabelsExact(all);
  }

  predicate DistinctNames(all: seq<Instance>) {
    forall a, b :: 0 <= a < b < |all| ==> all[a].name != all[b].name
  }

  /** With distinct names, resolved and missing split what was asked for, each name in one, once. */
  lemma {:induction false} Partition(all: seq<Instance>)
    requires DistinctNames(all)
    ensures multiset(ResolvedLabels(all)) + multiset(MissingLabels(all)) == multiset(Labels(all))
    ensures forall x :: multiset(Labels(all))[x] <= 1
  {
    if all != [] {
      var n := |all| - 1;
      var i := all[n];
      Partition(all[..n]);
      LabelsExact(all[..n]);
      assert i.name !in Labels(all[..n]);
      assert i.name !in MissingLabels(all[..n]);
    }
  }

  /**
   A scope that claims anything has globs, each once; one of them leads to the top-level run's own
   readable transcripts; and a glob is listed exactly when usable evidence of some instance offers it.
   */
  lemma {:induction false} GlobsBacked(top: Instance, lanes: seq<Instance>, s: Scope)
    requires Reports(Requested(top, lanes), TopOk(top), s) && s.kind != UnresolvedScope
    ensures forall a, b :: 0 <= a < b < |s.globs| ==> s.globs[a] != s.globs[b]
    ensures exists g :: g in s.globs && g in Offered(top)
    ensures forall g :: g in s.globs <==> exists i :: i in Requested(top, lanes) && g in Offered(i)
  {
    OfferedExact(Requested(top, lanes));
    assert top in Requested(top, lanes);
    assert Offered(top)[0] in Offered(top);
  }

  /** What an instance offers is the glob of each usable invocation that owns it, or its usable fallback. */
  lemma {:induction false} OfferedIff(i: Instance, g: string)
    ensures g in Offered(i) <==>
            if i.sites != [] then exists s :: s in i.sites && s.filesExist && s.glob == g
            else Fallback(i).Some? && Fallback(i).value.usable && Fallback(i).value.glob == g
  {
    if i.sites != [] {
      var u := Usable(i.sites);
      if g in Offered(i) {
        var k :| 0 <= k < |Globs(u)| && Globs(u)[k] == g;
        assert u[k] in u;
      }
      if s :| s in i.sites && s.filesExist && s.glob == g {
        assert s in u;
        var k :| 0 <= k < |u| && u[k] == s;
        assert Globs(u)[k] == g;
      }
    }
  }

  lemma {:induction false} AllProvenIff(all: seq<Instance>, w: seq<Warning>)
    requires Warns(all, w)
    ensures w == [] <==> forall i :: i in all ==> Proven(i)
  {
    if w != [] {
      assert w[0] in w && Warned(w, w[0].name);
      assert Unproven(all, w[0].name);
    } else {
      forall i | i in all ensures Proven(i) {
        assert !Warned(w, i.name);
        assert !Unproven(all, i.name);
      }
    }
  }

  /**
   A scope is silent exactly when every instance asked for is proven and no journal was met that claims or
   mentions a requested directory without being adopted. Asked for by name, a silent scope is complete.
   */
  lemma {:induction false} SilentIff(top: Instance, lanes: seq<Instance>, s: Scope)
    requires Reports(Requested(top, lanes), TopOk(top), s) && s.warnings == AllWarnings(top, lanes)
    ensures s.warnings == [] <==>
            (forall i :: i in Requested(top, lanes) ==> Proven(i)) && Undisturbed(Requested(top, lanes))
    ensures top.name != "" ==> (s.warnings == [] <==> s.complete && Undisturbed(Requested(top, lanes)))
  {
    var all := Requested(top, lanes);
    CompleteIff(top, lanes, s);
    ProvenIff(top);
    InstancesWarned(all);
    AllProvenIff(all, InstanceWarnings(all));
    JournalsSilentIff(all);
    WarningCount(top, lanes);
  }

  lemma {:induction false} WarningCount(top: Instance, lanes: seq<Instance>)
    ensures var all := Requested(top, lanes);
            |AllWarnings(top, lanes)| == |InstanceWarnings(all)| + |JournalWarnings(all)|
                                         + if TopOk(top) || top.name == "" then 0 else 1
  {
  }

  /** A call that asks for nothing is silent, and claims nothing. */
  lemma {:induction false} SilentNotComplete(top: Instance, s: Scope)
    requires top.name == "" && Reports(Requested(top, []), TopOk(top), s) && s.warnings == AllWarnings(top, [])
    ensures s.warnings == [] && !s.complete && s.kind == UnresolvedScope
  {
    SilentIff(top, [], s);
    CompleteIff(top, [], s);
  }

  /** So a complete scope need not be silent: one invocation on record, and one journal that mentions the run. */
  lemma {:induction false} CompleteNotSilent(name: string, glob: string, run: string, s: Scope)
    requires name != ""
    requires var top := Instance(name, true, [Site(run, glob, Record, true, 0, 0)], None, NoAnchor, [], [run]);
             Reports(Requested(top, []), TopOk(top), s) && s.warnings == AllWarnings(top, [])
    ensures s.complete && s.warnings == [Warning(MentionOnly, run)]
  {
    var site := Site(run, glob, Record, true, 0, 0);
    var top := Instance(name, true, [site], None, NoAnchor, [], [run]);
    ProvenAlone(top, site);
    LoneTop(top, run, s);
  }

  lemma {:induction false} ProvenAlone(i: Instance, site: Site)
    requires i.sites == [site] && site.filesExist && !site.Holed() && site.evidence == Record
    ensures Proven(i)
  {
  }

  lemma {:induction false} LoneTop(top: Instance, run: string, s: Scope)
    requires top.name != "" && top.top && Proven(top) && top.conflicting == [] && top.mentioned == [run]
    requires Reports(Requested(top, []), TopOk(top), s)
    requires s.warnings == AllWarnings(top, [])
    ensures s.complete && s.warnings == [Warning(MentionOnly, run)]
  {
    assert Requested(top, []) == [top];
    CompleteIff(top, [], s);
    ProvenIff(top);
    InstancesWarned([top]);
    AllProvenIff([top], InstanceWarnings([top]));
    OneMention(top, run);
    JoinNothing([Warning(MentionOnly, run)]);
  }

  lemma {:induction false} OneMention(top: Instance, run: string)
    requires top.conflicting == [] && top.mentioned == [run]
    ensures JournalWarnings([top]) == [Warning(MentionOnly, run)]
  {
    var none: seq<Instance> := [];
    assert [top][..0] == none && AllMentioned(none) == [] && AllConflicting(none) == [];
    assert AllMentioned([top]) == [run];
    OneSorted(run);
  }

  lemma {:induction false} OneSorted(run: string)
    ensures Sort(Deduplicated([run]), StringLe) == [run]
  {
    assert [run][..0] == [] && [run][1..] == [];
    assert Deduplicated([run]) == [run];
    assert Sort([run], StringLe) == Insert(run, Sort([run][1..], StringLe), StringLe);
  }
}
