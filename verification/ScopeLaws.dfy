/**
 What a scope reports, told from the evidence (interface/claude_trace_mirror.py, resolve_run_scope): which warnings
 there are, about what and in which order; how the top-level run was identified; which kind of scope it is.
 */
module ScopeLaws {
  import opened Sorting
  import opened Sequences
  import opened Wrappers
  import opened Scope

  // ---- one instance ----------------------------------------------------------------------------------------

  /** Nothing owns the instance, and this is what it is resolved to instead. */
  ghost predicate FellBackTo(i: Instance, f: Found) {
    && i.sites == []
    && (i.one == Some(f) || (i.one.None? && i.top && i.enclosing == Anchored(f)))
  }

  /** When each reason is given. */
  ghost predicate Calls(i: Instance, reason: Reason) {
    match reason
    case PartlyCaptured => exists s :: s in i.sites && s.filesExist && (s.empty > 0 || s.unreadable > 0)
    case UnattributedOwner => exists s :: s in i.sites && s.filesExist && s.evidence == Journal(false)
    case AbsentTranscripts => exists s :: s in i.sites && !s.filesExist
    case JournalOnly => exists s :: s in i.sites && s.filesExist && s.evidence.Journal?
    case AmbiguousTop => i.sites == [] && i.one.None? && i.top && i.enclosing == Ambiguous
    case ContainedTop => i.sites == [] && i.one.None? && i.top && i.enclosing.Anchored?
    case NoRecord => i.sites == [] && i.one.None? && !(i.top && i.enclosing.Anchored?)
    case NoTranscripts => exists f :: FellBackTo(i, f) && !f.usable
    case PartlyFlushed => exists f :: FellBackTo(i, f) && f.usable && (f.empty > 0 || f.unreadable > 0)
    case _ => false
  }

  /** An instance is warned of for exactly these reasons. */
  lemma {:induction false} WarnedForIff(i: Instance, reason: Reason)
    ensures Warning(reason, i.name) in WarningsOf(i) <==> Calls(i, reason)
  {
    if i.sites != [] {
      OwnedForIff(i, reason);
    } else if Fallback(i).Some? {
      assert FellBackTo(i, Fallback(i).value);
      assert forall f :: FellBackTo(i, f) ==> f == Fallback(i).value;
    }
  }

  lemma {:induction false} OwnedForIff(i: Instance, reason: Reason)
    requires i.sites != []
    ensures Warning(reason, i.name) in OwnedWarnings(i) <==> Calls(i, reason)
  {
    OwnedAre(i, Warning(reason, i.name));
    match reason
    case PartlyCaptured =>
      assert SomeHoled(i.sites) <==> exists s :: s in i.sites && s.filesExist && (s.empty > 0 || s.unreadable > 0);
    case UnattributedOwner =>
      assert SomeUnsigned(i.sites) <==> exists s :: s in i.sites && s.filesExist && s.evidence == Journal(false);
    case JournalOnly =>
      assert Inferred(i) <==> exists s :: s in i.sites && s.filesExist && s.evidence.Journal?;
    case _ =>
  }

  lemma {:induction false} OwnedAre(i: Instance, w: Warning)
    ensures w in OwnedWarnings(i) <==>
            && w.name == i.name
            && (|| (w.reason == PartlyCaptured && SomeHoled(i.sites))
                || (w.reason == UnattributedOwner && SomeUnsigned(i.sites))
                || (w.reason == AbsentTranscripts && SomeGone(i.sites))
                || (w.reason == JournalOnly && Inferred(i)))
  {
  }

  /** The reasons come in this order. */
  function Place(reason: Reason): int {
    match reason
    case PartlyCaptured => 0
    case UnattributedOwner => 1
    case AbsentTranscripts => 2
    case JournalOnly => 3
    case AmbiguousTop => 0
    case ContainedTop => 0
    case _ => 1
  }

  ghost predicate InPlace(ws: seq<Warning>, lo: int, hi: int) {
    && (forall a :: 0 <= a < |ws| ==> lo <= Place(ws[a].reason) < hi)
    && (forall a, b :: 0 <= a < b < |ws| ==> Place(ws[a].reason) < Place(ws[b].reason))
  }

  lemma {:induction false} InPlaceJoin(x: seq<Warning>, y: seq<Warning>, lo: int, mid: int, hi: int)
    requires InPlace(x, lo, mid) && InPlace(y, mid, hi) && lo <= mid <= hi
    ensures InPlace(x + y, lo, hi)
  {
  }

  lemma {:induction false} ReasonsInOrder(i: Instance)
    ensures InPlace(WarningsOf(i), 0, 4)
  {
    if i.sites != [] {
      OwnedInOrder(Note(SomeHoled(i.sites), PartlyCaptured, i), Note(SomeUnsigned(i.sites), UnattributedOwner, i),
                   Note(SomeGone(i.sites), AbsentTranscripts, i), Note(Inferred(i), JournalOnly, i));
    }
  }

  lemma {:induction false} OwnedInOrder(a: seq<Warning>, b: seq<Warning>, c: seq<Warning>, d: seq<Warning>)
    requires InPlace(a, 0, 1) && InPlace(b, 1, 2) && InPlace(c, 2, 3) && InPlace(d, 3, 4)
    ensures InPlace(a + b + c + d, 0, 4)
  {
    InPlaceJoin(a, b, 0, 1, 2);
    InPlaceJoin(a + b, c, 0, 2, 3);
    InPlaceJoin(a + b + c, d, 0, 3, 4);
  }

  /** How the top-level run was identified. */
  lemma {:induction false} AnchorIs(i: Instance)
    ensures var journal := exists s :: s in i.sites && s.filesExist && s.evidence.Journal?;
            var record := exists s :: s in i.sites && s.filesExist && s.evidence.Record?;
            var contained := i.sites == [] && i.one.None? && i.top && i.enclosing.Anchored?;
            && (AnchorOf(i) == LiveJournal <==> journal && !record)
            && (AnchorOf(i) == RecordAndJournal <==> journal && record)
            && (AnchorOf(i) == ExpRootAncestor <==> contained)
            && (AnchorOf(i) == EvalDir <==> !journal && !contained)
  {
    assert forall s :: s in Usable(i.sites) <==> s in i.sites && s.filesExist;
  }

  // ---- all instances ---------------------------------------------------------------------------------------

  /** The instances are warned of one after the other. */
  lemma {:induction false} WarningsJoin(a: seq<Instance>, b: seq<Instance>)
    ensures InstanceWarnings(a + b) == InstanceWarnings(a) + InstanceWarnings(b)
  {
    if b == [] {
      JoinNothing(a);
    } else {
      var n := |b| - 1;
      FrontOfJoin(a, b);
      WarningsJoin(a, b[..n]);
      JoinAssociates(InstanceWarnings(a), InstanceWarnings(b[..n]), WarningsOf(b[n]));
    }
  }

  lemma {:induction false} WarningsOne(i: Instance)
    ensures InstanceWarnings([i]) == WarningsOf(i)
  {
    assert [i][..0] == [];
  }

  /** The labels asked for, resolved and inferred are in the order of the instances. */
  lemma {:induction false} LabelsJoin(a: seq<Instance>, b: seq<Instance>)
    ensures Labels(a + b) == Labels(a) + Labels(b)
    ensures ResolvedLabels(a + b) == ResolvedLabels(a) + ResolvedLabels(b)
    ensures InferredLabels(a + b) == InferredLabels(a) + InferredLabels(b)
  {
    if b == [] {
      JoinNothing(a);
    } else {
      var n := |b| - 1;
      FrontOfJoin(a, b);
      LabelsJoin(a, b[..n]);
      JoinAssociates(Labels(a), Labels(b[..n]), [b[n].name]);
      JoinAssociates(ResolvedLabels(a), ResolvedLabels(b[..n]), if Captured(b[n]) then [b[n].name] else []);
      JoinAssociates(InferredLabels(a), InferredLabels(b[..n]), if Inferred(b[n]) then [b[n].name] else []);
    }
  }

  lemma {:induction false} LabelsOne(i: Instance)
    ensures Labels([i]) == [i.name]
    ensures ResolvedLabels([i]) == if Captured(i) then [i.name] else []
    ensures InferredLabels([i]) == if Inferred(i) then [i.name] else []
  {
    assert [i][..0] == [];
  }

  /** An instance that is not captured is missing; one that something owns is not listed behind its own name again. */
  ghost predicate Missed(all: seq<Instance>, k: int) {
    && 0 <= k < |all| && !Captured(all[k])
    && (all[k].sites != [] ==> forall j :: 0 <= j < k && all[j].name == all[k].name ==> Captured(all[j]))
  }

  lemma {:induction false} MissingOneByOne(all: seq<Instance>)
    requires all != []
    ensures var n := |all| - 1;
            MissingLabels(all) == MissingLabels(all[..n]) + if Missed(all, n) then [all[n].name] else []
  {
    var n := |all| - 1;
    LabelsExact(all[..n]);
    assert forall i :: i in all[..n] <==> exists j :: 0 <= j < n && all[j] == i;
  }

  /** The instance has transcripts of its own that can be read. */
  lemma {:induction false} BackedIff(i: Instance)
    ensures Backed(i) <==>
            if i.sites != [] then exists s :: s in i.sites && s.filesExist
            else exists f :: FellBackTo(i, f) && f.usable
  {
    if i.sites != [] {
      if Usable(i.sites) != [] { assert Usable(i.sites)[0] in Usable(i.sites); }
    } else if Fallback(i).Some? {
      assert FellBackTo(i, Fallback(i).value);
    }
  }

  /** All of them can. */
  lemma {:induction false} CapturedIff(i: Instance)
    ensures Captured(i) <==>
            if i.sites != [] then forall s :: s in i.sites ==> s.filesExist && s.empty == 0 && s.unreadable == 0
            else exists f :: FellBackTo(i, f) && f.usable && f.empty == 0 && f.unreadable == 0
  {
    if i.sites == [] && Fallback(i).Some? { assert FellBackTo(i, Fallback(i).value); }
  }

  /** Its ownership is not on record: it rests on a journal, or on the run that encloses it. */
  lemma {:induction false} InferredIff(i: Instance)
    ensures Inferred(i) <==>
            || (exists s :: s in i.sites && s.filesExist && s.evidence.Journal?)
            || (i.sites == [] && i.one.None? && i.top && i.enclosing.Anchored?)
  {
  }

  /** The globs are taken from one instance after the other, and only their repetitions left out. */
  lemma {:induction false} OfferedJoin(a: seq<Instance>, b: seq<Instance>)
    ensures AllOffered(a + b) == AllOffered(a) + AllOffered(b)
    ensures Deduplicated(AllOffered(a)) <= Deduplicated(AllOffered(a + b))
  {
    if b == [] {
      JoinNothing(a);
    } else {
      var n := |b| - 1;
      FrontOfJoin(a, b);
      OfferedJoin(a, b[..n]);
      JoinAssociates(AllOffered(a), AllOffered(b[..n]), Offered(b[n]));
      DeduplicatedGrows(AllOffered(a + b[..n]), Offered(b[n]));
    }
  }

  lemma {:induction false} DeduplicatedGrows(s: seq<string>, t: seq<string>)
    ensures Deduplicated(s) <= Deduplicated(s + t)
  {
    if t == [] {
      JoinNothing(s);
    } else {
      FrontOfJoin(s, t);
      DeduplicatedGrows(s, t[..|t| - 1]);
    }
  }

  lemma {:induction false} OfferedOne(i: Instance)
    ensures AllOffered([i]) == Offered(i)
  {
    assert [i][..0] == [];
  }

  /** Those of one instance are in the order of the invocations that own it. */
  lemma {:induction false} UsableJoin(a: seq<Site>, b: seq<Site>)
    ensures Usable(a + b) == Usable(a) + Usable(b)
    ensures Globs(Usable(a + b)) == Globs(Usable(a)) + Globs(Usable(b))
  {
    if b == [] {
      JoinNothing(a);
    } else {
      var n := |b| - 1;
      FrontOfJoin(a, b);
      UsableJoin(a, b[..n]);
      JoinAssociates(Usable(a), Usable(b[..n]), if b[n].filesExist then [b[n]] else []);
    }
  }

  lemma {:induction false} UsableOne(s: Site)
    ensures Usable([s]) == if s.filesExist then [s] else []
  {
    assert [s][..0] == [];
  }

  /** What kind of scope it is. */
  lemma {:induction false} KindIff(top: Instance, lanes: seq<Instance>, s: Scope)
    requires Reports(Requested(top, lanes), TopOk(top), s)
    ensures s.kind == UnresolvedScope <==> top.name == "" || !Backed(top)
    ensures s.kind == UnresolvedScope ==> s.globs == []
    ensures s.kind == RunScoped <==> top.name != "" && forall i :: i in Requested(top, lanes) ==> Proven(i)
    ensures s.kind == PartialScope <==>
            top.name != "" && Backed(top) && exists i :: i in Requested(top, lanes) && !Captured(i)
  {
    CompleteIff(top, lanes, s);
    ProvenIff(top);
    assert top.name != "" ==> top in Requested(top, lanes);
    NothingMissingIff(Requested(top, lanes));
  }

  lemma {:induction false} NothingMissingIff(all: seq<Instance>)
    ensures MissingLabels(all) == [] <==> forall i :: i in all ==> Captured(i)
  {
    LabelsExact(all);
    EmptyIff(MissingLabels(all));
    if exists i :: i in all && !Captured(i) {
      var i :| i in all && !Captured(i);
      assert i.name in MissingLabels(all);
    }
  }

  // ---- journals that were not adopted ------------------------------------------------------------------------

  /** An instance came across this journal. */
  ghost predicate CameAcross(all: seq<Instance>, w: Warning) {
    match w.reason
    case ConflictingRecord(dir) => exists i :: i in all && Elsewhere(w.name, dir) in i.conflicting
    case MentionOnly => exists i :: i in all && w.name in i.mentioned
    case _ => false
  }

  /** There is one warning for each journal that some instance came across, and no other. */
  lemma {:induction false} JournalsWarnedIff(all: seq<Instance>, w: Warning)
    ensures w in JournalWarnings(all) <==> CameAcross(all, w)
    ensures Distinct(JournalWarnings(all))
  {
    var cs := Sort(Deduplicated(AllConflicting(all)), ElsewhereLe);
    var ms := Sort(Deduplicated(AllMentioned(all)), StringLe);
    SortDistinct(Deduplicated(AllConflicting(all)), ElsewhereLe);
    SortDistinct(Deduplicated(AllMentioned(all)), StringLe);
    DistinctWarnings(cs, ms);
    InJoined(ConflictWarnings(cs), MentionWarnings(ms), w);
    ConflictWarnedIff(all, w);
    MentionWarnedIff(all, w);
  }

  lemma {:induction false} ConflictWarnedIff(all: seq<Instance>, w: Warning)
    ensures w in ConflictWarnings(Sort(Deduplicated(AllConflicting(all)), ElsewhereLe)) <==>
            w.reason.ConflictingRecord? && CameAcross(all, w)
  {
    SortPermutes(Deduplicated(AllConflicting(all)), ElsewhereLe);
    ConflictWarned(Sort(Deduplicated(AllConflicting(all)), ElsewhereLe), w);
    if w.reason.ConflictingRecord? { ConflictFrom(all, Elsewhere(w.name, w.reason.dir)); }
  }

  lemma {:induction false} MentionWarnedIff(all: seq<Instance>, w: Warning)
    ensures w in MentionWarnings(Sort(Deduplicated(AllMentioned(all)), StringLe)) <==>
            w.reason.MentionOnly? && CameAcross(all, w)
  {
    SortPermutes(Deduplicated(AllMentioned(all)), StringLe);
    MentionWarned(Sort(Deduplicated(AllMentioned(all)), StringLe), w);
    MentionFrom(all, w.name);
  }

  lemma {:induction false} DistinctWarnings(cs: seq<Elsewhere>, ms: seq<string>)
    requires Distinct(cs) && Distinct(ms)
    ensures Distinct(ConflictWarnings(cs) + MentionWarnings(ms))
  {
  }

  lemma {:induction false} InJoined(a: seq<Warning>, b: seq<Warning>, w: Warning)
    ensures w in a + b <==> w in a || w in b
  {
  }

  lemma {:induction false} ConflictWarned(cs: seq<Elsewhere>, w: Warning)
    ensures w in ConflictWarnings(cs) <==> w.reason.ConflictingRecord? && Elsewhere(w.name, w.reason.dir) in cs
  {
    if w.reason.ConflictingRecord? && Elsewhere(w.name, w.reason.dir) in cs {
      var k :| 0 <= k < |cs| && cs[k] == Elsewhere(w.name, w.reason.dir);
      assert ConflictWarnings(cs)[k] == w;
    }
  }

  lemma {:induction false} MentionWarned(runs: seq<string>, w: Warning)
    ensures w in MentionWarnings(runs) <==> w.reason.MentionOnly? && w.name in runs
  {
    if w.reason.MentionOnly? && w.name in runs {
      var k :| 0 <= k < |runs| && runs[k] == w.name;
      assert MentionWarnings(runs)[k] == w;
    }
  }

  lemma {:induction false} ConflictFrom(all: seq<Instance>, e: Elsewhere)
    ensures e in AllConflicting(all) <==> exists i :: i in all && e in i.conflicting
  {
    if all != [] {
      ConflictFrom(all[..|all| - 1], e);
      forall i ensures i in all <==> i in all[..|all| - 1] || i == all[|all| - 1] { InFrontOrLast(all, i); }
    }
  }

  lemma {:induction false} MentionFrom(all: seq<Instance>, run: string)
    ensures run in AllMentioned(all) <==> exists i :: i in all && run in i.mentioned
  {
    if all != [] {
      MentionFrom(all[..|all| - 1], run);
      forall i ensures i in all <==> i in all[..|all| - 1] || i == all[|all| - 1] { InFrontOrLast(all, i); }
    }
  }

  /** Conflicts before mentions, both by run in the order of characters, and conflicts of one run by directory. */
  ghost predicate WarnedFirst(x: Warning, y: Warning) {
    if x.reason.ConflictingRecord? && y.reason.ConflictingRecord? then
      NotAfter(x.name, y.name) && (x.name == y.name ==> NotAfter(x.reason.dir, y.reason.dir))
    else if x.reason.MentionOnly? && y.reason.MentionOnly? then NotAfter(x.name, y.name)
    else x.reason.ConflictingRecord? && y.reason.MentionOnly?
  }

  lemma {:induction false} JournalsInOrder(all: seq<Instance>, a: nat, b: nat)
    requires a < b < |JournalWarnings(all)|
    ensures WarnedFirst(JournalWarnings(all)[a], JournalWarnings(all)[b])
  {
    ElsewhereRanks();
    StringLeOrders();
    SortSorts(Deduplicated(AllConflicting(all)), ElsewhereLe);
    SortSorts(Deduplicated(AllMentioned(all)), StringLe);
    JoinedInOrder(Sort(Deduplicated(AllConflicting(all)), ElsewhereLe),
                  Sort(Deduplicated(AllMentioned(all)), StringLe), a, b);
  }

  lemma {:induction false} JoinedInOrder(cs: seq<Elsewhere>, ms: seq<string>, a: nat, b: nat)
    requires Sorted(cs, ElsewhereLe) && Sorted(ms, StringLe) && a < b < |cs| + |ms|
    ensures var ws := ConflictWarnings(cs) + MentionWarnings(ms); WarnedFirst(ws[a], ws[b])
  {
    if b < |cs| {
      ElsewhereLeIs(cs[a], cs[b]);
    } else if a >= |cs| {
      StringLeIff(ms[a - |cs|], ms[b - |cs|]);
    }
  }

  lemma {:induction false} ElsewhereLeIs(x: Elsewhere, y: Elsewhere)
    requires ElsewhereLe(x, y)
    ensures NotAfter(x.runId, y.runId) && (x.runId == y.runId ==> NotAfter(x.dir, y.dir))
  {
    StringLeIff(x.runId, y.runId);
    StringLeIff(x.dir, y.dir);
    assert x.runId <= x.runId;
  }

  lemma {:induction false} ElsewhereRanks()
    ensures Ranking(ElsewhereLe)
  {
    StringLeOrders();
  }

  // ---- the whole run --------------------------------------------------------------------------------------------

  /** What is asked for: the top-level run, then the lanes in their order, as far as they have names. */
  lemma {:induction false} RequestedInOrder(top: Instance, lanes: seq<Instance>, lane: Instance)
    ensures Requested(top, []) == if top.name == "" then [] else [top]
    ensures Requested(top, lanes + [lane]) == Requested(top, lanes) + if lane.name == "" then [] else [lane]
  {
    FrontOfMore(lanes, lane);
  }

  /** That the run itself is not resolved is said once, at the end. */
  lemma {:induction false} TopWarnedIff(top: Instance, lanes: seq<Instance>, w: Warning)
    requires w.reason == TopUnresolved
    ensures var ws := AllWarnings(top, lanes);
            && (w in ws <==> w.name == top.name && top.name != "" && !Backed(top))
            && (forall a :: 0 <= a < |ws| && ws[a] == w ==> a == |ws| - 1)
  {
    var all := Requested(top, lanes);
    OnlyAtTheEnd(all, w);
    LastOnly(InstanceWarnings(all) + JournalWarnings(all),
             if TopOk(top) || top.name == "" then [] else [Warning(TopUnresolved, top.name)], w);
  }

  lemma {:induction false} OnlyAtTheEnd(all: seq<Instance>, w: Warning)
    requires w.reason == TopUnresolved
    ensures w !in InstanceWarnings(all) + JournalWarnings(all)
  {
    InstanceReason(all, w);
    JournalsWarnedIff(all, w);
    InJoined(InstanceWarnings(all), JournalWarnings(all), w);
  }

  lemma {:induction false} LastOnly(a: seq<Warning>, b: seq<Warning>, w: Warning)
    requires w !in a && |b| <= 1
    ensures w in a + b <==> w in b
    ensures forall k :: 0 <= k < |a + b| && (a + b)[k] == w ==> k == |a + b| - 1
  {
    forall k | 0 <= k < |a| ensures (a + b)[k] != w { assert a[k] in a; }
  }

  /** What is warned of about instances names one of them, and a reason that one of them calls for. */
  lemma {:induction false} InstanceReason(all: seq<Instance>, w: Warning)
    ensures w in InstanceWarnings(all) <==> exists i :: i in all && i.name == w.name && Calls(i, w.reason)
  {
    if all != [] {
      var n := |all| - 1;
      InstanceReason(all[..n], w);
      forall i ensures i in all <==> i in all[..n] || i == all[n] { InFrontOrLast(all, i); }
      InJoined(InstanceWarnings(all[..n]), WarningsOf(all[n]), w);
      WarnedOfIff(all[n]);
      WarnedForIff(all[n], w.reason);
      assert w in WarningsOf(all[n]) <==> all[n].name == w.name && Calls(all[n], w.reason);
    }
  }

  /** What is said about instances comes first, then what is said about journals, then about the whole run. */
  function Chapter(reason: Reason): int {
    match reason
    case TopUnresolved => 2
    case ConflictingRecord(_) => 1
    case MentionOnly => 1
    case _ => 0
  }

  ghost predicate InChapter(ws: seq<Warning>, c: int) { forall w :: w in ws ==> Chapter(w.reason) == c }

  lemma {:induction false} WarningsByChapter(top: Instance, lanes: seq<Instance>, a: nat, b: nat)
    requires a < b < |AllWarnings(top, lanes)|
    ensures Chapter(AllWarnings(top, lanes)[a].reason) <= Chapter(AllWarnings(top, lanes)[b].reason)
  {
    var all := Requested(top, lanes);
    forall w | w in InstanceWarnings(all) ensures Chapter(w.reason) == 0 {
      InstanceReason(all, w);
      var i :| i in all && i.name == w.name && Calls(i, w.reason);
    }
    forall w | w in JournalWarnings(all) ensures Chapter(w.reason) == 1 { JournalsWarnedIff(all, w); }
    ThreeChapters(InstanceWarnings(all), JournalWarnings(all),
                  if TopOk(top) || top.name == "" then [] else [Warning(TopUnresolved, top.name)], a, b);
  }

  lemma {:induction false} ThreeChapters(x: seq<Warning>, y: seq<Warning>, z: seq<Warning>, a: nat, b: nat)
    requires InChapter(x, 0) && InChapter(y, 1) && InChapter(z, 2) && a < b < |x + y + z|
    ensures Chapter((x + y + z)[a].reason) <= Chapter((x + y + z)[b].reason)
  {
    var ws := x + y + z;
    assert a < |x| ==> ws[a] in x;
    assert |x| <= a < |x| + |y| ==> ws[a] in y;
    assert |x| + |y| <= a ==> ws[a] in z;
    assert b < |x| ==> ws[b] in x;
    assert |x| <= b < |x| + |y| ==> ws[b] in y;
    assert |x| + |y| <= b ==> ws[b] in z;
  }
}
