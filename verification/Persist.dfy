/**
 Atomic replacement of a run's export (interface/geak_report.py, _persist): stage the new export
 beside the old one, retire the old, promote the new, roll back on failure.

 The protocol is modelled step by step for any number of processes, each with its own pid-named
 stage and retired directory, interleaved in any way, any call failing and any process killed
 between or inside its steps. `ExportDir.Persist` is one undisturbed call.
 */
module Persist {

  type Pid = nat

  /** A directory: missing, holding something incomplete, or holding the complete export `id`. */
  datatype Slot = Absent | Partial | Whole(id: nat)

  /** Where a process stands inside `_persist`. */
  datatype Pc =
    | Idle
    | ClearStage(id: nat)
    | Staging(id: nat)
    | CheckRoot(id: nat)
    | DropOld(id: nat)
    | Retire(id: nat)
    | Promote(id: nat, retired: bool)
    | Rollback(retired: bool)
    | Restore
    | Cleanup
    | DropRetired

  datatype World = World(root: Slot, stage: map<Pid, Slot>, olds: map<Pid, Slot>, pc: map<Pid, Pc>)
  {
    function Stage(p: Pid): Slot { if p in stage then stage[p] else Absent }

    function Old(p: Pid): Slot { if p in olds then olds[p] else Absent }

    function At(p: Pid): Pc { if p in pc then pc[p] else Idle }

    function Go(p: Pid, next: Pc): World { this.(pc := pc[p := next]) }

    function SetStage(p: Pid, s: Slot): World { this.(stage := stage[p := s]) }

    function SetOld(p: Pid, s: Slot): World { this.(olds := olds[p := s]) }
  }

  const EMPTY := World(Absent, map[], map[], map[])

  /** How a call ends: done, failed, still under way, or never because the process was killed. */
  datatype Outcome = Done | Failed | Underway | Killed

  /** What a deletion that has not run to its end leaves behind. */
  function Shrunk(s: Slot): Slot { if s.Absent? then Absent else Partial }

  /** One step of process `p`; `latest` numbers the export it builds if it starts a call. */
  function Step(w: World, p: Pid, latest: nat, how: Outcome): World {
    if how == Killed then w.Go(p, Idle)
    else
      match w.At(p)
      case Idle => w.Go(p, ClearStage(latest))
      case ClearStage(id) =>
        w.SetStage(p, if how == Done then Absent else Shrunk(w.Stage(p))).Go(p, Staging(id))
      case Staging(id) =>
        if how == Done then w.SetStage(p, Whole(id)).Go(p, CheckRoot(id))
        else w.SetStage(p, Partial).Go(p, if how == Failed then Cleanup else Staging(id))
      case CheckRoot(id) =>
        w.Go(p, if w.root.Absent? then Promote(id, false) else DropOld(id))
      case DropOld(id) =>
        w.SetOld(p, if how == Done then Absent else Shrunk(w.Old(p)))
         .Go(p, if how == Underway then DropOld(id) else Retire(id))
      case Retire(id) =>
        // A rename onto a directory that still holds something fails, and so may any other rename.
        if how == Done && w.root.Whole? && !w.Old(p).Whole?
        then w.SetOld(p, w.root).(root := Absent).Go(p, Promote(id, true))
        else w.Go(p, Idle)
      case Promote(id, retired) =>
        if how == Done && w.root.Absent?
        then w.(root := w.Stage(p)).SetStage(p, Absent).Go(p, if retired then DropRetired else Idle)
        else w.Go(p, Rollback(retired))
      case Rollback(retired) =>
        w.Go(p, if retired && w.root.Absent? then Restore else Cleanup)
      case Restore =>
        if how == Done && w.root.Absent?
        then w.(root := w.Old(p)).SetOld(p, Absent).Go(p, Cleanup)
        else w.Go(p, Idle)
      case Cleanup =>
        w.SetStage(p, if how == Done then Absent else Shrunk(w.Stage(p))).Go(p, Idle)
      case DropRetired =>
        w.SetOld(p, if how == Done then Absent else Shrunk(w.Old(p)))
         .Go(p, if how == Underway then DropRetired else Idle)
  }

  datatype Act = Act(p: Pid, latest: nat, how: Outcome)

  function Run(w: World, acts: seq<Act>): World
    decreases |acts|
  {
    if acts == [] then w else Run(Step(w, acts[0].p, acts[0].latest, acts[0].how), acts[1..])
  }

  // ---- the invariant --------------------------------------------------------------

  predicate HoldsStage(pc: Pc) { pc.CheckRoot? || pc.DropOld? || pc.Retire? || pc.Promote? }

  predicate HoldsRetired(pc: Pc) {
    (pc.Promote? && pc.retired) || (pc.Rollback? && pc.retired) || pc.Restore?
  }

  predicate Deletes(pc: Pc) { pc.DropOld? || pc.DropRetired? }

  ghost predicate Consistent(w: World) {
    && !w.root.Partial?
    && (forall p :: HoldsStage(w.At(p)) ==> w.Stage(p) == Whole(w.At(p).id))
    && (forall p :: HoldsRetired(w.At(p)) ==> w.Old(p).Whole?)
  }

  /** A complete export exists, at the root or retired beside it. */
  ghost predicate HasExport(w: World) { w.root.Whole? || exists p :: w.Old(p).Whole? }

  /** ... at the root, or retired where its process is not about to delete it. */
  ghost predicate Safe(w: World) { w.root.Whole? || exists p :: w.Old(p).Whole? && !Deletes(w.At(p)) }

  /**
   Deleting leaves nothing if it is done; a deletion that fails or is still under way never leaves a complete
   export, and leaves nothing only where there was nothing.
   */
  lemma {:induction false} Deleted(w: World, p: Pid, latest: nat, how: Outcome)
    requires how != Killed
    ensures var pc, v := w.At(p), Step(w, p, latest, how);
            && (pc.ClearStage? || pc.Cleanup? ==>
                  !v.Stage(p).Whole? && (v.Stage(p).Absent? <==> how == Done || w.Stage(p).Absent?))
            && (pc.DropOld? || pc.DropRetired? ==>
                  !v.Old(p).Whole? && (v.Old(p).Absent? <==> how == Done || w.Old(p).Absent?))
  {
  }

  lemma {:induction false} StepLocal(w: World, p: Pid, latest: nat, how: Outcome, q: Pid)
    requires q != p
    ensures var v := Step(w, p, latest, how);
            v.At(q) == w.At(q) && v.Stage(q) == w.Stage(q) && v.Old(q) == w.Old(q)
  {
    PcLocal(w, p, latest, how, q);
    StageLocal(w, p, latest, how, q);
    OldLocal(w, p, latest, how, q);
  }

  lemma {:induction false} PcLocal(w: World, p: Pid, latest: nat, how: Outcome, q: Pid)
    requires q != p
    ensures Step(w, p, latest, how).At(q) == w.At(q)
  {
  }

  lemma {:induction false} StageLocal(w: World, p: Pid, latest: nat, how: Outcome, q: Pid)
    requires q != p
    ensures Step(w, p, latest, how).Stage(q) == w.Stage(q)
  {
  }

  lemma {:induction false} OldLocal(w: World, p: Pid, latest: nat, how: Outcome, q: Pid)
    requires q != p
    ensures Step(w, p, latest, how).Old(q) == w.Old(q)
  {
  }

  lemma {:induction false} StepConsistent(w: World, p: Pid, latest: nat, how: Outcome)
    requires Consistent(w)
    ensures Consistent(Step(w, p, latest, how))
  {
    var v := Step(w, p, latest, how);
    StepOwn(w, p, latest, how);
    forall q
      ensures HoldsStage(v.At(q)) ==> v.Stage(q) == Whole(v.At(q).id)
      ensures HoldsRetired(v.At(q)) ==> v.Old(q).Whole?
    {
      if q != p { StepLocal(w, p, latest, how, q); }
    }
  }

  /** What a step leaves true of the process that takes it. */
  lemma {:induction false} StepOwn(w: World, p: Pid, latest: nat, how: Outcome)
    requires Consistent(w)
    ensures var v := Step(w, p, latest, how);
            && !v.root.Partial?
            && (HoldsStage(v.At(p)) ==> v.Stage(p) == Whole(v.At(p).id))
            && (HoldsRetired(v.At(p)) ==> v.Old(p).Whole?)
  {
  }

  lemma {:induction false} StepSafe(w: World, p: Pid, latest: nat, how: Outcome)
    requires Consistent(w) && Safe(w)
    ensures Safe(Step(w, p, latest, how))
  {
    var v := Step(w, p, latest, how);
    if !v.root.Whole? {
      if w.root.Whole? {
        assert v.Old(p).Whole? && !Deletes(v.At(p));     // it was retired just now
      } else {
        var q :| w.Old(q).Whole? && !Deletes(w.At(q));
        if q != p { StepLocal(w, p, latest, how, q); }
        assert v.Old(q).Whole? && !Deletes(v.At(q));
      }
    }
  }

  lemma {:induction false} StepExport(w: World, p: Pid, latest: nat, how: Outcome)
    requires Consistent(w) && (HasExport(w) ==> Safe(w))
    ensures HasExport(Step(w, p, latest, how)) ==> Safe(Step(w, p, latest, how))
  {
    var v := Step(w, p, latest, how);
    if HasExport(w) {
      StepSafe(w, p, latest, how);
    } else if HasExport(v) && !v.root.Whole? {
      var q :| v.Old(q).Whole?;
      if q != p { StepLocal(w, p, latest, how, q); }
    }
  }

  /** In every reachable state the root is missing or complete, and an export that exists is safe. */
  lemma {:induction false} RunInvariant(w: World, acts: seq<Act>)
    requires Consistent(w) && (HasExport(w) ==> Safe(w))
    ensures Consistent(Run(w, acts)) && (HasExport(Run(w, acts)) ==> Safe(Run(w, acts)))
    decreases |acts|
  {
    if acts != [] {
      StepConsistent(w, acts[0].p, acts[0].latest, acts[0].how);
      StepExport(w, acts[0].p, acts[0].latest, acts[0].how);
      RunInvariant(Step(w, acts[0].p, acts[0].latest, acts[0].how), acts[1..]);
    }
  }

  lemma {:induction false} SafeStays(w: World, acts: seq<Act>)
    requires Consistent(w) && Safe(w)
    ensures Safe(Run(w, acts))
    decreases |acts|
  {
    if acts != [] {
      StepConsistent(w, acts[0].p, acts[0].latest, acts[0].how);
      StepSafe(w, acts[0].p, acts[0].latest, acts[0].how);
      SafeStays(Step(w, acts[0].p, acts[0].latest, acts[0].how), acts[1..]);
    }
  }

  /**
   Whatever processes run `_persist`, interleaved, failing and killed in any way: the root, whenever
   it is there, is a complete export; and once a complete export exists at the root or retired beside
   it, one exists for ever.
   */
  lemma {:induction false} ExportNeverLost(acts: seq<Act>, more: seq<Act>)
    ensures !Run(EMPTY, acts).root.Partial?
    ensures HasExport(Run(EMPTY, acts)) ==> HasExport(Run(EMPTY, acts + more))
  {
    RunInvariant(EMPTY, acts);
    RunConcat(EMPTY, acts, more);
    if HasExport(Run(EMPTY, acts)) { SafeStays(Run(EMPTY, acts), more); }
  }

  lemma {:induction false} RunConcat(w: World, a: seq<Act>, b: seq<Act>)
    ensures Run(w, a + b) == Run(Run(w, a), b)
    decreases |a|
  {
    if a == [] {
      assert a + b == b;
    } else {
      assert (a + b)[1..] == a[1..] + b;
      RunConcat(Step(w, a[0].p, a[0].latest, a[0].how), a[1..], b);
    }
  }

  /** The moment a process promotes, the root is exactly the export it staged. */
  lemma {:induction false} PromotedIsOwn(w: World, p: Pid, latest: nat)
    requires Consistent(w) && w.At(p).Promote? && w.root.Absent?
    ensures Step(w, p, latest, Done).root == Whole(w.At(p).id)
  {
    assert HoldsStage(w.At(p));
  }

  function Times(a: Act, n: nat): seq<Act> { if n == 0 then [] else [a] + Times(a, n - 1) }

  function Again(w: World, a: Act, n: nat): World
    decreases n
  {
    if n == 0 then w else Again(Step(w, a.p, a.latest, a.how), a, n - 1)
  }

  lemma {:induction false} RunTimes(w: World, a: Act, n: nat)
    ensures Run(w, Times(a, n)) == Again(w, a, n)
    decreases n
  {
    if n > 0 {
      assert Times(a, n)[1..] == Times(a, n - 1);
      RunTimes(Step(w, a.p, a.latest, a.how), a, n - 1);
    }
  }

  /**
   The root itself is not always there. Wherever a process finds a complete export and is killed
   between retiring it and promoting its own, the root is missing and the only export is the retired
   one.
   */
  lemma {:induction false} RootCanVanish(w: World, p: Pid, id: nat)
    requires w.root.Whole? && w.At(p) == Idle
    ensures var v := Run(w, Times(Act(p, id, Done), 6) + [Act(p, id, Killed)]);
            v.root == Absent && v.Old(p) == w.root && v.At(p) == Idle
  {
    var b, k := Act(p, id, Done), Act(p, id, Killed);
    RunConcat(w, Times(b, 6), [k]);
    RunTimes(w, b, 6);
    var w3 := Again(w, b, 3);
    AgainMore(w, b, 3, 3);
    assert w3.root == w.root && w3.At(p) == CheckRoot(id);
    var u := Again(w3, b, 3);
    assert u.root == Absent && u.Old(p) == w.root;
    assert Run(u, [k]) == Run(Step(u, p, id, Killed), [k][1..]) && [k][1..] == [];
  }

  lemma {:induction false} AgainMore(w: World, a: Act, m: nat, n: nat)
    ensures Again(w, a, m + n) == Again(Again(w, a, m), a, n)
    decreases m
  {
    if m > 0 { AgainMore(Step(w, a.p, a.latest, a.how), a, m - 1, n); }
  }

  // ---- exactly when the root is missing -----------------------------------------------

  /** The step that moves a complete export from the root aside. */
  predicate Retires(w: World, a: Act) {
    a.how == Done && w.At(a.p).Retire? && w.root.Whole? && !w.Old(a.p).Whole?
  }

  /** A step that puts an export at the root: the promotion of a new one, or the restoring of the old. */
  predicate Places(w: World, a: Act) {
    a.how == Done && w.root.Absent? && (w.At(a.p).Promote? || w.At(a.p).Restore?)
  }

  predicate RetiresAt(w: World, acts: seq<Act>, i: int) { 0 <= i < |acts| && Retires(Run(w, acts[..i]), acts[i]) }

  predicate PlacesAt(w: World, acts: seq<Act>, i: int) { 0 <= i < |acts| && Places(Run(w, acts[..i]), acts[i]) }

  /** The root was vacated and nothing was placed there since; -1 stands for a root missing from the start. */
  ghost predicate VacatedAt(w: World, acts: seq<Act>, i: int) {
    && (RetiresAt(w, acts, i) || (i == -1 && w.root.Absent?))
    && Quiet(w, acts, i)
  }

  lemma {:induction false} StepRoot(w: World, a: Act)
    requires Consistent(w)
    ensures Step(w, a.p, a.latest, a.how).root.Absent? <==> Retires(w, a) || (w.root.Absent? && !Places(w, a))
  {
    assert w.At(a.p).Promote? ==> HoldsStage(w.At(a.p));
    assert w.At(a.p).Restore? ==> HoldsRetired(w.At(a.p));
  }

  lemma {:induction false} RunLast(w: World, acts: seq<Act>)
    requires acts != []
    ensures var n := |acts| - 1;
            Run(w, acts) == Step(Run(w, acts[..n]), acts[n].p, acts[n].latest, acts[n].how)
  {
    var n := |acts| - 1;
    assert acts == acts[..n] + [acts[n]] && [acts[n]][1..] == [];
    RunConcat(w, acts[..n], [acts[n]]);
    var v := Run(w, acts[..n]);
    assert Run(v, [acts[n]]) == Run(Step(v, acts[n].p, acts[n].latest, acts[n].how), [acts[n]][1..]);
  }

  lemma {:induction false} EarlierSteps(w: World, acts: seq<Act>, i: int)
    requires acts != []
    ensures RetiresAt(w, acts, i) <==> RetiresAt(w, acts[..|acts| - 1], i) || (i == |acts| - 1 && RetiresAt(w, acts, i))
    ensures PlacesAt(w, acts, i) <==> PlacesAt(w, acts[..|acts| - 1], i) || (i == |acts| - 1 && PlacesAt(w, acts, i))
  {
    var n := |acts| - 1;
    if 0 <= i < n { assert acts[..n][..i] == acts[..i]; }
  }

  /** Nothing is placed after step `i`. */
  ghost predicate Quiet(w: World, acts: seq<Act>, i: int) { forall j :: j > i ==> !PlacesAt(w, acts, j) }

  lemma {:induction false} QuietMore(w: World, acts: seq<Act>, i: int)
    requires acts != []
    ensures var n := |acts| - 1;
            Quiet(w, acts, i) <==> Quiet(w, acts[..n], i) && (i < n ==> !PlacesAt(w, acts, n))
  {
    var n := |acts| - 1;
    forall j
      ensures PlacesAt(w, acts, j) <==> PlacesAt(w, acts[..n], j) || (j == n && PlacesAt(w, acts, n))
    {
      EarlierSteps(w, acts, j);
    }
  }

  lemma {:induction false} VacatedMore(w: World, acts: seq<Act>, i: int)
    requires acts != []
    ensures var n := |acts| - 1;
            VacatedAt(w, acts, i) <==>
            (i < n && VacatedAt(w, acts[..n], i) && !PlacesAt(w, acts, n)) || (i == n && RetiresAt(w, acts, n))
  {
    var n := |acts| - 1;
    EarlierSteps(w, acts, i);
    QuietMore(w, acts, i);
    if i >= n {
      assert forall j :: j > n ==> !PlacesAt(w, acts, j);
      assert Quiet(w, acts, i);
    }
  }

  lemma {:induction false} RunConsistent(w: World, acts: seq<Act>)
    requires Consistent(w)
    ensures Consistent(Run(w, acts))
    decreases |acts|
  {
    if acts != [] {
      StepConsistent(w, acts[0].p, acts[0].latest, acts[0].how);
      RunConsistent(Step(w, acts[0].p, acts[0].latest, acts[0].how), acts[1..]);
    }
  }

  /**
   Over any run, kills included, the root is missing exactly if its last successful retirement, or its
   absence from the start, was followed by no successful promotion or restoring.
   */
  lemma {:induction false} RootMissingIff(w: World, acts: seq<Act>)
    requires Consistent(w)
    ensures Run(w, acts).root.Absent? <==> exists i :: VacatedAt(w, acts, i)
  {
    if acts == [] {
      assert Quiet(w, acts, -1);
      assert w.root.Absent? ==> VacatedAt(w, acts, -1);
    } else {
      var n := |acts| - 1;
      RootMissingIff(w, acts[..n]);
      RunConsistent(w, acts[..n]);
      RunLast(w, acts);
      StepRoot(Run(w, acts[..n]), acts[n]);
      VacatedStep(w, acts);
    }
  }

  lemma {:induction false} VacatedStep(w: World, acts: seq<Act>)
    requires acts != []
    ensures var n := |acts| - 1;
            (exists i :: VacatedAt(w, acts, i)) <==>
            RetiresAt(w, acts, n) || ((exists i :: VacatedAt(w, acts[..n], i)) && !PlacesAt(w, acts, n))
  {
    var n := |acts| - 1;
    if i :| VacatedAt(w, acts, i) { VacatedMore(w, acts, i); }
    if RetiresAt(w, acts, n) {
      VacatedMore(w, acts, n);
      assert VacatedAt(w, acts, n);
    } else if i :| VacatedAt(w, acts[..n], i) {
      VacatedMore(w, acts, i);
    }
  }

  // ---- one call ---------------------------------------------------------------------

  /** Which of the calls to the file system that one `_persist` makes go through. */
  datatype Luck = Luck(cleared: bool, staged: bool, dropped: bool, moved: bool, promoted: bool,
                       restored: bool, cleaned: bool)

  /** The directories one process works on: the export, its own stage and its own retired copy. */
  class ExportDir {
    var root: Slot
    var stage: Slot
    var retired: Slot

    constructor ()
      ensures root == stage == retired == Absent
    {
      root, stage, retired := Absent, Absent, Absent;
    }

    ghost predicate Shows(w: World, p: Pid)
      reads this
    {
      w.root == root && w.Stage(p) == stage && w.Old(p) == retired
    }

    /** Deletes a directory, errors ignored. */
    method Discard(s: Slot, all: bool) returns (left: Slot)
      ensures left == if all then Absent else Shrunk(s)
    {
      left := if all then Absent else Shrunk(s);
    }

    /**
     One call of `_persist`, undisturbed. Returning normally puts the new export at the root; a staging
     failure changes neither the root nor what was retired; and whatever fails, the old export is at
     the root still, or retired whole. The ghost trace is the same call in the step protocol.
     */
    method Persist(id: nat, luck: Luck, p: Pid, ghost w: World) returns (ok: bool, ghost acts: seq<Act>)
      requires !root.Partial?
      requires Shows(w, p) && w.At(p) == Idle
      modifies this
      ensures ok <==> luck.staged && luck.promoted
                      && (old(root).Absent? || luck.moved)
      ensures ok ==> root == Whole(id) && stage == Absent
      ensures !ok ==> root == old(root) || (root == Absent && retired == old(root))
      ensures !luck.staged ==> root == old(root) && retired == old(retired)
      ensures !old(root).Absent? ==>
                (root.Absent? <==> luck.staged && luck.moved && !luck.promoted && !luck.restored)
      ensures var v := Run(w, acts);
              v.root == root && v.Stage(p) == stage && v.Old(p) == retired && v.At(p) == Idle
    {
      acts := Build(id, luck, p, w);
      if !luck.staged { return false, acts; }
      ghost var v := Run(w, acts);
      v, acts := Record(w, v, acts, Act(p, id, Done));
      ok, acts := Swap(id, luck, p, w, v, acts);
    }

    /** The first half: clear what an earlier call left, and write the new export beside the old one. */
    method Build(id: nat, luck: Luck, p: Pid, ghost w: World) returns (ghost acts: seq<Act>)
      requires Shows(w, p) && w.At(p) == Idle
      modifies this`stage
      ensures luck.staged ==> stage == Whole(id)
      ensures Shows(Run(w, acts), p) && Run(w, acts).At(p) == if luck.staged then CheckRoot(id) else Idle
    {
      ghost var v := w;
      acts := [];
      v, acts := Record(w, v, acts, Act(p, id, Done));
      assert Shows(v, p) && v.At(p) == ClearStage(id);
      stage := Discard(stage, luck.cleared);
      v, acts := Record(w, v, acts, Act(p, id, if luck.cleared then Done else Failed));
      assert Shows(v, p) && v.At(p) == Staging(id);
      if luck.staged {
        stage := Whole(id);
        v, acts := Record(w, v, acts, Act(p, id, Done));
      } else {
        stage := Partial;
        v, acts := Record(w, v, acts, Act(p, id, Failed));
        acts := DropStage(id, luck, p, w, v, acts);
      }
    }

    /** The last step of a failed call: delete what was staged. */
    method DropStage(id: nat, luck: Luck, p: Pid, ghost w: World, ghost v0: World, ghost acts0: seq<Act>)
      returns (ghost acts: seq<Act>)
      requires v0 == Run(w, acts0) && Shows(v0, p) && v0.At(p) == Cleanup
      modifies this`stage
      ensures Shows(Run(w, acts), p) && Run(w, acts).At(p) == Idle
    {
      stage := Discard(stage, luck.cleaned);
      ghost var v;
      v, acts := Record(w, v0, acts0, Act(p, id, if luck.cleaned then Done else Failed));
    }

    ghost method Record(w: World, v: World, acts: seq<Act>, a: Act) returns (v': World, acts': seq<Act>)
      requires v == Run(w, acts)
      ensures v' == Step(v, a.p, a.latest, a.how) == Run(w, acts')
    {
      acts' := acts + [a];
      v' := Step(v, a.p, a.latest, a.how);
      RunConcat(w, acts, [a]);
      assert Run(v, [a]) == Run(Step(v, a.p, a.latest, a.how), [a][1..]) && [a][1..] == [];
    }

    /** The second half: retire what is at the root, promote the stage, roll back if that fails. */
    method Swap(id: nat, luck: Luck, p: Pid, ghost w: World, ghost v0: World, ghost acts0: seq<Act>)
      returns (ok: bool, ghost acts: seq<Act>)
      requires !root.Partial? && stage == Whole(id)
      requires v0 == Run(w, acts0) && Shows(v0, p)
      requires v0.At(p) == if root.Absent? then Promote(id, false) else DropOld(id)
      modifies this
      ensures !old(root).Absent? ==> (root.Absent? <==> luck.moved && !luck.promoted && !luck.restored)
      ensures ok <==> luck.promoted
                      && (old(root).Absent? || luck.moved)
      ensures ok ==> root == Whole(id) && stage == Absent
      ensures !ok ==> root == old(root) || (root == Absent && retired == old(root))
      ensures Shows(Run(w, acts), p) && Run(w, acts).At(p) == Idle
    {
      ghost var v := v0;
      acts := acts0;
      ok := false;
      var aside := !root.Absent?;
      if aside {
        retired := Discard(retired, luck.dropped);
        v, acts := Record(w, v, acts, Act(p, id, if luck.dropped then Done else Failed));
        if !luck.moved {
          v, acts := Record(w, v, acts, Act(p, id, Failed));
          return;
        }
        retired, root := root, Absent;
        v, acts := Record(w, v, acts, Act(p, id, Done));
      }
      ok, acts := Promotion(id, luck, aside, p, w, v, acts);
    }

    method Promotion(id: nat, luck: Luck, aside: bool, p: Pid, ghost w: World, ghost v0: World,
                     ghost acts0: seq<Act>)
      returns (ok: bool, ghost acts: seq<Act>)
      requires root.Absent? && stage == Whole(id) && (aside ==> retired.Whole?)
      requires v0 == Run(w, acts0) && Shows(v0, p) && v0.At(p) == Promote(id, aside)
      modifies this
      ensures ok <==> luck.promoted
      ensures aside ==> (root.Absent? <==> !luck.promoted && !luck.restored)
      ensures ok ==> root == Whole(id) && stage == Absent
      ensures !ok && aside ==> root == old(retired) || (root == Absent && retired == old(retired))
      ensures !ok && !aside ==> root == Absent
      ensures Shows(Run(w, acts), p) && Run(w, acts).At(p) == Idle
    {
      ghost var v := v0;
      acts := acts0;
      ok := luck.promoted;
      if luck.promoted {
        root, stage := stage, Absent;
        v, acts := Record(w, v, acts, Act(p, id, Done));
        if aside {
          retired := Discard(retired, luck.cleaned);
          v, acts := Record(w, v, acts, Act(p, id, if luck.cleaned then Done else Failed));
        }
        return;
      }
      v, acts := Record(w, v, acts, Act(p, id, Failed));
      acts := RollBack(id, luck, aside, p, w, v, acts);
    }

    method RollBack(id: nat, luck: Luck, aside: bool, p: Pid, ghost w: World, ghost v0: World,
                    ghost acts0: seq<Act>)
      returns (ghost acts: seq<Act>)
      requires root.Absent? && (aside ==> retired.Whole?)
      requires v0 == Run(w, acts0) && Shows(v0, p) && v0.At(p) == Rollback(aside)
      modifies this
      ensures aside ==> if luck.restored then root == old(retired) else root == Absent && retired == old(retired)
      ensures !aside ==> root == Absent
      ensures Shows(Run(w, acts), p) && Run(w, acts).At(p) == Idle
    {
      ghost var v := v0;
      acts := acts0;
      v, acts := Record(w, v, acts, Act(p, id, Done));
      if aside {
        if !luck.restored {
          v, acts := Record(w, v, acts, Act(p, id, Failed));
          return;
        }
        root, retired := retired, Absent;
        v, acts := Record(w, v, acts, Act(p, id, Done));
      }
      acts := DropStage(id, luck, p, w, v, acts);
    }
  }
}
