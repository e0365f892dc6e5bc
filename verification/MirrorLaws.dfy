/**
 What a mirror pass has to copy (interface/claude_trace_mirror.py, mirror_invocations), said of the flat list of
 everything that was listed: invocations, nesting and the set of paths seen do not appear.
 */
module MirrorLaws {
  import opened Wrappers
  import opened Sequences
  import opened Mirror

  /** Everything listed, in order; a listing that could not be read lists nothing. */
  function Flat(sites: seq<Site>): seq<Pair> {
    if sites == [] then []
    else
      Flat(sites[..|sites| - 1])
      + if sites[|sites| - 1].listing.Some? then sites[|sites| - 1].listing.value else []
  }

  /** The listing at `j` is the first of its path. */
  predicate FirstAt(ps: seq<Pair>, j: nat) { j < |ps| && forall i :: 0 <= i < j ==> ps[i].path != ps[j].path }

  /** It is on time, its size can be read, and the mirror does not have it as it is. */
  predicate Stale(p: Pair) { !p.late && p.size.Some? && !p.current }

  /** The bytes copied for the first `n` listings. */
  function Spent(max: int, ps: seq<Pair>, n: nat): (bytes: nat)
    requires n <= |ps|
    decreases n, 0
  {
    if n == 0 then 0
    else Spent(max, ps, n - 1) + if IsCopied(max, ps, n - 1) then ps[n - 1].size.value else 0
  }

  /** The listing at `j` is copied: the first of its path, stale, within what is left, and it succeeds. */
  predicate IsCopied(max: int, ps: seq<Pair>, j: nat)
    requires j < |ps|
    decreases j, 1
  {
    FirstAt(ps, j) && Stale(ps[j]) && ps[j].size.value <= max - Spent(max, ps, j) && ps[j].copies
  }

  // ---- the pass follows the flat list -----------------------------------------------------------

  lemma {:induction false} RoomFlat(r: Room, sites: seq<Site>)
    ensures RoomAfter(r, sites) == LeftAfter(r, Flat(sites))
  {
    if sites != [] {
      RoomFlat(r, sites[..|sites| - 1]);
      LeftAfterJoin(r, Flat(sites[..|sites| - 1]), Listed(sites[|sites| - 1]));
    }
  }

  lemma {:induction false} LeftAfterJoin(r: Room, a: seq<Pair>, b: seq<Pair>)
    ensures LeftAfter(r, a + b) == LeftAfter(LeftAfter(r, a), b)
  {
    if b == [] {
      JoinNothing(a);
    } else {
      FrontOfJoin(a, b);
      LeftAfterJoin(r, a, b[..|b| - 1]);
    }
  }

  lemma {:induction false} FilingsJoin(r: Room, a: seq<Pair>, b: seq<Pair>)
    ensures Filings(r, a + b) == Filings(r, a) + Filings(LeftAfter(r, a), b)
  {
    if b == [] {
      JoinNothing(a);
      JoinNothing(Filings(r, a));
    } else {
      FrontOfJoin(a, b);
      FilingsJoin(r, a, b[..|b| - 1]);
      LeftAfterJoin(r, a, b[..|b| - 1]);
      JoinAssociates(Filings(r, a), Filings(LeftAfter(r, a), b[..|b| - 1]),
                     [FilingOf(LeftAfter(LeftAfter(r, a), b[..|b| - 1]), b[|b| - 1])]);
    }
  }

  /** What became of files is what becomes of them on the flat list. */
  lemma {:induction false} FilingsFlat(r: Room, sites: seq<Site>, f: Filing)
    requires !f.Unlisted?
    ensures f in AllFilings(r, sites) <==> f in Filings(r, Flat(sites))
  {
    if sites != [] {
      var front, s := sites[..|sites| - 1], sites[|sites| - 1];
      FilingsFlat(r, front, f);
      RoomFlat(r, front);
      FilingsJoin(r, Flat(front), Listed(s));
    }
  }

  lemma {:induction false} SeenIs(max: int, ps: seq<Pair>, n: nat, path: Path)
    requires n <= |ps|
    ensures path in LeftAfter(Room({}, max), ps[..n]).seen <==> exists i :: 0 <= i < n && ps[i].path == path
  {
    if n > 0 {
      SeenIs(max, ps, n - 1, path);
      FrontOfPrefix(ps, n - 1);
    }
  }

  lemma {:induction false} BudgetIs(max: int, ps: seq<Pair>, n: nat)
    requires n <= |ps|
    ensures LeftAfter(Room({}, max), ps[..n]).budget == max - Spent(max, ps, n)
  {
    if n > 0 {
      BudgetIs(max, ps, n - 1);
      SeenIs(max, ps, n - 1, ps[n - 1].path);
      FrontOfPrefix(ps, n - 1);
    }
  }

  /** What becomes of the listing at `j`. */
  lemma {:induction false} FilingAt(max: int, ps: seq<Pair>, j: nat)
    requires j < |ps|
    ensures var f, p := FilingOf(LeftAfter(Room({}, max), ps[..j]), ps[j]), ps[j];
            && (!FirstAt(ps, j) <==> f == Repeat)
            && (f == Skipped(p.path, Deadline) <==> FirstAt(ps, j) && p.late)
            && (f == Skipped(p.path, MaxBytes) <==>
                FirstAt(ps, j) && Stale(p) && p.size.value > max - Spent(max, ps, j))
            && (f.Failed? <==>
                FirstAt(ps, j) && !p.late
                && (p.size.None? || (!p.current && p.size.value <= max - Spent(max, ps, j) && !p.copies)))
            && (f.Kept? <==> FirstAt(ps, j) && !p.late && p.size.Some? && p.current)
            && (f.Copied? <==> IsCopied(max, ps, j))
            && (f.Kept? || f.Copied? ==> p.size == Some(f.size))
            && (f != Repeat ==> f.OfFile() && f.path == p.path)
  {
    SeenIs(max, ps, j, ps[j].path);
    BudgetIs(max, ps, j);
  }

  lemma {:induction false} FilingIn(r: Room, ps: seq<Pair>, f: Filing)
    ensures f in Filings(r, ps) <==> exists j :: FiledAt(r, ps, j, f)
  {
    if ps != [] {
      var n := |ps| - 1;
      FilingIn(r, ps[..n], f);
      if j :| FiledAt(r, ps[..n], j, f) { FiledInFront(r, ps, j, f); }
      if j :| FiledAt(r, ps, j, f) { FiledInFront(r, ps, j, f); }
      assert FiledAt(r, ps, n, f) <==> f == FilingOf(LeftAfter(r, ps[..n]), ps[n]);
    }
  }

  /** `f` is what became of the listing at `j`. */
  predicate FiledAt(r: Room, ps: seq<Pair>, j: int, f: Filing) {
    0 <= j < |ps| && f == FilingOf(LeftAfter(r, ps[..j]), ps[j])
  }

  lemma {:induction false} FiledInFront(r: Room, ps: seq<Pair>, j: int, f: Filing)
    requires ps != []
    ensures FiledAt(r, ps[..|ps| - 1], j, f) <==> j < |ps| - 1 && FiledAt(r, ps, j, f)
  {
    var n := |ps| - 1;
    if 0 <= j < n { assert ps[..n][..j] == ps[..j] && ps[..n][j] == ps[j]; }
  }

  // ---- what has to be copied ----------------------------------------------------------------------

  /** After the pass the mirror has the file as it is. */
  ghost predicate Held(max: int, sites: seq<Site>, path: Path) {
    exists f :: f in AllFilings(Room({}, max), sites) && f.InFiles() && f.path == path
  }

  /**
   A file ends up in the mirror exactly if its first listing is on time, its size can be read, and it is current
   or is copied: it fits what is left of the maximum and the copy succeeds.
   */
  lemma {:induction false} HeldIff(max: int, sites: seq<Site>, path: Path)
    ensures Held(max, sites, path) <==>
            var ps := Flat(sites);
            exists j :: 0 <= j < |ps| && FirstAt(ps, j) && ps[j].path == path && !ps[j].late && ps[j].size.Some?
                        && (ps[j].current || IsCopied(max, ps, j))
  {
    var ps, r := Flat(sites), Room({}, max);
    if Held(max, sites, path) {
      var f :| f in AllFilings(r, sites) && f.InFiles() && f.path == path;
      FilingsFlat(r, sites, f);
      FilingIn(r, ps, f);
      var j :| FiledAt(r, ps, j, f);
      FilingAt(max, ps, j);
    }
    if j :| 0 <= j < |ps| && FirstAt(ps, j) && ps[j].path == path && !ps[j].late && ps[j].size.Some?
            && (ps[j].current || IsCopied(max, ps, j)) {
      var f := FilingOf(LeftAfter(r, ps[..j]), ps[j]);
      FilingAt(max, ps, j);
      FilingIn(r, ps, f);
      assert FiledAt(r, ps, j, f);
      FilingsFlat(r, sites, f);
    }
  }

  /**
   A file is left out for its size exactly if its first listing is stale and larger than the maximum less what
   was copied before it; and left out for the time exactly if its first listing is late.
   */
  lemma {:induction false} SkippedIff(max: int, sites: seq<Site>, path: Path)
    ensures var ps, fs := Flat(sites), AllFilings(Room({}, max), sites);
            && (Skipped(path, MaxBytes) in fs <==>
                exists j :: 0 <= j < |ps| && FirstAt(ps, j) && ps[j].path == path && Stale(ps[j])
                            && ps[j].size.value > max - Spent(max, ps, j))
            && (Skipped(path, Deadline) in fs <==>
                exists j :: 0 <= j < |ps| && FirstAt(ps, j) && ps[j].path == path && ps[j].late)
  {
    var ps, r := Flat(sites), Room({}, max);
    SkippedAt(max, ps, path, MaxBytes);
    SkippedAt(max, ps, path, Deadline);
    FilingsFlat(r, sites, Skipped(path, MaxBytes));
    FilingsFlat(r, sites, Skipped(path, Deadline));
  }

  lemma {:induction false} SkippedAt(max: int, ps: seq<Pair>, path: Path, why: Why)
    ensures Skipped(path, why) in Filings(Room({}, max), ps) <==>
            exists j :: 0 <= j < |ps| && FirstAt(ps, j) && ps[j].path == path
                        && if why == Deadline then ps[j].late
                           else Stale(ps[j]) && ps[j].size.value > max - Spent(max, ps, j)
  {
    var r, f := Room({}, max), Skipped(path, why);
    FilingIn(r, ps, f);
    if f in Filings(r, ps) {
      var j :| FiledAt(r, ps, j, f);
      FilingAt(max, ps, j);
    }
    if j :| 0 <= j < |ps| && FirstAt(ps, j) && ps[j].path == path
            && if why == Deadline then ps[j].late else Stale(ps[j]) && ps[j].size.value > max - Spent(max, ps, j) {
      FilingAt(max, ps, j);
      assert FiledAt(r, ps, j, f);
    }
  }

  // ---- when everything fits ---------------------------------------------------------------------------

  /** The sizes of the stale files among the first `n` listings, each counted once. */
  function StaleBytes(ps: seq<Pair>, n: nat): nat
    requires n <= |ps|
  {
    if n == 0 then 0
    else StaleBytes(ps, n - 1) + if FirstAt(ps, n - 1) && Stale(ps[n - 1]) then ps[n - 1].size.value else 0
  }

  /** The first listing of every file is on time, can be read, and can be copied if need be. */
  ghost predicate AllWell(ps: seq<Pair>) {
    forall j :: 0 <= j < |ps| && FirstAt(ps, j) ==> !ps[j].late && ps[j].size.Some? && (ps[j].current || ps[j].copies)
  }

  lemma {:induction false} SpentAtMost(max: int, ps: seq<Pair>, n: nat)
    requires n <= |ps|
    ensures Spent(max, ps, n) <= StaleBytes(ps, n)
  {
    if n > 0 { SpentAtMost(max, ps, n - 1); }
  }

  lemma {:induction false} StaleBytesGrow(ps: seq<Pair>, m: nat, n: nat)
    requires m <= n <= |ps|
    ensures StaleBytes(ps, m) <= StaleBytes(ps, n)
  {
    if m < n { StaleBytesGrow(ps, m, n - 1); }
  }

  lemma {:induction false} FirstExists(ps: seq<Pair>, i: nat) returns (j: nat)
    requires i < |ps|
    ensures j <= i && FirstAt(ps, j) && ps[j].path == ps[i].path
  {
    if k :| 0 <= k < i && ps[k].path == ps[i].path { j := FirstExists(ps, k); } else { j := i; }
  }

  lemma {:induction false} ReachedIff(sites: seq<Site>, path: Path)
    ensures Reaches(sites, path) <==> exists i :: 0 <= i < |Flat(sites)| && Flat(sites)[i].path == path
  {
    if sites != [] {
      var front, s := sites[..|sites| - 1], sites[|sites| - 1];
      ReachedIff(front, path);
      ReachesLast(sites, path);
      var a, b := Flat(front), Listed(s);
      assert Flat(sites) == a + b;
      if Lists(b, path) {
        var p :| p in b && p.path == path;
        var i :| 0 <= i < |b| && b[i] == p;
        assert (a + b)[|a| + i].path == path;
      }
      if i :| 0 <= i < |a| && a[i].path == path { assert (a + b)[i].path == path; }
      if i :| 0 <= i < |a + b| && (a + b)[i].path == path { if i >= |a| { assert b[i - |a|] in b; } }
    }
  }

  /**
   If nothing goes wrong with any file and the stale ones together fit the maximum, coverage is complete exactly
   if there is an invocation and each has transcripts of its own, all readable.
   */
  lemma {:induction false} FitsMeansComplete(max: int, sites: seq<Site>)
    requires AllWell(Flat(sites)) && StaleBytes(Flat(sites), |Flat(sites)|) <= max
    ensures Complete(max, sites) <==> sites != [] && AllFlushed(sites)
  {
    var ps := Flat(sites);
    CompleteIff(max, sites);
    forall path | Reaches(sites, path) ensures Filed(ShelfOf(AllFilings(Room({}, max), sites)).files, path) {
      ReachedIff(sites, path);
      var i :| 0 <= i < |ps| && ps[i].path == path;
      var j := FirstExists(ps, i);
      FitsAt(max, ps, j);
      HeldIff(max, sites, path);
      ShelfSorted(AllFilings(Room({}, max), sites));
    }
  }

  lemma {:induction false} FitsAt(max: int, ps: seq<Pair>, j: nat)
    requires AllWell(ps) && StaleBytes(ps, |ps|) <= max && j < |ps| && FirstAt(ps, j)
    ensures !ps[j].late && ps[j].size.Some? && (ps[j].current || IsCopied(max, ps, j))
  {
    SpentAtMost(max, ps, j);
    StaleBytesGrow(ps, j + 1, |ps|);
  }

  // ---- what an invocation is reported as -------------------------------------------------------------------

  /** A transcript in the invocation's own directory. */
  ghost predicate Mine(s: Site, p: Pair) {
    && s.listing.Some? && p in s.listing.value && p.transcript
    && s.runId != "" && p.path.Own? && p.path.run == s.runId
  }

  ghost predicate HasMine(s: Site, c: Content) { exists p :: Mine(s, p) && p.content == c }

  lemma {:induction false} HasMineIff(s: Site, c: Content)
    ensures Has(s, c) <==> HasMine(s, c)
  {
  }

  /**
   An invocation is captured exactly if it was listed, all its own transcripts are readable, there are some, and no
   file of its listing was left out or failed; the other reports say which of these, in this order, was not so.
   */
  lemma {:induction false} StatusIs(r: Room, s: Site)
    ensures var e, broken := EntryOf(r, s), HasMine(s, EmptyFile) || HasMine(s, UnreadableFile);
            && (e.status == Unreadable <==> s.listing.None?)
            && (e.status == NoTranscripts <==> s.listing.Some? && !HasMine(s, UsableText) && !broken)
            && (e.status == UnusableTranscripts <==> s.listing.Some? && !HasMine(s, UsableText) && broken)
            && (e.status == PartialTranscripts <==> s.listing.Some? && HasMine(s, UsableText) && broken)
            && (e.status == PartlySkipped <==>
                s.listing.Some? && HasMine(s, UsableText) && !broken && e.shelf.skipped != [])
            && (e.status == Errors <==>
                s.listing.Some? && HasMine(s, UsableText) && !broken && e.shelf.skipped == [] && e.shelf.errors != [])
  {
    HasMineIff(s, UsableText);
    HasMineIff(s, EmptyFile);
    HasMineIff(s, UnreadableFile);
  }

  /** The counts of an invocation: its own files, and its own transcripts by what is in them, in listing order. */
  lemma {:induction false} SeenJoin(runId: string, a: seq<Pair>, b: seq<Pair>)
    ensures var x, y, v := SeenIn(runId, a), SeenIn(runId, b), SeenIn(runId, a + b);
            && v.files == x.files + y.files && v.usable == x.usable + y.usable
            && v.empty == x.empty + y.empty && v.unreadable == x.unreadable + y.unreadable
  {
    if b == [] {
      JoinNothing(a);
    } else {
      FrontOfJoin(a, b);
      SeenJoin(runId, a, b[..|b| - 1]);
    }
  }

  lemma {:induction false} SeenOne(runId: string, p: Pair)
    ensures var v, mine := SeenIn(runId, [p]), runId != "" && p.path.Own? && p.path.run == runId;
            && v.files == (if mine then 1 else 0)
            && v.usable == (if mine && p.transcript && p.content == UsableText then 1 else 0)
            && v.empty == (if mine && p.transcript && p.content == EmptyFile then [p.path] else [])
            && v.unreadable == (if mine && p.transcript && p.content == UnreadableFile then [p.path] else [])
  {
    assert [p][..0] == [];
  }

  /** The runs that are not in order are named in the order of the entries, and the others counted. */
  lemma {:induction false} NotOkJoin(a: seq<Entry>, b: seq<Entry>)
    ensures RunsNotOk(a + b) == RunsNotOk(a) + RunsNotOk(b) && CountOk(a + b) == CountOk(a) + CountOk(b)
  {
    if b == [] {
      JoinNothing(a);
    } else {
      var n := |b| - 1;
      FrontOfJoin(a, b);
      NotOkJoin(a, b[..n]);
      JoinAssociates(RunsNotOk(a), RunsNotOk(b[..n]), if b[n].status == Ok then [] else [b[n].runId]);
    }
  }

  lemma {:induction false} NotOkOne(e: Entry)
    ensures RunsNotOk([e]) == (if e.status == Ok then [] else [e.runId])
    ensures CountOk([e]) == if e.status == Ok then 1 else 0
  {
    assert [e][..0] == [];
  }
}
