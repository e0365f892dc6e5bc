/**
 Copying every invocation of a run under one byte budget and one deadline
 (interface/claude_trace_mirror.py, mirror_invocations).

 The file system is data: what a listing returned and what each call on each listed file did.
 */
module Mirror {
  import opened Wrappers
  import opened Sequences

  /** A path under the mirror root: inside one run's own workflow directory, or shared by its session. */
  datatype Path = Own(run: string, name: string) | Shared(name: string)

  datatype Content = UsableText | EmptyFile | UnreadableFile

  /** One listed source file: its size unless `stat` fails, and how each later step turns out. */
  datatype Pair = Pair(path: Path, transcript: bool, content: Content, size: Option<nat>,
                       late: bool, current: bool, copies: bool)

  /** An owning invocation; a listing that raises is `None`. */
  datatype Site = Site(runId: string, listing: Option<seq<Pair>>)

  datatype Why = Deadline | MaxBytes

  /** What became of one listed file, or of a listing that could not be read. */
  datatype Filing =
    | Repeat
    | Skipped(path: Path, why: Why)
    | Failed(path: Path)
    | Unlisted(runId: string)
    | Kept(path: Path, size: nat)
    | Copied(path: Path, size: nat)
  {
    predicate InFiles() { Kept? || Copied? }

    predicate InErrors() { Failed? || Unlisted? }

    predicate OfFile() { InFiles() || Skipped? || Failed? }

    function Bytes(): nat { if Copied? then size else 0 }
  }

  datatype Status = Ok | Unreadable | UnusableTranscripts | NoTranscripts | PartialTranscripts | PartlySkipped | Errors

  /** What an invocation has of its own: files, usable transcripts, and the empty and unreadable ones as listed. */
  datatype Seen = Seen(files: nat, usable: nat, empty: seq<Path>, unreadable: seq<Path>)

  datatype Entry = Entry(runId: string, seen: Seen, shelf: Shelf, status: Status)

  // ---- one file ----------------------------------------------------------------------------

  /** What is left while the copy goes on: the paths already seen and the bytes still allowed. */
  datatype Room = Room(seen: set<Path>, budget: int)

  function FilingOf(r: Room, p: Pair): Filing {
    if p.path in r.seen then Repeat
    else if p.late then Skipped(p.path, Deadline)
    else if p.size.None? then Failed(p.path)
    else if p.current then Kept(p.path, p.size.value)
    else if p.size.value > r.budget then Skipped(p.path, MaxBytes)
    else if !p.copies then Failed(p.path)
    else Copied(p.path, p.size.value)
  }

  function Left(r: Room, p: Pair): Room { Room(r.seen + {p.path}, r.budget - FilingOf(r, p).Bytes()) }

  function LeftAfter(r: Room, pairs: seq<Pair>): Room {
    if pairs == [] then r else Left(LeftAfter(r, pairs[..|pairs| - 1]), pairs[|pairs| - 1])
  }

  function Filings(r: Room, pairs: seq<Pair>): seq<Filing> {
    if pairs == [] then []
    else
      var n := |pairs| - 1;
      Filings(r, pairs[..n]) + [FilingOf(LeftAfter(r, pairs[..n]), pairs[n])]
  }

  // ---- one invocation, all invocations -------------------------------------------------------

  function Listed(s: Site): seq<Pair> { if s.listing.Some? then s.listing.value else [] }

  function SiteFilings(r: Room, s: Site): seq<Filing> {
    if s.listing.None? then [Unlisted(s.runId)] else Filings(r, s.listing.value)
  }

  function RoomAfter(r: Room, sites: seq<Site>): Room {
    if sites == [] then r else LeftAfter(RoomAfter(r, sites[..|sites| - 1]), Listed(sites[|sites| - 1]))
  }

  function AllFilings(r: Room, sites: seq<Site>): seq<Filing> {
    if sites == [] then []
    else
      var n := |sites| - 1;
      AllFilings(r, sites[..n]) + SiteFilings(RoomAfter(r, sites[..n]), sites[n])
  }

  /** The three lists a filing can go to, and the bytes copied so far. */
  datatype Shelf = Shelf(files: seq<Filing>, skipped: seq<Filing>, errors: seq<Filing>, bytes: nat)

  function Put(s: Shelf, f: Filing): Shelf {
    if f.Repeat? then s
    else if f.InFiles() then s.(files := s.files + [f], bytes := s.bytes + f.Bytes())
    else if f.Skipped? then s.(skipped := s.skipped + [f])
    else s.(errors := s.errors + [f])
  }

  const EMPTY := Shelf([], [], [], 0)

  function ShelfOf(fs: seq<Filing>): Shelf {
    if fs == [] then EMPTY else Put(ShelfOf(fs[..|fs| - 1]), fs[|fs| - 1])
  }

  /** A file of this very invocation. */
  predicate OwnFile(runId: string, p: Pair) { runId != "" && p.path.Own? && p.path.run == runId }

  /** An agent transcript of this very invocation. */
  predicate OwnTranscript(runId: string, p: Pair) { OwnFile(runId, p) && p.transcript }

  function Noticed(v: Seen, runId: string, p: Pair): Seen {
    if !OwnFile(runId, p) then v
    else
      var w := v.(files := v.files + 1);
      if !p.transcript then w
      else match p.content
        case UsableText => w.(usable := v.usable + 1)
        case EmptyFile => w.(empty := v.empty + [p.path])
        case UnreadableFile => w.(unreadable := v.unreadable + [p.path])
  }

  const NOTHING := Seen(0, 0, [], [])

  function SeenIn(runId: string, pairs: seq<Pair>): Seen {
    if pairs == [] then NOTHING else Noticed(SeenIn(runId, pairs[..|pairs| - 1]), runId, pairs[|pairs| - 1])
  }

  predicate HasIn(runId: string, pairs: seq<Pair>, c: Content) {
    exists p :: p in pairs && OwnTranscript(runId, p) && p.content == c
  }

  /** The counts say of each kind of transcript whether there is one. */
  lemma {:induction false} SeenExact(runId: string, pairs: seq<Pair>)
    ensures var v := SeenIn(runId, pairs);
            && (v.usable > 0 <==> HasIn(runId, pairs, UsableText))
            && (v.empty != [] <==> HasIn(runId, pairs, EmptyFile))
            && (v.unreadable != [] <==> HasIn(runId, pairs, UnreadableFile))
            && v.usable + |v.empty| + |v.unreadable| <= v.files <= |pairs|
  {
    if pairs != [] {
      var n := |pairs| - 1;
      SeenExact(runId, pairs[..n]);
      HasMore(runId, pairs, UsableText);
      HasMore(runId, pairs, EmptyFile);
      HasMore(runId, pairs, UnreadableFile);
    }
  }

  lemma {:induction false} HasMore(runId: string, pairs: seq<Pair>, c: Content)
    requires pairs != []
    ensures var p := pairs[|pairs| - 1];
            HasIn(runId, pairs, c) <==>
            HasIn(runId, pairs[..|pairs| - 1], c) || (OwnTranscript(runId, p) && p.content == c)
  {
    forall p ensures p in pairs <==> p in pairs[..|pairs| - 1] || p == pairs[|pairs| - 1] { InFrontOrLast(pairs, p); }
  }

  /** Some own transcript was read as `c`. */
  predicate Has(s: Site, c: Content) { HasIn(s.runId, Listed(s), c) }

  function StatusOf(s: Site, fs: seq<Filing>): Status {
    if s.listing.None? then Unreadable
    else if !Has(s, UsableText) then
      if Has(s, EmptyFile) || Has(s, UnreadableFile) then UnusableTranscripts else NoTranscripts
    else if Has(s, EmptyFile) || Has(s, UnreadableFile) then PartialTranscripts
    else if ShelfOf(fs).skipped != [] then PartlySkipped
    else if ShelfOf(fs).errors != [] then Errors
    else Ok
  }

  function EntryOf(r: Room, s: Site): Entry {
    Entry(s.runId, SeenIn(s.runId, Listed(s)), ShelfOf(SiteFilings(r, s)), StatusOf(s, SiteFilings(r, s)))
  }

  function EntriesOf(r: Room, sites: seq<Site>): (es: seq<Entry>)
    ensures |es| == |sites|
  {
    if sites == [] then []
    else EntriesOf(r, sites[..|sites| - 1]) + [EntryOf(RoomAfter(r, sites[..|sites| - 1]), sites[|sites| - 1])]
  }

  /** The runs that were not captured in full, in order. */
  function RunsNotOk(es: seq<Entry>): seq<string> {
    if es == [] then []
    else RunsNotOk(es[..|es| - 1]) + if es[|es| - 1].status != Ok then [es[|es| - 1].runId] else []
  }

  function CountOk(es: seq<Entry>): nat {
    if es == [] then 0 else CountOk(es[..|es| - 1]) + if es[|es| - 1].status == Ok then 1 else 0
  }

  /** A run is named exactly if one of its entries is not in order; each entry is either named or captured. */
  lemma {:induction false} NotOkExact(es: seq<Entry>)
    ensures forall id :: id in RunsNotOk(es) <==> exists e :: e in es && e.runId == id && e.status != Ok
    ensures RunsNotOk(es) == [] <==> AllOk(es)
    ensures |RunsNotOk(es)| + CountOk(es) == |es|
  {
    if es != [] {
      NotOkExact(es[..|es| - 1]);
      forall e ensures e in es <==> e in es[..|es| - 1] || e == es[|es| - 1] { InFrontOrLast(es, e); }
    }
  }

  // ---- the copy itself -------------------------------------------------------------------------

  lemma {:induction false} ShelfMore(fs: seq<Filing>, f: Filing)
    ensures ShelfOf(fs + [f]) == Put(ShelfOf(fs), f)
  {
    assert (fs + [f])[..|fs|] == fs;
  }

  lemma {:induction false} FilingsMore(r: Room, pairs: seq<Pair>, k: nat, before: seq<Filing>)
    requires k < |pairs|
    ensures var f := FilingOf(LeftAfter(r, pairs[..k]), pairs[k]);
            && LeftAfter(r, pairs[..k + 1]) == Left(LeftAfter(r, pairs[..k]), pairs[k])
            && ShelfOf(Filings(r, pairs[..k + 1])) == Put(ShelfOf(Filings(r, pairs[..k])), f)
            && ShelfOf(before + Filings(r, pairs[..k + 1])) == Put(ShelfOf(before + Filings(r, pairs[..k])), f)
  {
    assert pairs[..k + 1][..k] == pairs[..k];
    var f := FilingOf(LeftAfter(r, pairs[..k]), pairs[k]);
    ShelfMore(Filings(r, pairs[..k]), f);
    ShelfMore(before + Filings(r, pairs[..k]), f);
    assert before + (Filings(r, pairs[..k]) + [f]) == before + Filings(r, pairs[..k]) + [f];
  }

  lemma {:induction false} SitesMore(r: Room, sites: seq<Site>, k: nat)
    requires k < |sites|
    ensures var before := RoomAfter(r, sites[..k]);
            && RoomAfter(r, sites[..k + 1]) == LeftAfter(before, Listed(sites[k]))
            && AllFilings(r, sites[..k + 1]) == AllFilings(r, sites[..k]) + SiteFilings(before, sites[k])
            && EntriesOf(r, sites[..k + 1]) == EntriesOf(r, sites[..k]) + [EntryOf(before, sites[k])]
  {
    assert sites[..k + 1][..k] == sites[..k];
  }

  /** The manifest under construction, with the budget and the seen paths that all invocations share. */
  class Manifest {
    var files: seq<Filing>
    var skipped: seq<Filing>
    var errors: seq<Filing>
    var bytes: nat
    var invocations: seq<Entry>
    var seen: set<Path>
    var budget: int
    var complete: bool
    var incomplete: seq<string>
    var captured: int
    var deadlineHit: bool

    function Shelves(): Shelf
      reads this
    {
      Shelf(files, skipped, errors, bytes)
    }

    function Rest(): Room
      reads this
    {
      Room(seen, budget)
    }

    /** The flag says whether some file was left out because time was up. */
    predicate Flagged()
      reads this
    {
      deadlineHit <==> exists f :: f in skipped && f.Skipped? && f.why == Deadline
    }

    constructor (maxBytes: int)
      ensures Flagged()
      ensures Rest() == Room({}, maxBytes) && Shelves() == EMPTY && invocations == []
    {
      files, skipped, errors, bytes, invocations, seen, budget := [], [], [], 0, [], {}, maxBytes;
      complete, incomplete, captured, deadlineHit := false, [], 0, false;
    }

    /** Files an outcome both in the invocation's entry and in the manifest. */
    method Add(f: Filing, e: Entry) returns (e': Entry)
      modifies this`files, this`skipped, this`errors, this`bytes, this`budget, this`deadlineHit
      ensures Shelves() == Put(old(Shelves()), f) && budget == old(budget) - f.Bytes()
      ensures old(Flagged()) ==> Flagged()
      ensures e' == e.(shelf := Put(e.shelf, f))
    {
      e' := e;
      if f.InFiles() {
        e' := e'.(shelf := e.shelf.(files := e.shelf.files + [f]));
        files := files + [f];
      }
      if f.Skipped? {
        e' := e'.(shelf := e.shelf.(skipped := e.shelf.skipped + [f]));
        skipped := skipped + [f];
        if f.why == Deadline { deadlineHit := true; }
      }
      if f.InErrors() {
        e' := e'.(shelf := e.shelf.(errors := e.shelf.errors + [f]));
        errors := errors + [f];
      }
      if f.Copied? {
        budget := budget - f.size;
        e' := e'.(shelf := e'.shelf.(bytes := e.shelf.bytes + f.size));
        bytes := bytes + f.size;
      }
    }

    /** One pass of the inner loop: look at a file, and file it. */
    method Take(p: Pair, e: Entry) returns (e': Entry)
      modifies this`files, this`skipped, this`errors, this`bytes, this`budget, this`seen, this`deadlineHit
      ensures Rest() == Left(old(Rest()), p)
      ensures old(Flagged()) ==> Flagged()
      ensures Shelves() == Put(old(Shelves()), FilingOf(old(Rest()), p))
      ensures e' == e.(shelf := Put(e.shelf, FilingOf(old(Rest()), p)))
    {
      var f;
      if p.path in seen {
        f := Repeat;
      } else if p.late {
        f := Skipped(p.path, Deadline);
      } else if p.size.None? {
        f := Failed(p.path);
      } else if p.current {
        f := Kept(p.path, p.size.value);
      } else if p.size.value > budget {
        f := Skipped(p.path, MaxBytes);
      } else if !p.copies {
        f := Failed(p.path);
      } else {
        f := Copied(p.path, p.size.value);
      }
      seen := seen + {p.path};
      e' := Add(f, e);
    }

    method TakeAll(pairs: seq<Pair>, e0: Entry, ghost r: Room, ghost fs: seq<Filing>) returns (e: Entry)
      requires Rest() == r && Shelves() == ShelfOf(fs) && e0.shelf == EMPTY && Flagged()
      modifies this`files, this`skipped, this`errors, this`bytes, this`budget, this`seen, this`deadlineHit
      ensures Rest() == LeftAfter(r, pairs) && Shelves() == ShelfOf(fs + Filings(r, pairs)) && Flagged()
      ensures e == e0.(shelf := ShelfOf(Filings(r, pairs)))
    {
      e := e0;
      assert fs + [] == fs;
      for k := 0 to |pairs|
        invariant Rest() == LeftAfter(r, pairs[..k]) && Flagged()
        invariant Shelves() == ShelfOf(fs + Filings(r, pairs[..k]))
        invariant e == e0.(shelf := ShelfOf(Filings(r, pairs[..k])))
      {
        FilingsMore(r, pairs, k, fs);
        e := Take(pairs[k], e);
      }
      assert pairs[..|pairs|] == pairs;
    }

    /** One invocation: its own transcripts classified, its files filed, its status decided. */
    method MirrorSite(s: Site, ghost r: Room, ghost fs: seq<Filing>)
      requires Rest() == r && Shelves() == ShelfOf(fs) && Flagged()
      modifies this`files, this`skipped, this`errors, this`bytes, this`budget, this`seen, this`invocations,
               this`deadlineHit
      ensures Rest() == LeftAfter(r, Listed(s)) && Shelves() == ShelfOf(fs + SiteFilings(r, s)) && Flagged()
      ensures invocations == old(invocations) + [EntryOf(r, s)]
    {
      var e := Entry(s.runId, NOTHING, EMPTY, Ok);
      if s.listing.None? {
        e := Add(Unlisted(s.runId), e);
        ShelfMore(fs, Unlisted(s.runId));
        ShelfMore([], Unlisted(s.runId));
        assert [] + [Unlisted(s.runId)] == [Unlisted(s.runId)];
        invocations := invocations + [e.(status := Unreadable)];
        return;
      }
      var v := Split(s);
      SeenExact(s.runId, s.listing.value);
      e := TakeAll(s.listing.value, e.(seen := v), r, fs);
      var holed := v.empty != [] || v.unreadable != [];
      var status := if v.usable == 0 then (if holed then UnusableTranscripts else NoTranscripts)
                    else if holed then PartialTranscripts
                    else if e.shelf.skipped != [] then PartlySkipped
                    else if e.shelf.errors != [] then Errors
                    else Ok;
      invocations := invocations + [e.(status := status)];
    }

    method Split(s: Site) returns (v: Seen)
      requires s.listing.Some?
      ensures v == SeenIn(s.runId, s.listing.value)
    {
      var pairs := s.listing.value;
      v := NOTHING;
      for k := 0 to |pairs|
        invariant v == SeenIn(s.runId, pairs[..k])
      {
        FrontOfPrefix(pairs, k);
        var p := pairs[k];
        if OwnFile(s.runId, p) {
          v := v.(files := v.files + 1);
          if p.transcript {
            match p.content
            case UsableText => v := v.(usable := v.usable + 1);
            case EmptyFile => v := v.(empty := v.empty + [p.path]);
            case UnreadableFile => v := v.(unreadable := v.unreadable + [p.path]);
          }
        }
      }
      assert pairs[..|pairs|] == pairs;
    }

    method MirrorSites(sites: seq<Site>)
      requires Rest() == Room({}, budget) && Shelves() == EMPTY && invocations == [] && Flagged()
      modifies this`files, this`skipped, this`errors, this`bytes, this`budget, this`seen, this`invocations,
               this`deadlineHit
      ensures Rest() == RoomAfter(old(Rest()), sites)
      ensures Shelves() == ShelfOf(AllFilings(old(Rest()), sites))
      ensures invocations == EntriesOf(old(Rest()), sites) && Flagged()
    {
      ghost var r := Rest();
      for k := 0 to |sites|
        invariant Rest() == RoomAfter(r, sites[..k]) && Shelves() == ShelfOf(AllFilings(r, sites[..k]))
        invariant invocations == EntriesOf(r, sites[..k]) && Flagged()
      {
        SitesMore(r, sites, k);
        MirrorSite(sites[k], RoomAfter(r, sites[..k]), AllFilings(r, sites[..k]));
      }
      assert sites[..|sites|] == sites;
    }

    method Incomplete() returns (r: seq<string>)
      ensures r == RunsNotOk(invocations)
    {
      r := [];
      for k := 0 to |invocations|
        invariant r == RunsNotOk(invocations[..k])
      {
        FrontOfPrefix(invocations, k);
        if invocations[k].status != Ok { r := r + [invocations[k].runId]; }
      }
      assert invocations[..|invocations|] == invocations;
    }

    /** All invocations in the order given, then the coverage. */
    method MirrorInvocations(sites: seq<Site>)
      requires Rest() == Room({}, budget) && Shelves() == EMPTY && invocations == [] && Flagged()
      modifies this
      ensures Rest() == RoomAfter(old(Rest()), sites)
      ensures var all := ShelfOf(AllFilings(Room({}, old(budget)), sites));
              files == all.files && skipped == all.skipped && errors == all.errors && bytes == all.bytes
      ensures deadlineHit <==> exists f :: f in skipped && f.Skipped? && f.why == Deadline
      ensures invocations == EntriesOf(Room({}, old(budget)), sites)
      ensures complete <==> sites != [] && AllOk(invocations)
      ensures incomplete == RunsNotOk(invocations) && captured == CountOk(invocations)
    {
      MirrorSites(sites);
      Cover(|sites|);
    }

    /** The coverage of the invocations that were filed. */
    method Cover(count: nat)
      requires |invocations| == count
      modifies this`incomplete, this`captured, this`complete
      ensures complete <==> count > 0 && AllOk(invocations)
      ensures incomplete == RunsNotOk(invocations) && captured == CountOk(invocations)
    {
      incomplete := Incomplete();
      captured := count - |incomplete|;
      complete := count > 0 && incomplete == [];
      NotOkExact(invocations);
    }
  }

  // ---- conservation ------------------------------------------------------------------------------

  lemma {:induction false} BudgetSpent(r: Room, pairs: seq<Pair>)
    ensures LeftAfter(r, pairs).budget + ShelfOf(Filings(r, pairs)).bytes == r.budget
    ensures r.budget >= 0 ==> LeftAfter(r, pairs).budget >= 0
    ensures r.budget < 0 ==> ShelfOf(Filings(r, pairs)).bytes == 0
  {
    if pairs != [] {
      BudgetSpent(r, pairs[..|pairs| - 1]);
      ShelfMore(Filings(r, pairs[..|pairs| - 1]), FilingOf(LeftAfter(r, pairs[..|pairs| - 1]), pairs[|pairs| - 1]));
    }
  }

  function Join(a: Shelf, b: Shelf): Shelf {
    Shelf(a.files + b.files, a.skipped + b.skipped, a.errors + b.errors, a.bytes + b.bytes)
  }

  function JoinAll(es: seq<Entry>): Shelf {
    if es == [] then EMPTY else Join(JoinAll(es[..|es| - 1]), es[|es| - 1].shelf)
  }

  lemma {:induction false} PutJoin(a: Shelf, b: Shelf, f: Filing)
    ensures Put(Join(a, b), f) == Join(a, Put(b, f))
  {
    var g := [f];
    assert a.files + b.files + g == a.files + (b.files + g);
    assert a.skipped + b.skipped + g == a.skipped + (b.skipped + g);
    assert a.errors + b.errors + g == a.errors + (b.errors + g);
  }

  lemma {:induction false} ShelfJoin(a: seq<Filing>, b: seq<Filing>)
    ensures ShelfOf(a + b) == Join(ShelfOf(a), ShelfOf(b))
  {
    if b == [] {
      assert a + b == a;
    } else {
      var n := |b| - 1;
      assert a + b == (a + b[..n]) + [b[n]];
      ShelfJoin(a, b[..n]);
      ShelfMore(a + b[..n], b[n]);
      PutJoin(ShelfOf(a), ShelfOf(b[..n]), b[n]);
    }
  }

  lemma {:induction false} SiteSpent(r: Room, s: Site)
    ensures LeftAfter(r, Listed(s)).budget + ShelfOf(SiteFilings(r, s)).bytes == r.budget
    ensures r.budget >= 0 ==> LeftAfter(r, Listed(s)).budget >= 0
    ensures r.budget < 0 ==> ShelfOf(SiteFilings(r, s)).bytes == 0
  {
    BudgetSpent(r, Listed(s));
    ShelfMore([], Unlisted(s.runId));
    assert [] + [Unlisted(s.runId)] == [Unlisted(s.runId)];
  }

  lemma {:induction false} BudgetShared(r: Room, sites: seq<Site>)
    ensures RoomAfter(r, sites).budget + ShelfOf(AllFilings(r, sites)).bytes == r.budget
    ensures r.budget >= 0 ==> RoomAfter(r, sites).budget >= 0
    ensures r.budget < 0 ==> ShelfOf(AllFilings(r, sites)).bytes == 0
  {
    if sites != [] {
      var n := |sites| - 1;
      BudgetShared(r, sites[..n]);
      ShelfJoin(AllFilings(r, sites[..n]), SiteFilings(RoomAfter(r, sites[..n]), sites[n]));
      SiteSpent(RoomAfter(r, sites[..n]), sites[n]);
    }
  }

  lemma {:induction false} EntriesJoined(r: Room, sites: seq<Site>)
    ensures ShelfOf(AllFilings(r, sites)) == JoinAll(EntriesOf(r, sites))
  {
    if sites != [] {
      var n := |sites| - 1;
      EntriesJoined(r, sites[..n]);
      ShelfJoin(AllFilings(r, sites[..n]), SiteFilings(RoomAfter(r, sites[..n]), sites[n]));
      assert EntriesOf(r, sites)[..n] == EntriesOf(r, sites[..n]);
    }
  }

  /**
   Nothing is spent twice or lost between the levels: the manifest's lists and bytes are the entries'
   lists and bytes joined in order, and they account for exactly the budget that is gone, which never
   exceeds what was allowed.
   */
  lemma {:induction false} Conservation(max: int, sites: seq<Site>)
    ensures var r := Room({}, max);
            var total := JoinAll(EntriesOf(r, sites));
            && ShelfOf(AllFilings(r, sites)) == total
            && RoomAfter(r, sites).budget + total.bytes == max
            && total.bytes <= (if max < 0 then 0 else max)
            && total.bytes == SizesOf(total.files)
  {
    EntriesJoined(Room({}, max), sites);
    BudgetShared(Room({}, max), sites);
    BytesAreSizes(AllFilings(Room({}, max), sites));
  }

  /** The bytes reported are the sizes of the files reported as copied. */
  function SizesOf(fs: seq<Filing>): nat {
    if fs == [] then 0 else SizesOf(fs[..|fs| - 1]) + fs[|fs| - 1].Bytes()
  }

  lemma {:induction false} BytesAreSizes(fs: seq<Filing>)
    ensures ShelfOf(fs).bytes == SizesOf(ShelfOf(fs).files)
  {
    if fs != [] {
      var n := |fs| - 1;
      BytesAreSizes(fs[..n]);
      assert (ShelfOf(fs[..n]).files + [fs[n]])[..|ShelfOf(fs[..n]).files|] == ShelfOf(fs[..n]).files;
    }
  }

  // ---- every path filed once -----------------------------------------------------------------------

  function Marks(f: Filing, path: Path): nat { if f.OfFile() && f.path == path then 1 else 0 }

  /** How often a list files a path. */
  function Times(fs: seq<Filing>, path: Path): nat {
    if fs == [] then 0 else Times(fs[..|fs| - 1], path) + Marks(fs[|fs| - 1], path)
  }

  function TimesOn(s: Shelf, path: Path): nat { Times(s.files, path) + Times(s.skipped, path) + Times(s.errors, path) }

  lemma {:induction false} TimesMore(fs: seq<Filing>, f: Filing, path: Path)
    ensures Times(fs + [f], path) == Times(fs, path) + Marks(f, path)
  {
    assert (fs + [f])[..|fs|] == fs;
  }

  lemma {:induction false} PutOnce(s: Shelf, f: Filing, path: Path)
    ensures TimesOn(Put(s, f), path) == TimesOn(s, path) + Marks(f, path)
  {
    if f.InFiles() {
      TimesMore(s.files, f, path);
    } else if f.Skipped? {
      TimesMore(s.skipped, f, path);
    } else if f.InErrors() {
      TimesMore(s.errors, f, path);
    }
  }

  lemma {:induction false} ShelfTimes(fs: seq<Filing>, path: Path)
    ensures TimesOn(ShelfOf(fs), path) == Times(fs, path)
  {
    if fs != [] {
      ShelfTimes(fs[..|fs| - 1], path);
      PutOnce(ShelfOf(fs[..|fs| - 1]), fs[|fs| - 1], path);
    }
  }

  predicate Lists(pairs: seq<Pair>, path: Path) { exists p :: p in pairs && p.path == path }

  predicate Reaches(sites: seq<Site>, path: Path) { exists s :: s in sites && Lists(Listed(s), path) }

  lemma {:induction false} ListsMore(pairs: seq<Pair>, p: Pair, path: Path)
    ensures Lists(pairs + [p], path) <==> Lists(pairs, path) || p.path == path
  {
    assert forall q :: q in pairs + [p] <==> q in pairs || q == p;
  }

  lemma {:induction false} PairsSeen(r: Room, pairs: seq<Pair>, path: Path)
    ensures path in LeftAfter(r, pairs).seen <==> path in r.seen || Lists(pairs, path)
  {
    if pairs != [] {
      var n := |pairs| - 1;
      PairsSeen(r, pairs[..n], path);
      ListsMore(pairs[..n], pairs[n], path);
      assert pairs == pairs[..n] + [pairs[n]];
    }
  }

  lemma {:induction false} MarksFresh(r: Room, p: Pair, path: Path)
    ensures Marks(FilingOf(r, p), path) == if path == p.path && path !in r.seen then 1 else 0
  {
  }

  lemma {:induction false} PairsFiled(r: Room, pairs: seq<Pair>, path: Path)
    ensures Times(Filings(r, pairs), path) == if path !in r.seen && Lists(pairs, path) then 1 else 0
  {
    if pairs != [] {
      var n := |pairs| - 1;
      var before := LeftAfter(r, pairs[..n]);
      PairsFiled(r, pairs[..n], path);
      PairsSeen(r, pairs[..n], path);
      MarksFresh(before, pairs[n], path);
      ListsMore(pairs[..n], pairs[n], path);
      assert pairs == pairs[..n] + [pairs[n]];
      TimesMore(Filings(r, pairs[..n]), FilingOf(before, pairs[n]), path);
    }
  }

  lemma {:induction false} TimesJoin(a: seq<Filing>, b: seq<Filing>, path: Path)
    ensures Times(a + b, path) == Times(a, path) + Times(b, path)
  {
    if b == [] {
      assert a + b == a;
    } else {
      var n := |b| - 1;
      assert a + b == (a + b[..n]) + [b[n]];
      TimesJoin(a, b[..n], path);
      TimesMore(a + b[..n], b[n], path);
    }
  }

  lemma {:induction false} SiteFiled(r: Room, s: Site, path: Path)
    ensures path in LeftAfter(r, Listed(s)).seen <==> path in r.seen || Lists(Listed(s), path)
    ensures Times(SiteFilings(r, s), path) == if path !in r.seen && Lists(Listed(s), path) then 1 else 0
  {
    PairsSeen(r, Listed(s), path);
    PairsFiled(r, Listed(s), path);
    if s.listing.None? {
      TimesMore([], Unlisted(s.runId), path);
      assert [] + [Unlisted(s.runId)] == [Unlisted(s.runId)];
    }
  }

  lemma {:induction false} SitesFiled(r: Room, sites: seq<Site>, path: Path)
    ensures path in RoomAfter(r, sites).seen <==> path in r.seen || Reaches(sites, path)
    ensures Times(AllFilings(r, sites), path) == if path !in r.seen && Reaches(sites, path) then 1 else 0
  {
    if sites != [] {
      var n := |sites| - 1;
      var before := RoomAfter(r, sites[..n]);
      SitesFiled(r, sites[..n], path);
      SiteFiled(before, sites[n], path);
      ReachesLast(sites, path);
      TimesJoin(AllFilings(r, sites[..n]), SiteFilings(before, sites[n]), path);
    }
  }

  lemma {:induction false} ReachesLast(sites: seq<Site>, path: Path)
    requires sites != []
    ensures Reaches(sites, path) <==> Reaches(sites[..|sites| - 1], path) || Lists(Listed(sites[|sites| - 1]), path)
  {
    var n := |sites| - 1;
    assert forall s :: s in sites <==> s in sites[..n] || s == sites[n];
  }

  /** Every path that some listing names is filed exactly once in the manifest, and no other path is. */
  lemma {:induction false} FiledOnce(max: int, sites: seq<Site>, path: Path)
    ensures TimesOn(ShelfOf(AllFilings(Room({}, max), sites)), path) == if Reaches(sites, path) then 1 else 0
  {
    SitesFiled(Room({}, max), sites, path);
    ShelfTimes(AllFilings(Room({}, max), sites), path);
  }

  // ---- what coverage certifies -----------------------------------------------------------------------

  predicate AllOk(es: seq<Entry>) { forall e :: e in es ==> e.status == Ok }

  /** Its listing could be read, and its own transcripts are there and all readable. */
  predicate Flushed(s: Site) {
    s.listing.Some? && Has(s, UsableText) && !Has(s, EmptyFile) && !Has(s, UnreadableFile)
  }

  lemma {:induction false} EntryOk(r: Room, s: Site)
    ensures EntryOf(r, s).status == Ok <==>
            Flushed(s) && Clean(EntryOf(r, s).shelf)
  {
  }

  lemma {:induction false} AllOkMore(es: seq<Entry>, e: Entry)
    ensures AllOk(es + [e]) <==> AllOk(es) && e.status == Ok
  {
    assert forall x :: x in es + [e] <==> x in es || x == e;
  }

  predicate Clean(s: Shelf) { s.skipped == [] && s.errors == [] }

  lemma {:induction false} OkMore(es: seq<Entry>, e: Entry)
    ensures AllOk(es + [e]) <==> AllOk(es) && e.status == Ok
    ensures Clean(JoinAll(es + [e])) <==> Clean(JoinAll(es)) && Clean(e.shelf)
  {
    AllOkMore(es, e);
    JoinMore(es, e);
  }

  predicate AllFlushed(sites: seq<Site>) { forall s :: s in sites ==> Flushed(s) }

  lemma {:induction false} AllFlushedLast(sites: seq<Site>)
    requires sites != []
    ensures AllFlushed(sites) <==> AllFlushed(sites[..|sites| - 1]) && Flushed(sites[|sites| - 1])
  {
    assert forall x :: x in sites <==> x in sites[..|sites| - 1] || x == sites[|sites| - 1];
  }

  lemma {:induction false} EntriesMore(r: Room, sites: seq<Site>)
    requires sites != []
    ensures var n := |sites| - 1;
            EntriesOf(r, sites) == EntriesOf(r, sites[..n]) + [EntryOf(RoomAfter(r, sites[..n]), sites[n])]
  {
  }

  lemma {:induction false} OkExact(r: Room, sites: seq<Site>)
    ensures AllOk(EntriesOf(r, sites)) <==> AllFlushed(sites) && Clean(JoinAll(EntriesOf(r, sites)))
  {
    if sites != [] {
      var n := |sites| - 1;
      var e := EntryOf(RoomAfter(r, sites[..n]), sites[n]);
      OkExact(r, sites[..n]);
      EntryOk(RoomAfter(r, sites[..n]), sites[n]);
      EntriesMore(r, sites);
      OkMore(EntriesOf(r, sites[..n]), e);
      AllFlushedLast(sites);
    }
  }

  lemma {:induction false} JoinMore(es: seq<Entry>, e: Entry)
    ensures JoinAll(es + [e]) == Join(JoinAll(es), e.shelf)
  {
    assert (es + [e])[..|es|] == es;
  }

  predicate Filed(fs: seq<Filing>, path: Path) { exists f :: f in fs && f.OfFile() && f.path == path }

  lemma {:induction false} FiledIff(fs: seq<Filing>, path: Path)
    ensures Filed(fs, path) <==> Times(fs, path) > 0
  {
    if fs != [] {
      FiledIff(fs[..|fs| - 1], path);
      assert forall f :: f in fs <==> f in fs[..|fs| - 1] || f == fs[|fs| - 1];
    }
  }

  lemma {:induction false} ShelfSorted(fs: seq<Filing>)
    ensures forall f :: f in ShelfOf(fs).files <==> f in fs && f.InFiles()
    ensures forall f :: f in ShelfOf(fs).skipped <==> f in fs && f.Skipped?
    ensures forall f :: f in ShelfOf(fs).errors <==> f in fs && f.InErrors()
  {
    if fs != [] {
      ShelfSorted(fs[..|fs| - 1]);
      assert forall f :: f in fs <==> f in fs[..|fs| - 1] || f == fs[|fs| - 1];
    }
  }

  lemma {:induction false} AllListed(r: Room, sites: seq<Site>)
    requires AllFlushed(sites)
    ensures forall f :: f in AllFilings(r, sites) ==> !f.Unlisted?
  {
    if sites != [] {
      var n := |sites| - 1;
      AllFlushedLast(sites);
      AllListed(r, sites[..n]);
      NoneUnlisted(RoomAfter(r, sites[..n]), Listed(sites[n]));
    }
  }

  lemma {:induction false} NoneUnlisted(r: Room, pairs: seq<Pair>)
    ensures forall f :: f in Filings(r, pairs) ==> !f.Unlisted?
  {
    if pairs != [] { NoneUnlisted(r, pairs[..|pairs| - 1]); }
  }

  /** Coverage as it is computed. */
  predicate Complete(max: int, sites: seq<Site>) { sites != [] && AllOk(EntriesOf(Room({}, max), sites)) }

  /** Every listed file of every invocation is in the mirror: kept because current, or copied now. */
  ghost predicate EveryFileHeld(max: int, sites: seq<Site>) {
    forall path :: Reaches(sites, path) ==> Filed(ShelfOf(AllFilings(Room({}, max), sites)).files, path)
  }

  /**
   The coverage certificate, exactly: it says complete iff there is an invocation, every listing could
   be read, every invocation has transcripts of its own and all of them readable, and every listed
   file, of whichever invocation, is in the mirror.
   */
  lemma {:induction false} CompleteIff(max: int, sites: seq<Site>)
    ensures Complete(max, sites) <==> sites != [] && AllFlushed(sites) && EveryFileHeld(max, sites)
  {
    var r := Room({}, max);
    var fs := AllFilings(r, sites);
    OkExact(r, sites);
    EntriesJoined(r, sites);
    ShelfSorted(fs);
    if Complete(max, sites) {
      forall path | Reaches(sites, path) ensures Filed(ShelfOf(fs).files, path) { HeldIfNothingElse(max, sites, path); }
    }
    if sites != [] && AllFlushed(sites) && EveryFileHeld(max, sites) {
      AllListed(r, sites);
      forall f ensures f !in ShelfOf(fs).skipped && f !in ShelfOf(fs).errors {
        if f in ShelfOf(fs).skipped || f in ShelfOf(fs).errors { NotHeldIfElsewhere(max, sites, f); }
      }
      NothingIn(ShelfOf(fs).skipped);
      NothingIn(ShelfOf(fs).errors);
    }
  }

  lemma {:induction false} NothingIn(s: seq<Filing>)
    ensures s == [] <==> forall f :: f !in s
  {
    if s != [] {
      var f := s[0];
      assert f in s;
    }
  }

  lemma {:induction false} HeldIfNothingElse(max: int, sites: seq<Site>, path: Path)
    requires Reaches(sites, path)
    requires ShelfOf(AllFilings(Room({}, max), sites)).skipped == []
    requires ShelfOf(AllFilings(Room({}, max), sites)).errors == []
    ensures Filed(ShelfOf(AllFilings(Room({}, max), sites)).files, path)
  {
    FiledOnce(max, sites, path);
    FiledIff(ShelfOf(AllFilings(Room({}, max), sites)).files, path);
  }

  lemma {:induction false} NotHeldIfElsewhere(max: int, sites: seq<Site>, f: Filing)
    requires f in ShelfOf(AllFilings(Room({}, max), sites)).skipped
             || f in ShelfOf(AllFilings(Room({}, max), sites)).errors
    requires f.OfFile()
    ensures Reaches(sites, f.path) && !Filed(ShelfOf(AllFilings(Room({}, max), sites)).files, f.path)
  {
    var s := ShelfOf(AllFilings(Room({}, max), sites));
    FiledOnce(max, sites, f.path);
    FiledIff(s.files, f.path);
    FiledIff(s.skipped, f.path);
    FiledIff(s.errors, f.path);
  }

  /** The file can be read and the mirror already holds this version of it. */
  predicate UpToDate(p: Pair) { p.size.Some? && p.current && !p.late }

  lemma {:induction false} KeptAll(r: Room, pairs: seq<Pair>)
    requires forall p :: p in pairs ==> UpToDate(p)
    ensures forall f :: f in Filings(r, pairs) ==> f.Repeat? || f.Kept?
  {
    if pairs != [] {
      var n := |pairs| - 1;
      assert UpToDate(pairs[n]);
      assert forall p :: p in pairs[..n] ==> p in pairs;
      KeptAll(r, pairs[..n]);
    }
  }

  lemma {:induction false} KeptEverywhere(r: Room, sites: seq<Site>)
    requires forall s :: s in sites ==> s.listing.Some? && forall p :: p in Listed(s) ==> UpToDate(p)
    ensures forall f :: f in AllFilings(r, sites) ==> f.Repeat? || f.Kept?
  {
    if sites != [] {
      var n := |sites| - 1;
      assert sites[n] in sites;
      assert forall s :: s in sites[..n] ==> s in sites;
      KeptEverywhere(r, sites[..n]);
      KeptAll(RoomAfter(r, sites[..n]), Listed(sites[n]));
    }
  }

  lemma {:induction false} NoneCopied(fs: seq<Filing>)
    requires forall f :: f in fs ==> f.Repeat? || f.Kept?
    ensures ShelfOf(fs).bytes == 0 && Clean(ShelfOf(fs))
  {
    if fs != [] {
      var n := |fs| - 1;
      assert fs[n] in fs;
      assert forall f :: f in fs[..n] ==> f in fs;
      NoneCopied(fs[..n]);
    }
  }

  /** A repeated pass over unchanged files copies nothing, skips nothing and fails nothing, whatever the budget. */
  lemma {:induction false} RepeatCopiesNothing(max: int, sites: seq<Site>)
    requires forall s :: s in sites ==> s.listing.Some? && forall p :: p in Listed(s) ==> UpToDate(p)
    ensures ShelfOf(AllFilings(Room({}, max), sites)).bytes == 0
    ensures Clean(ShelfOf(AllFilings(Room({}, max), sites)))
  {
    KeptEverywhere(Room({}, max), sites);
    NoneCopied(AllFilings(Room({}, max), sites));
  }

  // ---- a second pass over what the first one left ---------------------------------------------------

  /**
   The sources have not changed since a first pass filed `first`: every file can be read, and the mirror
   holds the current version of exactly those that pass kept or copied.
   */
  ghost predicate Unchanged(first: seq<Filing>, sites: seq<Site>) {
    forall s, p :: s in sites && p in Listed(s) ==>
      s.listing.Some? && p.size.Some? && !p.late && (p.current <==> Filed(ShelfOf(first).files, p.path))
  }

  /** After a complete pass a second one over the same files copies nothing, skips nothing and fails nothing. */
  lemma {:induction false} SecondPassCopiesNothing(max: int, sites: seq<Site>, again: int, later: seq<Site>)
    requires Complete(max, sites)
    requires forall s :: s in later ==> s.listing.Some?
    requires forall path :: Reaches(later, path) ==> Reaches(sites, path)
    requires Unchanged(AllFilings(Room({}, max), sites), later)
    ensures ShelfOf(AllFilings(Room({}, again), later)).bytes == 0
    ensures Clean(ShelfOf(AllFilings(Room({}, again), later)))
  {
    CompleteIff(max, sites);
    forall s, p | s in later && p in Listed(s) ensures UpToDate(p) {
      assert Lists(Listed(s), p.path) && Reaches(later, p.path);
    }
    RepeatCopiesNothing(again, later);
  }

  /** In general it copies, skips or fails only files that the first pass did not get into the mirror. */
  lemma {:induction false} SecondPassOnlyMissing(first: seq<Filing>, again: int, later: seq<Site>, f: Filing)
    requires Unchanged(first, later)
    requires f in AllFilings(Room({}, again), later) && (f.Copied? || f.Skipped? || f.Failed?)
    ensures !Filed(ShelfOf(first).files, f.path)
  {
    var s, r := FiledForSite(Room({}, again), later, f);
    var p := FiledForPair(r, Listed(s), f);
  }

  lemma {:induction false} FiledForSite(r: Room, sites: seq<Site>, f: Filing) returns (s: Site, before: Room)
    requires f in AllFilings(r, sites) && f.OfFile()
    ensures s in sites && f in Filings(before, Listed(s))
  {
    var n := |sites| - 1;
    if f in AllFilings(r, sites[..n]) {
      s, before := FiledForSite(r, sites[..n], f);
    } else {
      s, before := sites[n], RoomAfter(r, sites[..n]);
    }
  }

  lemma {:induction false} FiledForPair(r: Room, pairs: seq<Pair>, f: Filing) returns (p: Pair)
    requires f in Filings(r, pairs) && f.OfFile()
    ensures p in pairs && p.path == f.path
    ensures p.size.Some? && !p.late && p.current ==> f.Kept?
  {
    var n := |pairs| - 1;
    if f in Filings(r, pairs[..n]) {
      p := FiledForPair(r, pairs[..n], f);
    } else {
      p := pairs[n];
    }
  }

  // ---- what one invocation's status certifies ---------------------------------------------------------

  /** A listing takes in no other run's workflow directory. */
  predicate OwnOnly(s: Site) { forall p :: p in Listed(s) && p.path.Own? ==> p.path.run == s.runId }

  lemma {:induction false} NotEarlier(sites: seq<Site>, k: nat, path: Path)
    requires k < |sites| && path.Own? && path.run == sites[k].runId
    requires forall a, b :: 0 <= a < b < |sites| ==> sites[a].runId != sites[b].runId
    requires forall s :: s in sites ==> OwnOnly(s)
    ensures !Reaches(sites[..k], path)
  {
    forall s | s in sites[..k] ensures !Lists(Listed(s), path) {
      assert OwnOnly(s) && s.runId != path.run;
    }
  }

  /**
   With distinct run ids, an invocation reported as captured has every transcript of its own in its own
   list of files: whatever an earlier invocation filed first, it was not one of these.
   */
  lemma {:induction false} CapturedEntry(max: int, sites: seq<Site>, k: nat, p: Pair)
    requires k < |sites|
    requires forall a, b :: 0 <= a < b < |sites| ==> sites[a].runId != sites[b].runId
    requires forall s :: s in sites ==> OwnOnly(s)
    requires EntriesOf(Room({}, max), sites)[k].status == Ok
    requires p in Listed(sites[k]) && OwnTranscript(sites[k].runId, p)
    ensures Filed(EntriesOf(Room({}, max), sites)[k].shelf.files, p.path)
    ensures p.content == UsableText
  {
    var r := RoomAfter(Room({}, max), sites[..k]);
    var fs := SiteFilings(r, sites[k]);
    EntryAt(Room({}, max), sites, k);
    SitesFiled(Room({}, max), sites[..k], p.path);
    NotEarlier(sites, k, p.path);
    SiteFiled(r, sites[k], p.path);
    ShelfTimes(fs, p.path);
    EntryOk(r, sites[k]);
    FiledIff(ShelfOf(fs).files, p.path);
  }

  lemma {:induction false} Shorter(sites: seq<Site>, k: nat)
    requires k < |sites|
    ensures sites[..|sites| - 1][..k] == sites[..k]
  {
  }

  lemma {:induction false} EntryAt(r: Room, sites: seq<Site>, k: nat)
    requires k < |sites|
    ensures EntriesOf(r, sites)[k] == EntryOf(RoomAfter(r, sites[..k]), sites[k])
  {
    EntryInFront(r, sites, k);
    if k < |sites| - 1 {
      Shorter(sites, k);
      EntryAt(r, sites[..|sites| - 1], k);
    }
  }

  lemma {:induction false} EntryInFront(r: Room, sites: seq<Site>, k: nat)
    requires k < |sites|
    ensures var n := |sites| - 1;
            EntriesOf(r, sites)[k]
            == if k < n then EntriesOf(r, sites[..n])[k] else EntryOf(RoomAfter(r, sites[..n]), sites[n])
  {
    EntriesMore(r, sites);
  }
}
