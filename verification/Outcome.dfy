/**
 The outcome roll-up (interface/geak_outcome_report.py, _speedup, _delta_stages, summarize): the
 compounded speedup of the measured stages against the speedup observed from first to last.
 The speedup of a stage is taken as the exact quotient; how the roll-up rounds is a parameter.
 */
module Outcome {
  import opened Wrappers

  datatype Kind = Reference | Delta | Kernel

  datatype Stage = Stage(phase: string, kind: Kind, present: bool, before: Option<real>, after: Option<real>,
                         speedup: Option<real>)

  datatype Seam = Seam(from: string, to: string, left: real, right: real)

  datatype Summary = Summary(reference: Option<real>, first: Option<real>, last: Option<real>,
                             observed: Option<real>, deltaPct: Option<real>, compounded: Option<real>, estimate: bool,
                             seams: seq<Seam>, gaps: seq<real>, stages: nat)

  /** Python's `round` to a number of digits; nothing is assumed of it. */
  type Rounding = (real, nat) -> real

  function Rounded(x: Option<real>, digits: nat, round: Rounding): Option<real> {
    if x.Some? then Some(round(x.value, digits)) else None
  }

  function Speedup(before: Option<real>, after: Option<real>): Option<real> {
    if before.None? || after.None? || before.value <= 0.0 then None else Some(after.value / before.value)
  }

  /** The change in per cent, before rounding. */
  function Pct(before: Option<real>, after: Option<real>): Option<real> {
    if before.None? || after.None? || before.value <= 0.0 then None
    else Some((after.value / before.value - 1.0) * 100.0)
  }

  /** A stage as the sweep and the tuning report it: what it measured, else what its file claims. */
  function Measured(phase: string, before: Option<real>, after: Option<real>, claimed: Option<real>): Stage {
    var s := Speedup(before, after);
    Stage(phase, Delta, before.Some? && after.Some?, before, after, if s.Some? && s.value != 0.0 then s else claimed)
  }

  function Deltas(stages: seq<Stage>): (r: seq<Stage>)
    ensures forall s :: s in r <==> s in stages && s.kind == Delta && s.present
  {
    if stages == [] then []
    else
      var s := stages[|stages| - 1];
      Deltas(stages[..|stages| - 1]) + if s.kind == Delta && s.present then [s] else []
  }

  /** `stage.get("speedup") or 1.0`: both a missing and a zero speedup count as one. */
  function Factor(s: Stage): real { if s.speedup.Some? && s.speedup.value != 0.0 then s.speedup.value else 1.0 }

  /** A product, under a name of its own. */
  function Times(x: real, y: real): real { x * y }

  /** The product of the first `n`. */
  function Product(fs: seq<real>, n: nat): real
    requires n <= |fs|
  {
    if n == 0 then 1.0 else Times(Product(fs, n - 1), fs[n - 1])
  }

  function Factors(deltas: seq<Stage>): seq<real> {
    seq(|deltas|, k requires 0 <= k < |deltas| => Factor(deltas[k]))
  }

  function Compounded(deltas: seq<Stage>): real { Product(Factors(deltas), |deltas|) }

  function Abs(x: real): real { if x < 0.0 then -x else x }

  /** More than one per cent between two figures, neither of them missing or zero. */
  predicate Parted(a: Option<real>, b: Option<real>) {
    a.Some? && b.Some? && a.value != 0.0 && b.value != 0.0 && Abs(a.value - b.value) / a.value > 0.01
  }

  function Seams(deltas: seq<Stage>): seq<Seam> {
    if |deltas| <= 1 then []
    else
      var n := |deltas| - 1;
      var p, q := deltas[n - 1], deltas[n];
      Seams(deltas[..n])
      + if Parted(p.after, q.before) then [SeamOf(p, q)] else []
  }

  function SeamOf(p: Stage, q: Stage): Seam
    requires Parted(p.after, q.before)
  {
    Seam(p.phase, q.phase, p.after.value, q.before.value)
  }

  /** What a seam shows: the relative gap in per cent. */
  function GapPct(m: Seam): real { if m.left == 0.0 then 0.0 else (m.right / m.left - 1.0) * 100.0 }

  function Gaps(seams: seq<Seam>, round: Rounding): (r: seq<real>)
    ensures |r| == |seams| && forall k :: 0 <= k < |r| ==> r[k] == round(GapPct(seams[k]), 4)
  {
    seq(|seams|, k requires 0 <= k < |seams| => round(GapPct(seams[k]), 4))
  }

  /** The whole roll-up, each figure rounded as it is reported. */
  method Summarize(stages: seq<Stage>, baseline: Stage, round: Rounding) returns (s: Summary)
    ensures var d := Deltas(stages);
            && s.gaps == Gaps(s.seams, round)
            && s.reference == baseline.after
            && s.stages == |d| && s.seams == Seams(d) && (s.estimate <==> Seams(d) != [])
            && s.compounded == (if d == [] then None else Some(round(Compounded(d), 6)))
            && s.first == (if d == [] then None else d[0].before)
            && s.last == (if d == [] then None else d[|d| - 1].after)
            && s.observed == Rounded(Speedup(s.first, s.last), 6, round)
            && s.deltaPct == Rounded(Pct(s.first, s.last), 4, round)
  {
    var deltas := Deltas(stages);
    var compounded := Compound(deltas);
    var seams := FindSeams(deltas);
    var first := if deltas == [] then None else deltas[0].before;
    var last := if deltas == [] then None else deltas[|deltas| - 1].after;
    var total := if deltas == [] then None else Some(round(compounded, 6));
    s := Summary(baseline.after, first, last, Rounded(Speedup(first, last), 6, round),
                 Rounded(Pct(first, last), 4, round), total, seams != [], seams, Gaps(seams, round), |deltas|);
  }

  method Compound(deltas: seq<Stage>) returns (compounded: real)
    ensures compounded == Compounded(deltas)
  {
    compounded := 1.0;
    for k := 0 to |deltas|
      invariant compounded == Product(Factors(deltas), k)
    {
      compounded := compounded * Factor(deltas[k]);
    }
  }

  method FindSeams(deltas: seq<Stage>) returns (seams: seq<Seam>)
    ensures seams == Seams(deltas)
  {
    seams := [];
    for k := 0 to |deltas|
      invariant seams == Seams(deltas[..k])
    {
      assert deltas[..k + 1][..k] == deltas[..k];
      if k > 0 {
        var a, b := deltas[k - 1].after, deltas[k].before;
        if a.Some? && b.Some? && a.value != 0.0 && b.value != 0.0 && Abs(a.value - b.value) / a.value > 0.01 {
          seams := seams + [Seam(deltas[k - 1].phase, deltas[k].phase, a.value, b.value)];
        }
      }
    }
    assert deltas[..|deltas|] == deltas;
  }

  // ---- what the figures mean ------------------------------------------------------------

  /** A stage with positive throughput on both sides, its speedup the ratio of the two. */
  predicate Positive(s: Stage) {
    && s.before.Some? && s.after.Some? && s.before.value > 0.0 && s.after.value > 0.0
    && s.speedup == Some(s.after.value / s.before.value)
  }

  lemma {:induction false} MeasuredIsPositive(phase: string, before: real, after: real, claimed: Option<real>)
    requires before > 0.0 && after > 0.0
    ensures Positive(Measured(phase, Some(before), Some(after), claimed))
  {
    QuotientPositive(after, before);
  }

  lemma {:induction false} QuotientPositive(a: real, b: real)
    requires a > 0.0 && b > 0.0
    ensures a / b > 0.0
  {
  }

  predicate AllPositive(deltas: seq<Stage>) { forall s :: s in deltas ==> Positive(s) }

  function Start(s: Stage): real { if s.before.Some? then s.before.value else 0.0 }

  function End(s: Stage): real { if s.after.Some? then s.after.value else 0.0 }

  function Ratio(a: real, b: real): real { if b == 0.0 then 1.0 else a / b }

  /** What each handoff between neighbouring stages gained or lost. */
  function Handoffs(deltas: seq<Stage>): seq<real> {
    if deltas == [] then []
    else seq(|deltas| - 1, k requires 0 <= k < |deltas| - 1 => Ratio(Start(deltas[k + 1]), End(deltas[k])))
  }

  function Power(b: real, n: nat): real { if n == 0 then 1.0 else Times(Power(b, n - 1), b) }

  lemma {:induction false} RatioTimes(a: real, b: real)
    requires b > 0.0
    ensures Times(Ratio(a, b), b) == a
    ensures a > 0.0 ==> Ratio(a, b) > 0.0
  {
  }

  lemma {:induction false} QuotientIs(a: real, b: real, q: real)
    requires b > 0.0 && a == Times(q, b)
    ensures a / b == q
  {
  }

  lemma {:induction false} Regroup(pf: real, ph: real, f: real, h: real, start: real)
    ensures Times(f, Times(h, Times(Times(pf, ph), start))) == Times(Times(Times(pf, f), Times(ph, h)), start)
  {
  }

  /** Each stage's end is its factor times its start, and each next start the handoff times that end. */
  ghost predicate Chain(b: seq<real>, a: seq<real>, f: seq<real>, h: seq<real>) {
    && |b| == |a| == |f| == |h| + 1
    && (forall k :: 0 <= k < |f| ==> a[k] == Times(f[k], b[k]))
    && (forall k :: 0 <= k < |h| ==> b[k + 1] == Times(h[k], a[k]))
  }

  /** Along a chain of figures, each is the first times every step up to it. */
  lemma {:induction false} Telescope(b: seq<real>, a: seq<real>, f: seq<real>, h: seq<real>, n: nat)
    requires Chain(b, a, f, h) && n <= |h|
    ensures a[n] == Times(Times(Product(f, n + 1), Product(h, n)), b[0])
  {
    if n == 0 {
      assert Times(1.0, f[0]) == f[0] && Times(f[0], 1.0) == f[0];
    } else {
      Telescope(b, a, f, h, n - 1);
      Regroup(Product(f, n), Product(h, n - 1), f[n], h[n - 1], b[0]);
      assert b[n - 1 + 1] == Times(h[n - 1], a[n - 1]);
    }
  }

  lemma {:induction false} ProductPositive(f: seq<real>, n: nat)
    requires n <= |f| && forall k :: 0 <= k < |f| ==> f[k] > 0.0
    ensures Product(f, n) > 0.0
  {
    if n > 0 {
      ProductPositive(f, n - 1);
      MulPositive(Product(f, n - 1), f[n - 1]);
    }
  }

  lemma {:induction false} MulPositive(x: real, y: real)
    requires x > 0.0 && y > 0.0
    ensures Times(x, y) > 0.0
  {
  }

  lemma {:induction false} StageFactor(s: Stage)
    requires Positive(s)
    ensures Factor(s) > 0.0 && End(s) == Times(Factor(s), Start(s))
  {
    RatioTimes(End(s), Start(s));
  }

  /** The observed speedup is exactly the compounded one times what the handoffs did. */
  lemma {:induction false} ObservedIsCompoundedTimesHandoffs(deltas: seq<Stage>)
    requires deltas != [] && AllPositive(deltas)
    ensures Compounded(deltas) > 0.0
    ensures Speedup(deltas[0].before, deltas[|deltas| - 1].after)
            == Some(Times(Compounded(deltas), Product(Handoffs(deltas), |deltas| - 1)))
  {
    var n := |deltas|;
    assert Positive(deltas[0]) && Positive(deltas[n - 1]);
    StageFactors(deltas);
    ProductPositive(Factors(deltas), n);
    Telescope(Starts(deltas), Ends(deltas), Factors(deltas), Handoffs(deltas), n - 1);
    QuotientIs(End(deltas[n - 1]), Start(deltas[0]), Times(Compounded(deltas), Product(Handoffs(deltas), n - 1)));
  }

  function Starts(deltas: seq<Stage>): seq<real> {
    seq(|deltas|, k requires 0 <= k < |deltas| => Start(deltas[k]))
  }

  function Ends(deltas: seq<Stage>): seq<real> {
    seq(|deltas|, k requires 0 <= k < |deltas| => End(deltas[k]))
  }

  lemma {:induction false} StageFactors(deltas: seq<Stage>)
    requires deltas != [] && AllPositive(deltas)
    ensures forall k :: 0 <= k < |deltas| ==> Factors(deltas)[k] > 0.0
    ensures Chain(Starts(deltas), Ends(deltas), Factors(deltas), Handoffs(deltas))
  {
    forall k | 0 <= k < |deltas|
      ensures Factors(deltas)[k] > 0.0 && Ends(deltas)[k] == Times(Factors(deltas)[k], Starts(deltas)[k])
    {
      StageFactor(deltas[k]);
    }
    forall k | 0 <= k < |deltas| - 1
      ensures Starts(deltas)[k + 1] == Times(Handoffs(deltas)[k], Ends(deltas)[k])
    {
      assert Positive(deltas[k]);
      RatioTimes(Start(deltas[k + 1]), End(deltas[k]));
    }
  }

  lemma {:induction false} MulLe(a: real, x: real, y: real)
    requires a > 0.0
    ensures x * a <= y * a <==> x <= y
  {
    if x > y { assert (x - y) * a > 0.0; } else { assert (y - x) * a >= 0.0; }
  }

  lemma {:induction false} QuotientLe(d: real, a: real, q: real)
    requires a > 0.0
    ensures d / a <= q <==> d <= q * a
    ensures q <= d / a <==> q * a <= d
  {
    var x := d / a;
    assert x * a == d;
    MulLe(a, x, q);
    MulLe(a, q, x);
  }

  lemma {:induction false} HandoffBound(a: real, b: real)
    requires a > 0.0 && b > 0.0 && !(Abs(a - b) / a > 0.01)
    ensures 0.99 <= b / a <= 1.01
  {
    QuotientLe(Abs(a - b), a, 0.01);
    QuotientLe(b, a, 0.99);
    QuotientLe(b, a, 1.01);
  }

  lemma {:induction false} TimesLe(a: real, x: real, y: real)
    requires a >= 0.0 && x <= y
    ensures Times(a, x) <= Times(a, y) && Times(x, a) <= Times(y, a)
  {
    assert a * (y - x) >= 0.0;
  }

  lemma {:induction false} ProductBound(l: real, x: real, u: real, lo: real, y: real, hi: real)
    requires 0.0 <= l <= x <= u && 0.0 <= lo <= y <= hi
    ensures 0.0 <= Times(l, lo) <= Times(x, y) <= Times(u, hi)
  {
    TimesLe(l, 0.0, lo);
    TimesLe(lo, l, x);
    TimesLe(x, lo, y);
    TimesLe(y, x, u);
    TimesLe(u, y, hi);
  }

  lemma {:induction false} PowerBound(h: seq<real>, n: nat)
    requires n <= |h| && forall k :: 0 <= k < |h| ==> 0.99 <= h[k] <= 1.01
    ensures 0.0 <= Power(0.99, n) <= Product(h, n) <= Power(1.01, n)
  {
    if n > 0 {
      PowerBound(h, n - 1);
      ProductBound(Power(0.99, n - 1), Product(h, n - 1), Power(1.01, n - 1), 0.99, h[n - 1], 1.01);
    }
  }

  predicate PartedAt(deltas: seq<Stage>, k: nat) { 0 < k < |deltas| && Parted(deltas[k - 1].after, deltas[k].before) }

  lemma {:induction false} SeamsLast(deltas: seq<Stage>)
    requires |deltas| > 1
    ensures Seams(deltas) == [] <==> Seams(deltas[..|deltas| - 1]) == [] && !PartedAt(deltas, |deltas| - 1)
  {
  }

  /** No seam is listed exactly when no two neighbouring stages part. */
  lemma {:induction false} SeamlessIff(deltas: seq<Stage>)
    ensures Seams(deltas) == [] <==> forall k: nat :: !PartedAt(deltas, k)
  {
    if |deltas| > 1 {
      var n := |deltas| - 1;
      SeamlessIff(deltas[..n]);
      SeamsLast(deltas);
      forall k: nat ensures PartedAt(deltas, k) <==> PartedAt(deltas[..n], k) || (k == n && PartedAt(deltas, n)) {}
    }
  }

  lemma {:induction false} UnpartedBound(p: Stage, q: Stage)
    requires Positive(p) && Positive(q) && !Parted(p.after, q.before)
    ensures 0.99 <= Ratio(Start(q), End(p)) <= 1.01
  {
    HandoffBound(End(p), Start(q));
  }

  lemma {:induction false} Unparted(deltas: seq<Stage>, k: nat)
    requires Seams(deltas) == [] && k + 1 < |deltas|
    ensures !Parted(deltas[k].after, deltas[k + 1].before)
  {
    SeamlessIff(deltas);
    assert !PartedAt(deltas, k + 1);
  }

  lemma {:induction false} HandoffAt(deltas: seq<Stage>, k: nat)
    requires AllPositive(deltas) && k + 1 < |deltas|
    ensures Handoffs(deltas)[k] == Ratio(Start(deltas[k + 1]), End(deltas[k]))
    ensures Positive(deltas[k]) && Positive(deltas[k + 1])
  {
    assert deltas[k] in deltas && deltas[k + 1] in deltas;
  }

  lemma {:induction false} SeamlessHandoffs(deltas: seq<Stage>, k: nat)
    requires AllPositive(deltas) && Seams(deltas) == [] && k + 1 < |deltas|
    ensures 0.99 <= Handoffs(deltas)[k] <= 1.01
  {
    Unparted(deltas, k);
    HandoffAt(deltas, k);
    UnpartedBound(deltas[k], deltas[k + 1]);
  }

  lemma {:induction false} Scale(o: real, c: real, lo: real, y: real, hi: real)
    requires c > 0.0 && lo <= y <= hi && o == Times(c, y)
    ensures Times(c, lo) <= o <= Times(c, hi)
  {
    MulLe(c, lo, y);
    MulLe(c, y, hi);
  }

  /**
   When nothing is called an estimate, it is not one: over n positive stages without a seam, the speedup
   observed from first to last is the compounded speedup within one per cent for each of the n - 1 handoffs.
   */
  lemma {:induction false} NoSeamNoDrift(deltas: seq<Stage>)
    requires deltas != [] && AllPositive(deltas) && Seams(deltas) == []
    ensures var o := Speedup(deltas[0].before, deltas[|deltas| - 1].after);
            && o.Some? && Compounded(deltas) > 0.0
            && Times(Compounded(deltas), Power(0.99, |deltas| - 1)) <= o.value
            && o.value <= Times(Compounded(deltas), Power(1.01, |deltas| - 1))
  {
    ObservedIsCompoundedTimesHandoffs(deltas);
    HandoffsBound(deltas);
    var n := |deltas| - 1;
    Scale(Speedup(deltas[0].before, deltas[n].after).value, Compounded(deltas),
          Power(0.99, n), Product(Handoffs(deltas), n), Power(1.01, n));
  }

  lemma {:induction false} HandoffsBound(deltas: seq<Stage>)
    requires deltas != [] && AllPositive(deltas) && Seams(deltas) == []
    ensures var n := |deltas| - 1;
            Power(0.99, n) <= Product(Handoffs(deltas), n) <= Power(1.01, n)
  {
    var h := Handoffs(deltas);
    forall k | 0 <= k < |h| ensures 0.99 <= h[k] <= 1.01 { SeamlessHandoffs(deltas, k); }
    PowerBound(h, |deltas| - 1);
  }

  predicate Joined(deltas: seq<Stage>) {
    forall k :: 0 < k < |deltas| ==> deltas[k].before == deltas[k - 1].after
  }

  lemma {:induction false} AllOnes(h: seq<real>, n: nat)
    requires n <= |h| && forall k :: 0 <= k < |h| ==> h[k] == 1.0
    ensures Product(h, n) == 1.0
  {
    if n > 0 { AllOnes(h, n - 1); }
  }

  lemma {:induction false} SelfRatio(e: real)
    requires e > 0.0
    ensures e / e == 1.0 && Abs(e - e) / e == 0.0
  {
    QuotientIs(e, e, 1.0);
    QuotientIs(Abs(e - e), e, 0.0);
  }

  lemma {:induction false} JoinedPair(p: Stage, q: Stage)
    requires Positive(p) && q.before == p.after
    ensures Ratio(Start(q), End(p)) == 1.0 && !Parted(p.after, q.before)
  {
    var e := End(p);
    assert Start(q) == e;
    SelfRatio(e);
  }

  lemma {:induction false} JoinedHandoffs(deltas: seq<Stage>)
    requires deltas != [] && AllPositive(deltas) && Joined(deltas)
    ensures Product(Handoffs(deltas), |deltas| - 1) == 1.0
  {
    var h := Handoffs(deltas);
    forall k | 0 <= k < |h| ensures h[k] == 1.0 {
      assert Positive(deltas[k]) && deltas[k + 1].before == deltas[k + 1 - 1].after;
      JoinedPair(deltas[k], deltas[k + 1]);
    }
    AllOnes(h, |deltas| - 1);
  }

  lemma {:induction false} JoinedSeamless(deltas: seq<Stage>)
    requires AllPositive(deltas) && Joined(deltas)
    ensures Seams(deltas) == []
  {
    forall k: nat ensures !PartedAt(deltas, k) {
      if 0 < k < |deltas| {
        assert Positive(deltas[k - 1]) && deltas[k].before == deltas[k - 1].after;
        JoinedPair(deltas[k - 1], deltas[k]);
      }
    }
    SeamlessIff(deltas);
  }

  lemma {:induction false} TimesOne(c: real, p: real)
    requires p == 1.0
    ensures Times(c, p) == c
  {
  }

  /** And when every stage starts where the one before ended, the two figures are the same. */
  lemma {:induction false} JoinedIsExact(deltas: seq<Stage>)
    requires deltas != [] && AllPositive(deltas) && Joined(deltas)
    ensures Speedup(deltas[0].before, deltas[|deltas| - 1].after) == Some(Compounded(deltas))
    ensures Seams(deltas) == []
  {
    ObservedIsCompoundedTimesHandoffs(deltas);
    JoinedHandoffs(deltas);
    JoinedSeamless(deltas);
    TimesOne(Compounded(deltas), Product(Handoffs(deltas), |deltas| - 1));
  }

  /** A seam is listed for exactly the neighbouring stages that part by more than one per cent. */
  lemma {:induction false} SeamsExact(deltas: seq<Stage>, m: Seam)
    ensures m in Seams(deltas) <==> exists k :: SeamAt(deltas, k, m)
  {
    if |deltas| > 1 {
      var n := |deltas| - 1;
      SeamsExact(deltas[..n], m);
      ListedLast(deltas, m);
      forall k ensures SeamAt(deltas[..n], k, m) <==> k < n && SeamAt(deltas, k, m) { SeamInFront(deltas, k, m); }
    }
  }

  /** The stages `k - 1` and `k` part, and `m` says so. */
  ghost predicate SeamAt(deltas: seq<Stage>, k: int, m: Seam) {
    0 < k < |deltas| && Parted(deltas[k - 1].after, deltas[k].before) && m == SeamOf(deltas[k - 1], deltas[k])
  }

  lemma {:induction false} SeamInFront(deltas: seq<Stage>, k: int, m: Seam)
    requires deltas != []
    ensures SeamAt(deltas[..|deltas| - 1], k, m) <==> k < |deltas| - 1 && SeamAt(deltas, k, m)
  {
  }

  lemma {:induction false} ListedLast(deltas: seq<Stage>, m: Seam)
    requires |deltas| > 1
    ensures var n := |deltas| - 1;
            m in Seams(deltas) <==> m in Seams(deltas[..n]) || SeamAt(deltas, n, m)
  {
  }

  /**
   Positive throughput is needed: a stage that ends at zero parts from any next stage unseen, and counts
   as a speedup of one, so the figures can disagree by any factor with nothing called an estimate.
   */
  lemma {:induction false} ZeroHandoffUnseen(x: real, y: real)
    requires x > 0.0 && y > 0.0
    ensures var d := [Measured("a", Some(x), Some(0.0), None), Measured("b", Some(y), Some(y), None)];
            && Seams(d) == [] && Compounded(d) == 1.0 && Speedup(d[0].before, d[1].after) == Some(y / x)
  {
    var a, b := Measured("a", Some(x), Some(0.0), None), Measured("b", Some(y), Some(y), None);
    var d := [a, b];
    assert y / y == 1.0 && 0.0 / x == 0.0;
    assert d[..1] == [a];
    assert Factors(d) == [1.0, 1.0];
    AllOnes(Factors(d), 2);
  }

  /** A negative end hides any gap too, because the relative gap is then negative. */
  lemma {:induction false} NegativeHandoffUnseen(x: real, y: real)
    requires x > 0.0 && y > 0.0
    ensures var d := [Measured("a", Some(x), Some(-x), None), Measured("b", Some(y), Some(y), None)];
            && Seams(d) == [] && Compounded(d) == -1.0 && Speedup(d[0].before, d[1].after) == Some(y / x)
  {
    var a, b := Measured("a", Some(x), Some(-x), None), Measured("b", Some(y), Some(y), None);
    var d := [a, b];
    QuotientOf(-x, x, -1.0);
    QuotientOf(y, y, 1.0);
    NotParted(-x, y);
    assert d[..1] == [a];
    assert Factors(d) == [-1.0, 1.0];
    assert Product(Factors(d), 1) == Times(Product(Factors(d), 0), -1.0);
    assert Times(1.0, -1.0) == -1.0 && Times(-1.0, 1.0) == -1.0;
  }

  lemma {:induction false} QuotientOf(a: real, b: real, q: real)
    requires b != 0.0 && a == q * b
    ensures a / b == q
  {
  }

  lemma {:induction false} NotParted(a: real, b: real)
    requires a < 0.0
    ensures !Parted(Some(a), Some(b))
  {
    var x := Abs(a - b) / a;
    assert x * a == Abs(a - b);
    assert x > 0.0 ==> x * a < 0.0;
  }

  /** And so does a next stage that starts at zero: its own speedup is unknown, so it counts as one. */
  lemma {:induction false} ZeroStartUnseen(x: real, y: real, z: real)
    requires x > 0.0 && y > 0.0 && z > 0.0
    ensures var d := [Measured("a", Some(x), Some(y), None), Measured("b", Some(0.0), Some(z), None)];
            && d[0].present && d[1].present && Seams(d) == []
            && Factor(d[1]) == 1.0 && Speedup(d[0].before, d[1].after) == Some(z / x)
  {
    var d := [Measured("a", Some(x), Some(y), None), Measured("b", Some(0.0), Some(z), None)];
    assert d[..1] == [d[0]];
  }

  /**
   So the absence of a seam says that two figures are within one per cent exactly if the earlier stage ended
   positive and the later one did not start at zero.
   */
  lemma {:induction false} TrustedHandoffIff(a: real, b: real)
    ensures (!Parted(Some(a), Some(b)) ==> a > 0.0 && 0.99 <= b / a <= 1.01) <==> a > 0.0 && b != 0.0
  {
    if a > 0.0 && b > 0.0 {
      if !Parted(Some(a), Some(b)) { HandoffBound(a, b); }
    } else if a > 0.0 && b < 0.0 {
      PartedBySign(a, b);
    } else if a < 0.0 {
      NotParted(a, b);
    }
  }

  lemma {:induction false} PartedBySign(a: real, b: real)
    requires a > 0.0 && b < 0.0
    ensures Parted(Some(a), Some(b))
  {
    var x := Abs(a - b) / a;
    assert x * a == a - b;
    assert (x - 1.0) * a == -b;
    assert x <= 1.0 ==> (x - 1.0) * a <= 0.0;
  }

  /** Every listed gap is more than one per cent, up or down, of a figure that is positive. */
  lemma {:induction false} GapIsShown(deltas: seq<Stage>, m: Seam)
    requires m in Seams(deltas)
    ensures m.left > 0.0 && m.right != 0.0 && (GapPct(m) > 1.0 || GapPct(m) < -1.0)
  {
    SeamsExact(deltas, m);
    GapOf(m);
  }

  lemma {:induction false} GapOf(m: Seam)
    requires Parted(Some(m.left), Some(m.right))
    ensures m.left > 0.0 && (GapPct(m) > 1.0 || GapPct(m) < -1.0)
  {
    var a, b := m.left, m.right;
    if a < 0.0 { NotParted(a, b); }
    var q, x := b / a, Abs(a - b) / a;
    assert q * a == b && x * a == Abs(a - b);
    assert (q - 1.0) * a == b - a;
    if b > a { SameQuotient(q - 1.0, x, a); } else { SameQuotient(1.0 - q, x, a); }
  }

  lemma {:induction false} SameQuotient(x: real, y: real, a: real)
    requires a > 0.0 && x * a == y * a
    ensures x == y
  {
    assert (x - y) * a == 0.0;
  }
}
