/**
 What each figure of the outcome roll-up is (interface/geak_outcome_report.py, _pct, _speedup, _delta_stages,
 summarize), in terms of the throughputs that it was computed from and of the order of the stages.
 */
module OutcomeFigures {
  import opened Wrappers
  import opened Sequences
  import opened Outcome

  /** A speedup is known if both figures are and the first is positive; it leads from the first to the second. */
  lemma {:induction false} SpeedupIs(before: Option<real>, after: Option<real>)
    ensures Speedup(before, after).Some? <==> before.Some? && after.Some? && before.value > 0.0
    ensures Speedup(before, after).Some? ==> Speedup(before, after).value * before.value == after.value
  {
  }

  /** The change in per cent is known together with the speedup, and says the same. */
  lemma {:induction false} PctIs(before: Option<real>, after: Option<real>)
    ensures Pct(before, after).Some? <==> Speedup(before, after).Some?
    ensures Pct(before, after).Some? ==>
            && Pct(before, after).value == 100.0 * Speedup(before, after).value - 100.0
            && (Pct(before, after).value + 100.0) * before.value == 100.0 * after.value
  {
    if Pct(before, after).Some? {
      var s := Speedup(before, after).value;
      assert s * before.value == after.value;
      assert (100.0 * s) * before.value == 100.0 * (s * before.value);
    }
  }

  /** A figure that is not known stays so; one that is known is rounded. */
  lemma {:induction false} RoundedIs(x: Option<real>, digits: nat, round: Rounding)
    ensures Rounded(x, digits, round).Some? <==> x.Some?
    ensures x.Some? ==> Rounded(x, digits, round).value == round(x.value, digits)
  {
  }

  /**
   A measured stage is present if both figures are known, and its speedup is that of the figures if they have one
   other than zero; else it is the one that its file claims.
   */
  lemma {:induction false} MeasuredIs(phase: string, before: Option<real>, after: Option<real>, claimed: Option<real>)
    ensures var s := Measured(phase, before, after, claimed);
            && s.phase == phase && s.kind == Delta && s.before == before && s.after == after
            && (s.present <==> before.Some? && after.Some?)
            && if before.Some? && after.Some? && before.value > 0.0 && after.value != 0.0
               then s.speedup.Some? && s.speedup.value * before.value == after.value
               else s.speedup == claimed
  {
    SpeedupIs(before, after);
  }

  // ---- which stages ---------------------------------------------------------------------------------

  /** The present delta stages are kept, in order. */
  lemma {:induction false} DeltasJoin(a: seq<Stage>, b: seq<Stage>)
    ensures Deltas(a + b) == Deltas(a) + Deltas(b)
  {
    if b == [] {
      JoinNothing(a);
      JoinNothing(Deltas(a));
    } else {
      var n := |b| - 1;
      FrontOfJoin(a, b);
      DeltasJoin(a, b[..n]);
      JoinAssociates(Deltas(a), Deltas(b[..n]), if b[n].kind == Delta && b[n].present then [b[n]] else []);
    }
  }

  lemma {:induction false} DeltasOne(s: Stage)
    ensures Deltas([s]) == if s.kind == Delta && s.present then [s] else []
  {
    assert [s][..0] == [];
  }

  // ---- which handoffs ---------------------------------------------------------------------------------

  /** Two figures part if the first is positive and the second, not zero, is more than one per cent away from it. */
  lemma {:induction false} PartedIff(a: real, b: real)
    ensures Parted(Some(a), Some(b)) <==> a > 0.0 && b != 0.0 && (b - a > 0.01 * a || a - b > 0.01 * a)
  {
    if a > 0.0 {
      QuotientLe(Abs(a - b), a, 0.01);
    } else if a < 0.0 {
      NotParted(a, b);
    }
  }

  /** The seam `m` says how stage `k - 1` was handed to stage `k`. */
  ghost predicate SeamSays(deltas: seq<Stage>, k: int, m: Seam) {
    && 0 < k < |deltas|
    && m.from == deltas[k - 1].phase && deltas[k - 1].after == Some(m.left)
    && m.to == deltas[k].phase && deltas[k].before == Some(m.right)
    && m.left > 0.0 && m.right != 0.0 && (m.right - m.left > 0.01 * m.left || m.left - m.right > 0.01 * m.left)
  }

  lemma {:induction false} SeamSaysIff(deltas: seq<Stage>, k: int, m: Seam)
    ensures SeamSays(deltas, k, m) <==> SeamAt(deltas, k, m)
  {
    PartedIff(m.left, m.right);
  }

  /** The seams are those of the handoffs that part, each with the two phases and the two figures. */
  lemma {:induction false} SeamsSay(deltas: seq<Stage>, m: Seam)
    ensures m in Seams(deltas) <==> exists k :: SeamSays(deltas, k, m)
  {
    SeamsExact(deltas, m);
    if k :| SeamAt(deltas, k, m) { SeamSaysIff(deltas, k, m); }
    if k :| SeamSays(deltas, k, m) { SeamSaysIff(deltas, k, m); }
  }

  /** They are listed in the order of the stages: the last stage adds its own, if there is one. */
  lemma {:induction false} SeamOfLast(deltas: seq<Stage>, m: Seam)
    requires deltas != []
    ensures var n := |deltas| - 1;
            && (SeamSays(deltas, n, m) ==> Seams(deltas) == Seams(deltas[..n]) + [m])
            && ((forall x :: !SeamSays(deltas, n, x)) ==> Seams(deltas) == Seams(deltas[..n]))
  {
    var n := |deltas| - 1;
    SeamSaysIff(deltas, n, m);
    if PartedAt(deltas, n) {
      var x := SeamOf(deltas[n - 1], deltas[n]);
      SeamSaysIff(deltas, n, x);
      assert SeamSays(deltas, n, x);
    }
  }

  /** The gap in per cent leads from the first figure to the second. */
  lemma {:induction false} GapIs(m: Seam)
    requires m.left != 0.0
    ensures (GapPct(m) + 100.0) * m.left == 100.0 * m.right
  {
    var q := m.right / m.left;
    assert q * m.left == m.right;
    assert (100.0 * q) * m.left == 100.0 * (q * m.left);
  }
}
