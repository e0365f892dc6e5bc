/**
 When two template lists fold alike, and what that means for plain arguments (e2e_workflow/e2e_workflow.js,
 templateArguments, kernelIdentitiesMatch). Characters are written out here.
 */
module KernelFolding {
  import opened Sequences
  import opened KernelNames
  import opened KernelNameLaws
  import opened KernelIdentity

  /** A letter or a digit of the ASCII range. */
  predicate Plain(c: char) { 'a' <= c <= 'z' || 'A' <= c <= 'Z' || '0' <= c <= '9' }

  function Small(c: char): char { if 'A' <= c <= 'Z' then (c as int - 'A' as int + 'a' as int) as char else c }

  predicate AllPlain(s: string) { forall c :: c in s ==> Plain(c) }

  /** Each character in lower case. */
  function Smalls(s: string): (r: string)
    ensures |r| == |s| && forall i :: 0 <= i < |s| ==> r[i] == Small(s[i])
  {
    seq(|s|, i requires 0 <= i < |s| => Small(s[i]))
  }

  function RunLength(s: string): (n: nat)
    ensures n <= |s|
    ensures forall i :: 0 <= i < n ==> Plain(s[i])
    ensures n < |s| ==> !Plain(s[n])
  {
    if s == "" || !Plain(s[0]) then 0 else 1 + RunLength(s[1..])
  }

  /** The maximal runs of letters and digits, in lower case. */
  function Runs(s: string): seq<string>
    decreases |s|
  {
    if s == "" then []
    else if !Plain(s[0]) then Runs(s[1..])
    else [Smalls(s[..RunLength(s)])] + Runs(s[RunLength(s)..])
  }

  /** A separator stands at the front; at the end. */
  predicate Leads(s: string) { s != "" && !Plain(s[0]) }

  predicate Trails(s: string) { s != "" && !Plain(s[|s| - 1]) }

  /** Runs joined by one underscore each, with one for the separators at each end. */
  function Glue(runs: seq<string>, lead: bool, trail: bool): string {
    if runs == [] then (if lead then "_" else "")
    else
      (if lead then "_" else "") + runs[0]
      + if |runs| == 1 then (if trail then "_" else "") else Glue(runs[1..], true, trail)
  }

  // ---- folding is gluing --------------------------------------------------------------------

  lemma {:induction false} SmallIs(c: char)
    ensures ToLower(c) == Small(c) && (IsAlnum(ToLower(c)) <==> Plain(c))
    ensures Plain(c) ==> Plain(Small(c)) && Small(Small(c)) == Small(c)
  {
  }

  lemma {:induction false} FoldRun(s: string, n: nat, inRun: bool)
    requires n <= |s| && n > 0 && forall i :: 0 <= i < n ==> Plain(s[i])
    ensures FoldFrom(s, inRun) == Smalls(s[..n]) + FoldFrom(s[n..], false)
    decreases n
  {
    SmallIs(s[0]);
    if n == 1 {
      assert Smalls(s[..1]) == [Small(s[0])];
    } else {
      FoldRun(s[1..], n - 1, false);
      assert s[1..][n - 1..] == s[n..];
      assert Smalls(s[..n]) == [Small(s[0])] + Smalls(s[1..][..n - 1]);
      JoinAssociates([Small(s[0])], Smalls(s[1..][..n - 1]), FoldFrom(s[n..], false));
    }
  }

  lemma {:induction false} TrailsRest(s: string, n: nat)
    requires n < |s|
    ensures Trails(s[n..]) == Trails(s)
  {
  }

  lemma {:induction false} NoRuns(s: string)
    ensures Runs(s) == [] <==> forall c :: c in s ==> !Plain(c)
    decreases |s|
  {
    if s != "" {
      assert s[0] in s;
      if !Plain(s[0]) {
        NoRuns(s[1..]);
        assert s == [s[0]] + s[1..];
      }
    }
  }

  lemma {:induction false} FoldGlues(s: string, inRun: bool)
    ensures FoldFrom(s, inRun) == Glue(Runs(s), Leads(s) && !inRun, Trails(s))
    decreases |s|
  {
    if s != "" {
      SmallIs(s[0]);
      if Plain(s[0]) {
        GlueAfterRun(s, inRun);
      } else {
        FoldGlues(s[1..], true);
        if |s| > 1 { TrailsRest(s, 1); }
        GlueAfterSeparator(s);
      }
    }
  }

  lemma {:induction false} GlueAfterSeparator(s: string)
    requires s != "" && !Plain(s[0])
    ensures Glue(Runs(s), true, Trails(s)) == "_" + Glue(Runs(s), false, Trails(s))
    ensures Glue(Runs(s), false, Trails(s)) == Glue(Runs(s[1..]), false, Trails(s[1..]))
  {
    NoRuns(s);
    if |s| > 1 { TrailsRest(s, 1); }
    if Runs(s) != [] {
      assert "_" + Runs(s)[0] == "_" + ("" + Runs(s)[0]);
    }
  }

  lemma {:induction false} GlueAfterRun(s: string, inRun: bool)
    requires s != "" && Plain(s[0])
    ensures FoldFrom(s, inRun) == Glue(Runs(s), false, Trails(s))
    decreases |s|, 0
  {
    var n := RunLength(s);
    var rest := s[n..];
    FoldRun(s, n, inRun);
    FoldGlues(rest, false);
    RestOfRun(s);
    if rest != "" { TrailsRest(s, n); }
    assert "" + Smalls(s[..n]) == Smalls(s[..n]);
  }

  lemma {:induction false} RestOfRun(s: string)
    requires s != "" && Plain(s[0])
    ensures var n := RunLength(s);
            && n > 0 && Runs(s) == [Smalls(s[..n])] + Runs(s[n..]) && Runs(s)[1..] == Runs(s[n..])
            && (s[n..] != "" ==> Leads(s[n..]))
            && (Runs(s[n..]) == [] ==> (Trails(s) <==> s[n..] != ""))
  {
    var n := RunLength(s);
    var rest := s[n..];
    NoRuns(rest);
    assert ([Smalls(s[..n])] + Runs(rest))[1..] == Runs(rest);
    if rest != "" {
      TrailsRest(s, n);
      assert rest[|rest| - 1] in rest;
    } else {
      assert s[|s| - 1] == s[n - 1];
    }
  }

  /** Folding in closed form. */
  lemma {:induction false} FoldIs(s: string)
    ensures FoldArgs(s) == Glue(Runs(s), Leads(s), Trails(s))
  {
    FoldGlues(s, false);
  }

  // ---- and loses nothing but case and separators --------------------------------------------------

  lemma {:induction false} FoldedChars(s: string, inRun: bool)
    ensures forall c :: c in FoldFrom(s, inRun) ==> c == '_' || (Plain(c) && Small(c) == c)
  {
    if s != "" {
      SmallIs(s[0]);
      FoldedChars(s[1..], IsAlnum(ToLower(s[0])) == false);
    }
  }

  lemma {:induction false} RunsAreSmall(s: string)
    ensures forall w :: w in Runs(s) ==> w != "" && forall c :: c in w ==> Plain(c) && Small(c) == c
    decreases |s|
  {
    if s != "" {
      if Plain(s[0]) {
        var n := RunLength(s);
        RunsAreSmall(s[n..]);
        forall i | 0 <= i < n ensures Plain(Smalls(s[..n])[i]) && Small(Smalls(s[..n])[i]) == Smalls(s[..n])[i] {
          SmallIs(s[i]);
        }
      } else {
        RunsAreSmall(s[1..]);
      }
    }
  }

  ghost predicate SmallRuns(runs: seq<string>) {
    forall w :: w in runs ==> w != "" && forall c :: c in w ==> Plain(c) && Small(c) == c
  }

  lemma {:induction false} RunThenRest(w: string, rest: string)
    requires w != "" && (forall c :: c in w ==> Plain(c) && Small(c) == c) && (rest != "" ==> !Plain(rest[0]))
    ensures Runs(w + rest) == [w] + Runs(rest)
  {
    RunLengthIs(w, rest);
    var s := w + rest;
    assert s[0] == w[0] && w[0] in w;
    assert s[..|w|] == w && s[|w|..] == rest;
    forall i | 0 <= i < |w| ensures Smalls(w)[i] == w[i] { assert w[i] in w; }
    assert Smalls(w) == w;
  }

  lemma {:induction false} RunLengthIs(w: string, rest: string)
    requires (forall c :: c in w ==> Plain(c)) && (rest != "" ==> !Plain(rest[0]))
    ensures RunLength(w + rest) == |w|
  {
    if w == "" {
      JoinNothing(rest);
    } else {
      assert w[0] in w && forall c :: c in w[1..] ==> c in w;
      assert (w + rest)[1..] == w[1..] + rest;
      RunLengthIs(w[1..], rest);
    }
  }

  /** Glued runs can be told apart again. */
  lemma {:induction false} RunsOfGlue(runs: seq<string>, lead: bool, trail: bool)
    requires SmallRuns(runs)
    ensures Runs(Glue(runs, lead, trail)) == runs
    ensures Leads(Glue(runs, lead, trail)) == lead
    ensures runs != [] ==> Trails(Glue(runs, lead, trail)) == trail
  {
    if runs == [] {
      assert "_"[1..] == "" && Runs("") == [];
    } else {
      var w := runs[0];
      assert w in runs;
      var rest := Behind(runs, trail);
      if |runs| > 1 {
        assert forall x :: x in runs[1..] ==> x in runs;
        RunsOfGlue(runs[1..], true, trail);
      } else {
        assert "_"[1..] == "" && Runs("") == [];
      }
      GluedOnce(w, rest, lead);
      assert runs == [w] + runs[1..];
    }
  }

  /** What is glued behind the first run. */
  function Behind(runs: seq<string>, trail: bool): string
    requires runs != []
  {
    if |runs| == 1 then (if trail then "_" else "") else Glue(runs[1..], true, trail)
  }

  lemma {:induction false} GluedOnce(w: string, rest: string, lead: bool)
    requires w != "" && (forall c :: c in w ==> Plain(c) && Small(c) == c) && (rest != "" ==> !Plain(rest[0]))
    ensures var s := (if lead then "_" else "") + w + rest;
            Runs(s) == [w] + Runs(rest) && Leads(s) == lead && Trails(s) == (rest != "" && Trails(rest))
  {
    RunThenRest(w, rest);
    TrailsOfRun(w, rest);
    LedRuns(w + rest);
    NotLed(w, rest);
    Led(w, rest);
  }

  lemma {:induction false} NotLed(w: string, rest: string)
    requires w != "" && forall c :: c in w ==> Plain(c)
    ensures "" + w + rest == w + rest && !Leads(w + rest)
  {
    assert w[0] in w && (w + rest)[0] == w[0];
    JoinNothing(w);
  }

  lemma {:induction false} Led(w: string, rest: string)
    ensures "_" + w + rest == "_" + (w + rest) && Leads("_" + (w + rest))
  {
    JoinAssociates("_", w, rest);
    assert ("_" + (w + rest))[0] == '_';
  }

  lemma {:induction false} LedRuns(s: string)
    ensures Runs("_" + s) == Runs(s) && (s != "" ==> Trails("_" + s) == Trails(s))
  {
    assert ("_" + s)[1..] == s;
  }

  lemma {:induction false} TrailsOfRun(w: string, rest: string)
    requires w != "" && forall c :: c in w ==> Plain(c)
    ensures w + rest != "" && Trails(w + rest) == (rest != "" && Trails(rest))
  {
    assert w[|w| - 1] in w;
    assert rest == "" ==> (w + rest)[|w| - 1] == w[|w| - 1];
  }

  /**
   Two texts fold alike exactly if they hold the same runs of letters and digits up to case, and agree on
   whether separators stand before the first and behind the last.
   */
  lemma {:induction false} FoldAlikeIff(a: string, b: string)
    ensures FoldArgs(a) == FoldArgs(b) <==> Runs(a) == Runs(b) && Leads(a) == Leads(b) && Trails(a) == Trails(b)
  {
    FoldIs(a);
    FoldIs(b);
    RunsAreSmall(a);
    RunsAreSmall(b);
    RunsOfGlue(Runs(a), Leads(a), Trails(a));
    RunsOfGlue(Runs(b), Leads(b), Trails(b));
    EndsWithoutRuns(a);
    EndsWithoutRuns(b);
  }

  lemma {:induction false} EndsWithoutRuns(s: string)
    ensures Runs(s) == [] ==> Leads(s) == Trails(s) == (s != "")
  {
    NoRuns(s);
    if s != "" { assert s[0] in s && s[|s| - 1] in s; }
  }

  // ---- plain arguments -----------------------------------------------------------------------------

  lemma {:induction false} RunOfPlain(a: string)
    requires a != "" && AllPlain(a)
    ensures Runs(a) == [Smalls(a)] && !Leads(a) && !Trails(a)
  {
    RunLengthIs(a, "");
    JoinNothing(a);
    assert a[0] in a && a[|a| - 1] in a;
    assert a[..|a|] == a && a[|a|..] == "";
  }

  /** Plain arguments fold to themselves in lower case. */
  lemma {:induction false} FoldOfPlain(a: string)
    requires a != "" && AllPlain(a)
    ensures FoldArgs(a) == Smalls(a)
  {
    FoldIs(a);
    RunOfPlain(a);
    assert "" + Smalls(a) + "" == Smalls(a);
  }

  lemma {:induction false} PlainAsDeco(a: string)
    requires AllPlain(a)
    ensures Proper(Chars(a, End)) && Closed(Chars(a, End)) && Show(Chars(a, End)) == a
  {
    assert NoBrackets(a);
    CharsShow(a, End);
    ClosedChars(a);
    JoinNothing(a);
  }

  lemma {:induction false} ClosedChars(a: string)
    ensures Closed(Chars(a, End))
  {
    if a != "" { ClosedChars(a[1..]); }
  }

  lemma {:induction false} Bracketed(q: string, a: string)
    requires AllPlain(a)
    ensures q + Show(Grp(Angle, Chars(a, End), End)) == q + "<" + a + ">"
  {
    PlainAsDeco(a);
    assert Show(Grp(Angle, Chars(a, End), End)) == "<" + a + ">" + "";
    JoinNothing("<" + a + ">");
    assert q + ("<" + a + ">") == q + "<" + a + ">";
  }

  /** Two instances of one name with plain, non-empty arguments match exactly if these are equal up to case. */
  lemma {:induction false} PlainInstancesMatchIff(q: string, a: string, b: string)
    requires NoBrackets(q) && Canonical(q) != ""
    requires a != "" && b != "" && AllPlain(a) && AllPlain(b)
    ensures Match(q + "<" + a + ">", q + "<" + b + ">") <==>
            |a| == |b| && forall i :: 0 <= i < |a| ==> Small(a[i]) == Small(b[i])
  {
    PlainAsDeco(a);
    PlainAsDeco(b);
    Bracketed(q, a);
    Bracketed(q, b);
    InstancesMatchIff(q, Chars(a, End), End, Chars(b, End), End);
    FoldOfPlain(a);
    FoldOfPlain(b);
    SameSmalls(a, b);
  }

  lemma {:induction false} SameSmalls(a: string, b: string)
    ensures Smalls(a) == Smalls(b) <==> |a| == |b| && forall i :: 0 <= i < |a| ==> Small(a[i]) == Small(b[i])
  {
    if Smalls(a) == Smalls(b) {
      forall i | 0 <= i < |a| ensures Small(a[i]) == Small(b[i]) { assert Smalls(a)[i] == Smalls(b)[i]; }
    }
  }

  // ---- names, written out ------------------------------------------------------------------------

  /** A letter, a digit or an underscore. */
  predicate NameChar(c: char) { Plain(c) || c == '_' }

  /** A name keeps every character, capitals in lower case. */
  lemma {:induction false} LoweredName(s: string)
    requires forall c :: c in s ==> NameChar(c)
    ensures Lowered(s) == Smalls(s)
  {
    if s != "" {
      assert s[0] in s && forall c :: c in s[1..] ==> c in s;
      LoweredName(s[1..]);
      assert Smalls(s) == [Small(s[0])] + Smalls(s[1..]);
    }
  }

  /** So the canonical name of a qualified, decorated symbol is its last identifier with capitals in lower case. */
  lemma {:induction false} CanonicalSmall(returnsVoid: bool, segs: seq<Seg>, id: string, tail: Deco)
    requires GoodSegs(segs) && id != "" && (forall c :: c in id ==> NameChar(c)) && Proper(tail) && Blank(tail)
    ensures Canonical((if returnsVoid then "void " else "") + Spell(segs, id, tail)) == Smalls(id)
  {
    assert Words(id);
    CanonicalName(returnsVoid, segs, id, tail);
    LoweredName(id);
  }

  /** A name of plain characters is its own canonical name, in lower case, and has no list. */
  lemma {:induction false} NameAlone(p: string)
    requires p != "" && AllPlain(p)
    ensures Canonical(p) == Smalls(p) && Arguments(p) == ("", true)
  {
    assert Words(p) && NoBrackets(p);
    CanonicalSmall(false, [], p, End);
    JoinNothing(p);
    assert Spell([], p, End) == p + "" && "" + (p + "") == p;
    NoArguments(p);
  }

  /** A plain name matches a longer one that begins with it exactly from sixty characters on. */
  lemma {:induction false} DisplayLimitIff(p: string, more: string)
    requires p != "" && more != "" && AllPlain(p) && AllPlain(more)
    ensures Match(p, p + more) <==> |p| >= 60
  {
    PlainNamesMatch(p, p + more);
    assert Smalls(p + more) == Smalls(p) + Smalls(more);
    LongerDiffers(Smalls(p), Smalls(more));
  }

  lemma {:induction false} PlainNamesMatch(p: string, q: string)
    requires p != "" && AllPlain(p) && q != "" && AllPlain(q)
    ensures Match(p, q) <==> NamesAgree(Smalls(p), Smalls(q))
  {
    NameAlone(p);
    NameAlone(q);
    assert Smalls(p) != "" && Smalls(q) != "";
  }

  lemma {:induction false} LongerDiffers(a: string, b: string)
    requires b != ""
    ensures a != a + b && a <= a + b && !(a + b <= a)
  {
  }
}
