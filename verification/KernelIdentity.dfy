/**
 When two symbols are taken for the same kernel (e2e_workflow/e2e_workflow.js, templateArguments,
 truncatedPrefix, kernelIdentitiesMatch).
 */
module KernelIdentity {
  import opened KernelNames
  import opened KernelNameLaws

  const SHORT_NAME_LIMIT := 60

  predicate IsAlnum(c: char) { 'a' <= c <= 'z' || '0' <= c <= '9' }

  /** `toLowerCase().replace(/[^a-z0-9]+/g, '_')` */
  function FoldArgs(s: string): string { FoldFrom(s, false) }

  function FoldFrom(s: string, inRun: bool): string {
    if s == "" then ""
    else
      var c := ToLower(s[0]);
      if IsAlnum(c) then [c] + FoldFrom(s[1..], false)
      else (if inRun then "" else "_") + FoldFrom(s[1..], true)
  }

  function FirstAngle(s: string): (n: nat)
    ensures n <= |s|
    ensures forall i :: 0 <= i < n ==> s[i] != '<'
    ensures n < |s| ==> s[n] == '<'
  {
    if s == "" || s[0] == '<' then 0 else 1 + FirstAngle(s[1..])
  }

  /** Index of the `>` that brings `depth` to zero, or |s|. */
  function CloseAt(s: string, i: nat, depth: int): (n: nat)
    requires i <= |s|
    ensures i <= n <= |s|
    decreases |s| - i
  {
    if i == |s| then |s|
    else if s[i] == '<' then CloseAt(s, i + 1, depth + 1)
    else if s[i] == '>' then if depth - 1 == 0 then i else CloseAt(s, i + 1, depth - 1)
    else CloseAt(s, i + 1, depth)
  }

  function Arguments(s: string): (string, bool) {
    var start := FirstAngle(s);
    if start == |s| then ("", true)
    else
      var close := CloseAt(s, start, 0);
      if close < |s| && start < close then (FoldArgs(s[start + 1..close]), true)
      else (FoldArgs(s[start + 1..]), false)
  }

  method TemplateArguments(text: string) returns (args: string, closed: bool)
    ensures (args, closed) == Arguments(text)
  {
    var start := FirstAngle(text);
    if start == |text| { return "", true; }
    var depth := 0;
    for i := start to |text|
      invariant i == start ==> depth == 0
      invariant i > start ==> depth >= 1
      invariant CloseAt(text, start, 0) == CloseAt(text, i, depth)
    {
      if text[i] == '<' {
        depth := depth + 1;
      } else if text[i] == '>' {
        depth := depth - 1;
        if depth == 0 { return FoldArgs(text[start + 1..i]), true; }
      }
    }
    return FoldArgs(text[start + 1..]), false;
  }

  predicate IsPrefix(a: string, b: string) { a <= b }

  predicate TruncatedPrefix(needle: string, haystack: string) {
    |needle| >= SHORT_NAME_LIMIT && IsPrefix(needle, haystack)
  }

  predicate Match(a: string, b: string) {
    var x, y := Canonical(a), Canonical(b);
    && x != "" && y != ""
    && NamesAgree(x, y) && ListsAgree(Arguments(a), Arguments(b))
  }

  /** One name, or one of them cut at the display limit. */
  predicate NamesAgree(x: string, y: string) { x == y || TruncatedPrefix(x, y) || TruncatedPrefix(y, x) }

  /** No list to compare, or complete lists that are equal, or lists that agree as far as both go. */
  predicate ListsAgree(a: (string, bool), b: (string, bool)) {
    || a.0 == "" || b.0 == ""
    || (if a.1 && b.1 then a.0 == b.0 else IsPrefix(b.0, a.0) || IsPrefix(a.0, b.0))
  }

  method KernelIdentitiesMatch(a: string, b: string) returns (r: bool)
    ensures r == Match(a, b)
  {
    var x := CanonicalDeviceKernel(a);
    var y := CanonicalDeviceKernel(b);
    if x == "" || y == "" { return false; }
    if x != y && !TruncatedPrefix(x, y) && !TruncatedPrefix(y, x) { return false; }
    var xa, xc := TemplateArguments(a);
    var ya, yc := TemplateArguments(b);
    if xa == "" || ya == "" { return true; }
    if xc && yc { return xa == ya; }
    return IsPrefix(ya, xa) || IsPrefix(xa, ya);
  }

  /** Symmetric; and a symbol matches itself exactly when it has a canonical name at all. */
  lemma {:induction false} MatchLaws(a: string, b: string)
    ensures Match(a, b) <==> Match(b, a)
    ensures Match(a, a) <==> Canonical(a) != ""
  {
  }

  // ---- template lists of decorated names ----------------------------------------------

  /** `t` stands in `s` at position `i`. */
  predicate At(s: string, i: nat, t: string) { i + |t| <= |s| && s[i..i + |t|] == t }

  lemma {:induction false} AtSplit(s: string, i: nat, t: string, u: string)
    requires At(s, i, t + u)
    ensures At(s, i, t) && At(s, i + |t|, u)
  {
    assert s[i..i + |t|] == s[i..i + |t + u|][..|t|];
    assert s[i + |t|..i + |t| + |u|] == s[i..i + |t + u|][|t|..];
  }

  lemma {:induction false} CloseSkipsBalanced(s: string, i: nat, d: Deco, depth: int)
    requires Proper(d) && Closed(d) && depth >= 1 && At(s, i, Show(d))
    ensures CloseAt(s, i, depth) == CloseAt(s, i + |Show(d)|, depth)
    decreases d, 1
  {
    match d
    case End =>
    case Chr(c, rest) =>
      AtSplit(s, i, [c], Show(rest));
      assert s[i] == s[i..i + 1][0] == c;
      CloseSkipsBalanced(s, i + 1, rest, depth);
    case Grp(_, _, _) =>
      CloseSkipsGroup(s, i, d, depth);
  }

  lemma {:induction false} CloseSkipsGroup(s: string, i: nat, d: Deco, depth: int)
    requires d.Grp? && Proper(d) && Closed(d) && depth >= 1 && At(s, i, Show(d))
    ensures CloseAt(s, i, depth) == CloseAt(s, i + |Show(d)|, depth)
    decreases d, 0
  {
    var j := i + 1 + |Show(d.inner)|;
    GroupAt(s, i, d);
    DepthSteps(s, i, j, d.k, depth);
    CloseSkipsBalanced(s, i + 1, d.inner, Deeper(d.k, depth));
    CloseSkipsBalanced(s, j + 1, d.rest, depth);
  }

  /** Where the parts of a group are. */
  lemma {:induction false} GroupAt(s: string, i: nat, d: Deco)
    requires d.Grp? && At(s, i, Show(d))
    ensures var j := i + 1 + |Show(d.inner)|;
            && i < j < |s| && s[i] == Left(d.k) && s[j] == Right(d.k)
            && At(s, i + 1, Show(d.inner)) && At(s, j + 1, Show(d.rest))
            && i + |Show(d)| == j + 1 + |Show(d.rest)|
  {
    AtGroup(s, i, Left(d.k), Show(d.inner), Right(d.k), Show(d.rest));
  }

  function Deeper(k: Bracket, depth: int): int { if k == Angle then depth + 1 else depth }

  lemma {:induction false} DepthSteps(s: string, i: nat, j: nat, k: Bracket, depth: int)
    requires i < |s| && j < |s| && s[i] == Left(k) && s[j] == Right(k) && depth >= 1
    ensures CloseAt(s, i, depth) == CloseAt(s, i + 1, Deeper(k, depth))
    ensures CloseAt(s, j, Deeper(k, depth)) == CloseAt(s, j + 1, depth)
  {
  }

  lemma {:induction false} AtGroup(s: string, i: nat, o: char, inner: string, c: char, rest: string)
    requires At(s, i, [o] + inner + [c] + rest)
    ensures s[i] == o && At(s, i + 1, inner)
    ensures s[i + 1 + |inner|] == c && At(s, i + 2 + |inner|, rest)
  {
    var j := i + 1 + |inner|;
    AtSplit(s, i, [o] + inner + [c], rest);
    AtSplit(s, i, [o] + inner, [c]);
    AtSplit(s, i, [o], inner);
    assert s[i] == s[i..i + 1][0];
    assert s[j] == s[j..j + 1][0];
  }

  lemma {:induction false} FirstAngleOf(q: string, rest: string)
    requires '<' !in q
    ensures FirstAngle(q + rest) == |q| + FirstAngle(rest)
  {
    if q == "" {
      assert q + rest == rest;
    } else {
      assert q[0] in q && (q + rest)[1..] == q[1..] + rest;
      FirstAngleOf(q[1..], rest);
    }
  }

  lemma {:induction false} ArgumentsAt(s: string, n: nat, inside: string)
    requires FirstAngle(s) == n < |s| && CloseAt(s, n, 0) == n + 1 + |inside| < |s|
    requires At(s, n + 1, inside)
    ensures Arguments(s) == (FoldArgs(inside), true)
  {
  }

  lemma {:induction false} ArgumentsOfTemplate(q: string, args: Deco, tail: Deco)
    requires NoBrackets(q) && Proper(args) && Closed(args)
    ensures Arguments(q + Show(Grp(Angle, args, tail))) == (FoldArgs(Show(args)), true)
  {
    var s, n := q + Show(Grp(Angle, args, tail)), |q|;
    TemplateCloses(q, args, tail);
    ArgumentsAt(s, n, Show(args));
  }

  lemma {:induction false} AtEnd(q: string, group: string)
    ensures At(q + group, |q|, group)
  {
  }

  lemma {:induction false} TemplateCloses(q: string, args: Deco, tail: Deco)
    requires NoBrackets(q) && Proper(args) && Closed(args)
    ensures var s := q + Show(Grp(Angle, args, tail));
            && FirstAngle(s) == |q| < |s|
            && CloseAt(s, |q|, 0) == |q| + 1 + |Show(args)| < |s|
            && At(s, |q| + 1, Show(args))
  {
    var d := Grp(Angle, args, tail);
    var s, n := q + Show(d), |q|;
    AtEnd(q, Show(d));
    GroupAt(s, n, d);
    FirstAngleAt(q, Show(d));
    CloseSkipsBalanced(s, n + 1, args, 1);
    OpenAndClose(s, n, n + 1 + |Show(args)|);
  }

  lemma {:induction false} FirstAngleAt(q: string, group: string)
    requires NoBrackets(q) && group != "" && group[0] == '<'
    ensures FirstAngle(q + group) == |q|
  {
    assert '<' !in q;
    FirstAngleOf(q, group);
  }

  lemma {:induction false} OpenAndClose(s: string, n: nat, j: nat)
    requires n < j < |s| && s[n] == '<' && s[j] == '>' && CloseAt(s, n + 1, 1) == CloseAt(s, j, 1)
    ensures CloseAt(s, n, 0) == j
  {
  }

  lemma {:induction false} NoArguments(q: string)
    requires NoBrackets(q)
    ensures Arguments(q) == ("", true)
  {
    FirstAngleOf(q, "");
    assert q + "" == q;
  }

  /** A bare declared name matches every decorated spelling of it, complete or cut off. */
  lemma {:induction false} BareNameMatches(q: string, d: Deco)
    requires NoBrackets(q) && Proper(d) && Blank(d) && Canonical(q) != ""
    ensures Match(q, q + Show(d))
  {
    DecorationIrrelevant(q, d);
    NoArguments(q);
  }

  /** Two complete template instances of one name match exactly when their lists fold alike. */
  lemma {:induction false} InstancesMatchIff(q: string, a: Deco, ta: Deco, b: Deco, tb: Deco)
    requires NoBrackets(q) && Canonical(q) != ""
    requires Proper(a) && Closed(a) && Proper(ta) && Blank(ta)
    requires Proper(b) && Closed(b) && Proper(tb) && Blank(tb)
    ensures Match(q + Show(Grp(Angle, a, ta)), q + Show(Grp(Angle, b, tb)))
            <==> Show(a) == "" || Show(b) == "" || FoldArgs(Show(a)) == FoldArgs(Show(b))
  {
    DecorationIrrelevant(q, Grp(Angle, a, ta));
    DecorationIrrelevant(q, Grp(Angle, b, tb));
    ArgumentsOfTemplate(q, a, ta);
    ArgumentsOfTemplate(q, b, tb);
  }

  // ---- when matching is transitive ---------------------------------------------------------

  /** Where both texts only continue the middle one, they must not part ways. */
  predicate NoFork(a: string, middle: string, b: string) {
    IsPrefix(middle, a) && IsPrefix(middle, b) ==> IsPrefix(a, b) || IsPrefix(b, a)
  }

  /**
   Two symbols that match a third match each other exactly if their names do not fork behind the third's,
   and their lists do not either: one of them shows none; or both are complete, and the third's was complete
   too or they are equal; or one was cut off, and they do not fork behind the third's.
   */
  lemma {:induction false} TransitiveIff(x: string, y: string, z: string)
    requires Match(x, y) && Match(y, z)
    ensures Match(x, z) <==>
            && NoFork(Canonical(x), Canonical(y), Canonical(z))
            && var (xa, xc) := Arguments(x);
               var (ya, yc) := Arguments(y);
               var (za, zc) := Arguments(z);
               || xa == "" || za == ""
               || (if xc && zc then (ya != "" && yc) || xa == za else NoFork(xa, ya, za))
  {
    NamesForkIff(Canonical(x), Canonical(y), Canonical(z));
    ListsForkIff(Arguments(x), Arguments(y), Arguments(z));
  }

  lemma {:induction false} NamesForkIff(x: string, y: string, z: string)
    requires NamesAgree(x, y) && NamesAgree(y, z)
    ensures NamesAgree(x, z) <==> NoFork(x, y, z)
  {
    ForkOrOrder(x, y, z);
  }

  lemma {:induction false} ListsForkIff(x: (string, bool), y: (string, bool), z: (string, bool))
    requires ListsAgree(x, y) && ListsAgree(y, z)
    ensures ListsAgree(x, z) <==>
            || x.0 == "" || z.0 == ""
            || (if x.1 && z.1 then (y.0 != "" && y.1) || x.0 == z.0 else NoFork(x.0, y.0, z.0))
  {
    if (IsPrefix(x.0, y.0) || IsPrefix(y.0, x.0)) && (IsPrefix(y.0, z.0) || IsPrefix(z.0, y.0)) {
      ForkOrOrder(x.0, y.0, z.0);
    }
  }

  /** Of texts that continue each other in turn, the outer two do too unless both continue the middle one. */
  lemma {:induction false} ForkOrOrder(x: string, y: string, z: string)
    requires (IsPrefix(x, y) || IsPrefix(y, x)) && (IsPrefix(y, z) || IsPrefix(z, y))
    ensures NoFork(x, y, z) <==> IsPrefix(x, z) || IsPrefix(z, x)
  {
    if IsPrefix(x, y) && IsPrefix(z, y) {
      if |x| <= |z| { assert x == y[..|x|] == z[..|x|]; } else { assert z == y[..|z|] == x[..|z|]; }
    } else if IsPrefix(x, y) && IsPrefix(y, z) {
      assert x == y[..|x|] == z[..|x|];
    } else if IsPrefix(y, x) && IsPrefix(z, y) {
      assert z == y[..|z|] == x[..|z|];
    }
  }

  /** Its template list, if any, is complete, and its name is below the display limit. */
  predicate Whole(s: string) { Arguments(s).1 && |Canonical(s)| < SHORT_NAME_LIMIT }

  /**
   Among symbols that nothing cut short, two that match a third match each other exactly if the third
   shows a list, or one of them shows none, or both show the same.
   */
  lemma {:induction false} WholeTransitiveIff(x: string, y: string, z: string)
    requires Whole(x) && Whole(y) && Whole(z)
    requires Match(x, y) && Match(y, z)
    ensures Match(x, z) <==>
            || Arguments(y).0 != ""
            || Arguments(x).0 == "" || Arguments(z).0 == ""
            || Arguments(x).0 == Arguments(z).0
  {
    assert Canonical(x) == Canonical(y) == Canonical(z);
  }

  /** So a bare name stands for all its instances, which differ among themselves. */
  lemma {:induction false} NotTransitive(q: string, a: Deco, b: Deco)
    requires NoBrackets(q) && Canonical(q) != ""
    requires Proper(a) && Closed(a) && Proper(b) && Closed(b)
    requires Show(a) != "" && Show(b) != "" && FoldArgs(Show(a)) != FoldArgs(Show(b))
    ensures var x, y := q + Show(Grp(Angle, a, End)), q + Show(Grp(Angle, b, End));
            Match(x, q) && Match(q, y) && !Match(x, y)
  {
    BareNameMatches(q, Grp(Angle, a, End));
    BareNameMatches(q, Grp(Angle, b, End));
    MatchLaws(q, q + Show(Grp(Angle, a, End)));
    InstancesMatchIff(q, a, End, b, End);
  }

  /** Letters and nothing else, in lower case. */
  predicate LowerCase(p: string) { forall c :: c in p ==> 'a' <= c <= 'z' }

  lemma {:induction false} LoweredLower(p: string)
    requires LowerCase(p)
    ensures Lowered(p) == p
  {
    if p != "" {
      assert p[0] in p && forall c :: c in p[1..] ==> c in p;
      LoweredLower(p[1..]);
      assert [p[0]] + p[1..] == p;
    }
  }

  lemma {:induction false} PlainName(p: string)
    requires LowerCase(p) && p != ""
    ensures Canonical(p) == p && Arguments(p) == ("", true)
  {
    assert Words(p) && NoBrackets(p);
    CanonicalIsLast([], p, End);
    assert Spell([], p, End) == p + "" == p;
    LoweredLower(p);
    NoArguments(p);
  }

  /** A name cut at the display limit matches every longer one that begins with it, with no template list in sight. */
  lemma {:induction false} TruncationNotTransitive(p: string)
    requires LowerCase(p) && |p| >= SHORT_NAME_LIMIT
    ensures Match(p + "b", p) && Match(p, p + "c") && !Match(p + "b", p + "c")
  {
    PlainName(p);
    PlainName(p + "b");
    PlainName(p + "c");
    NamesFork(p);
  }

  lemma {:induction false} NamesFork(p: string)
    requires |p| >= SHORT_NAME_LIMIT
    ensures NamesAgree(p + "b", p) && NamesAgree(p, p + "c") && !NamesAgree(p + "b", p + "c")
  {
    assert (p + "b")[|p|] == 'b' && (p + "c")[|p|] == 'c';
  }

  lemma {:induction false} ArgumentsOpen(s: string, n: nat, inside: string)
    requires FirstAngle(s) == n < |s| && CloseAt(s, n, 0) == |s|
    requires s[n + 1..] == inside
    ensures Arguments(s) == (FoldArgs(inside), false)
  {
  }

  lemma {:induction false} NeverCloses(s: string, n: nat, args: Deco)
    requires Proper(args) && Closed(args) && n < |s| && s[n] == '<' && s[n + 1..] == Show(args)
    ensures CloseAt(s, n, 0) == |s|
  {
    assert At(s, n + 1, Show(args));
    CloseSkipsBalanced(s, n + 1, args, 1);
  }

  lemma {:induction false} ArgumentsCut(q: string, args: Deco)
    requires NoBrackets(q) && Proper(args) && Closed(args)
    ensures Arguments(q + Show(Cut(Angle, args))) == (FoldArgs(Show(args)), false)
  {
    var inside := Show(args);
    var s := q + (['<'] + inside);
    FirstAngleOf(q, ['<'] + inside);
    assert s[|q|] == '<' && s[|q| + 1..] == inside;
    NeverCloses(s, |q|, args);
    ArgumentsOpen(s, |q|, inside);
  }

  /** A list that was cut off matches every complete one that begins alike. */
  lemma {:induction false} CutOffNotTransitive(q: string, a: Deco, b: Deco, c: Deco)
    requires NoBrackets(q) && Canonical(q) != ""
    requires Proper(a) && Closed(a) && Proper(b) && Closed(b) && Proper(c) && Closed(c)
    requires FoldArgs(Show(a)) != FoldArgs(Show(b)) && FoldArgs(Show(c)) != ""
    requires FoldArgs(Show(c)) <= FoldArgs(Show(a)) && FoldArgs(Show(c)) <= FoldArgs(Show(b))
    ensures var x, y, z := q + Show(Grp(Angle, a, End)), q + Show(Cut(Angle, c)), q + Show(Grp(Angle, b, End));
            Match(x, y) && Match(y, z) && !Match(x, z)
  {
    DecorationIrrelevant(q, Grp(Angle, a, End));
    DecorationIrrelevant(q, Grp(Angle, b, End));
    DecorationIrrelevant(q, Cut(Angle, c));
    ArgumentsOfTemplate(q, a, End);
    ArgumentsOfTemplate(q, b, End);
    ArgumentsCut(q, c);
  }
}
