/** What the canonical kernel name is, however the symbol is spelled. */
module KernelNameLaws {
  import opened Sequences
  import opened Text
  import opened KernelNames

  predicate NoBrackets(s: string) { forall c :: c in s ==> !IsBracket(c) }

  predicate Blanks(s: string) { forall c :: c in s ==> IsSpace(c) }

  predicate Words(s: string) { forall c :: c in s ==> IsWordChar(c) }

  function Chars(s: string, d: Deco): Deco { if s == "" then d else Chr(s[0], Chars(s[1..], d)) }

  function Cat(a: Deco, b: Deco): Deco
    requires Closed(a)
  {
    match a
    case End => b
    case Chr(c, rest) => Chr(c, Cat(rest, b))
    case Grp(k, inner, rest) => Grp(k, inner, Cat(rest, b))
  }

  /** Nothing but white space outside its groups, up to an opener that is never closed. */
  predicate Blank(d: Deco) {
    match d
    case End => true
    case Chr(c, rest) => IsSpace(c) && Blank(rest)
    case Grp(_, _, rest) => Blank(rest)
    case Cut(_, _) => true
  }

  lemma {:induction false} CharsShow(s: string, d: Deco)
    requires NoBrackets(s) && Proper(d)
    ensures Show(Chars(s, d)) == s + Show(d) && Proper(Chars(s, d))
    ensures Bare(Chars(s, d)) == Chars(s, Bare(d))
  {
    if s != "" {
      assert s[0] in s && forall c :: c in s[1..] ==> c in s;
      CharsShow(s[1..], d);
      assert s == [s[0]] + s[1..];
    }
  }

  lemma {:induction false} CatDrop(k: Bracket, a: Deco, b: Deco)
    requires Closed(a)
    ensures Closed(Drop(k, a)) && Drop(k, Cat(a, b)) == Cat(Drop(k, a), Drop(k, b))
  {
    match a
    case End =>
    case Chr(_, rest) => CatDrop(k, rest, b);
    case Grp(_, inner, rest) => CatDrop(k, inner, End); CatDrop(k, rest, b);
  }

  lemma {:induction false} CatShow(a: Deco, b: Deco)
    requires Closed(a)
    ensures Show(Cat(a, b)) == Show(a) + Show(b)
    ensures Proper(a) && Proper(b) ==> Proper(Cat(a, b))
  {
    match a
    case End =>
    case Chr(c, rest) => CatShow(rest, b);
    case Grp(k, inner, rest) => CatShow(rest, b);
  }

  lemma {:induction false} CatBare(a: Deco, b: Deco)
    requires Closed(a)
    ensures Closed(Bare(a)) && Bare(Cat(a, b)) == Cat(Bare(a), Bare(b))
  {
    CatDrop(Square, a, b);
    CatDrop(Angle, Drop(Square, a), Drop(Square, b));
    CatDrop(Round, Drop(Angle, Drop(Square, a)), Drop(Angle, Drop(Square, b)));
  }

  // ---- after stripping no group is left ---------------------------------------------

  predicate NoGroup(k: Bracket, d: Deco) {
    match d
    case End => true
    case Chr(_, rest) => NoGroup(k, rest)
    case Grp(k', inner, rest) => k' != k && NoGroup(k, inner) && NoGroup(k, rest)
    case Cut(_, rest) => NoGroup(k, rest)
  }

  lemma {:induction false} DropRemoves(k: Bracket, j: Bracket, d: Deco)
    requires j == k || NoGroup(j, d)
    ensures NoGroup(j, Drop(k, d))
  {
    match d
    case End =>
    case Chr(_, rest) => DropRemoves(k, j, rest);
    case Grp(_, inner, rest) => DropRemoves(k, j, inner); DropRemoves(k, j, rest);
    case Cut(_, rest) => DropRemoves(k, j, rest);
  }

  lemma {:induction false} BareHasNoGroup(d: Deco, j: Bracket)
    ensures NoGroup(j, Bare(d))
  {
    DropRemoves(Square, Square, d);
    var a := Drop(Square, d);
    DropRemoves(Angle, Angle, a);
    DropRemoves(Angle, Square, a);
    var b := Drop(Angle, a);
    DropRemoves(Round, Round, b);
    DropRemoves(Round, Angle, b);
    DropRemoves(Round, Square, b);
  }

  lemma {:induction false} DropBlank(k: Bracket, d: Deco)
    requires Blank(d)
    ensures Blank(Drop(k, d))
  {
    match d
    case End =>
    case Chr(_, rest) => DropBlank(k, rest);
    case Grp(_, _, rest) => DropBlank(k, rest);
    case Cut(_, _) =>
  }

  predicate Flat(d: Deco) {
    match d
    case End => true
    case Chr(_, rest) => Flat(rest)
    case Grp(_, _, _) => false
    case Cut(_, rest) => Flat(rest)
  }

  lemma {:induction false} NoGroupsFlat(d: Deco)
    requires NoGroup(Square, d) && NoGroup(Angle, d) && NoGroup(Round, d)
    ensures Flat(d)
  {
    match d
    case End =>
    case Chr(_, rest) => NoGroupsFlat(rest);
    case Grp(_, _, _) =>
    case Cut(_, rest) => NoGroupsFlat(rest);
  }

  lemma {:induction false} FlatBlank(d: Deco)
    requires Blank(d) && Flat(d)
    ensures Blanks(BeforeOpener(Show(d)))
    ensures Closed(d) ==> Blanks(Show(d))
  {
    match d
    case End =>
    case Chr(c, rest) =>
      FlatBlank(rest);
      assert ([c] + Show(rest))[1..] == Show(rest);
    case Cut(_, _) =>
  }

  lemma {:induction false} BareProper(d: Deco)
    requires Proper(d)
    ensures Proper(Bare(d)) && (Closed(d) ==> Closed(Bare(d)))
  {
    DropProper(Square, d);
    DropProper(Angle, Drop(Square, d));
    DropProper(Round, Drop(Angle, Drop(Square, d)));
  }

  lemma {:induction false} BareBlank(d: Deco)
    requires Proper(d) && Blank(d)
    ensures Blanks(BeforeOpener(Show(Bare(d))))
    ensures Closed(d) ==> Blanks(Show(Bare(d)))
  {
    DropBlank(Square, d);
    DropBlank(Angle, Drop(Square, d));
    DropBlank(Round, Drop(Angle, Drop(Square, d)));
    BareHasNoGroup(d, Square);
    BareHasNoGroup(d, Angle);
    BareHasNoGroup(d, Round);
    NoGroupsFlat(Bare(d));
    BareProper(d);
    FlatBlank(Bare(d));
  }

  lemma {:induction false} BeforeOpenerOf(q: string, rest: string)
    requires NoBrackets(q)
    ensures BeforeOpener(q + rest) == q + BeforeOpener(rest)
  {
    if q == "" {
      assert q + rest == rest;
    } else {
      assert q[0] in q && forall c :: c in q[1..] ==> c in q;
      assert (q + rest)[1..] == q[1..] + rest;
      BeforeOpenerOf(q[1..], rest);
      assert q == [q[0]] + q[1..];
    }
  }

  // ---- trimming ---------------------------------------------------------------------

  lemma {:induction false} TrimEndBlanks(x: string, sp: string)
    requires Blanks(sp)
    ensures TrimEnd(x + sp) == TrimEnd(x)
  {
    if sp == "" {
      assert x + sp == x;
    } else {
      var n := |sp| - 1;
      assert sp[n] in sp && forall c :: c in sp[..n] ==> c in sp;
      assert (x + sp)[..|x + sp| - 1] == x + sp[..n];
      TrimEndBlanks(x, sp[..n]);
    }
  }

  lemma {:induction false} TrimBlanks(q: string, sp: string)
    requires Blanks(sp)
    ensures Trim(q + sp) == Trim(q)
  {
    if q == "" {
      assert q + sp == sp;
      TrimStartBlanks(sp, "");
      assert sp + "" == sp;
    } else if IsSpace(q[0]) {
      assert (q + sp)[1..] == q[1..] + sp;
      TrimBlanks(q[1..], sp);
    } else {
      TrimEndBlanks(q, sp);
    }
  }

  lemma {:induction false} TrimStartBlanks(sp: string, x: string)
    requires Blanks(sp)
    ensures TrimStart(sp + x) == TrimStart(x)
  {
    if sp == "" {
      assert sp + x == x;
    } else {
      assert sp[0] in sp && forall c :: c in sp[1..] ==> c in sp;
      assert (sp + x)[1..] == sp[1..] + x;
      TrimStartBlanks(sp[1..], x);
    }
  }

  // ---- main result: decoration is irrelevant ---------------------------------------------

  lemma {:induction false} NameBeforeOpener(q: string, d: Deco)
    requires NoBrackets(q) && Proper(d)
    ensures BeforeOpener(StripAll(q + Show(d))) == q + BeforeOpener(Show(Bare(d)))
  {
    CharsShow(q, d);
    StripAllDeco(Chars(q, d));
    BareProper(d);
    CharsShow(q, Bare(d));
    BeforeOpenerOf(q, Show(Bare(d)));
  }

  /**
   Template lists, parameter lists and bracketed annotations behind a name, nested in any way and
   separated by white space, do not change its canonical name; nor does it matter if the symbol
   was cut off somewhere inside them.
   */
  lemma {:induction false} DecorationIrrelevant(q: string, d: Deco)
    requires NoBrackets(q) && Proper(d) && Blank(d)
    ensures Canonical(q + Show(d)) == Canonical(q)
  {
    NameBeforeOpener(q, d);
    NameBeforeOpener(q, End);
    assert q + Show(End) == q && q + BeforeOpener(Show(Bare(End))) == q;
    BareBlank(d);
    TrimBlanks(q, BeforeOpener(Show(Bare(d))));
  }

  // ---- main result: which name it is --------------------------------------------------------

  /** One step of qualification: a name, possibly missing, possibly decorated, before `::`. */
  datatype Seg = Seg(name: string, deco: Deco)

  predicate GoodSeg(g: Seg) { Words(g.name) && Proper(g.deco) && Closed(g.deco) && Blank(g.deco) }

  predicate GoodSegs(segs: seq<Seg>) { forall g :: g in segs ==> GoodSeg(g) }

  /** The symbol's text: every segment as spelled, then the kernel's own name and its decoration. */
  function Spell(segs: seq<Seg>, id: string, tail: Deco): string {
    if segs == [] then id + Show(tail)
    else segs[0].name + Show(segs[0].deco) + "::" + Spell(segs[1..], id, tail)
  }

  function SpellDeco(segs: seq<Seg>, id: string, tail: Deco): Deco
    requires GoodSegs(segs)
  {
    if segs == [] then Chars(id, tail)
    else
      assert segs[0] in segs && forall g :: g in segs[1..] ==> g in segs;
      Chars(segs[0].name, Cat(segs[0].deco, Chars("::", SpellDeco(segs[1..], id, tail))))
  }

  /** What stripping leaves of the qualification: blanks where the groups were. */
  function Hollow(segs: seq<Seg>, id: string): string {
    if segs == [] then id
    else segs[0].name + Show(Bare(segs[0].deco)) + "::" + Hollow(segs[1..], id)
  }

  function Plain(segs: seq<Seg>, id: string): string {
    if segs == [] then id else segs[0].name + "::" + Plain(segs[1..], id)
  }

  lemma {:induction false} WordsNoBrackets(s: string)
    requires Words(s)
    ensures NoBrackets(s)
  {
    forall c | c in s ensures !IsBracket(c) { assert IsWordChar(c); }
  }

  lemma {:induction false} SpellDecoShow(segs: seq<Seg>, id: string, tail: Deco)
    requires GoodSegs(segs) && Words(id) && Proper(tail)
    ensures Show(SpellDeco(segs, id, tail)) == Spell(segs, id, tail) && Proper(SpellDeco(segs, id, tail))
    ensures Show(Bare(SpellDeco(segs, id, tail))) == Hollow(segs, id) + Show(Bare(tail))
  {
    BareProper(tail);
    if segs == [] {
      WordsNoBrackets(id);
      CharsShow(id, tail);
      CharsShow(id, Bare(tail));
    } else {
      var g, rest := segs[0], segs[1..];
      assert g in segs && forall x :: x in rest ==> x in segs;
      SpellDecoShow(rest, id, tail);
      var inner := SpellDeco(rest, id, tail);
      SpellStep(g, inner);
      JoinAssociates(g.name + Show(Bare(g.deco)) + "::", Hollow(rest, id), Show(Bare(tail)));
    }
  }

  lemma {:induction false} SpellStep(g: Seg, inner: Deco)
    requires GoodSeg(g) && Proper(inner)
    ensures var d := Chars(g.name, Cat(g.deco, Chars("::", inner)));
            && Proper(d)
            && Show(d) == g.name + Show(g.deco) + "::" + Show(inner)
            && Show(Bare(d)) == g.name + Show(Bare(g.deco)) + "::" + Show(Bare(inner))
  {
    var colons := Chars("::", inner);
    WordsNoBrackets(g.name);
    CharsShow("::", inner);
    BareProper(inner);
    BareProper(g.deco);
    CharsShow("::", Bare(inner));
    SpellShow(g.name, g.deco, inner);
    SpellShow(g.name, Bare(g.deco), Bare(inner));
    CatShow(g.deco, colons);
    CharsShow(g.name, Cat(g.deco, colons));
    CatBare(g.deco, colons);
  }

  lemma {:induction false} SpellShow(name: string, deco: Deco, inner: Deco)
    requires NoBrackets(name) && Proper(deco) && Closed(deco) && Proper(inner)
    ensures Show(Chars(name, Cat(deco, Chars("::", inner)))) == name + Show(deco) + "::" + Show(inner)
  {
    CharsShow("::", inner);
    CatShow(deco, Chars("::", inner));
    CharsShow(name, Cat(deco, Chars("::", inner)));
    assert name + (Show(deco) + ("::" + Show(inner))) == name + Show(deco) + "::" + Show(inner);
  }

  // ---- white space around the colons ----------------------------------------------------------

  lemma {:induction false} SpacesOf(sp: string, x: string)
    requires Blanks(sp) && (x == "" || !IsSpace(x[0]))
    ensures Spaces(sp + x) == |sp|
  {
    if sp == "" {
      assert sp + x == x;
    } else {
      assert sp[0] in sp && forall c :: c in sp[1..] ==> c in sp;
      assert (sp + x)[1..] == sp[1..] + x;
      SpacesOf(sp[1..], x);
    }
  }

  lemma {:induction false} JoinAtColons(sp: string, x: string)
    requires Blanks(sp)
    ensures JoinColons(sp + "::" + x) == "::" + JoinColons(TrimStart(x))
  {
    var s := sp + ("::" + x);
    SpacesOf(sp, "::" + x);
    assert s == sp + "::" + x && s[|sp| + 2..] == x;
    assert ColonsAt(s, |sp|);
  }

  lemma {:induction false} JoinWordChar(c: char, x: string)
    requires IsWordChar(c)
    ensures JoinColons([c] + x) == [c] + JoinColons(x)
  {
    assert ([c] + x)[1..] == x && Spaces([c] + x) == 0 && !ColonsAt([c] + x, 0);
  }

  lemma {:induction false} JoinWords(n: string, x: string)
    requires Words(n)
    ensures JoinColons(n + x) == n + JoinColons(x)
  {
    if n == "" {
      assert n + x == x && "" + JoinColons(x) == JoinColons(x);
    } else {
      assert n[0] in n && forall c :: c in n[1..] ==> c in n;
      JoinWordChar(n[0], n[1..] + x);
      JoinWords(n[1..], x);
      Regroup(n[0], n, x);
      Regroup(n[0], n, JoinColons(x));
    }
  }

  lemma {:induction false} Regroup(c: char, n: string, x: string)
    requires n != "" && c == n[0]
    ensures [c] + (n[1..] + x) == n + x
  {
  }

  lemma {:induction false} JoinHollow(segs: seq<Seg>, id: string)
    requires GoodSegs(segs) && Words(id)
    ensures JoinColons(Hollow(segs, id)) == Plain(segs, id)
    ensures JoinColons(TrimStart(Hollow(segs, id))) == Plain(segs, id)
  {
    if segs == [] {
      JoinWords(id, "");
      assert id + "" == id;
      TrimStartWords(id, "");
    } else {
      assert segs[0] in segs && forall x :: x in segs[1..] ==> x in segs;
      JoinHollow(segs[1..], id);
      BareBlank(segs[0].deco);
      JoinSegment(segs[0].name, Show(Bare(segs[0].deco)), Hollow(segs[1..], id));
    }
  }

  lemma {:induction false} JoinSegment(name: string, sp: string, more: string)
    requires Words(name) && Blanks(sp)
    ensures JoinColons(name + sp + "::" + more) == name + "::" + JoinColons(TrimStart(more))
    ensures JoinColons(TrimStart(name + sp + "::" + more)) == name + "::" + JoinColons(TrimStart(more))
  {
    var rest := sp + "::" + more;
    assert name + sp + "::" + more == name + rest;
    assert name + "::" + JoinColons(TrimStart(more)) == name + ("::" + JoinColons(TrimStart(more)));
    JoinAtColons(sp, more);
    JoinWords(name, rest);
    if name == "" {
      assert name + rest == rest;
      JoinTrimmed(sp, more);
    } else {
      TrimStartWords(name, rest);
    }
  }

  lemma {:induction false} JoinTrimmed(sp: string, more: string)
    requires Blanks(sp)
    ensures JoinColons(TrimStart(sp + "::" + more)) == "::" + JoinColons(TrimStart(more))
  {
    TrimStartBlanks(sp, "::" + more);
    assert sp + ("::" + more) == sp + "::" + more;
    JoinAtColons("", more);
    assert "" + "::" + more == "::" + more;
  }

  lemma {:induction false} TrimStartWords(n: string, x: string)
    requires Words(n) && (n == "" ==> x == "")
    ensures TrimStart(n + x) == n + x
  {
    if n != "" { assert n[0] in n && IsWordChar(n[0]); }
  }

  // ---- reading the name off -----------------------------------------------------------------------

  predicate NameChars(s: string) { forall c :: c in s ==> IsWordChar(c) || c == ':' }

  lemma {:induction false} LeadingAll(s: string)
    requires NameChars(s)
    ensures LeadingName(s) == s
  {
    if s != "" {
      assert s[0] in s && forall c :: c in s[1..] ==> c in s;
      LeadingAll(s[1..]);
    }
  }

  lemma {:induction false} PlainChars(segs: seq<Seg>, id: string)
    requires GoodSegs(segs) && Words(id)
    ensures NameChars(Plain(segs, id))
  {
    if segs != [] {
      assert segs[0] in segs && forall x :: x in segs[1..] ==> x in segs;
      PlainChars(segs[1..], id);
    }
  }

  lemma {:induction false} SegmentAfter(n: string, x: string, i: nat)
    requires Words(n) && i <= |n|
    ensures LastSegmentFrom(n + "::" + x, i) == LastSegment(x)
    decreases |n| - i
  {
    var s := n + "::" + x;
    if i == |n| {
      assert ColonsAt(s, i) && s[i + 2..] == x;
    } else {
      assert s[i] == n[i] && n[i] in n;
      SegmentAfter(n, x, i + 1);
    }
  }

  lemma {:induction false} SegmentWhole(id: string, i: nat)
    requires Words(id) && i <= |id|
    ensures LastSegmentFrom(id, i) == id
    decreases |id| - i
  {
    if i < |id| {
      assert id[i] in id;
      SegmentWhole(id, i + 1);
    }
  }

  lemma {:induction false} LastOfPlain(segs: seq<Seg>, id: string)
    requires GoodSegs(segs) && Words(id)
    ensures LastSegment(Plain(segs, id)) == id
  {
    if segs == [] {
      SegmentWhole(id, 0);
    } else {
      assert segs[0] in segs && forall x :: x in segs[1..] ==> x in segs;
      LastOfPlain(segs[1..], id);
      SegmentAfter(segs[0].name, Plain(segs[1..], id), 0);
    }
  }

  lemma {:induction false} DropVoidNone(s: string)
    requires NameChars(s)
    ensures DropVoid(s) == s
  {
    if |s| > 4 { assert s[4] in s; }
  }

  /** What is left of a qualified symbol once it is stripped, cut and trimmed. */
  lemma {:induction false} TrimmedSymbol(pre: string, segs: seq<Seg>, id: string, tail: Deco)
    requires GoodSegs(segs) && id != "" && Words(id) && Proper(tail) && Blank(tail) && NoBrackets(pre)
    ensures Trim(BeforeOpener(StripAll(pre + Spell(segs, id, tail)))) == TrimStart(pre + Hollow(segs, id))
  {
    var h := Hollow(segs, id);
    SpellDecoShow(segs, id, tail);
    NameBeforeOpener(pre, SpellDeco(segs, id, tail));
    BareBlank(tail);
    var sp := BeforeOpener(Show(Bare(tail)));
    HollowFree(segs, id);
    BeforeOpenerOf(h, Show(Bare(tail)));
    assert pre + (h + sp) == pre + h + sp;
    TrimBlanks(pre + h, sp);
    TrimHollow(pre, segs, id);
  }

  /** Without a return type. */
  lemma {:induction false} CanonicalIsLast(segs: seq<Seg>, id: string, tail: Deco)
    requires GoodSegs(segs) && id != "" && Words(id) && Proper(tail) && Blank(tail)
    ensures Canonical(Spell(segs, id, tail)) == Lowered(id)
  {
    TrimmedSymbol("", segs, id, tail);
    assert "" + Spell(segs, id, tail) == Spell(segs, id, tail) && "" + Hollow(segs, id) == Hollow(segs, id);
    JoinHollow(segs, id);
    ReadPlain(segs, id);
  }

  lemma {:induction false} HollowFree(segs: seq<Seg>, id: string)
    requires GoodSegs(segs) && Words(id)
    ensures NoBrackets(Hollow(segs, id))
  {
    WordsNoBrackets(id);
    if segs != [] {
      var g := segs[0];
      assert g in segs && forall x :: x in segs[1..] ==> x in segs;
      WordsNoBrackets(g.name);
      BareBlank(g.deco);
      HollowFree(segs[1..], id);
      forall c | c in Show(Bare(g.deco)) ensures !IsBracket(c) { assert IsSpace(c); }
    }
  }

  /** Trimming only affects the front: the name at the end is not blank. */
  lemma {:induction false} TrimHollow(pre: string, segs: seq<Seg>, id: string)
    requires GoodSegs(segs) && id != "" && Words(id)
    ensures Trim(pre + Hollow(segs, id)) == TrimStart(pre + Hollow(segs, id))
  {
    HollowEnds(segs, id);
    TrimStartEnds(pre + Hollow(segs, id));
  }

  lemma {:induction false} HollowEnds(segs: seq<Seg>, id: string)
    requires id != "" && Words(id)
    ensures var h := Hollow(segs, id); h != "" && !IsSpace(h[|h| - 1])
  {
    if segs == [] {
      assert id[|id| - 1] in id;
    } else {
      HollowEnds(segs[1..], id);
    }
  }

  lemma {:induction false} TrimStartEnds(s: string)
    requires s != "" && !IsSpace(s[|s| - 1])
    ensures Trim(s) == TrimStart(s)
  {
    if IsSpace(s[0]) { TrimStartEnds(s[1..]); }
  }

  /**
   The canonical name is the lower-cased last identifier of the symbol: the return type `void`, every
   enclosing namespace or class (named, templated or unnamed) and every decoration are ignored.
   */
  lemma {:induction false} CanonicalName(returnsVoid: bool, segs: seq<Seg>, id: string, tail: Deco)
    requires GoodSegs(segs) && id != "" && Words(id) && Proper(tail) && Blank(tail)
    ensures Canonical((if returnsVoid then "void " else "") + Spell(segs, id, tail)) == Lowered(id)
  {
    if returnsVoid {
      CanonicalOfVoid(segs, id, tail);
    } else {
      CanonicalIsLast(segs, id, tail);
      assert "" + Spell(segs, id, tail) == Spell(segs, id, tail);
    }
  }

  lemma {:induction false} CanonicalOfVoid(segs: seq<Seg>, id: string, tail: Deco)
    requires GoodSegs(segs) && id != "" && Words(id) && Proper(tail) && Blank(tail)
    ensures Canonical("void " + Spell(segs, id, tail)) == Lowered(id)
  {
    TrimmedSymbol("void ", segs, id, tail);
    assert TrimStart("void " + Hollow(segs, id)) == "void " + Hollow(segs, id);
    if segs != [] && segs[0].name == "" {
      VoidQualified(segs, id);
    } else {
      VoidNamed(segs, id);
    }
  }

  lemma {:induction false} ReadPlain(segs: seq<Seg>, id: string)
    requires GoodSegs(segs) && Words(id)
    ensures LeadingName(Plain(segs, id)) == Plain(segs, id)
    ensures DropVoid(Plain(segs, id)) == Plain(segs, id)
    ensures LastSegment(Plain(segs, id)) == id
  {
    PlainChars(segs, id);
    DropVoidNone(Plain(segs, id));
    LeadingAll(Plain(segs, id));
    LastOfPlain(segs, id);
  }

  /** `void` in front of a nameless qualifier is taken for part of it, which does no harm. */
  lemma {:induction false} VoidQualified(segs: seq<Seg>, id: string)
    requires GoodSegs(segs) && id != "" && Words(id) && segs != [] && segs[0].name == ""
    ensures LastSegment(LeadingName(DropVoid(JoinColons("void " + Hollow(segs, id))))) == id
  {
    assert segs[0] in segs && forall x :: x in segs[1..] ==> x in segs;
    BareBlank(segs[0].deco);
    var sp, more := Show(Bare(segs[0].deco)), Hollow(segs[1..], id);
    JoinSegment("void", " " + sp, more);
    VoidText(segs, id);
    JoinHollow(segs[1..], id);
    ReadVoidSegment(segs[1..], id);
  }

  lemma {:induction false} ReadVoidSegment(segs: seq<Seg>, id: string)
    requires GoodSegs(segs) && Words(id)
    ensures LastSegment(LeadingName(DropVoid("void" + "::" + Plain(segs, id)))) == id
  {
    var named := [Seg("void", End)] + segs;
    assert named[1..] == segs;
    forall x | x in named ensures GoodSeg(x) {
      if x !in segs { assert x == Seg("void", End) && Words("void"); }
    }
    ReadPlain(named, id);
  }

  lemma {:induction false} VoidSpace(x: string)
    ensures "void" + (" " + x) == "void " + x
  {
  }

  lemma {:induction false} VoidText(segs: seq<Seg>, id: string)
    requires segs != [] && segs[0].name == ""
    ensures "void" + (" " + Show(Bare(segs[0].deco))) + "::" + Hollow(segs[1..], id) == "void " + Hollow(segs, id)
  {
  }

  lemma {:induction false} VoidNamed(segs: seq<Seg>, id: string)
    requires GoodSegs(segs) && id != "" && Words(id) && (segs != [] ==> segs[0].name != "")
    ensures LastSegment(LeadingName(DropVoid(JoinColons("void " + Hollow(segs, id))))) == id
  {
    var h, p := Hollow(segs, id), Plain(segs, id);
    HollowStarts(segs, id);
    JoinWords("void", " " + h);
    VoidSpace(h);
    JoinHollow(segs, id);
    JoinSpaceName(h);
    VoidSpace(p);
    DropVoidOnce(p);
    ReadPlain(segs, id);
  }

  lemma {:induction false} HollowStarts(segs: seq<Seg>, id: string)
    requires GoodSegs(segs) && id != "" && Words(id) && (segs != [] ==> segs[0].name != "")
    ensures Hollow(segs, id) != "" && IsWordChar(Hollow(segs, id)[0])
    ensures Plain(segs, id) != "" && IsWordChar(Plain(segs, id)[0])
  {
    if segs == [] {
      assert id[0] in id;
    } else {
      assert segs[0] in segs && segs[0].name[0] in segs[0].name;
    }
  }

  lemma {:induction false} JoinSpaceName(h: string)
    ensures h != "" && IsWordChar(h[0]) ==> JoinColons(" " + h) == " " + JoinColons(h)
  {
    if h != "" && IsWordChar(h[0]) {
      SpacesOf(" ", h);
      assert (" " + h)[1..] == h && (" " + h)[1] == h[0];
    }
  }

  lemma {:induction false} DropVoidOnce(p: string)
    requires p != "" && IsWordChar(p[0])
    ensures DropVoid("void " + p) == p
  {
    var s := "void " + p;
    assert s[..4] == "void" && s[4..] == " " + p && s[4] == ' ' && |s| > 4;
    assert (" " + p)[1..] == p;
    assert TrimStart(" " + p) == TrimStart(p) == p;
  }

  // ---- no other word is dropped ---------------------------------------------------------------------

  lemma {:induction false} LeadingWord(t: string, x: string)
    requires Words(t)
    ensures LeadingName(t + " " + x) == t
  {
    if t == "" {
      assert t + " " + x == " " + x;
    } else {
      assert t[0] in t && forall c :: c in t[1..] ==> c in t;
      assert (t + " " + x)[1..] == t[1..] + " " + x;
      LeadingWord(t[1..], x);
    }
  }

  lemma {:induction false} NotVoid(t: string, x: string)
    requires Words(t) && t != "void"
    ensures DropVoid(t + " " + x) == t + " " + x
  {
    var s := t + " " + x;
    if |t| < 4 {
      assert s[|t|] == ' ';
      assert |s| > 4 ==> s[..4][|t|] == ' ';
    } else if |t| == 4 {
      assert s[..4] == t;
    } else {
      assert s[4] == t[4] && t[4] in t;
    }
  }

  /** Of two words the first is the name, unless it is `void`: only that return type is known. */
  lemma {:induction false} FirstOfTwo(t: string, n: string, tail: Deco)
    requires t != "" && Words(t) && t != "void" && n != "" && Words(n) && Proper(tail) && Blank(tail)
    ensures Canonical(t + " " + n + Show(tail)) == Lowered(t)
  {
    CutOfTwo(t, n, tail);
    JoinTwo(t, n);
    NotVoid(t, n);
    LeadingWord(t, n);
    SegmentWhole(t, 0);
  }

  lemma {:induction false} CutOfTwo(t: string, n: string, tail: Deco)
    requires t != "" && Words(t) && n != "" && Words(n) && Proper(tail) && Blank(tail)
    ensures Trim(BeforeOpener(StripAll(t + " " + n + Show(tail)))) == t + " " + n
  {
    WordsNoBrackets(t);
    TrimmedSymbol(t + " ", [], n, tail);
    assert t + " " + (n + Show(tail)) == t + " " + n + Show(tail);
    assert Spell([], n, tail) == n + Show(tail) && Hollow([], n) == n;
    assert t[0] in t && TrimStart(t + " " + n) == t + " " + n;
  }

  lemma {:induction false} JoinTwo(t: string, n: string)
    requires Words(t) && n != "" && Words(n)
    ensures JoinColons(t + " " + n) == t + " " + n
  {
    assert n[0] in n;
    JoinSpaceName(n);
    JoinWords(n, "");
    assert n + "" == n;
    JoinWords(t, " " + n);
    assert t + (" " + n) == t + " " + n;
  }

  // ---- what is no separator ---------------------------------------------------------------------------

  /** A single colon does not divide a name; it is only left out. */
  lemma {:induction false} SingleColon(a: string, b: string)
    requires a != "" && Words(a) && b != "" && Words(b)
    ensures Canonical(a + ":" + b) == Lowered(a) + Lowered(b)
  {
    CutOfColon(a, b);
    JoinOfColon(a, b);
    NameOfColon(a, b);
    LoweredColon(a, b);
  }

  lemma {:induction false} CutOfColon(a: string, b: string)
    requires a != "" && Words(a) && b != "" && Words(b)
    ensures Trim(BeforeOpener(StripAll(a + ":" + b))) == a + ":" + b
  {
    WordsNoBrackets(a);
    TrimmedSymbol(a + ":", [], b, End);
    assert Show(End) == "" && b + "" == b && Hollow([], b) == b;
    assert a[0] in a && TrimStart(a + ":" + b) == a + ":" + b;
  }

  lemma {:induction false} JoinOfColon(a: string, b: string)
    requires Words(a) && b != "" && Words(b)
    ensures JoinColons(a + ":" + b) == a + ":" + b
  {
    LoneColon(b);
    JoinWords(b, "");
    assert b + "" == b;
    JoinWords(a, ":" + b);
    assert a + (":" + b) == a + ":" + b;
  }

  lemma {:induction false} LoneColon(b: string)
    requires b != "" && Words(b)
    ensures JoinColons(":" + b) == ":" + JoinColons(b)
  {
    assert b[0] in b && (":" + b)[1] == b[0];
    assert (":" + b)[1..] == b && Spaces(":" + b) == 0 && !ColonsAt(":" + b, 0);
  }

  lemma {:induction false} NameOfColon(a: string, b: string)
    requires Words(a) && Words(b)
    ensures LastSegment(LeadingName(DropVoid(a + ":" + b))) == a + ":" + b
  {
    assert NameChars(a + ":" + b);
    DropVoidNone(a + ":" + b);
    LeadingAll(a + ":" + b);
    NoColonsFrom(a, b, 0);
  }

  lemma {:induction false} LoweredColon(a: string, b: string)
    ensures Lowered(a + ":" + b) == Lowered(a) + Lowered(b)
  {
    LoweredJoin(a, ":" + b);
    assert a + (":" + b) == a + ":" + b && (":" + b)[1..] == b;
  }

  lemma {:induction false} NoColonsFrom(a: string, b: string, i: nat)
    requires Words(a) && Words(b) && i <= |a + ":" + b|
    ensures LastSegmentFrom(a + ":" + b, i) == a + ":" + b
    decreases |a + ":" + b| - i
  {
    var s := a + ":" + b;
    if i < |s| {
      assert i < |a| ==> s[i] == a[i] && a[i] in a;
      assert |a| <= i < |s| - 1 ==> s[i + 1] == b[i - |a|] && b[i - |a|] in b;
      NoColonsFrom(a, b, i + 1);
    }
  }

  lemma {:induction false} LoweredJoin(a: string, b: string)
    ensures Lowered(a + b) == Lowered(a) + Lowered(b)
  {
    if a == "" {
      assert a + b == b;
    } else {
      assert (a + b)[1..] == a[1..] + b;
      LoweredJoin(a[1..], b);
    }
  }
}
