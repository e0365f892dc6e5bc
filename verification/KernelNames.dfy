/**
 The canonical name of a device kernel and the test whether two symbols name the same kernel
 (e2e_workflow/e2e_workflow.js, canonicalDeviceKernel, templateArguments, kernelIdentitiesMatch).
 Letter case is folded for ASCII letters.
 */
module KernelNames {
  import opened Text
  import opened Strip

  predicate IsUpper(c: char) { 'A' <= c <= 'Z' }

  predicate IsWordChar(c: char) { 'a' <= c <= 'z' || 'A' <= c <= 'Z' || '0' <= c <= '9' || c == '_' }

  predicate IsOpener(c: char) { c == '<' || c == '(' || c == '[' }

  predicate IsBracket(c: char) { IsOpener(c) || c == '>' || c == ')' || c == ']' }

  function ToLower(c: char): char { if IsUpper(c) then (c as int + 32) as char else c }

  // ---- canonicalDeviceKernel ------------------------------------------------------

  function StripAll(s: string): string {
    OneScan(OneScan(OneScan(s, '[', ']'), '<', '>'), '(', ')')
  }

  /** `split(/[<([]/)[0]` */
  function BeforeOpener(s: string): string {
    if s == "" || IsOpener(s[0]) then "" else [s[0]] + BeforeOpener(s[1..])
  }

  function Spaces(s: string): (n: nat)
    ensures n <= |s| && forall i :: 0 <= i < n ==> IsSpace(s[i])
    ensures n < |s| ==> !IsSpace(s[n])
    ensures TrimStart(s) == s[n..]
  {
    if s != "" && IsSpace(s[0]) then 1 + Spaces(s[1..]) else 0
  }

  predicate ColonsAt(s: string, i: nat) { i + 1 < |s| && s[i] == ':' && s[i + 1] == ':' }

  /** Each `::` together with the white space around it becomes `::`. */
  function JoinColons(s: string): string
    decreases |s|
  {
    if s == "" then ""
    else
      var k := Spaces(s);
      if ColonsAt(s, k) then "::" + JoinColons(TrimStart(s[k + 2..]))
      else [s[0]] + JoinColons(s[1..])
  }

  /** `replace(/^void\s+/, '')` */
  function DropVoid(s: string): string {
    if |s| > 4 && s[..4] == "void" && IsSpace(s[4]) then TrimStart(s[4..]) else s
  }

  /** `/^[\w:]+/`, or the empty text when nothing matches. */
  function LeadingName(s: string): string {
    if s != "" && (IsWordChar(s[0]) || s[0] == ':') then [s[0]] + LeadingName(s[1..]) else ""
  }

  /** `split('::').pop()` */
  function LastSegment(s: string): string { LastSegmentFrom(s, 0) }

  function LastSegmentFrom(s: string, i: nat): string
    decreases |s| - i
  {
    if i >= |s| then s
    else if ColonsAt(s, i) then LastSegmentFrom(s[i + 2..], 0)
    else LastSegmentFrom(s, i + 1)
  }

  /** `toLowerCase().replace(/[^a-z0-9_]+/g, '')` */
  function Lowered(s: string): string {
    if s == "" then ""
    else
      var c := ToLower(s[0]);
      (if IsWordChar(c) && !IsUpper(c) then [c] else "") + Lowered(s[1..])
  }

  function Canonical(symbol: string): string {
    var cut := JoinColons(Trim(BeforeOpener(StripAll(symbol))));
    Lowered(LastSegment(LeadingName(DropVoid(cut))))
  }

  method CanonicalDeviceKernel(symbol: string) returns (r: string)
    ensures r == Canonical(symbol)
  {
    var a := StripBalanced(symbol, '[', ']');
    var b := StripBalanced(a, '<', '>');
    var stripped := StripBalanced(b, '(', ')');
    r := Lowered(LastSegment(LeadingName(DropVoid(JoinColons(Trim(BeforeOpener(stripped)))))));
  }

  // ---- decorated symbols as trees -----------------------------------------------------

  datatype Bracket = Square | Angle | Round

  function Left(k: Bracket): char { match k case Square => '[' case Angle => '<' case Round => '(' }

  function Right(k: Bracket): char { match k case Square => ']' case Angle => '>' case Round => ')' }

  /** Text with properly nested groups; `Cut` is an opener whose closer was lost with the end of the text. */
  datatype Deco =
    | End
    | Chr(c: char, rest: Deco)
    | Grp(k: Bracket, inner: Deco, rest: Deco)
    | Cut(k: Bracket, rest: Deco)

  function Show(d: Deco): string {
    match d
    case End => ""
    case Chr(c, rest) => [c] + Show(rest)
    case Grp(k, inner, rest) => [Left(k)] + Show(inner) + [Right(k)] + Show(rest)
    case Cut(k, rest) => [Left(k)] + Show(rest)
  }

  /** No opener is left open. */
  predicate Closed(d: Deco) {
    match d
    case End => true
    case Chr(_, rest) => Closed(rest)
    case Grp(_, inner, rest) => Closed(inner) && Closed(rest)
    case Cut(_, _) => false
  }

  /** Characters are not brackets, and groups are closed inside. */
  predicate Proper(d: Deco) {
    match d
    case End => true
    case Chr(c, rest) => !IsBracket(c) && Proper(rest)
    case Grp(_, inner, rest) => Closed(inner) && Proper(inner) && Proper(rest)
    case Cut(_, rest) => Proper(rest)
  }

  function Drop(k: Bracket, d: Deco): Deco {
    match d
    case End => End
    case Chr(c, rest) => Chr(c, Drop(k, rest))
    case Grp(k', inner, rest) =>
      if k' == k then Chr(' ', Drop(k, rest)) else Grp(k', Drop(k, inner), Drop(k, rest))
    case Cut(k', rest) => Cut(k', Drop(k, rest))
  }

  lemma {:induction false} DropProper(k: Bracket, d: Deco)
    requires Proper(d)
    ensures Proper(Drop(k, d))
    ensures Closed(d) ==> Closed(Drop(k, d))
  {
    match d
    case End =>
    case Chr(_, rest) => DropProper(k, rest);
    case Grp(_, inner, rest) => DropProper(k, inner); DropProper(k, rest);
    case Cut(_, rest) => DropProper(k, rest);
  }

  lemma {:induction false} AppendTwice(st: Frames, a: string, b: string)
    ensures Append(Append(st, a), b) == Append(st, a + b)
  {
    assert st[|st| - 1] + a + b == st[|st| - 1] + (a + b);
  }

  /** A character that is not a bracket of kind `k` is only copied. */
  lemma {:induction false} ScanOther(st: Frames, ch: char, k: Bracket)
    requires ch != Left(k) && ch != Right(k)
    ensures Scan(st, [ch], Left(k), Right(k)) == Append(st, [ch])
  {
    ScanOne(st, ch, Left(k), Right(k));
  }

  lemma {:induction false} ScanClosed(k: Bracket, st: Frames, d: Deco)
    requires Proper(d) && Closed(d)
    ensures Scan(st, Show(d), Left(k), Right(k)) == Append(st, Show(Drop(k, d)))
    decreases d, 0
  {
    match d
    case End =>
      assert st[|st| - 1] + "" == st[|st| - 1];
    case Chr(c, rest) =>
      ScanConcat(st, [c], Show(rest), Left(k), Right(k));
      ScanOther(st, c, k);
      ScanClosed(k, Append(st, [c]), rest);
      AppendTwice(st, [c], Show(Drop(k, rest)));
    case Grp(k', inner, rest) =>
      ScanGroupPiece(k, st, k', inner);
      var group := [Left(k')] + Show(inner) + [Right(k')];
      ScanConcat(st, group, Show(rest), Left(k), Right(k));
      var kept := if k' == k then " " else [Left(k')] + Show(Drop(k, inner)) + [Right(k')];
      ScanClosed(k, Append(st, kept), rest);
      AppendTwice(st, kept, Show(Drop(k, rest)));
  }

  lemma {:induction false} ScanGroupPiece(k: Bracket, st: Frames, k': Bracket, inner: Deco)
    requires Proper(inner) && Closed(inner)
    ensures Scan(st, [Left(k')] + Show(inner) + [Right(k')], Left(k), Right(k))
            == Append(st, if k' == k then " " else [Left(k')] + Show(Drop(k, inner)) + [Right(k')])
    decreases inner, 1
  {
    var o, c := Left(k), Right(k);
    var text := Show(inner);
    ScanConcat(st, [Left(k')] + text, [Right(k')], o, c);
    ScanConcat(st, [Left(k')], text, o, c);
    ScanOne(st, Left(k'), o, c);
    var st1 := ScanStep(st, Left(k'), o, c);
    ScanClosed(k, st1, inner);
    var st2 := Append(st1, Show(Drop(k, inner)));
    ScanOne(st2, Right(k'), o, c);
    if k' == k {
      assert st2[..|st2| - 1] == st;
    } else {
      AppendTwice(st, [Left(k')], Show(Drop(k, inner)));
      AppendTwice(st, [Left(k')] + Show(Drop(k, inner)), [Right(k')]);
    }
  }

  lemma {:induction false} FlushAppend(st: Frames, t: string, o: char)
    ensures Flush(Append(st, t), o) == Flush(st, o) + t
  {
    assert Append(st, t)[..|st| - 1] == st[..|st| - 1];
    if |st| > 1 {
      assert Flush(st[..|st| - 1], o) + [o] + (st[|st| - 1] + t) == Flush(st[..|st| - 1], o) + [o] + st[|st| - 1] + t;
    }
  }

  lemma {:induction false} ScanPiece(k: Bracket, st: Frames, piece: string, tail: string, st': Frames, kept: string,
                                     rest: string)
    requires Scan(st, piece, Left(k), Right(k)) == st'
    requires Flush(st', Left(k)) == Flush(st, Left(k)) + kept
    requires Flush(Scan(st', tail, Left(k), Right(k)), Left(k)) == Flush(st', Left(k)) + rest
    ensures Flush(Scan(st, piece + tail, Left(k), Right(k)), Left(k)) == Flush(st, Left(k)) + (kept + rest)
  {
    ScanConcat(st, piece, tail, Left(k), Right(k));
  }

  lemma {:induction false} ScanDeco(k: Bracket, st: Frames, d: Deco)
    requires Proper(d)
    ensures Flush(Scan(st, Show(d), Left(k), Right(k)), Left(k)) == Flush(st, Left(k)) + Show(Drop(k, d))
    decreases d
  {
    var o := Left(k);
    match d
    case End =>
    case Chr(ch, rest) =>
      var next := Append(st, [ch]);
      ScanOther(st, ch, k);
      FlushAppend(st, [ch], o);
      ScanDeco(k, next, rest);
      ScanPiece(k, st, [ch], Show(rest), next, [ch], Show(Drop(k, rest)));
    case Grp(k', inner, rest) =>
      var piece := [Left(k')] + Show(inner) + [Right(k')];
      var kept := if k' == k then " " else [Left(k')] + Show(Drop(k, inner)) + [Right(k')];
      var next := Append(st, kept);
      ScanGroupPiece(k, st, k', inner);
      FlushAppend(st, kept, o);
      ScanDeco(k, next, rest);
      ScanPiece(k, st, piece, Show(rest), next, kept, Show(Drop(k, rest)));
    case Cut(k', rest) =>
      var next := ScanStep(st, Left(k'), o, Right(k));
      ScanOne(st, Left(k'), o, Right(k));
      FlushStep(st, Left(k'), o);
      ScanDeco(k, next, rest);
      ScanPiece(k, st, [Left(k')], Show(rest), next, [Left(k')], Show(Drop(k, rest)));
  }

  /** Stripping one kind of bracket replaces exactly its groups, each by one space. */
  lemma {:induction false} StripDeco(k: Bracket, d: Deco)
    requires Proper(d)
    ensures OneScan(Show(d), Left(k), Right(k)) == Show(Drop(k, d))
  {
    ScanDeco(k, [""], d);
    assert "" + Show(Drop(k, d)) == Show(Drop(k, d));
  }

  function Bare(d: Deco): Deco { Drop(Round, Drop(Angle, Drop(Square, d))) }

  lemma {:induction false} StripAllDeco(d: Deco)
    requires Proper(d)
    ensures StripAll(Show(d)) == Show(Bare(d)) && Proper(Bare(d))
  {
    StripDeco(Square, d);
    DropProper(Square, d);
    StripDeco(Angle, Drop(Square, d));
    DropProper(Angle, Drop(Square, d));
    StripDeco(Round, Drop(Angle, Drop(Square, d)));
    DropProper(Round, Drop(Angle, Drop(Square, d)));
  }
}
