/**
 Launch-flag and environment strings (e2e_workflow/e2e_workflow.js, parseFlagString,
 renderFlagItems, parseEnvString, renderEnvItems): the two parsers, the printer, and
 the exact conditions under which printing and parsing again gives the items back.
 */
module Flags {
  import opened Wrappers
  import opened Text

  /** `{name, value, eq}`; a token that belongs to no flag rides along with no name. */
  datatype Item = Item(name: Option<string>, value: Option<string>, eq: bool)

  predicate IsLetter(c: char) { 'a' <= c <= 'z' || 'A' <= c <= 'Z' }

  /** /^--?[A-Za-z]/ */
  predicate LooksLikeFlag(t: string) {
    && |t| >= 2 && t[0] == '-'
    && (IsLetter(t[1]) || (t[1] == '-' && |t| >= 3 && IsLetter(t[2])))
  }

  /** `t.indexOf(c)`, with |t| standing for -1. */
  function IndexOf(t: string, c: char): (n: nat)
    ensures n <= |t|
    ensures forall i :: 0 <= i < n ==> t[i] != c
    ensures n < |t| ==> t[n] == c
  {
    if t == "" || t[0] == c then 0 else 1 + IndexOf(t[1..], c)
  }

  // ---- parsing -----------------------------------------------------------------

  /** How many of the leading tokens are values rather than flags. */
  function Values(ts: seq<string>): (n: nat)
    ensures n <= |ts|
    ensures forall i :: 0 <= i < n ==> !LooksLikeFlag(ts[i])
    ensures n < |ts| ==> LooksLikeFlag(ts[n])
  {
    if ts == [] || LooksLikeFlag(ts[0]) then 0 else 1 + Values(ts[1..])
  }

  function FlagWith(t: string, values: seq<string>): Item {
    Item(Some(t), if values == [] then None else Some(Join(values)), false)
  }

  function Stray(t: string): Item { Item(None, Some(t), false) }

  function Assigned(t: string): Item
    requires IndexOf(t, '=') < |t|
  {
    var n := IndexOf(t, '=');
    Item(Some(t[..n]), Some(t[n + 1..]), true)
  }

  function ParseTokens(ts: seq<string>): seq<Item> {
    if ts == [] then []
    else
      var t := ts[0];
      if !LooksLikeFlag(t) then [Stray(t)] + ParseTokens(ts[1..])
      else if 0 < IndexOf(t, '=') < |t| then [Assigned(t)] + ParseTokens(ts[1..])
      else
        var n := Values(ts[1..]);
        [FlagWith(t, ts[1..1 + n])] + ParseTokens(ts[1 + n..])
  }

  function ParseFlags(s: string): seq<Item> { ParseTokens(Tokens(s)) }

  /** The parsing loop, with its inner loop that gathers a flag's values. */
  method ParseFlagString(s: string) returns (items: seq<Item>)
    ensures items == ParseFlags(s)
  {
    var toks := Tokens(s);
    items := [];
    var i := 0;
    while i < |toks|
      invariant 0 <= i <= |toks|
      invariant items + ParseTokens(toks[i..]) == ParseTokens(toks)
    {
      ghost var before := items;
      var it;
      it, i := NextItem(toks, i);
      items := items + [it];
      Regroup(before, it, ParseTokens(toks[i..]));
    }
  }

  /** The body of the loop: the item at `i`, and where the next one starts. */
  method NextItem(toks: seq<string>, i: nat) returns (it: Item, next: nat)
    requires i < |toks|
    ensures i < next <= |toks|
    ensures ParseTokens(toks[i..]) == [it] + ParseTokens(toks[next..])
  {
    var t := toks[i];
    if !LooksLikeFlag(t) {
      LoneToken(toks, i);
      return Stray(t), i + 1;
    }
    var eq := IndexOf(t, '=');
    if 0 < eq < |t| {
      LoneToken(toks, i);
      return Assigned(t), i + 1;
    }
    var vals := GatherValues(toks, i + 1);
    it, next := FlagWith(t, vals), i + 1 + |vals|;
    OpenFlag(toks, i, vals, it, next);
  }

  lemma {:induction false} LoneToken(toks: seq<string>, i: nat)
    requires i < |toks| && (LooksLikeFlag(toks[i]) ==> 0 < IndexOf(toks[i], '=') < |toks[i]|)
    ensures ParseTokens(toks[i..])
         == [if LooksLikeFlag(toks[i]) then Assigned(toks[i]) else Stray(toks[i])] + ParseTokens(toks[i + 1..])
  {
    Slices(toks, i, 0);
  }

  lemma {:induction false} OpenFlag(toks: seq<string>, i: nat, vals: seq<string>, it: Item, next: nat)
    requires i < |toks| && LooksLikeFlag(toks[i]) && !(0 < IndexOf(toks[i], '=') < |toks[i]|)
    requires |vals| == Values(toks[i + 1..]) && vals == toks[i + 1..i + 1 + |vals|]
    requires it == FlagWith(toks[i], vals) && next == i + 1 + |vals|
    ensures ParseTokens(toks[i..]) == [it] + ParseTokens(toks[next..])
  {
    Slices(toks, i, |vals|);
  }

  /** Reading on from `i`, and past the `n` tokens after it. */
  lemma {:induction false} Slices(toks: seq<string>, i: nat, n: nat)
    requires i + 1 + n <= |toks|
    ensures var rest := toks[i..];
            && rest[0] == toks[i] && rest[1..] == toks[i + 1..]
            && rest[1..1 + n] == toks[i + 1..i + 1 + n] && rest[1 + n..] == toks[i + 1 + n..]
  {
  }

  lemma {:induction false} Regroup(before: seq<Item>, it: Item, rest: seq<Item>)
    ensures before + [it] + rest == before + ([it] + rest)
  {
  }

  lemma {:induction false} OneMore(toks: seq<string>, start: nat, j: nat)
    requires start <= j < |toks|
    ensures toks[start..j + 1] == toks[start..j] + [toks[j]]
  {
    assert toks[start..j + 1][..j - start] == toks[start..j];
  }

  /** The inner loop: everything up to the next flag. */
  method GatherValues(toks: seq<string>, start: nat) returns (vals: seq<string>)
    requires start <= |toks|
    ensures |vals| == Values(toks[start..]) && vals == toks[start..start + |vals|]
  {
    vals := [];
    var j := start;
    while j < |toks| && !LooksLikeFlag(toks[j])
      invariant start <= j <= |toks| && vals == toks[start..j]
      invariant forall k :: start <= k < j ==> !LooksLikeFlag(toks[k])
    {
      OneMore(toks, start, j);
      vals := vals + [toks[j]];
      j := j + 1;
    }
    ValuesIs(toks[start..], j - start);
  }

  lemma {:induction false} ValuesIs(ts: seq<string>, n: nat)
    requires n <= |ts| && forall i :: 0 <= i < n ==> !LooksLikeFlag(ts[i])
    requires n < |ts| ==> LooksLikeFlag(ts[n])
    ensures Values(ts) == n
  {
    if n > 0 { ValuesIs(ts[1..], n - 1); }
  }

  // ---- printing -----------------------------------------------------------------

  function RenderItem(it: Item): string {
    if it.name.None? then it.value.GetOr("")
    else if it.value.None? then it.name.value
    else if it.eq then it.name.value + "=" + it.value.value
    else it.name.value + " " + it.value.value
  }

  function RenderAll(items: seq<Item>): (r: seq<string>)
    ensures |r| == |items| && forall i :: 0 <= i < |items| ==> r[i] == RenderItem(items[i])
  {
    seq(|items|, i requires 0 <= i < |items| => RenderItem(items[i]))
  }

  function RenderFlags(items: seq<Item>): string { Trim(Join(RenderAll(items))) }

  // ---- which item lists are parses -------------------------------------------------

  predicate IsStray(it: Item) { it.name.None? }

  /** A flag written without `=`: on reparsing it would swallow a value that follows it. */
  predicate IsOpen(it: Item) { it.name.Some? && !it.eq }

  predicate FlagName(n: string) { Word(n) && LooksLikeFlag(n) && '=' !in n }

  predicate ValueText(v: string) {
    && Tokens(v) != [] && v == Join(Tokens(v))
    && forall t :: t in Tokens(v) ==> !LooksLikeFlag(t)
  }

  /** An item as the parser produces it, on its own. */
  predicate Good(it: Item) {
    match it.name
    case None => it.value.Some? && !it.eq && Word(it.value.value) && !LooksLikeFlag(it.value.value)
    case Some(n) =>
      && FlagName(n)
      && if it.eq then it.value.Some? && Solid(it.value.value)
         else it.value.None? || ValueText(it.value.value)
  }

  predicate AllGood(items: seq<Item>) { forall it :: it in items ==> Good(it) }

  predicate NoAbsorb(items: seq<Item>) {
    forall i :: 0 <= i < |items| - 1 && IsOpen(items[i]) ==> !IsStray(items[i + 1])
  }

  lemma {:induction false} FlagPrefix(n: string, rest: string)
    requires LooksLikeFlag(n)
    ensures LooksLikeFlag(n + rest)
  {
  }

  lemma {:induction false} EqualsInFlag(t: string)
    requires LooksLikeFlag(t)
    ensures IndexOf(t, '=') >= 2 && LooksLikeFlag(t[..IndexOf(t, '=')])
  {
    assert t[1..][0] == t[1] && t[1] != '=';
    assert IndexOf(t, '=') == 1 + IndexOf(t[1..], '=') && IndexOf(t[1..], '=') == 1 + IndexOf(t[1..][1..], '=');
    if t[1] == '-' {
      assert t[1..][1..][0] == t[2];
    }
  }

  lemma {:induction false} SolidPart(t: string, i: nat, j: nat)
    requires Solid(t) && i <= j <= |t|
    ensures Solid(t[i..j])
  {
    forall c | c in t[i..j] ensures !IsSpace(c) { assert c in t; }
  }

  lemma {:induction false} AssignedGood(t: string)
    requires Word(t) && LooksLikeFlag(t) && IndexOf(t, '=') < |t|
    ensures Good(Assigned(t))
  {
    var n := IndexOf(t, '=');
    EqualsInFlag(t);
    SolidPart(t, 0, n);
    SolidPart(t, n + 1, |t|);
    assert t[..n] == t[0..n] && FlagName(t[..n]);
  }

  lemma {:induction false} FlagWithGood(t: string, values: seq<string>)
    requires Word(t) && LooksLikeFlag(t) && IndexOf(t, '=') == |t|
    requires forall v :: v in values ==> Word(v) && !LooksLikeFlag(v)
    ensures Good(FlagWith(t, values))
  {
    assert t[..|t|] == t;
    TokensOfJoin(values);
  }

  /** Every string parses into good items, none of which swallows its neighbour. */
  lemma {:induction false} ParseIsGood(ts: seq<string>)
    requires forall t :: t in ts ==> Word(t)
    ensures AllGood(ParseTokens(ts)) && NoAbsorb(ParseTokens(ts))
    ensures ts != [] ==> ParseTokens(ts) != [] && (IsStray(ParseTokens(ts)[0]) <==> !LooksLikeFlag(ts[0]))
  {
    if ts != [] {
      var t := ts[0];
      assert t in ts;
      if !LooksLikeFlag(t) {
        ParseIsGood(ts[1..]);
      } else if IndexOf(t, '=') < |t| {
        EqualsInFlag(t);
        AssignedGood(t);
        ParseIsGood(ts[1..]);
      } else {
        OpenFlagGood(ts);
        ParseIsGood(ts[1 + Values(ts[1..])..]);
      }
    }
  }

  lemma {:induction false} OpenFlagGood(ts: seq<string>)
    requires ts != [] && (forall t :: t in ts ==> Word(t))
    requires LooksLikeFlag(ts[0]) && IndexOf(ts[0], '=') == |ts[0]|
    ensures var n := Values(ts[1..]);
            Good(FlagWith(ts[0], ts[1..1 + n])) && (1 + n < |ts| ==> LooksLikeFlag(ts[1 + n]))
  {
    var n := Values(ts[1..]);
    assert ts[0] in ts;
    forall v | v in ts[1..1 + n] ensures Word(v) && !LooksLikeFlag(v) {
      var i :| 0 <= i < n && ts[1..1 + n][i] == v;
      assert v == ts[1..][i] && v in ts;
    }
    FlagWithGood(ts[0], ts[1..1 + n]);
    assert 1 + n < |ts| ==> ts[1..][n] == ts[1 + n];
  }

  // ---- round trip -----------------------------------------------------------------

  function ItemTokens(it: Item): seq<string> {
    if it.name.None? then [it.value.GetOr("")]
    else if it.value.None? then [it.name.value]
    else if it.eq then [it.name.value + "=" + it.value.value]
    else [it.name.value] + Tokens(it.value.value)
  }

  function AllTokens(items: seq<Item>): seq<string> {
    if items == [] then [] else ItemTokens(items[0]) + AllTokens(items[1..])
  }

  lemma {:induction false} TokensOfItem(it: Item)
    requires Good(it)
    ensures Tokens(RenderItem(it)) == ItemTokens(it)
    ensures forall t :: t in ItemTokens(it) ==> Word(t)
  {
    if it.name.Some? && it.value.Some? && !it.eq {
      TokensOfJoined(it.name.value, it.value.value);
      TokensOfWord(it.name.value);
    } else {
      TokensOfWord(RenderItem(it));
    }
  }

  lemma {:induction false} TokensOfRendered(items: seq<Item>)
    requires AllGood(items)
    ensures Tokens(Join(RenderAll(items))) == AllTokens(items)
  {
    if items != [] {
      assert items[0] in items;
      TokensOfItem(items[0]);
      TokensOfRendered(items[1..]);
      assert RenderAll(items)[1..] == RenderAll(items[1..]);
      if |items| > 1 {
        TokensOfJoined(RenderItem(items[0]), Join(RenderAll(items[1..])));
      } else {
        assert AllTokens(items[1..]) == [];
      }
    }
  }

  lemma {:induction false} IndexOfAssigned(n: string, v: string)
    requires '=' !in n
    ensures IndexOf(n + "=" + v, '=') == |n|
  {
    if n != "" {
      assert n[0] in n && (n + "=" + v)[1..] == n[1..] + "=" + v;
      IndexOfAssigned(n[1..], v);
    }
  }

  /** The first token of an item that is not stray is a flag. */
  lemma {:induction false} FirstTokenFlag(it: Item)
    requires Good(it)
    ensures ItemTokens(it) != []
    ensures LooksLikeFlag(ItemTokens(it)[0]) <==> !IsStray(it)
  {
    if it.name.Some? && it.eq {
      FlagPrefix(it.name.value, "=" + it.value.value);
      assert it.name.value + "=" + it.value.value == it.name.value + ("=" + it.value.value);
    }
  }

  lemma {:induction false} NoEquals(n: string)
    requires '=' !in n
    ensures IndexOf(n, '=') == |n|
  {
  }

  lemma {:induction false} ReparseTokens(items: seq<Item>)
    requires AllGood(items) && NoAbsorb(items)
    ensures ParseTokens(AllTokens(items)) == items
  {
    if items != [] {
      var it, rest := items[0], items[1..];
      var ts, more := ItemTokens(it), AllTokens(rest);
      assert it in items;
      forall i | 0 <= i < |rest| - 1 && IsOpen(rest[i]) ensures !IsStray(rest[i + 1]) {
        assert IsOpen(items[i + 1]);
      }
      ReparseTokens(rest);
      FirstTokenFlag(it);
      if rest != [] { assert rest[0] in items; FirstTokenFlag(rest[0]); }
      assert items == [it] + rest;
      if IsOpen(it) { ReparseOpen(it, more); } else { ReparseClosed(it, more); }
    }
  }

  lemma {:induction false} ReparseClosed(it: Item, more: seq<string>)
    requires Good(it) && !IsOpen(it)
    ensures ParseTokens(ItemTokens(it) + more) == [it] + ParseTokens(more)
  {
    var all := ItemTokens(it) + more;
    assert all[1..] == more;
    FirstTokenFlag(it);
    if it.name.Some? {
      var n, v := it.name.value, it.value.value;
      IndexOfAssigned(n, v);
      assert (n + "=" + v)[..|n|] == n && (n + "=" + v)[|n| + 1..] == v;
    }
  }

  lemma {:induction false} Pieces(n: string, vs: seq<string>, more: seq<string>)
    ensures var all := [n] + vs + more;
            all[1..] == vs + more && all[1..1 + |vs|] == vs && all[1 + |vs|..] == more
  {
  }

  lemma {:induction false} ReparseOpen(it: Item, more: seq<string>)
    requires Good(it) && IsOpen(it) && (more == [] || LooksLikeFlag(more[0]))
    ensures ParseTokens(ItemTokens(it) + more) == [it] + ParseTokens(more)
  {
    var n, vs := it.name.value, if it.value.None? then [] else Tokens(it.value.value);
    var all := ItemTokens(it) + more;
    assert ItemTokens(it) == [n] + vs;
    Pieces(n, vs, more);
    NoEquals(n);
    ValuesIs(vs + more, |vs|);
    assert FlagWith(n, vs) == it;
  }

  /**
   Printing and parsing again returns the items exactly when no nameless token directly
   follows a flag written without `=`; otherwise the flag swallows that token.
   */
  lemma {:induction false} RoundTripIff(items: seq<Item>)
    requires AllGood(items)
    ensures ParseFlags(RenderFlags(items)) == items <==> NoAbsorb(items)
  {
    TokensOfTrim(Join(RenderAll(items)));
    TokensOfRendered(items);
    if NoAbsorb(items) {
      ReparseTokens(items);
    } else {
      ParseIsGood(Tokens(RenderFlags(items)));
    }
  }

  /** Whatever the string, its items survive being printed and parsed again. */
  lemma {:induction false} ParseRoundTrip(s: string)
    ensures AllGood(ParseFlags(s)) && NoAbsorb(ParseFlags(s))
    ensures ParseFlags(RenderFlags(ParseFlags(s))) == ParseFlags(s)
  {
    ParseIsGood(Tokens(s));
    RoundTripIff(ParseFlags(s));
  }

  // ---- environment strings -----------------------------------------------------------

  predicate IsDigit(c: char) { '0' <= c <= '9' }

  /** /^[A-Za-z_][A-Za-z0-9_]*$/ */
  predicate EnvName(n: string) {
    && n != "" && (IsLetter(n[0]) || n[0] == '_')
    && forall c :: c in n ==> IsLetter(c) || IsDigit(c) || c == '_'
  }

  predicate IsAssignment(t: string) {
    IndexOf(t, '=') < |t| && EnvName(t[..IndexOf(t, '=')])
  }

  function ParseEnvToken(t: string): Item { if IsAssignment(t) then Assigned(t) else Stray(t) }

  function ParseEnv(s: string): seq<Item> {
    var ts := Tokens(s);
    seq(|ts|, i requires 0 <= i < |ts| => ParseEnvToken(ts[i]))
  }

  predicate GoodEnv(it: Item) {
    match it.name
    case None => it.value.Some? && !it.eq && Word(it.value.value) && !IsAssignment(it.value.value)
    case Some(n) => EnvName(n) && it.eq && it.value.Some? && Solid(it.value.value)
  }

  predicate AllGoodEnv(items: seq<Item>) { forall it :: it in items ==> GoodEnv(it) }

  lemma {:induction false} EnvNameSolid(n: string)
    requires EnvName(n)
    ensures Word(n) && '=' !in n
  {
    forall c | c in n ensures !IsSpace(c) && c != '=' {}
  }

  lemma {:induction false} EnvTokenGood(t: string)
    requires Word(t)
    ensures GoodEnv(ParseEnvToken(t)) && RenderItem(ParseEnvToken(t)) == t
  {
    if IsAssignment(t) {
      var n := IndexOf(t, '=');
      SolidPart(t, n + 1, |t|);
      assert t == t[..n] + "=" + t[n + 1..];
    }
  }

  lemma {:induction false} EnvItemReparses(it: Item)
    requires GoodEnv(it)
    ensures Word(RenderItem(it)) && ParseEnvToken(RenderItem(it)) == it
  {
    if it.name.Some? {
      EnvNameSolid(it.name.value);
      IndexOfAssigned(it.name.value, it.value.value);
      assert RenderItem(it)[..|it.name.value|] == it.name.value;
    }
  }

  /** Environment items always survive printing: an assignment never swallows anything. */
  lemma {:induction false} EnvRoundTrip(items: seq<Item>)
    requires AllGoodEnv(items)
    ensures ParseEnv(RenderFlags(items)) == items
  {
    var words := RenderAll(items);
    forall t | t in words ensures Word(t) {
      var i :| 0 <= i < |words| && words[i] == t;
      assert items[i] in items;
      EnvItemReparses(items[i]);
    }
    TokensOfTrim(Join(words));
    TokensOfJoin(words);
    forall i | 0 <= i < |items| ensures ParseEnvToken(words[i]) == items[i] {
      assert items[i] in items;
      EnvItemReparses(items[i]);
    }
  }

  lemma {:induction false} ParseEnvIsGood(s: string)
    ensures AllGoodEnv(ParseEnv(s))
    ensures ParseEnv(RenderFlags(ParseEnv(s))) == ParseEnv(s)
  {
    forall t | t in Tokens(s) ensures GoodEnv(ParseEnvToken(t)) { EnvTokenGood(t); }
    EnvRoundTrip(ParseEnv(s));
  }
}
