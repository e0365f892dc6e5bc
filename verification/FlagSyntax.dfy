/**
 Which characters make a flag, an environment name or a blank (e2e_workflow/e2e_workflow.js, parseFlagItems,
 parseEnvItems and the repeatable flags), and what the shortest strings parse to.
 */
module FlagSyntax {
  import opened Wrappers
  import opened Text
  import opened Flags
  import opened ConfigMerge

  /** What `\s` matches. */
  lemma {:induction false} BlanksAre(c: char)
    ensures IsSpace(c) <==>
            c as int in {0x09, 0x0a, 0x0b, 0x0c, 0x0d, 0x20, 0xa0, 0x1680, 0x2000, 0x2001, 0x2002, 0x2003, 0x2004,
                         0x2005, 0x2006, 0x2007, 0x2008, 0x2009, 0x200a, 0x2028, 0x2029, 0x202f, 0x205f, 0x3000,
                         0xfeff}
  {
  }

  /** One or two dashes and a letter; what follows is free. */
  ghost predicate Dashed(t: string) {
    exists dashes, c, rest :: Spelled(t, dashes, c, rest)
  }

  ghost predicate Spelled(t: string, dashes: string, c: char, rest: string) {
    t == dashes + [c] + rest && (dashes == "-" || dashes == "--") && ('a' <= c <= 'z' || 'A' <= c <= 'Z')
  }

  lemma {:induction false} FlagIff(t: string)
    ensures LooksLikeFlag(t) <==> Dashed(t)
  {
    if LooksLikeFlag(t) {
      if IsLetter(t[1]) {
        assert t == "-" + [t[1]] + t[2..];
        assert Spelled(t, "-", t[1], t[2..]);
      } else {
        assert t == "--" + [t[2]] + t[3..];
        assert Spelled(t, "--", t[2], t[3..]);
      }
    }
  }

  /** A letter or an underscore, then letters, digits and underscores. */
  lemma {:induction false} EnvNameIff(n: string)
    ensures EnvName(n) <==>
            && n != "" && !('0' <= n[0] <= '9')
            && forall i :: 0 <= i < |n| ==>
                 'a' <= n[i] <= 'z' || 'A' <= n[i] <= 'Z' || '0' <= n[i] <= '9' || n[i] == '_'
  {
    if EnvName(n) {
      forall i | 0 <= i < |n|
        ensures 'a' <= n[i] <= 'z' || 'A' <= n[i] <= 'Z' || '0' <= n[i] <= '9' || n[i] == '_'
      {
        assert n[i] in n;
      }
    } else if n != "" && (IsLetter(n[0]) || n[0] == '_') {
      var c :| c in n && !(IsLetter(c) || IsDigit(c) || c == '_');
      var i :| 0 <= i < |n| && n[i] == c;
    }
  }

  /** Only these two flags may be given several values. */
  lemma {:induction false} RepeatableAre(n: string)
    ensures n in REPEATABLE_FLAGS <==> n == "--lora-path" || n == "--lora-paths"
  {
  }

  // ---- one word ----------------------------------------------------------------------------------------------

  /** A word is a flag, a flag with its value, or neither. */
  lemma {:induction false} WordIs(t: string)
    requires Word(t)
    ensures !Dashed(t) ==> ParseFlags(t) == [Item(None, Some(t), false)]
    ensures Dashed(t) && '=' !in t ==> ParseFlags(t) == [Item(Some(t), None, false)]
  {
    TokensOfWord(t);
    FlagIff(t);
    assert [t][1..] == [] && ParseTokens([]) == [];
    if LooksLikeFlag(t) && '=' !in t { LoneFlag(t); }
  }

  lemma {:induction false} LoneFlag(t: string)
    requires LooksLikeFlag(t) && '=' !in t
    ensures ParseTokens([t]) == [Item(Some(t), None, false)]
  {
    assert [t][1..] == [] && [t][1..1] == [];
    assert IndexOf(t, '=') == |t|;
  }

  lemma {:induction false} AssignedWordIs(n: string, v: string)
    requires Word(n + "=" + v) && Dashed(n) && '=' !in n
    ensures ParseFlags(n + "=" + v) == [Item(Some(n), Some(v), true)]
  {
    var t := n + "=" + v;
    TokensOfWord(t);
    FlagIff(n);
    IndexOfAssigned(n, v);
    Divided(n, v);
    LoneAssigned(t);
  }

  lemma {:induction false} LoneAssigned(t: string)
    requires LooksLikeFlag(t) && 0 < IndexOf(t, '=') < |t|
    ensures ParseTokens([t]) == [Assigned(t)]
  {
    assert [t][1..] == [] && ParseTokens([]) == [];
  }

  lemma {:induction false} Divided(n: string, v: string)
    ensures var t := n + "=" + v; t[..|n|] == n && t[|n| + 1..] == v
    ensures LooksLikeFlag(n) ==> LooksLikeFlag(n + "=" + v)
  {
  }

  /** A flag takes the words behind it, up to the next flag. */
  lemma {:induction false} FlagTakes(f: string, values: seq<string>)
    requires Word(f) && Dashed(f) && '=' !in f && values != []
    requires forall v :: v in values ==> Word(v) && !Dashed(v)
    ensures ParseFlags(f + " " + Join(values)) == [Item(Some(f), Some(Join(values)), false)]
  {
    TokensOfWord(f);
    TokensOfJoin(values);
    TokensOfJoined(f, Join(values));
    FlagIff(f);
    forall v | v in values ensures !LooksLikeFlag(v) { FlagIff(v); }
    TokensTaken(f, values);
  }

  lemma {:induction false} TokensTaken(f: string, values: seq<string>)
    requires LooksLikeFlag(f) && '=' !in f && values != []
    requires forall v :: v in values ==> !LooksLikeFlag(v)
    ensures ParseTokens([f] + values) == [Item(Some(f), Some(Join(values)), false)]
  {
    var ts, n := [f] + values, |values|;
    assert IndexOf(f, '=') == |f|;
    assert ts[1..] == values;
    assert forall i :: 0 <= i < n ==> values[i] in values;
    ValuesIs(values, n);
    assert ts[1..1 + n] == values && ts[1 + n..] == [];
    assert ParseTokens(ts) == [FlagWith(f, values)] + ParseTokens([]);
  }

  /** In the environment, only a name may stand before the first `=`. */
  lemma {:induction false} EnvWordIs(n: string, v: string)
    requires Word(n + "=" + v) && '=' !in n
    ensures EnvName(n) ==> ParseEnv(n + "=" + v) == [Item(Some(n), Some(v), true)]
    ensures !EnvName(n) ==> ParseEnv(n + "=" + v) == [Item(None, Some(n + "=" + v), false)]
  {
    var t := n + "=" + v;
    TokensOfWord(t);
    EnvTokenIs(n, v);
    assert ParseEnv(t) == [ParseEnvToken(t)];
  }

  lemma {:induction false} EnvTokenIs(n: string, v: string)
    requires '=' !in n
    ensures var t := n + "=" + v;
            ParseEnvToken(t) == if EnvName(n) then Item(Some(n), Some(v), true) else Item(None, Some(t), false)
  {
    IndexOfAssigned(n, v);
    Divided(n, v);
  }
}
