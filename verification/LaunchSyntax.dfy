/**
 Which tokens make a launch flag or an assignment, and what the shortest token lists parse to
 (interface/effective_config.py, _looks_like_flag, _parse_flags and _parse_env).
 */
module LaunchSyntax {
  import opened Wrappers
  import opened EffectiveConfig

  /** A dash and something behind it that does not make it a number. */
  lemma {:induction false} TokenIsFlagIff(lex: Lex, t: string)
    ensures LooksLikeFlag(lex, t) <==> |t| >= 2 && t[0] == '-' && !lex.numeric(t)
  {
    if t == "-" { assert |t| == 1; }
    if |t| == 1 && t[0] == '-' { assert t == "-"; }
  }

  lemma {:induction false} AllTaken(lex: Lex, ts: seq<string>, f: Flag)
    requires ts != [] && LooksLikeFlag(lex, ts[0]) && Head(lex, ts) == (f, |ts|)
    ensures Parse(lex, ts) == Ok([f])
  {
    assert ts[|ts|..] == [] && [f] + [] == [f];
  }

  /** A flag by itself has no value, whatever other token it is. */
  lemma {:induction false} LoneFlagIs(lex: Lex, t: string)
    requires '=' !in t
    ensures Parse(lex, [t]) == if |t| >= 2 && t[0] == '-' && !lex.numeric(t) then Ok([Flag(t, None)]) else Err(t)
  {
    TokenIsFlagIff(lex, t);
    NoSplit(t);
    if LooksLikeFlag(lex, t) { AllTaken(lex, [t], Flag(t, None)); }
  }

  /** A flag is split at its first '=', where it has one. */
  lemma {:induction false} AssignedFlagIs(lex: Lex, n: string, v: string)
    requires '=' !in n && |n + "=" + v| >= 2 && (n + "=" + v)[0] == '-' && !lex.numeric(n + "=" + v)
    ensures Parse(lex, [n + "=" + v]) == Ok([Flag(n, Some(lex.canonical(v)))])
  {
    var t := n + "=" + v;
    TokenIsFlagIff(lex, t);
    SplitAt(n, v);
    assert t[..|n|] == n && t[|n| + 1..] == v;
    AllTaken(lex, [t], Flag(n, Some(lex.canonical(v))));
  }

  /** Otherwise it takes the one token behind it, unless that is a flag: numbers are values. */
  lemma {:induction false} FlagWithValueIs(lex: Lex, t: string, v: string)
    requires '=' !in t && |t| >= 2 && t[0] == '-' && !lex.numeric(t)
    requires |v| < 2 || v[0] != '-' || lex.numeric(v)
    ensures Parse(lex, [t, v]) == Ok([Flag(t, Some(lex.canonical(v)))])
  {
    TokenIsFlagIff(lex, t);
    TokenIsFlagIff(lex, v);
    NoSplit(t);
    AllTaken(lex, [t, v], Flag(t, Some(lex.canonical(v))));
  }

  /** An assignment is a key, '=' and anything. */
  lemma {:induction false} AssignmentIff(t: string)
    ensures IsAssignment(t) <==> exists k, v :: Assigns(t, k, v)
  {
    if IsAssignment(t) {
      var n := Split(t);
      assert t == t[..n] + "=" + t[n + 1..];
      assert Assigns(t, t[..n], t[n + 1..]);
    }
    if k, v :| Assigns(t, k, v) { SplitAt(k, v); }
  }

  ghost predicate Assigns(t: string, k: string, v: string) { t == k + "=" + v && k != "" && '=' !in k }

  /** It sets its key to what stands behind the first '='. */
  lemma {:induction false} AssignmentSets(k: string, v: string)
    requires k != "" && '=' !in k
    ensures EnvOf([k + "=" + v]) == Dict([k], map[k := v])
  {
    EnvMore([], k, v);
    assert [] + [k + "=" + v] == [k + "=" + v];
  }
}
