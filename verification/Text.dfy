/** White space, words and joining, as JavaScript's `\s`, `split(/\s+/)`, `trim` and `join(' ')` see them. */
module Text {

  predicate IsSpace(c: char) {
    var n := c as int;
    9 <= n <= 13 || n == 32 || n == 0xa0 || n == 0x1680 || 0x2000 <= n <= 0x200a
    || n == 0x2028 || n == 0x2029 || n == 0x202f || n == 0x205f || n == 0x3000 || n == 0xfeff
  }

  predicate Solid(s: string) { forall c :: c in s ==> !IsSpace(c) }

  predicate Word(s: string) { s != "" && Solid(s) }

  /** Length of the leading run of non-space characters. */
  function Run(s: string): (n: nat)
    ensures n <= |s|
    ensures forall i :: 0 <= i < n ==> !IsSpace(s[i])
    ensures n < |s| ==> IsSpace(s[n])
  {
    if s == "" || IsSpace(s[0]) then 0 else 1 + Run(s[1..])
  }

  /** `s.trim().split(/\s+/).filter(Boolean)`: the maximal runs of non-space characters. */
  function Tokens(s: string): (ts: seq<string>)
    ensures forall t :: t in ts ==> Word(t)
    decreases |s|
  {
    if s == "" then []
    else if IsSpace(s[0]) then Tokens(s[1..])
    else [s[..Run(s)]] + Tokens(s[Run(s)..])
  }

  function Join(ts: seq<string>): string {
    if ts == [] then ""
    else if |ts| == 1 then ts[0]
    else ts[0] + " " + Join(ts[1..])
  }

  function TrimStart(s: string): (r: string)
    ensures |r| <= |s|
  {
    if s != "" && IsSpace(s[0]) then TrimStart(s[1..]) else s
  }

  function TrimEnd(s: string): string {
    if s != "" && IsSpace(s[|s| - 1]) then TrimEnd(s[..|s| - 1]) else s
  }

  function Trim(s: string): string { TrimEnd(TrimStart(s)) }

  // ---- facts -------------------------------------------------------------------

  lemma {:induction false} RunOfSolid(w: string, rest: string)
    requires Solid(w) && (rest == "" || IsSpace(rest[0]))
    ensures Run(w + rest) == |w|
  {
    if w == "" {
      assert w + rest == rest;
    } else {
      assert (w + rest)[1..] == w[1..] + rest;
      RunOfSolid(w[1..], rest);
    }
  }

  lemma {:induction false} TokensOfWord(w: string)
    requires Word(w)
    ensures Tokens(w) == [w]
  {
    RunOfSolid(w, "");
    assert w + "" == w && w[|w|..] == "";
    assert w[0] in w;
    assert Tokens(w[Run(w)..]) == [];
  }

  /** Splitting distributes over text joined at a space. */
  lemma {:induction false} TokensOfJoined(a: string, b: string)
    ensures Tokens(a + " " + b) == Tokens(a) + Tokens(b)
    decreases |a|
  {
    var s := a + " " + b;
    if a == "" {
      assert s == " " + b && s[1..] == b;
    } else if IsSpace(a[0]) {
      assert s[1..] == a[1..] + " " + b;
      TokensOfJoined(a[1..], b);
    } else {
      var n := Run(a);
      assert n > 0;
      assert s == a[..n] + (a[n..] + " " + b);
      RunOfSolid(a[..n], a[n..] + " " + b);
      assert s[..n] == a[..n] && s[n..] == a[n..] + " " + b;
      TokensOfJoined(a[n..], b);
      assert Tokens(s) == [a[..n]] + (Tokens(a[n..]) + Tokens(b));
    }
  }

  lemma {:induction false} TokensOfJoin(ts: seq<string>)
    requires forall t :: t in ts ==> Word(t)
    ensures Tokens(Join(ts)) == ts
  {
    if |ts| == 1 {
      TokensOfWord(ts[0]);
    } else if ts != [] {
      TokensOfWord(ts[0]);
      TokensOfJoin(ts[1..]);
      TokensOfJoined(ts[0], Join(ts[1..]));
      assert ts == [ts[0]] + ts[1..];
    }
  }

  lemma {:induction false} TokensTrimStart(s: string)
    ensures Tokens(TrimStart(s)) == Tokens(s)
  {
    if s != "" && IsSpace(s[0]) { TokensTrimStart(s[1..]); }
  }

  lemma {:induction false} TokensSpaceEnd(s: string, c: char)
    requires IsSpace(c)
    ensures Tokens(s + [c]) == Tokens(s)
    decreases |s|
  {
    if s == "" {
      assert s + [c] == [c] && [c][1..] == "";
    } else if IsSpace(s[0]) {
      assert (s + [c])[1..] == s[1..] + [c];
      TokensSpaceEnd(s[1..], c);
    } else {
      var n := Run(s);
      assert s + [c] == s[..n] + (s[n..] + [c]);
      RunOfSolid(s[..n], s[n..] + [c]);
      assert (s + [c])[..n] == s[..n] && (s + [c])[n..] == s[n..] + [c];
      TokensSpaceEnd(s[n..], c);
    }
  }

  lemma {:induction false} TokensTrimEnd(s: string)
    ensures Tokens(TrimEnd(s)) == Tokens(s)
  {
    if s != "" && IsSpace(s[|s| - 1]) {
      TokensTrimEnd(s[..|s| - 1]);
      TokensSpaceEnd(s[..|s| - 1], s[|s| - 1]);
      assert s == s[..|s| - 1] + [s[|s| - 1]];
    }
  }

  lemma {:induction false} TokensOfTrim(s: string)
    ensures Tokens(Trim(s)) == Tokens(s)
  {
    TokensTrimStart(s);
    TokensTrimEnd(TrimStart(s));
  }
}
