/**
 Removal of balanced groups from a kernel symbol (e2e_workflow/e2e_workflow.js, stripBalanced):
 a regular-expression pass that replaces every innermost group, repeated until nothing
 changes, computes what one left-to-right scan with a stack computes.
 */
module Strip {

  /** Length of the leading run without either delimiter: `[^oc]*`. */
  function PlainRun(s: string, o: char, c: char): (n: nat)
    ensures n <= |s|
    ensures forall i :: 0 <= i < n ==> s[i] != o && s[i] != c
    ensures n < |s| ==> s[n] == o || s[n] == c
  {
    if s == "" || s[0] == o || s[0] == c then 0 else 1 + PlainRun(s[1..], o, c)
  }

  /** A match of `o[^oc]*c` at the front of `s`: its length, or 0. */
  function MatchHere(s: string, o: char, c: char): (n: nat)
    ensures n <= |s| && n != 1
  {
    if s == "" || s[0] != o then 0
    else
      var n := PlainRun(s[1..], o, c);
      if 1 + n < |s| && s[1 + n] == c then n + 2 else 0
  }

  /** `text.replace(rx, ' ')` with the global flag. */
  function ReplaceInnermost(s: string, o: char, c: char): string
    decreases |s|
  {
    if s == "" then ""
    else
      var n := MatchHere(s, o, c);
      if n > 0 then " " + ReplaceInnermost(s[n..], o, c)
      else [s[0]] + ReplaceInnermost(s[1..], o, c)
  }

  method StripBalanced(symbol: string, o: char, c: char) returns (text: string)
    requires o != c && o != ' ' && c != ' '
    ensures text == OneScan(symbol, o, c)
  {
    text := symbol;
    while true
      invariant OneScan(text, o, c) == OneScan(symbol, o, c)
      decreases |text|
    {
      var previous := text;
      text := ReplaceInnermost(previous, o, c);
      ReplacingShortens(previous, o, c);
      ScanReplaced([""], previous, o, c);
      if text == previous {
        FixedIsOrdered(text, o, c);
        OrderedScan([""], text, o, c);
        return;
      }
    }
  }

  lemma {:induction false} ReplacingShortens(s: string, o: char, c: char)
    ensures |ReplaceInnermost(s, o, c)| <= |s|
    ensures ReplaceInnermost(s, o, c) != s ==> |ReplaceInnermost(s, o, c)| < |s|
    decreases |s|
  {
    if s != "" {
      var n := MatchHere(s, o, c);
      if n > 0 {
        ReplacingShortens(s[n..], o, c);
      } else {
        ReplacingShortens(s[1..], o, c);
        assert s == [s[0]] + s[1..];
      }
    }
  }

  // ---- the one-scan specification --------------------------------------------------

  /** What was read since each opener that is still open; the first frame lies outside all of them. */
  type Frames = s: seq<string> | s != [] witness [""]

  function Append(st: Frames, t: string): Frames { st[|st| - 1 := st[|st| - 1] + t] }

  function ScanStep(st: Frames, ch: char, o: char, c: char): Frames {
    if ch == o then st + [""]
    else if ch == c && |st| > 1 then Append(st[..|st| - 1], " ")   // a group ends: one space replaces it
    else Append(st, [ch])
  }

  function Scan(st: Frames, s: string, o: char, c: char): Frames
    decreases |s|
  {
    if s == "" then st else Scan(ScanStep(st, s[0], o, c), s[1..], o, c)
  }

  /** Openers that were never closed stay, each in front of what followed it. */
  function Flush(st: seq<string>, o: char): string {
    if st == [] then ""
    else if |st| == 1 then st[0]
    else Flush(st[..|st| - 1], o) + [o] + st[|st| - 1]
  }

  /** Every outermost matched group becomes one space; everything else is kept. */
  function OneScan(s: string, o: char, c: char): string { Flush(Scan([""], s, o, c), o) }

  lemma {:induction false} ScanConcat(st: Frames, a: string, b: string, o: char, c: char)
    ensures Scan(st, a + b, o, c) == Scan(Scan(st, a, o, c), b, o, c)
    decreases |a|
  {
    if a == "" {
      assert a + b == b;
    } else {
      assert (a + b)[1..] == a[1..] + b;
      ScanConcat(ScanStep(st, a[0], o, c), a[1..], b, o, c);
    }
  }

  lemma {:induction false} ScanPlain(st: Frames, t: string, o: char, c: char)
    requires o !in t && c !in t
    ensures Scan(st, t, o, c) == Append(st, t)
    decreases |t|
  {
    if t == "" {
      assert st[|st| - 1] + "" == st[|st| - 1];
    } else {
      assert t[0] in t && forall x :: x in t[1..] ==> x in t;
      ScanPlain(Append(st, [t[0]]), t[1..], o, c);
      assert st[|st| - 1] + [t[0]] + t[1..] == st[|st| - 1] + t;
    }
  }

  lemma {:induction false} ScanGroup(st: Frames, w: string, o: char, c: char)
    requires o != c && o !in w && c !in w
    ensures Scan(st, [o] + w + [c], o, c) == Append(st, " ")
  {
    var t := w + [c];
    assert [o] + w + [c] == [o] + t && ([o] + t)[1..] == t;
    ScanConcat(st + [""], w, [c], o, c);
    ScanPlain(st + [""], w, o, c);
    var open := Append(st + [""], w);
    assert open[..|open| - 1] == st;
    assert [c][1..] == "";
    assert Scan(open, [c], o, c) == Scan(ScanStep(open, c, o, c), "", o, c);
  }

  lemma {:induction false} ScanOne(st: Frames, ch: char, o: char, c: char)
    ensures Scan(st, [ch], o, c) == ScanStep(st, ch, o, c)
  {
    assert [ch][1..] == "";
  }

  /** A pass over the innermost groups is invisible to the scan. */
  lemma {:induction false} ScanReplaced(st: Frames, s: string, o: char, c: char)
    requires o != c && o != ' ' && c != ' '
    ensures Scan(st, ReplaceInnermost(s, o, c), o, c) == Scan(st, s, o, c)
    decreases |s|
  {
    if s != "" {
      var n := MatchHere(s, o, c);
      if n > 0 {
        var w := s[1..][..n - 2];
        assert s == [o] + w + [c] + s[n..];
        ScanConcat(st, [o] + w + [c], s[n..], o, c);
        ScanGroup(st, w, o, c);
        ScanReplaced(Append(st, " "), s[n..], o, c);
        ScanConcat(st, " ", ReplaceInnermost(s[n..], o, c), o, c);
        ScanOne(st, ' ', o, c);
      } else {
        ScanReplaced(ScanStep(st, s[0], o, c), s[1..], o, c);
        ScanConcat(st, [s[0]], ReplaceInnermost(s[1..], o, c), o, c);
        ScanOne(st, s[0], o, c);
      }
    }
  }

  /** No opener stands before a closer: nothing is left to match. */
  ghost predicate Ordered(s: string, o: char, c: char) {
    forall i, j :: 0 <= i < j < |s| && s[i] == o ==> s[j] != c
  }

  lemma {:induction false} FixedIsOrdered(s: string, o: char, c: char)
    requires o != c && ReplaceInnermost(s, o, c) == s
    ensures Ordered(s, o, c)
  {
    if s != "" {
      var n := MatchHere(s, o, c);
      if n > 0 { ReplacingShortens(s[n..], o, c); }
      assert n == 0 && ReplaceInnermost(s[1..], o, c) == s[1..];
      FixedIsOrdered(s[1..], o, c);
      if s[0] == o { FirstDelimiter(s[1..], o, c); }
      forall i, j | 0 <= i < j < |s| && s[i] == o ensures s[j] != c {
        if i == 0 { assert s[1..][j - 1] == s[j]; }
        else { assert s[1..][i - 1] == o && s[1..][j - 1] == s[j]; }
      }
    }
  }

  /** In an ordered text whose first delimiter is not a closer there is no closer at all. */
  lemma {:induction false} FirstDelimiter(s: string, o: char, c: char)
    requires o != c && Ordered(s, o, c)
    requires PlainRun(s, o, c) < |s| ==> s[PlainRun(s, o, c)] != c
    ensures c !in s
  {
    var n := PlainRun(s, o, c);
    forall j | 0 <= j < |s| ensures s[j] != c {
      if j < n { assert s[j] in s[..n]; }
    }
  }

  lemma {:induction false} ScanUnclosed(st: Frames, s: string, o: char, c: char)
    requires c !in s
    ensures Flush(Scan(st, s, o, c), o) == Flush(st, o) + s
    decreases |s|
  {
    if s == "" {
    } else {
      assert s[0] in s && forall x :: x in s[1..] ==> x in s;
      var next := ScanStep(st, s[0], o, c);
      ScanUnclosed(next, s[1..], o, c);
      FlushStep(st, s[0], o);
      assert Flush(next, o) == Flush(st, o) + [s[0]];
      assert Flush(st, o) + [s[0]] + s[1..] == Flush(st, o) + s;
    }
  }

  lemma {:induction false} FlushStep(st: Frames, ch: char, o: char)
    ensures Flush(st + [""], o) == Flush(st, o) + [o]
    ensures Flush(Append(st, [ch]), o) == Flush(st, o) + [ch]
  {
    assert (st + [""])[..|st|] == st;
    assert Append(st, [ch])[..|st| - 1] == st[..|st| - 1];
  }

  lemma {:induction false} OrderedScan(st: Frames, s: string, o: char, c: char)
    requires o != c && |st| == 1 && Ordered(s, o, c)
    ensures Flush(Scan(st, s, o, c), o) == st[0] + s
    decreases |s|
  {
    if s == "" {
    } else if s[0] == o {
      forall x | x in s ensures x != c {
        var j :| 0 <= j < |s| && s[j] == x;
      }
      ScanUnclosed(st, s, o, c);
    } else {
      forall i, j | 0 <= i < j < |s[1..]| && s[1..][i] == o ensures s[1..][j] != c {
        assert s[i + 1] == o;
      }
      OrderedScan(Append(st, [s[0]]), s[1..], o, c);
      assert st[0] + [s[0]] + s[1..] == st[0] + s;
    }
  }

  /** The result has no group left, and a text without groups is left alone. */
  lemma {:induction false} StrippedIsOrdered(s: string, o: char, c: char)
    requires o != c && o != ' ' && c != ' '
    ensures Ordered(OneScan(s, o, c), o, c)
    ensures Ordered(s, o, c) ==> OneScan(s, o, c) == s
    decreases |s|
  {
    var t := ReplaceInnermost(s, o, c);
    ReplacingShortens(s, o, c);
    ScanReplaced([""], s, o, c);
    if t == s {
      FixedIsOrdered(s, o, c);
    } else {
      StrippedIsOrdered(t, o, c);
    }
    if Ordered(s, o, c) { OrderedScan([""], s, o, c); }
    if t == s { OrderedScan([""], s, o, c); }
  }
}
