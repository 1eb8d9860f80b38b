/**
  The text cleanup applied to the extracted page text:
  `pageContent.replace(/\s\s+/g, ' ').trim()`.

  The global regular expression scans left to right; at each position it
  tries to match two or more whitespace code units, greedily. A match is
  therefore always a whole maximal run of whitespace of length two or more,
  and it is replaced by one space. A run of exactly one whitespace code unit
  (a lone newline, a lone tab) does not match and is copied unchanged.
 */
module Cleanup {
  import opened Whitespace

  /** Length of the whitespace run at the start of `s`. */
  function LeadingWs(s: string): (n: nat)
    ensures n <= |s|
    ensures forall i :: 0 <= i < n ==> IsWs(s[i])
    ensures n == |s| || !IsWs(s[n])
    decreases |s|
  {
    if |s| > 0 && IsWs(s[0]) then 1 + LeadingWs(s[1..]) else 0
  }

  /** Length of the whitespace run at the end of `s`. */
  function TrailingWs(s: string): (n: nat)
    ensures n <= |s|
    ensures forall i :: |s| - n <= i < |s| ==> IsWs(s[i])
    ensures n == |s| || !IsWs(s[|s| - n - 1])
    decreases |s|
  {
    if |s| > 0 && IsWs(s[|s| - 1]) then 1 + TrailingWs(s[..|s| - 1]) else 0
  }

  /** Where the regular expression's next attempt, at the start of `s`,
      leaves off: after the whole whitespace run when it is two or more long
      (a match), otherwise after one code unit (no match). */
  function StepLength(s: string): (k: nat)
    requires |s| > 0
    ensures 0 < k <= |s|
  {
    var n := LeadingWs(s);
    if n < 2 then 1 else n
  }

  /** What that attempt emits: one space for a match, the code unit itself
      otherwise. */
  function StepOutput(s: string): (h: string)
    requires |s| > 0
    ensures |h| == 1
    ensures IsWs(h[0]) <==> IsWs(s[0])
  {
    if LeadingWs(s) < 2 then [s[0]] else " "
  }

  /** `s.replace(/\s\s+/g, ' ')`. Every maximal whitespace run of length two
      or more becomes one space; everything else is copied. */
  function Collapse(s: string): (r: string)
    ensures |r| <= |s|
    ensures |r| == 0 <==> |s| == 0
    ensures |s| > 0 ==> (IsWs(r[0]) <==> IsWs(s[0]))
    ensures |s| > 0 && !IsWs(s[0]) ==> r[0] == s[0]
    decreases |s|
  {
    if |s| == 0 then []
    else StepOutput(s) + Collapse(s[StepLength(s)..])
  }

  /** After the collapse no two adjacent code units are both whitespace. */
  lemma {:induction false} CollapseNoDoubleWs(s: string)
    ensures NoDoubleWs(Collapse(s))
    decreases |s|
  {
    if |s| > 0 {
      var k := StepLength(s);
      CollapseNoDoubleWs(s[k..]);
      assert IsWs(s[0]) ==> k == |s| || !IsWs(s[k]);
      NoDoubleWsCons(StepOutput(s), Collapse(s[k..]));
    }
  }

  /** Prefixing one code unit keeps adjacent whitespace out when it is not
      whitespace or what follows does not start with whitespace. */
  lemma NoDoubleWsCons(h: string, t: string)
    requires |h| == 1 && NoDoubleWs(t)
    requires !IsWs(h[0]) || |t| == 0 || !IsWs(t[0])
    ensures NoDoubleWs(h + t)
  {
    assert forall i :: 1 <= i < |h + t| ==> (h + t)[i] == t[i - 1];
  }

  /** The collapse never adds, drops or reorders visible content. */
  lemma {:induction false} CollapseKeepsContent(s: string)
    ensures NonWs(Collapse(s)) == NonWs(s)
    decreases |s|
  {
    if |s| > 0 {
      var k := StepLength(s);
      CollapseKeepsContent(s[k..]);
      NonWsConcat(StepOutput(s), Collapse(s[k..]));
      CollapseStepContent(s);
    }
  }

  /** One step of the collapse keeps the visible content. */
  lemma CollapseStepContent(s: string)
    requires |s| > 0
    ensures NonWs(StepOutput(s)) + NonWs(s[StepLength(s)..]) == NonWs(s)
  {
    if LeadingWs(s) < 2 {
      StepContentCopied(s);
    } else {
      StepContentReplaced(s);
    }
  }

  /** A step that copies one code unit keeps its visible content. */
  lemma StepContentCopied(s: string)
    requires |s| > 0 && LeadingWs(s) < 2
    ensures NonWs(StepOutput(s)) + NonWs(s[StepLength(s)..]) == NonWs(s)
  {
    calc {
      NonWs(StepOutput(s)) + NonWs(s[StepLength(s)..]);
      { assert StepOutput(s) == [s[0]]; NonWsSingle(s[0]); }
      (if IsWs(s[0]) then [] else [s[0]]) + NonWs(s[1..]);
      NonWs(s);
    }
  }

  /** A step that replaces a whitespace run by a space has no visible
      content on either side. */
  lemma StepContentReplaced(s: string)
    requires |s| > 0 && LeadingWs(s) >= 2
    ensures NonWs(StepOutput(s)) + NonWs(s[StepLength(s)..]) == NonWs(s)
  {
    var k := StepLength(s);
    calc {
      NonWs(StepOutput(s)) + NonWs(s[k..]);
      { assert StepOutput(s) == [' ']; NonWsSingle(' '); }
      [] + NonWs(s[k..]);
      { assert [] + NonWs(s[k..]) == NonWs(s[k..]); }
      NonWs(s[k..]);
      { NonWsSkipLeading(s, k); }
      NonWs(s);
    }
  }

  /** The visible content of a single code unit. */
  lemma NonWsSingle(c: char)
    ensures NonWs([c]) == if IsWs(c) then [] else [c]
  {
    assert [c][1..] == [];
  }

  /** `s.trimStart()`: the suffix of `s` left after its leading whitespace. */
  function TrimStart(s: string): (r: string)
    ensures |r| <= |s| && r == s[|s| - |r|..]
    ensures forall i :: 0 <= i < |s| - |r| ==> IsWs(s[i])
    ensures |r| == 0 || !IsWs(r[0])
  {
    s[LeadingWs(s)..]
  }

  /** `s.trimEnd()`: the prefix of `s` left before its trailing whitespace. */
  function TrimEnd(s: string): (r: string)
    ensures |r| <= |s| && r == s[..|r|]
    ensures forall i :: |r| <= i < |s| ==> IsWs(s[i])
    ensures |r| == 0 || !IsWs(r[|r| - 1])
  {
    s[..|s| - TrailingWs(s)]
  }

  /** `r` is the slice of `s` that starts at `a`, and everything of `s`
      outside that slice is whitespace. */
  predicate WsFramed(s: string, a: nat, r: string) {
    && a + |r| <= |s| && r == s[a..a + |r|]
    && (forall i :: 0 <= i < a ==> IsWs(s[i]))
    && (forall i :: a + |r| <= i < |s| ==> IsWs(s[i]))
  }

  /** `s.trim()`: the slice of `s` between its leading and its trailing
      whitespace, so every interior code unit is kept. */
  function Trim(s: string): (r: string)
    ensures Trimmed(r)
    ensures exists a: nat :: WsFramed(s, a, r)
    ensures NonWs(r) == NonWs(s)
    ensures NoDoubleWs(s) ==> NoDoubleWs(r)
    ensures Trimmed(s) ==> r == s
  {
    TrimKeepsContent(s);
    TrimKeepsNoDoubleWs(s);
    TrimIsSlice(s);
    TrimEnd(TrimStart(s))
  }

  /** The trimmed string is what lies between the leading run and the
      trailing run. */
  lemma TrimIsSlice(s: string)
    ensures WsFramed(s, LeadingWs(s), TrimEnd(TrimStart(s)))
  {
    FramedOfParts(s, LeadingWs(s), TrimStart(s), TrimEnd(TrimStart(s)));
  }

  /** A prefix `r` of the suffix `t` of `s` that starts at `a` is framed by
      whitespace when what precedes `t` and what follows `r` in `t` is. */
  lemma FramedOfParts(s: string, a: nat, t: string, r: string)
    requires a <= |s| && t == s[a..]
    requires |r| <= |t| && r == t[..|r|]
    requires forall i :: 0 <= i < a ==> IsWs(s[i])
    requires forall i :: |r| <= i < |t| ==> IsWs(t[i])
    ensures WsFramed(s, a, r)
  {
    assert forall i :: a + |r| <= i < |s| ==> s[i] == t[i - a];
  }

  /** The trailing run is the only suffix of whitespace preceded by a
      non-whitespace code unit or the start. */
  lemma TrailingWsUnique(s: string, n: nat)
    requires n <= |s|
    requires forall i :: |s| - n <= i < |s| ==> IsWs(s[i])
    requires n == |s| || !IsWs(s[|s| - n - 1])
    ensures TrailingWs(s) == n
  {
  }

  /** Text after a visible code unit does not change where trimming starts. */
  lemma TrimStartConcat(x: string, m: string)
    requires LeadingWs(x) < |x|
    ensures TrimStart(x + m) == TrimStart(x) + m
  {
    LeadingWsConcat(x, m);
    DropConcat(x, m, LeadingWs(x));
  }

  /** The trailing run of `m + y` is that of `y` when the run ends inside `y`. */
  lemma TrailingWsConcat(m: string, y: string)
    requires TrailingWs(y) < |y|
    ensures TrailingWs(m + y) == TrailingWs(y)
  {
    var n := TrailingWs(y);
    var s := m + y;
    assert forall i :: |s| - n <= i < |s| ==> s[i] == y[i - |m|];
    assert s[|s| - n - 1] == y[|y| - n - 1];
    TrailingWsUnique(s, n);
  }

  /** Text before a visible code unit does not change where trimming ends. */
  lemma TrimEndConcat(m: string, y: string)
    requires TrailingWs(y) < |y|
    ensures TrimEnd(m + y) == m + TrimEnd(y)
  {
    TrailingWsConcat(m, y);
    TrimEndSameRun(m, y, TrailingWs(y));
  }

  /** Dropping `n` code units from the end of `m + y` drops them from `y`. */
  lemma DropLastConcat(m: string, y: string, n: nat)
    requires n <= |y|
    ensures (m + y)[..|m + y| - n] == m + y[..|y| - n]
  {
  }

  /** When `m + y` and `y` end in the same trailing run, `trimEnd` cuts the
      same amount from both. */
  lemma TrimEndSameRun(m: string, y: string, n: nat)
    requires n <= |y|
    requires TrailingWs(m + y) == n && TrailingWs(y) == n
    ensures TrimEnd(m + y) == m + TrimEnd(y)
  {
    DropLastConcat(m, y, n);
  }

  /** Trimming text that starts and ends with visible parts, with anything in
      between, trims the two outer parts and keeps the middle. */
  lemma TrimJoin(x: string, w: string, y: string)
    requires |x| > 0 && !IsWs(x[|x| - 1])
    requires |y| > 0 && !IsWs(y[0])
    ensures Trim(x + w + y) == Trim(x) + w + Trim(y)
  {
    TrimJoinMiddle(x, w, y);
    TrimOfVisibleEnd(x);
    TrimOfVisibleStart(y);
  }

  /** Trimming `x + w + y` trims only the front of `x` and the back of `y`. */
  lemma TrimJoinMiddle(x: string, w: string, y: string)
    requires |x| > 0 && !IsWs(x[|x| - 1])
    requires |y| > 0 && !IsWs(y[0])
    ensures TrimEnd(TrimStart(x + w + y)) == TrimStart(x) + w + TrimEnd(y)
  {
    assert LeadingWs(x) < |x|;
    assert TrailingWs(y) < |y|;
    var tx := TrimStart(x);
    calc {
      TrimEnd(TrimStart(x + w + y));
      { ConcatAssoc(x, w, y); }
      TrimEnd(TrimStart(x + (w + y)));
      { TrimStartConcat(x, w + y); }
      TrimEnd(tx + (w + y));
      { ConcatAssoc(tx, w, y); }
      TrimEnd((tx + w) + y);
      { TrimEndConcat(tx + w, y); }
      tx + w + TrimEnd(y);
    }
  }

  /** A string ending in a visible code unit is only trimmed at the front. */
  lemma TrimOfVisibleEnd(x: string)
    requires |x| > 0 && !IsWs(x[|x| - 1])
    ensures TrimEnd(TrimStart(x)) == TrimStart(x)
  {
    var tx := TrimStart(x);
    assert tx[|tx| - 1] == x[|x| - 1];
  }

  /** A string starting with a visible code unit is only trimmed at the back. */
  lemma TrimOfVisibleStart(y: string)
    requires |y| > 0 && !IsWs(y[0])
    ensures TrimStart(y) == y
  {
  }


  /** Trimming removes only whitespace. */
  lemma TrimKeepsContent(s: string)
    ensures NonWs(TrimEnd(TrimStart(s))) == NonWs(s)
  {
    var t := TrimStart(s);
    TrimStartKeepsContent(s);
    TrimEndKeepsContent(t);
  }

  lemma TrimStartKeepsContent(s: string)
    ensures NonWs(TrimStart(s)) == NonWs(s)
  {
    NonWsSkipLeading(s, |s| - |TrimStart(s)|);
  }

  lemma TrimEndKeepsContent(t: string)
    ensures NonWs(TrimEnd(t)) == NonWs(t)
  {
    NonWsSkipTrailing(t, |TrimEnd(t)|);
  }

  /** Trimming cannot create adjacent whitespace. */
  lemma TrimKeepsNoDoubleWs(s: string)
    ensures NoDoubleWs(s) ==> NoDoubleWs(TrimEnd(TrimStart(s)))
  {
    if NoDoubleWs(s) {
      var t := TrimStart(s);
      var r := TrimEnd(t);
      SliceNoDoubleWs(s, |s| - |t|, |s|);
      SliceNoDoubleWs(t, 0, |r|);
      assert t[0..|r|] == r;
    }
  }

  /** Leading whitespace contributes no visible content. */
  lemma {:induction false} NonWsSkipLeading(s: string, k: nat)
    requires k <= |s|
    requires forall i :: 0 <= i < k ==> IsWs(s[i])
    ensures NonWs(s[k..]) == NonWs(s)
    decreases k
  {
    if k > 0 {
      NonWsSkipLeading(s[1..], k - 1);
      assert s[1..][k - 1..] == s[k..];
      assert NonWs(s) == [] + NonWs(s[1..]);
    }
  }

  /** Trailing whitespace contributes no visible content. */
  lemma {:induction false} NonWsSkipTrailing(s: string, k: nat)
    requires k <= |s|
    requires forall i :: k <= i < |s| ==> IsWs(s[i])
    ensures NonWs(s[..k]) == NonWs(s)
    decreases k
  {
    if k == 0 {
      NonWsEmptyIff(s);
      assert s[..0] == [];
    } else {
      NonWsSkipTrailing(s[1..], k - 1);
      assert s[..k][1..] == s[1..][..k - 1];
      assert s[..k][0] == s[0];
    }
  }

  /** A slice of a string without adjacent whitespace has none either. */
  lemma SliceNoDoubleWs(s: string, i: nat, j: nat)
    requires i <= j <= |s|
    requires NoDoubleWs(s)
    ensures NoDoubleWs(s[i..j])
  {
    assert forall k :: 0 <= k < j - i ==> s[i..j][k] == s[i + k];
  }

  /** The whole cleanup, before truncation. */
  function Clean(s: string): (r: string)
    ensures NoDoubleWs(r)
    ensures Trimmed(r)
    ensures NonWs(r) == NonWs(s)
    ensures |r| <= |s|
  {
    CollapseKeepsContent(s);
    CollapseNoDoubleWs(s);
    Trim(Collapse(s))
  }

  /** The collapse leaves a string alone exactly when it has no two adjacent
      whitespace code units. */
  lemma {:induction false} CollapseIdentityIff(s: string)
    ensures Collapse(s) == s <==> NoDoubleWs(s)
    decreases |s|
  {
    CollapseNoDoubleWs(s);
    if NoDoubleWs(s) && |s| > 0 {
      assert NoDoubleWs(s[1..]) by {
        assert forall i :: 0 <= i < |s| - 1 ==> s[1..][i] == s[i + 1];
      }
      CollapseIdentityIff(s[1..]);
      assert LeadingWs(s) < 2;
      assert s == [s[0]] + s[1..];
    }
  }

  /** A whitespace run of two or more code units becomes exactly one space. */
  lemma CollapseRun(s: string)
    requires |s| >= 2 && AllWs(s)
    ensures Collapse(s) == " "
  {
    LeadingWsOfAllWs(s);
  }

  /** The leading run of an all-whitespace string is the whole string. */
  lemma {:induction false} LeadingWsOfAllWs(s: string)
    requires AllWs(s)
    ensures LeadingWs(s) == |s|
    decreases |s|
  {
    if |s| > 0 {
      LeadingWsOfAllWs(s[1..]);
    }
  }

  /** The leading run of `a + b` is that of `a` when the run ends inside `a`,
      or when `a` is all whitespace and `b` does not continue the run. */
  lemma {:induction false} LeadingWsConcat(a: string, b: string)
    requires LeadingWs(a) < |a| || |b| == 0 || !IsWs(b[0])
    ensures LeadingWs(a + b) == LeadingWs(a)
    decreases |a|
  {
    if |a| == 0 {
      assert a + b == b;
    } else {
      assert (a + b)[1..] == a[1..] + b;
      if IsWs(a[0]) {
        LeadingWsConcat(a[1..], b);
      }
    }
  }

  /** Two whitespace runs cannot merge across a boundary that has a
      non-whitespace code unit on at least one side. */
  predicate SeparableAt(a: string, b: string) {
    |a| == 0 || |b| == 0 || !IsWs(a[|a| - 1]) || !IsWs(b[0])
  }

  /** The collapse works piecewise on pieces whose boundary is separable. */
  lemma {:induction false} CollapseConcat(a: string, b: string)
    requires SeparableAt(a, b)
    ensures Collapse(a + b) == Collapse(a) + Collapse(b)
    decreases |a|
  {
    if |a| == 0 {
      assert a + b == b;
    } else {
      CollapseConcat(a[StepLength(a)..], b);
      CollapseConcatStep(a, b);
    }
  }

  /** One step of `CollapseConcat`: from the piecewise collapse of what
      follows the first step, to that of the whole. */
  lemma CollapseConcatStep(a: string, b: string)
    requires |a| > 0 && SeparableAt(a, b)
    requires Collapse(a[StepLength(a)..] + b) == Collapse(a[StepLength(a)..]) + Collapse(b)
    ensures Collapse(a + b) == Collapse(a) + Collapse(b)
  {
    var k := StepLength(a);
    var h := StepOutput(a);
    CollapseConcatHead(a, b);
    calc {
      Collapse(a + b);
      h + Collapse(a[k..] + b);
      h + (Collapse(a[k..]) + Collapse(b));
      { ConcatAssoc(h, Collapse(a[k..]), Collapse(b)); }
      (h + Collapse(a[k..])) + Collapse(b);
    }
  }

  /** The collapse's first step on `a + b` is the one it takes on `a`, when
      the boundary between them is separable. */
  lemma CollapseConcatHead(a: string, b: string)
    requires |a| > 0 && SeparableAt(a, b)
    ensures StepLength(a + b) == StepLength(a)
    ensures StepOutput(a + b) == StepOutput(a)
    ensures (a + b)[StepLength(a)..] == a[StepLength(a)..] + b
  {
    var n := LeadingWs(a);
    assert n < |a| || |b| == 0 || !IsWs(b[0]) by {
      if n == |a| {
        assert IsWs(a[|a| - 1]);
      }
    }
    LeadingWsConcat(a, b);
    assert (a + b)[0] == a[0];
    DropConcat(a, b, StepLength(a));
  }

  lemma DropConcat(a: string, b: string, k: nat)
    requires k <= |a|
    ensures (a + b)[k..] == a[k..] + b
  {
  }

  lemma ConcatAssoc(x: string, y: string, z: string)
    ensures x + (y + z) == (x + y) + z
  {
  }

  /** A lone whitespace code unit between two non-whitespace code units
      survives the collapse unchanged (it is not turned into a space). */
  lemma LoneWsPreserved(x: string, c: char, y: string)
    requires IsWs(c)
    requires |x| > 0 && !IsWs(x[|x| - 1])
    requires |y| > 0 && !IsWs(y[0])
    ensures Collapse(x + [c] + y) == Collapse(x) + [c] + Collapse(y)
  {
    var cy := [c] + y;
    calc {
      Collapse(x + [c] + y);
      { assert x + [c] + y == x + cy; }
      Collapse(x + cy);
      { CollapseConcat(x, cy); }
      Collapse(x) + Collapse(cy);
      { CollapseConcat([c], y); CollapseSingle(c); }
      Collapse(x) + ([c] + Collapse(y));
      { ConcatAssoc(Collapse(x), [c], Collapse(y)); }
      Collapse(x) + [c] + Collapse(y);
    }
  }

  /** The replacement a whitespace run between visible text gets: a lone
      code unit stays as it is, a longer run becomes one space. */
  function RunReplacement(w: string): string {
    if |w| == 1 then w else " "
  }

  /** The collapse keeps a visible last code unit in last place. */
  lemma CollapseKeepsLast(s: string)
    requires |s| > 0 && !IsWs(s[|s| - 1])
    ensures |Collapse(s)| > 0 && Collapse(s)[|Collapse(s)| - 1] == s[|s| - 1]
  {
    var c := s[|s| - 1];
    var p := s[..|s| - 1];
    assert s == p + [c];
    CollapseConcat(p, [c]);
    CollapseSingle(c);
  }

  /** A whitespace run between two visible code units is replaced on its
      own, and the text on either side is collapsed independently. */
  lemma CollapseAroundWs(x: string, w: string, y: string)
    requires AllWs(w) && |w| >= 1
    requires |x| > 0 && !IsWs(x[|x| - 1])
    requires |y| > 0 && !IsWs(y[0])
    ensures Collapse(x + w + y) == Collapse(x) + RunReplacement(w) + Collapse(y)
  {
    if |w| == 1 {
      assert w == [w[0]];
      CollapseSingle(w[0]);
    } else {
      CollapseRun(w);
    }
    assert x + w + y == x + (w + y);
    CollapseConcat(x, w + y);
    CollapseConcat(w, y);
    ConcatAssoc(Collapse(x), RunReplacement(w), Collapse(y));
  }

  /** The whole cleanup of two visible pieces of text joined by a whitespace
      run is the cleanup of each piece, joined by the run's replacement. */
  lemma CleanAroundWs(x: string, w: string, y: string)
    requires AllWs(w) && |w| >= 1
    requires |x| > 0 && !IsWs(x[|x| - 1])
    requires |y| > 0 && !IsWs(y[0])
    ensures Clean(x + w + y) == Clean(x) + RunReplacement(w) + Clean(y)
  {
    CollapseAroundWs(x, w, y);
    CollapseKeepsLast(x);
    TrimJoin(Collapse(x), RunReplacement(w), Collapse(y));
  }

  /** A single code unit, whitespace or not, is left alone. */
  lemma CollapseSingle(c: char)
    ensures Collapse([c]) == [c]
  {
    assert [c][1..] == [];
    assert LeadingWs([c]) < 2;
  }

  /** A string that already has the cleaned shape is left alone. */
  lemma CleanKeepsCleanText(s: string)
    requires NoDoubleWs(s) && Trimmed(s)
    ensures Clean(s) == s
  {
    CollapseIdentityIff(s);
  }

  /** Cleaning a cleaned string changes nothing. */
  lemma CleanIdempotent(s: string)
    ensures Clean(Clean(s)) == Clean(s)
  {
    CleanKeepsCleanText(Clean(s));
  }

  /** Cleanup yields the empty string exactly when the input is all
      whitespace (including the empty input). */
  lemma CleanEmptyIff(s: string)
    ensures Clean(s) == [] <==> AllWs(s)
  {
    NonWsEmptyIff(s);
    var r := Clean(s);
    if |r| > 0 {
      assert NonWs(r) != [] by {
        assert r == [r[0]] + r[1..];
        assert !IsWs(r[0]);
      }
    }
  }
}
