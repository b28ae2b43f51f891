/**
  Substring occurrence and Go's `strings.ReplaceAll`, restricted to a
  non-empty pattern (the only way the rule catalogue calls it: with the fixed
  placeholder tokens `{{resource}}` and `{{field}}`).
 */
module TextReplace {

  /** `t` is a prefix of `s`. */
  predicate HasPrefix(s: string, t: string) {
    |t| <= |s| && s[..|t|] == t
  }

  /** `t` occurs in `s` at some position. */
  predicate Contains(s: string, t: string)
    decreases |s|
  {
    HasPrefix(s, t) || (|s| > 0 && Contains(s[1..], t))
  }

  /**
    `strings.ReplaceAll(s, pat, rep)` for a non-empty `pat`: the leftmost
    occurrence of `pat` is replaced, scanning resumes right after it, and the
    inserted `rep` is never rescanned.
   */
  function ReplaceAll(s: string, pat: string, rep: string): string
    requires |pat| > 0
    decreases |s|
  {
    if |s| < |pat| then s
    else if s[..|pat|] == pat then rep + ReplaceAll(s[|pat|..], pat, rep)
    else [s[0]] + ReplaceAll(s[1..], pat, rep)
  }

  /** A string shorter than `t` does not contain it. */
  lemma {:induction false} ShortAbsent(s: string, t: string)
    requires |s| < |t|
    ensures !Contains(s, t)
    decreases |s|
  {
    if |s| > 0 {
      ShortAbsent(s[1..], t);
    }
  }

  /** An occurrence in a suffix is an occurrence in the whole string. */
  lemma {:induction false} ContainsSuffix(s: string, k: nat, t: string)
    requires k <= |s|
    ensures Contains(s[k..], t) ==> Contains(s, t)
    decreases k
  {
    if k > 0 {
      assert s[1..][k - 1..] == s[k..];
      ContainsSuffix(s[1..], k - 1, t);
    }
  }

  /** An occurrence in a prefix is an occurrence in the whole string. */
  lemma {:induction false} ContainsPrefix(a: string, b: string, t: string)
    requires Contains(a, t)
    ensures Contains(a + b, t)
    decreases |a|
  {
    if HasPrefix(a, t) {
      assert (a + b)[..|t|] == a[..|t|];
    } else {
      assert (a + b)[1..] == a[1..] + b;
      ContainsPrefix(a[1..], b, t);
    }
  }

  /**
    When a character that `t` does not use sits at the seam of `a + b`, an
    occurrence of `t` in `a + b` lies wholly inside `a` or wholly inside `b`.
   */
  lemma {:induction false} ContainsConcat(a: string, b: string, t: string)
    requires |t| > 0
    requires (|a| > 0 && a[|a| - 1] !in t) || (|b| > 0 && b[0] !in t)
    ensures Contains(a + b, t) <==> Contains(a, t) || Contains(b, t)
    decreases |a|
  {
    if Contains(a, t) {
      ContainsPrefix(a, b, t);
    }
    if Contains(b, t) {
      assert (a + b)[|a|..] == b;
      ContainsSuffix(a + b, |a|, t);
    }
    if a == [] {
      assert a + b == b;
    } else if Contains(a + b, t) {
      if HasPrefix(a + b, t) {
        if |t| <= |a| {
          assert a[..|t|] == (a + b)[..|t|];
        }
      } else {
        assert (a + b)[1..] == a[1..] + b;
        if |a| == 1 {
          assert a[1..] + b == b;
        } else {
          ContainsConcat(a[1..], b, t);
        }
      }
    }
  }

  /** Replacing a pattern that does not occur changes nothing. */
  lemma {:induction false} AbsentIsFixed(s: string, pat: string, rep: string)
    requires |pat| > 0
    requires !Contains(s, pat)
    ensures ReplaceAll(s, pat, rep) == s
    decreases |s|
  {
    if |s| >= |pat| {
      AbsentIsFixed(s[1..], pat, rep);
    }
  }

  /**
    The first `k` characters of the result either copy those of `s` (and the
    whole result is `s` when `k` covers it), or a replacement starts among
    them.
   */
  lemma {:induction false} ReplaceAllFront(s: string, pat: string, rep: string, k: nat)
    requires |pat| > 0 && |rep| > 0 && k <= |s|
    ensures var r := ReplaceAll(s, pat, rep);
      (k <= |r| && r[..k] == s[..k] && (k == |s| ==> r == s))
      || (exists j :: 0 <= j < k && j < |r| && r[j] == rep[0])
    decreases k
  {
    var r := ReplaceAll(s, pat, rep);
    if k == 0 || |s| < |pat| {
    } else if s[..|pat|] == pat {
      assert r[0] == rep[0];
    } else {
      var r' := ReplaceAll(s[1..], pat, rep);
      assert r == [s[0]] + r';
      ReplaceAllFront(s[1..], pat, rep, k - 1);
      if k - 1 <= |r'| && r'[..k - 1] == s[1..][..k - 1] && (k - 1 == |s[1..]| ==> r' == s[1..]) {
        assert r[..k] == [s[0]] + r'[..k - 1];
        assert s[..k] == [s[0]] + s[1..][..k - 1];
        assert k == |s| ==> s == [s[0]] + s[1..];
      } else {
        var j :| 0 <= j < k - 1 && j < |r'| && r'[j] == rep[0];
        assert r[j + 1] == rep[0];
      }
    }
  }

  /**
    If the replacement text is fenced by characters the pattern does not use
    and does not contain the pattern, no occurrence of the pattern survives.
   */
  lemma {:induction false} ReplaceRemovesPattern(s: string, pat: string, rep: string)
    requires |pat| > 0 && |rep| > 0
    requires rep[0] !in pat && rep[|rep| - 1] !in pat
    requires !Contains(rep, pat)
    ensures !Contains(ReplaceAll(s, pat, rep), pat)
    decreases |s|
  {
    var r := ReplaceAll(s, pat, rep);
    if |s| < |pat| {
      ShortAbsent(s, pat);
    } else if s[..|pat|] == pat {
      var y := ReplaceAll(s[|pat|..], pat, rep);
      ReplaceRemovesPattern(s[|pat|..], pat, rep);
      ContainsConcat(rep, y, pat);
    } else {
      var x := ReplaceAll(s[1..], pat, rep);
      assert r == [s[0]] + x;
      assert r[1..] == x;
      ReplaceRemovesPattern(s[1..], pat, rep);
      ReplaceAllFront(s[1..], pat, rep, |pat| - 1);
      if |pat| - 1 <= |x| && x[..|pat| - 1] == s[1..][..|pat| - 1] {
        assert s[..|pat|] == r[..|pat|];
      } else {
        var j :| 0 <= j < |pat| - 1 && j < |x| && x[j] == rep[0];
        assert r[j + 1] == rep[0];
      }
    }
  }

  /**
    Replacing `pat` by a text fenced by characters `t` does not use, and free
    of `t`, creates no occurrence of `t` in a string free of `t`.
   */
  lemma {:induction false} ReplaceKeepsAbsent(s: string, pat: string, rep: string, t: string)
    requires |pat| > 0 && |rep| > 0 && |t| > 0
    requires rep[0] !in t && rep[|rep| - 1] !in t
    requires !Contains(rep, t) && !Contains(s, t)
    ensures !Contains(ReplaceAll(s, pat, rep), t)
    decreases |s|
  {
    var r := ReplaceAll(s, pat, rep);
    if |s| < |pat| {
    } else if s[..|pat|] == pat {
      var y := ReplaceAll(s[|pat|..], pat, rep);
      ContainsSuffix(s, |pat|, t);
      ReplaceKeepsAbsent(s[|pat|..], pat, rep, t);
      ContainsConcat(rep, y, t);
    } else {
      var x := ReplaceAll(s[1..], pat, rep);
      assert r == [s[0]] + x;
      assert r[1..] == x;
      ReplaceKeepsAbsent(s[1..], pat, rep, t);
      var k := if |t| - 1 <= |s| - 1 then |t| - 1 else |s| - 1;
      ReplaceAllFront(s[1..], pat, rep, k);
      if k <= |x| && x[..k] == s[1..][..k] && (k == |s[1..]| ==> x == s[1..]) {
        if k == |t| - 1 {
          assert s[..|t|] == r[..|t|];
        } else {
          assert s == [s[0]] + s[1..];
        }
      } else {
        var j :| 0 <= j < k && j < |x| && x[j] == rep[0];
        assert r[j + 1] == rep[0];
      }
    }
  }

  /** A string lacking the first character of `t` does not contain `t`. */
  lemma {:induction false} FirstCharAbsent(s: string, t: string)
    requires |t| > 0 && t[0] !in s
    ensures !Contains(s, t)
    decreases |s|
  {
    if |s| > 0 {
      FirstCharAbsent(s[1..], t);
    }
  }

  /** An occurrence at the very front is replaced and the scan goes on behind it. */
  lemma ReplaceAtFront(pat: string, rest: string, rep: string)
    requires |pat| > 0
    ensures ReplaceAll(pat + rest, pat, rep) == rep + ReplaceAll(rest, pat, rep)
  {
    assert (pat + rest)[..|pat|] == pat;
    assert (pat + rest)[|pat|..] == rest;
  }

  /** An occurrence of `pat` cannot start in `a` and run over a character it does not use. */
  lemma SeamBlocksPrefix(a: string, b: string, pat: string)
    requires (|a| > 0 && a[|a| - 1] !in pat) || (|b| > 0 && b[0] !in pat)
    requires |a| < |pat| <= |a + b|
    ensures (a + b)[..|pat|] != pat
  {
    if |a| > 0 && a[|a| - 1] !in pat {
      assert (a + b)[..|pat|][|a| - 1] == a[|a| - 1];
    } else {
      assert (a + b)[..|pat|][|a|] == b[0];
    }
  }

  /**
    Across a seam that holds a character the pattern does not use, replacing
    in `a + b` is replacing in `a` and in `b` separately.
   */
  lemma {:induction false} ReplaceAllConcat(a: string, b: string, pat: string, rep: string)
    requires |pat| > 0
    requires (|a| > 0 && a[|a| - 1] !in pat) || (|b| > 0 && b[0] !in pat)
    ensures ReplaceAll(a + b, pat, rep) == ReplaceAll(a, pat, rep) + ReplaceAll(b, pat, rep)
    decreases |a|
  {
    if a == [] {
      assert a + b == b;
    } else if |a + b| < |pat| {
    } else if (a + b)[..|pat|] == pat {
      if |a| < |pat| {
        SeamBlocksPrefix(a, b, pat);
      }
      AtMatchSides(a, b, pat, rep);
      ReplaceAllConcatAtMatch(a, b, pat, rep);
    } else {
      NoMatchSides(a, b, pat, rep);
      ReplaceAllConcatNoMatch(a, b, pat, rep);
    }
  }

  /** If `whole` is `r + rest` and `rest` splits as `part + other`, where `left` is `r + part`, then `whole` is `left + other`. */
  lemma Regroup(whole: string, rest: string, left: string, part: string, other: string, r: string)
    requires whole == r + rest && left == r + part && rest == part + other
    ensures whole == left + other
  {
  }

  /** Cutting `a + b` inside `a`. */
  lemma SliceConcat(a: string, b: string, k: nat)
    requires k <= |a|
    ensures (a + b)[..k] == a[..k] && (a + b)[k..] == a[k..] + b
  {
  }

  /** One step of the scan when an occurrence starts at the front. */
  lemma UnfoldAtMatch(s: string, pat: string, rep: string)
    requires 0 < |pat| <= |s| && s[..|pat|] == pat
    ensures ReplaceAll(s, pat, rep) == rep + ReplaceAll(s[|pat|..], pat, rep)
  {
  }

  /** One step of the scan when no occurrence starts at the front. */
  lemma UnfoldNoMatch(s: string, pat: string, rep: string)
    requires 0 < |pat| <= |s| && s[..|pat|] != pat
    ensures ReplaceAll(s, pat, rep) == [s[0]] + ReplaceAll(s[1..], pat, rep)
  {
  }

  /** Both sides of ReplaceAllConcat after the scan consumed an occurrence at the front of `a`. */
  lemma AtMatchSides(a: string, b: string, pat: string, rep: string)
    requires 0 < |pat| <= |a| && a[..|pat|] == pat
    ensures ReplaceAll(a + b, pat, rep) == rep + ReplaceAll(a[|pat|..] + b, pat, rep)
    ensures ReplaceAll(a, pat, rep) == rep + ReplaceAll(a[|pat|..], pat, rep)
  {
    SliceConcat(a, b, |pat|);
    UnfoldAtMatch(a + b, pat, rep);
    UnfoldAtMatch(a, pat, rep);
  }

  /** Both sides of ReplaceAllConcat after the scan copied the first character of `a`. */
  lemma NoMatchSides(a: string, b: string, pat: string, rep: string)
    requires 0 < |pat| <= |a + b| && |a| > 0 && (a + b)[..|pat|] != pat
    ensures ReplaceAll(a + b, pat, rep) == [a[0]] + ReplaceAll(a[1..] + b, pat, rep)
    ensures ReplaceAll(a, pat, rep) == [a[0]] + ReplaceAll(a[1..], pat, rep)
  {
    SliceConcat(a, b, 1);
    assert (a + b)[0] == a[0];
    UnfoldNoMatch(a + b, pat, rep);
    if |a| >= |pat| {
      SliceConcat(a, b, |pat|);
      UnfoldNoMatch(a, pat, rep);
    } else {
      assert ReplaceAll(a[1..], pat, rep) == a[1..];
      assert ReplaceAll(a, pat, rep) == a == [a[0]] + a[1..];
    }
  }

  /** The step of ReplaceAllConcat where an occurrence starts at the front of `a`. */
  lemma {:induction false} ReplaceAllConcatAtMatch(a: string, b: string, pat: string, rep: string)
    requires 0 < |pat| <= |a|
    requires (|a| > 0 && a[|a| - 1] !in pat) || (|b| > 0 && b[0] !in pat)
    requires ReplaceAll(a + b, pat, rep) == rep + ReplaceAll(a[|pat|..] + b, pat, rep)
    requires ReplaceAll(a, pat, rep) == rep + ReplaceAll(a[|pat|..], pat, rep)
    ensures ReplaceAll(a + b, pat, rep) == ReplaceAll(a, pat, rep) + ReplaceAll(b, pat, rep)
    decreases |a|, 0
  {
    var a' := a[|pat|..];
    if a' == [] {
      assert a' + b == b;
      assert ReplaceAll(a', pat, rep) == a';
    } else {
      assert a'[|a'| - 1] == a[|a| - 1];
      ReplaceAllConcat(a', b, pat, rep);
    }
    Regroup(ReplaceAll(a + b, pat, rep), ReplaceAll(a' + b, pat, rep), ReplaceAll(a, pat, rep),
            ReplaceAll(a', pat, rep), ReplaceAll(b, pat, rep), rep);
  }

  /** The step of ReplaceAllConcat where no occurrence starts at the front of `a + b`. */
  lemma {:induction false} ReplaceAllConcatNoMatch(a: string, b: string, pat: string, rep: string)
    requires 0 < |pat| && |a| > 0
    requires (|a| > 0 && a[|a| - 1] !in pat) || (|b| > 0 && b[0] !in pat)
    requires ReplaceAll(a + b, pat, rep) == [a[0]] + ReplaceAll(a[1..] + b, pat, rep)
    requires ReplaceAll(a, pat, rep) == [a[0]] + ReplaceAll(a[1..], pat, rep)
    ensures ReplaceAll(a + b, pat, rep) == ReplaceAll(a, pat, rep) + ReplaceAll(b, pat, rep)
    decreases |a|, 0
  {
    var a' := a[1..];
    if a' == [] {
      assert a' + b == b;
      assert ReplaceAll(a', pat, rep) == a';
    } else {
      assert a'[|a'| - 1] == a[|a| - 1];
      ReplaceAllConcat(a', b, pat, rep);
    }
    Regroup(ReplaceAll(a + b, pat, rep), ReplaceAll(a' + b, pat, rep), ReplaceAll(a, pat, rep),
            ReplaceAll(a', pat, rep), ReplaceAll(b, pat, rep), [a[0]]);
  }
}
