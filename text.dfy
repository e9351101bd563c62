/**
  The handful of Kotlin string operations the core relies on, as functions
  on `string` (a sequence of characters).
 */
module Text {
  import opened Options

  predicate StartsWith(s: string, prefix: string) {
    |prefix| <= |s| && s[..|prefix|] == prefix
  }

  predicate EndsWith(s: string, suffix: string) {
    |suffix| <= |s| && s[|s| - |suffix|..] == suffix
  }

  lemma PrefixOfConcat(a: string, b: string)
    ensures StartsWith(a + b, a) && EndsWith(a + b, b)
  {
    assert (a + b)[..|a|] == a;
    assert (a + b)[|a|..] == b;
  }

  lemma PrefixAndSuffix(a: string, b: string, c: string, d: string)
    ensures StartsWith(a + b + c + d, a) && EndsWith(a + b + c + d, c + d)
  {
    assert a + b + c + d == a + (b + c + d);
    PrefixOfConcat(a, b + c + d);
    assert a + b + c + d == (a + b) + (c + d);
    PrefixOfConcat(a + b, c + d);
  }

  lemma StartsWithTrans(s: string, t: string, u: string)
    requires StartsWith(s, t) && StartsWith(t, u)
    ensures StartsWith(s, u)
  {
    assert s[..|u|] == s[..|t|][..|u|];
  }

  /** `p` occurs in `s` starting at index `i`. */
  predicate OccursAt(s: string, p: string, i: int) {
    0 <= i && i + |p| <= |s| && s[i..i + |p|] == p
  }

  predicate Occurs(s: string, p: string) {
    exists i :: 0 <= i <= |s| && OccursAt(s, p, i)
  }

  /** The text before the first `c`, or all of `s` when there is none:
      Kotlin's `substringBefore(c)`, and `split(c).first()`. */
  function Before(s: string, c: char): (r: string)
    ensures StartsWith(s, r) && c !in r
    ensures |r| < |s| ==> s[|r|] == c
    decreases |s|
  {
    if s == [] then []
    else if s[0] == c then []
    else [s[0]] + Before(s[1..], c)
  }

  /** The longest prefix of `s` free of the characters in `stops`. */
  function Span(s: string, stops: set<char>): (r: string)
    ensures StartsWith(s, r)
    ensures forall i :: 0 <= i < |r| ==> r[i] !in stops
    ensures |r| < |s| ==> s[|r|] in stops
    decreases |s|
  {
    if s == [] || s[0] in stops then [] else [s[0]] + Span(s[1..], stops)
  }

  /** The text after the first `c`, or None when there is none. */
  function After(s: string, c: char): (r: Option<string>)
    ensures r.None? <==> c !in s
    ensures r.Some? ==> s == Before(s, c) + [c] + r.value
    decreases |s|
  {
    if s == [] then None
    else if s[0] == c then Some(s[1..])
    else match After(s[1..], c)
      case None => None
      case Some(t) => Some(t)
  }

  /** What follows the first `c` is a suffix of the string. */
  lemma AfterIsSuffix(s: string, c: char)
    requires After(s, c).Some?
    ensures EndsWith(s, After(s, c).value)
  {
    var t := After(s, c).value;
    var a := Before(s, c) + [c];
    assert s == a + t;
    assert s[|a|..] == t;
  }

  lemma EndsWithTrans(s: string, t: string, u: string)
    requires EndsWith(s, t) && EndsWith(t, u)
    ensures EndsWith(s, u)
  {
    assert s[|s| - |u|..] == s[|s| - |t|..][|t| - |u|..];
  }

  /** Before and After split a string at its first `c`. */
  lemma {:induction false} SplitAtFirst(a: string, c: char, b: string)
    requires c !in a
    ensures Before(a + [c] + b, c) == a
    ensures After(a + [c] + b, c) == Some(b)
  {
    if a != [] {
      assert (a + [c] + b)[1..] == a[1..] + [c] + b;
      SplitAtFirst(a[1..], c, b);
    }
  }

  /** The text after the last `c`, or all of `s` when there is none. */
  function AfterLast(s: string, c: char): (r: string)
    ensures c !in r && EndsWith(s, r)
    decreases |s|
  {
    if s == [] then []
    else if s[|s| - 1] == c then []
    else
      var t := AfterLast(s[..|s| - 1], c);
      assert s[|s| - 1 - |t|..] == s[..|s| - 1][|s| - 1 - |t|..] + [s[|s| - 1]];
      t + [s[|s| - 1]]
  }

  /** The last `c` of `a + [c] + t` is the one before `t` when `t` has none. */
  lemma {:induction false} AfterLastSplit(a: string, c: char, t: string)
    requires c !in t
    ensures AfterLast(a + [c] + t, c) == t
    decreases |t|
  {
    if t == [] {
      assert a + [c] + t == a + [c];
    } else {
      var n := |t| - 1;
      assert (a + [c] + t)[..|a + [c] + t| - 1] == a + [c] + t[..n];
      AfterLastSplit(a, c, t[..n]);
      assert t[..n] + [t[n]] == t;
    }
  }

  /** Kotlin's `replace(p, r)` on strings: every occurrence of `p`, taken
      left to right without overlap, is replaced by `r`. */
  function ReplaceAll(s: string, p: string, r: string): string
    requires |p| > 0
    decreases |s|
  {
    if |s| < |p| then s
    else if s[..|p|] == p then r + ReplaceAll(s[|p|..], p, r)
    else [s[0]] + ReplaceAll(s[1..], p, r)
  }

  /** Replacing a pattern that does not occur changes nothing. */
  lemma {:induction false} ReplaceAllAbsent(s: string, p: string, r: string)
    requires |p| > 0 && !Occurs(s, p)
    ensures ReplaceAll(s, p, r) == s
    decreases |s|
  {
    if |s| >= |p| {
      assert !OccursAt(s, p, 0);
      forall i | OccursAt(s[1..], p, i) ensures OccursAt(s, p, i + 1) {
        assert s[1..][i..i + |p|] == s[i + 1..i + 1 + |p|];
      }
      ReplaceAllAbsent(s[1..], p, r);
    }
  }

  /** No occurrence of `p` in `a + b` starts in `a` and ends in `b`. */
  ghost predicate NoStraddle(a: string, b: string, p: string) {
    forall i :: 0 <= i < |a| < i + |p| ==> !OccursAt(a + b, p, i)
  }

  /** Dropping a prefix of `a` keeps the boundary uncrossed. */
  lemma NoStraddleTail(a: string, b: string, p: string, k: int)
    requires 0 < k <= |a| && NoStraddle(a, b, p)
    ensures NoStraddle(a[k..], b, p)
  {
    var s, t := a + b, a[k..] + b;
    assert t == s[k..];
    forall i | 0 <= i < |a[k..]| < i + |p| ensures !OccursAt(t, p, i) {
      assert !OccursAt(s, p, i + k);
      if i + |p| <= |t| {
        assert t[i..i + |p|] == s[i + k..i + k + |p|];
      }
    }
  }

  /** Replacement works piecewise across a boundary that no occurrence
      crosses. */
  lemma {:induction false} ReplaceAllConcat(a: string, b: string, p: string, r: string)
    requires |p| > 0 && NoStraddle(a, b, p)
    ensures ReplaceAll(a + b, p, r) == ReplaceAll(a, p, r) + ReplaceAll(b, p, r)
    decreases |a|
  {
    var s := a + b;
    if a == [] {
      assert s == b;
    } else if |s| < |p| {
      ReplaceAllAbsentShort(a, p, r);
      ReplaceAllAbsentShort(b, p, r);
    } else if s[..|p|] == p {
      assert OccursAt(s, p, 0);
      assert |p| <= |a|;
      assert a[..|p|] == p;
      assert s[|p|..] == a[|p|..] + b;
      NoStraddleTail(a, b, p, |p|);
      ReplaceAllConcat(a[|p|..], b, p, r);
    } else {
      assert s[1..] == a[1..] + b;
      NoStraddleTail(a, b, p, 1);
      ReplaceAllConcat(a[1..], b, p, r);
      if |a| < |p| {
        ReplaceAllAbsentShort(a[1..], p, r);
      } else {
        assert a[..|p|] == s[..|p|];
      }
    }
  }

  /** A string shorter than the pattern is left as it is. */
  lemma ReplaceAllAbsentShort(s: string, p: string, r: string)
    requires 0 < |p| && |s| < |p|
    ensures ReplaceAll(s, p, r) == s
  {
  }

  /** A first character that does not start the pattern is copied. */
  lemma ReplaceAllFirst(a: string, t: string, p: string, r: string)
    requires |p| > 0 && a != [] && a[0] != p[0]
    ensures ReplaceAll(a + t, p, r) == [a[0]] + ReplaceAll(a[1..] + t, p, r)
  {
    var s := a + t;
    assert s[1..] == a[1..] + t;
    if |s| >= |p| {
      assert s[..|p|][0] == a[0];
    }
  }

  /** No occurrence starts inside a prefix lacking the pattern's first
      character, so the prefix is copied through. */
  lemma {:induction false} ReplaceAllSkip(a: string, t: string, p: string, r: string)
    requires |p| > 0 && p[0] !in a
    ensures ReplaceAll(a + t, p, r) == a + ReplaceAll(t, p, r)
    decreases |a|
  {
    if a == [] {
      assert a + t == t;
    } else {
      ReplaceAllFirst(a, t, p, r);
      ReplaceAllSkip(a[1..], t, p, r);
      assert a == [a[0]] + a[1..];
    }
  }

  /** An occurrence at the start is replaced. */
  lemma ReplaceAllHit(t: string, p: string, r: string)
    requires |p| > 0
    ensures ReplaceAll(p + t, p, r) == r + ReplaceAll(t, p, r)
  {
    assert (p + t)[..|p|] == p && (p + t)[|p|..] == t;
  }

  /** A string lacking one of the pattern's characters has no occurrence. */
  lemma AbsentByChar(s: string, p: string, c: char)
    requires c in p && c !in s
    ensures !Occurs(s, p)
  {
    forall i | 0 <= i <= |s| ensures !OccursAt(s, p, i) {
      if i + |p| <= |s| {
        var w := s[i..i + |p|];
        assert forall k :: 0 <= k < |w| ==> w[k] == s[i + k];
        assert c !in w;
      }
    }
  }

  /** A boundary after a character the pattern lacks is never straddled. */
  lemma NoStraddleByLast(a: string, b: string, p: string)
    requires a != [] && a[|a| - 1] !in p
    ensures NoStraddle(a, b, p)
  {
    forall i | 0 <= i < |a| < i + |p| ensures !OccursAt(a + b, p, i) {
      if i + |p| <= |a + b| {
        var w := (a + b)[i..i + |p|];
        assert w[|a| - 1 - i] == a[|a| - 1];
        assert a[|a| - 1] in w;
      }
    }
  }

  /** The text before and after the last `c`, or None when there is none. */
  function SplitLast(s: string, c: char): (r: Option<(string, string)>)
    ensures r.None? <==> c !in s
    ensures r.Some? ==> s == r.value.0 + [c] + r.value.1 && c !in r.value.1
    decreases |s|
  {
    if s == [] then None
    else
      var n := |s| - 1;
      assert s == s[..n] + [s[n]];
      if s[n] == c then Some((s[..n], []))
      else
        match SplitLast(s[..n], c)
        case None => None
        case Some((a, t)) => Some((a, t + [s[n]]))
  }

  /** A string splits around its last `c` in only one way. */
  lemma LastSplitUnique(s: string, c: char, a: string, t: string, a': string, t': string)
    requires s == a + [c] + t && c !in t
    requires s == a' + [c] + t' && c !in t'
    ensures a == a' && t == t'
  {
    assert |a'| == |a| by {
      assert s[|a|] == c && s[|a'|] == c;
      assert forall k :: |a| < k < |s| ==> s[k] != c by {
        forall k | |a| < k < |s| ensures s[k] != c { assert s[k] == t[k - |a| - 1]; }
      }
      assert forall k :: |a'| < k < |s| ==> s[k] != c by {
        forall k | |a'| < k < |s| ensures s[k] != c { assert s[k] == t'[k - |a'| - 1]; }
      }
    }
    assert a' == s[..|a|] == a;
    assert t' == s[|a| + 1..] == t;
  }

  /** Splitting at the last `c` gives back the two parts around it. */
  lemma SplitLastOf(a: string, c: char, t: string)
    requires c !in t
    ensures SplitLast(a + [c] + t, c) == Some((a, t))
  {
    var s := a + [c] + t;
    assert s[|a|] == c;
    var r := SplitLast(s, c).value;
    LastSplitUnique(s, c, a, t, r.0, r.1);
  }


  /** The pieces written one after another. */
  function Join(parts: seq<string>): string
    decreases |parts|
  {
    if parts == [] then "" else parts[0] + Join(parts[1..])
  }

  /** Joining two lists of pieces. */
  lemma {:induction false} JoinAppend(xs: seq<string>, ys: seq<string>)
    ensures Join(xs + ys) == Join(xs) + Join(ys)
    decreases |xs|
  {
    if xs == [] {
      assert xs + ys == ys;
    } else {
      assert (xs + ys)[1..] == xs[1..] + ys;
      JoinAppend(xs[1..], ys);
    }
  }

  /** Joining a first piece and the rest. */
  lemma JoinCons(x: string, rest: seq<string>)
    ensures Join([x] + rest) == x + Join(rest)
  {
    assert ([x] + rest)[1..] == rest;
  }

  /** Joining three pieces. */
  lemma Join3(a0: string, a1: string, a2: string)
    ensures Join([a0, a1, a2]) == a0 + (a1 + a2)
  {
    JoinCons(a2, []);
    assert [a2] + [] == [a2];
    JoinCons(a1, [a2]);
    assert [a1] + [a2] == [a1, a2];
    JoinCons(a0, [a1, a2]);
    assert [a0] + [a1, a2] == [a0, a1, a2];
  }

  /** Joining twelve pieces. */
  lemma Join12(a0: string, a1: string, a2: string, a3: string, a4: string, a5: string,
               a6: string, a7: string, a8: string, a9: string, a10: string, a11: string)
    ensures Join([a0, a1, a2, a3, a4, a5, a6, a7, a8, a9, a10, a11])
         == a0 + (a1 + (a2 + (a3 + (a4 + (a5 + (a6 + (a7 + (a8 + (a9 + (a10 + a11))))))))))
  {
    var x, y, z, w := [a0, a1, a2], [a3, a4, a5], [a6, a7, a8], [a9, a10, a11];
    assert [a0, a1, a2, a3, a4, a5, a6, a7, a8, a9, a10, a11] == x + (y + (z + w));
    JoinAppend(z, w);
    JoinAppend(y, z + w);
    JoinAppend(x, y + (z + w));
    Join3(a0, a1, a2);
    Join3(a3, a4, a5);
    Join3(a6, a7, a8);
    Join3(a9, a10, a11);
  }

  /** A character none of the pieces has is not in their join. */
  lemma {:induction false} JoinLacks(parts: seq<string>, c: char)
    requires forall i :: 0 <= i < |parts| ==> c !in parts[i]
    ensures c !in Join(parts)
    decreases |parts|
  {
    if parts != [] {
      JoinLacks(parts[1..], c);
    }
  }

  /** How a piece fares when `p` is replaced in a join of pieces, `c` being
      one of `p`'s characters: it is an occurrence of `p` and turns into `r`,
      or it is copied, because no occurrence can start in it (it lacks `p`'s
      first character), or because none can touch it (it lacks `c` and ends
      in a character `p` lacks), or because the rest of the join from it on
      lacks `c`. */
  ghost predicate PieceRewrite(parts: seq<string>, out: seq<string>, i: int, p: string, r: string, c: char)
    requires |p| > 0 && 0 <= i < |parts| == |out|
  {
    || (parts[i] == p && out[i] == r)
    || (out[i] == parts[i]
        && (|| p[0] !in parts[i]
            || (c !in parts[i] && parts[i] != [] && parts[i][|parts[i]| - 1] !in p)
            || (forall j :: i <= j < |parts| ==> c !in parts[j])))
  }

  /** Replacement in a join of pieces goes piece by piece. */
  lemma {:induction false} ReplaceAllJoin(parts: seq<string>, out: seq<string>, p: string, r: string, c: char)
    requires |p| > 0 && c in p && |out| == |parts|
    requires forall i :: 0 <= i < |parts| ==> PieceRewrite(parts, out, i, p, r, c)
    ensures ReplaceAll(Join(parts), p, r) == Join(out)
    decreases |parts|
  {
    if parts != [] {
      var t := Join(parts[1..]);
      if forall j :: 0 <= j < |parts| ==> c !in parts[j] {
        JoinLacks(parts, c);
        AbsentByChar(Join(parts), p, c);
        ReplaceAllAbsent(Join(parts), p, r);
        forall j | 0 <= j < |parts| ensures out[j] == parts[j] {
          assert c !in parts[j] && c in p;
          assert parts[j] != p;
          assert PieceRewrite(parts, out, j, p, r, c);
        }
        assert out == parts;
      } else {
        forall i | 0 <= i < |parts| - 1
          ensures PieceRewrite(parts[1..], out[1..], i, p, r, c)
        {
          assert PieceRewrite(parts, out, i + 1, p, r, c);
          assert parts[1..][i..] == parts[i + 1..];
        }
        ReplaceAllJoin(parts[1..], out[1..], p, r, c);
        assert PieceRewrite(parts, out, 0, p, r, c);
        if parts[0] == p && out[0] == r {
          ReplaceAllHit(t, p, r);
        } else if p[0] !in parts[0] {
          ReplaceAllSkip(parts[0], t, p, r);
        } else {
          AbsentByChar(parts[0], p, c);
          ReplaceAllAbsent(parts[0], p, r);
          NoStraddleByLast(parts[0], t, p);
          ReplaceAllConcat(parts[0], t, p, r);
        }
      }
    }
  }
}
