/**
 * SQLite's `LIKE` operator with its default settings, as the stores use it: `%` in the
 * pattern matches any run of characters (possibly empty), `_` matches exactly one
 * character, and every other character matches itself up to ASCII case (SQLite does not
 * fold case outside ASCII). There is no `ESCAPE` clause in any of the queries.
 */
module SqlLike {

  import opened Strings

  predicate NoWildcards(p: string) {
    forall i :: 0 <= i < |p| ==> p[i] != '%' && p[i] != '_'
  }

  /** `s LIKE p`. */
  predicate Like(s: string, p: string)
    decreases |p| + |s|
  {
    if p == [] then s == []
    else if p[0] == '%' then Like(s, p[1..]) || (s != [] && Like(s[1..], p))
    else s != [] && (p[0] == '_' || AsciiLower(p[0]) == AsciiLower(s[0])) && Like(s[1..], p[1..])
  }

  lemma FoldTail(s: string)
    requires s != []
    ensures AsciiLowerString(s[1..]) == AsciiLowerString(s)[1..]
  {
  }

  /** A pattern without wildcards matches exactly the strings equal to it up to ASCII case. */
  lemma {:induction false} LikeLiteral(s: string, p: string)
    requires NoWildcards(p)
    ensures Like(s, p) <==> AsciiLowerString(s) == AsciiLowerString(p)
  {
    if p != [] && s != [] {
      LikeLiteral(s[1..], p[1..]);
      FoldTail(s);
      FoldTail(p);
      var fs, fp := AsciiLowerString(s), AsciiLowerString(p);
      assert fs == [fs[0]] + fs[1..] && fp == [fp[0]] + fp[1..];
    } else if s != [] || p != [] {
      assert |AsciiLowerString(s)| != |AsciiLowerString(p)|;
    }
  }

  /** Every string is `LIKE` itself when it holds no wildcard. */
  lemma LikeSelf(s: string)
    requires NoWildcards(s)
    ensures Like(s, s)
  {
    LikeLiteral(s, s);
  }

  /** Every string is `LIKE` itself, wildcards included: each `%` or `_` can stand for itself. */
  lemma {:induction false} LikeReflexive(s: string)
    ensures Like(s, s)
  {
    if s != [] {
      LikeReflexive(s[1..]);
    }
  }

  /** A lone `%` matches everything. */
  lemma {:induction false} PercentMatchesAll(s: string)
    ensures Like(s, "%")
  {
    if s != [] {
      PercentMatchesAll(s[1..]);
    }
  }

  /** `q%` matches exactly the strings that start with `q`, up to ASCII case. */
  lemma {:induction false} LikePrefix(s: string, q: string)
    requires NoWildcards(q)
    ensures Like(s, q + "%") <==> |q| <= |s| && AsciiLowerString(s[..|q|]) == AsciiLowerString(q)
  {
    if q == [] {
      assert q + "%" == "%";
      PercentMatchesAll(s);
    } else if s == [] {
    } else {
      assert (q + "%")[1..] == q[1..] + "%";
      LikePrefix(s[1..], q[1..]);
      if |q| <= |s| {
        assert s[1..][..|q| - 1] == s[..|q|][1..];
        FoldTail(s[..|q|]);
        FoldTail(q);
        var fs, fq := AsciiLowerString(s[..|q|]), AsciiLowerString(q);
        assert fs == [fs[0]] + fs[1..] && fq == [fq[0]] + fq[1..];
      }
    }
  }

  /** `%r` matches exactly the strings with a suffix that `r` matches. */
  lemma {:induction false} LikeSuffix(s: string, r: string)
    ensures Like(s, "%" + r) <==> exists k :: 0 <= k <= |s| && Like(s[k..], r)
  {
    assert ("%" + r)[1..] == r;
    if s == [] {
      assert s[0..] == s;
    } else {
      LikeSuffix(s[1..], r);
      if Like(s, "%" + r) {
        if Like(s, r) {
          assert s[0..] == s;
        } else {
          var k :| 0 <= k <= |s| - 1 && Like(s[1..][k..], r);
          assert s[1..][k..] == s[k + 1..];
        }
      }
      if exists k :: 0 <= k <= |s| && Like(s[k..], r) {
        var k :| 0 <= k <= |s| && Like(s[k..], r);
        if k == 0 {
          assert s[0..] == s;
        } else {
          assert s[1..][k - 1..] == s[k..];
        }
      }
    }
  }

  /** `q%` matches the suffix from `k` exactly when the folded `q` occurs at `k`. */
  lemma LikeAt(s: string, q: string, k: int)
    requires NoWildcards(q) && 0 <= k <= |s|
    ensures Like(s[k..], q + "%") <==> OccursAt(AsciiLowerString(s), AsciiLowerString(q), k)
  {
    LikePrefix(s[k..], q);
    if k + |q| <= |s| {
      assert s[k..][..|q|] == s[k..k + |q|];
      assert AsciiLowerString(s)[k..k + |q|] == AsciiLowerString(s[k..k + |q|]);
    }
  }

  /**
   * `%q%`, the pattern of the device search, matches exactly the strings that contain `q`
   * up to ASCII case.
   */
  lemma LikeContains(s: string, q: string)
    requires NoWildcards(q)
    ensures Like(s, "%" + q + "%") <==> Contains(AsciiLowerString(s), AsciiLowerString(q))
  {
    var fs, fq := AsciiLowerString(s), AsciiLowerString(q);
    assert "%" + q + "%" == "%" + (q + "%");
    LikeSuffix(s, q + "%");
    if Like(s, "%" + q + "%") {
      var k :| 0 <= k <= |s| && Like(s[k..], q + "%");
      LikeAt(s, q, k);
    }
    if Contains(fs, fq) {
      var k :| 0 <= k <= |fs| - |fq| && OccursAt(fs, fq, k);
      LikeAt(s, q, k);
    }
  }
}
