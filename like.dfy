/**
 * SQLite's `X LIKE P` without an ESCAPE clause: '%' matches any run of characters, '_'
 * any single character, and every other character itself, ASCII letters regardless of case.
 */
module Like {
  import opened Text

  predicate LikeMatch(s: string, pattern: string)
    decreases |pattern|, |s|
  {
    if pattern == [] then s == []
    else if pattern[0] == '%' then
      LikeMatch(s, pattern[1..]) || (s != [] && LikeMatch(s[1..], pattern))
    else if pattern[0] == '_' then
      s != [] && LikeMatch(s[1..], pattern[1..])
    else
      s != [] && LowerChar(s[0]) == LowerChar(pattern[0]) && LikeMatch(s[1..], pattern[1..])
  }

  /** The text holds neither of LIKE's two wildcard characters. */
  predicate NoWildcards(p: string)
  {
    '%' !in p && '_' !in p
  }

  /** The pattern `'%' || p || '%'` that the search query builds from a parameter. */
  function ContainsPattern(p: string): string
  {
    "%" + p + "%"
  }

  lemma {:induction false} PercentMatchesAll(s: string)
    ensures LikeMatch(s, "%")
    decreases |s|
  {
    if s != [] {
      PercentMatchesAll(s[1..]);
    }
  }

  /** `s LIKE p || '%'` holds when, ignoring ASCII case, `p` begins `s`. */
  lemma {:induction false} LikePrefix(s: string, p: string)
    requires NoWildcards(p)
    ensures LikeMatch(s, p + "%") <==> IsPrefix(Lower(p), Lower(s))
    decreases |p|
  {
    if p == [] {
      PercentMatchesAll(s);
      assert p + "%" == "%";
    } else {
      assert (p + "%")[0] == p[0] && (p + "%")[1..] == p[1..] + "%";
      assert NoWildcards(p[1..]) by {
        assert forall c :: c in p[1..] ==> c in p;
      }
      if s != [] {
        LikePrefix(s[1..], p[1..]);
        LowerSlice(s, 1, |s|);
        LowerSlice(p, 1, |p|);
        assert Lower(s) == [LowerChar(s[0])] + Lower(s[1..]);
        assert Lower(p) == [LowerChar(p[0])] + Lower(p[1..]);
      }
    }
  }

  /** A leading '%' lets the rest of the pattern match from any position onward. */
  lemma {:induction false} LikeLeadingPercent(s: string, q: string)
    ensures LikeMatch(s, "%" + q) <==> exists k :: 0 <= k <= |s| && LikeMatch(s[k..], q)
    decreases |s|
  {
    var pat := "%" + q;
    assert pat[0] == '%' && pat[1..] == q;
    assert s[0..] == s;
    if s != [] {
      LikeLeadingPercent(s[1..], q);
      if LikeMatch(s[1..], pat) {
        var k :| 0 <= k <= |s[1..]| && LikeMatch(s[1..][k..], q);
        assert s[k + 1..] == s[1..][k..];
      }
      if exists k :: 0 <= k <= |s| && LikeMatch(s[k..], q) {
        var k :| 0 <= k <= |s| && LikeMatch(s[k..], q);
        if k > 0 {
          assert s[1..][k - 1..] == s[k..];
        }
      }
    }
  }

  /**
   * For a parameter without wildcard characters, the search pattern `'%' || p || '%'`
   * matches exactly the texts that contain `p`, ignoring ASCII case.
   */
  lemma LikeContains(s: string, p: string)
    requires NoWildcards(p)
    ensures LikeMatch(s, ContainsPattern(p)) <==> Contains(Lower(s), Lower(p))
  {
    assert ContainsPattern(p) == "%" + (p + "%");
    LikeLeadingPercent(s, p + "%");
    if LikeMatch(s, ContainsPattern(p)) {
      var k :| 0 <= k <= |s| && LikeMatch(s[k..], p + "%");
      LikePrefix(s[k..], p);
      LowerSlice(s, k, |s|);
      ContainsAt(Lower(s), Lower(p), k);
    }
    if Contains(Lower(s), Lower(p)) {
      var k :| 0 <= k <= |Lower(s)| && IsPrefix(Lower(p), Lower(s)[k..]);
      LowerSlice(s, k, |s|);
      LikePrefix(s[k..], p);
    }
  }
}
