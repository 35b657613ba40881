/** PostgreSQL's LIKE operator, as used by the user search. */
module Sql {

  import opened Wrappers

  /** `%` matches any run of characters, `_` any single character, and `\` (the
      default escape) makes the next pattern character literal. Everything else
      matches itself; the comparison is case-sensitive. A pattern ending in a
      lone escape is an error in PostgreSQL; here it matches nothing. */
  function Like(s: string, p: string): bool
    decreases |p|, |s|
  {
    if p == [] then s == []
    else if p[0] == '%' then Like(s, p[1..]) || (s != [] && Like(s[1..], p))
    else if p[0] == '_' then s != [] && Like(s[1..], p[1..])
    else if p[0] == '\\' then |p| >= 2 && s != [] && s[0] == p[1] && Like(s[1..], p[2..])
    else s != [] && s[0] == p[0] && Like(s[1..], p[1..])
  }

  /** LIKE on a nullable column: NULL LIKE p is not true. */
  predicate LikeNullable(s: Option<string>, p: string) {
    s.Some? && Like(s.value, p)
  }

  predicate IsWildcard(c: char) {
    c == '%' || c == '_' || c == '\\'
  }

  predicate Literal(q: string) {
    forall i :: 0 <= i < |q| ==> !IsWildcard(q[i])
  }

  predicate OccursAt(q: string, s: string, i: int) {
    0 <= i <= |s| - |q| && s[i..i + |q|] == q
  }

  /** `q` is a contiguous part of `s` (JavaScript's `s.includes(q)`). */
  predicate IsSubstring(q: string, s: string) {
    exists i | 0 <= i <= |s| :: OccursAt(q, s, i)
  }

  lemma {:induction false} PercentMatchesAll(s: string)
    ensures Like(s, "%")
    decreases |s|
  {
    if s != [] {
      PercentMatchesAll(s[1..]);
    }
  }

  /** A literal followed by `%` matches exactly the strings that start with the literal. */
  lemma {:induction false} LiteralPrefix(s: string, q: string)
    requires Literal(q)
    ensures Like(s, q + "%") <==> (|q| <= |s| && s[..|q|] == q)
    decreases |q|
  {
    if q == [] {
      PercentMatchesAll(s);
      assert q + "%" == "%";
    } else {
      assert (q + "%")[0] == q[0] && !IsWildcard(q[0]);
      assert (q + "%")[1..] == q[1..] + "%";
      if s != [] {
        LiteralPrefix(s[1..], q[1..]);
        if |q| <= |s| && s[..|q|] == q {
          assert s[1..][..|q| - 1] == q[1..];
        }
        if |q| - 1 <= |s| - 1 && s[1..][..|q| - 1] == q[1..] && s[0] == q[0] {
          assert s[..|q|] == [s[0]] + s[1..][..|q| - 1];
        }
      }
    }
  }

  /** A leading `%` matches when the rest of the pattern matches some suffix. */
  lemma {:induction false} LeadingPercent(s: string, r: string)
    ensures Like(s, "%" + r) <==> exists i :: 0 <= i <= |s| && Like(s[i..], r)
    decreases |s|
  {
    var p := "%" + r;
    assert p[0] == '%' && p[1..] == r;
    if s == [] {
      assert s[0..] == s;
    } else {
      LeadingPercent(s[1..], r);
      if exists i :: 0 <= i <= |s| && Like(s[i..], r) {
        var i :| 0 <= i <= |s| && Like(s[i..], r);
        if i > 0 {
          assert s[1..][i - 1..] == s[i..];
        } else {
          assert s[0..] == s;
        }
      }
      if Like(s[1..], p) {
        var j :| 0 <= j <= |s| - 1 && Like(s[1..][j..], r);
        assert s[1..][j..] == s[j + 1..];
      }
      assert Like(s, r) ==> s[0..] == s;
    }
  }

  /** The search pattern `%q%` of a wildcard-free `q` is a case-sensitive substring test. */
  lemma SubstringPattern(s: string, q: string)
    requires Literal(q)
    ensures Like(s, "%" + q + "%") <==> IsSubstring(q, s)
  {
    assert "%" + q + "%" == "%" + (q + "%");
    LeadingPercent(s, q + "%");
    if Like(s, "%" + (q + "%")) {
      var i :| 0 <= i <= |s| && Like(s[i..], q + "%");
      LiteralPrefix(s[i..], q);
      assert s[i..][..|q|] == s[i..i + |q|];
      assert OccursAt(q, s, i);
    }
    if IsSubstring(q, s) {
      var i :| 0 <= i <= |s| && OccursAt(q, s, i);
      LiteralPrefix(s[i..], q);
      assert s[i..][..|q|] == s[i..i + |q|];
    }
  }
}
