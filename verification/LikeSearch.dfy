/** Search terms inside a LIKE pattern. */
module LikeSearch {

  predicate IsLikeMeta(c: char) {
    c == '\\' || c == '%' || c == '_'
  }

  function EscapeLikeValue(v: string): string {
    if v == "" then ""
    else (if IsLikeMeta(v[0]) then ['\\', v[0]] else [v[0]]) + EscapeLikeValue(v[1..])
  }

  /** `s LIKE p ESCAPE '\'`; a lone backslash at the end of a pattern stands for itself. */
  predicate Like(p: string, s: string)
    decreases |p| + |s|
  {
    if p == "" then s == ""
    else if p[0] == '%' then Like(p[1..], s) || (s != "" && Like(p, s[1..]))
    else if p[0] == '_' then s != "" && Like(p[1..], s[1..])
    else if p[0] == '\\' && |p| > 1 then s != "" && s[0] == p[1] && Like(p[2..], s[1..])
    else s != "" && s[0] == p[0] && Like(p[1..], s[1..])
  }

  /** An escaped term matches itself and nothing else. */
  lemma {:induction false} EscapedMatchesItself(v: string, rest: string, s: string)
    ensures Like(EscapeLikeValue(v) + rest, s) <==> v <= s && Like(rest, s[|v|..])
  {
    var p := EscapeLikeValue(v) + rest;
    if v == "" {
      assert p == rest && s[0..] == s;
    } else {
      var tail := EscapeLikeValue(v[1..]) + rest;
      if IsLikeMeta(v[0]) {
        assert p == ['\\', v[0]] + tail && p[2..] == tail;
      } else {
        assert p == [v[0]] + tail && p[1..] == tail;
      }
      if s != "" && s[0] == v[0] {
        EscapedMatchesItself(v[1..], rest, s[1..]);
        assert v <= s <==> v[1..] <= s[1..] by {
          assert v == [v[0]] + v[1..] && s == [s[0]] + s[1..];
        }
        assert v <= s ==> s[1..][|v| - 1..] == s[|v|..];
      }
    }
  }

  lemma {:induction false} PercentMatchesAll(s: string)
    ensures Like("%", s)
  {
    if s != "" {
      PercentMatchesAll(s[1..]);
    }
  }

  lemma {:induction false} PercentSkips(p: string, s: string)
    ensures Like(['%'] + p, s) <==> exists i :: 0 <= i <= |s| && Like(p, s[i..])
  {
    assert (['%'] + p)[1..] == p && s[0..] == s;
    if s != "" {
      PercentSkips(p, s[1..]);
      if i :| 0 <= i <= |s| - 1 && Like(p, s[1..][i..]) {
        assert s[1..][i..] == s[i + 1..];
      }
      if i :| 0 <= i <= |s| && Like(p, s[i..]) {
        assert i > 0 ==> s[i..] == s[1..][i - 1..];
      }
    } else {
      if i :| 0 <= i <= |s| && Like(p, s[i..]) {
        assert i == 0;
      }
    }
  }

  predicate OccursAt(v: string, s: string, i: nat) {
    i + |v| <= |s| && s[i..i + |v|] == v
  }

  /** A search finds a text exactly when the term occurs in it literally, wildcards and backslashes included. */
  lemma SearchIsSubstring(v: string, s: string)
    ensures Like("%" + EscapeLikeValue(v) + "%", s) <==> exists i: nat :: OccursAt(v, s, i)
  {
    var p := EscapeLikeValue(v) + "%";
    assert "%" + EscapeLikeValue(v) + "%" == ['%'] + p;
    PercentSkips(p, s);
    forall i | 0 <= i <= |s| ensures Like(p, s[i..]) <==> OccursAt(v, s, i) {
      EscapedMatchesItself(v, "%", s[i..]);
      if v <= s[i..] {
        PercentMatchesAll(s[i..][|v|..]);
        assert s[i..i + |v|] == s[i..][..|v|];
      }
      if OccursAt(v, s, i) {
        assert s[i..][..|v|] == s[i..i + |v|];
      }
    }
  }
}
