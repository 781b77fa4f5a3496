/** The key CacheInterceptor stores a response under, and what two equal keys have in common. */
module CacheKeys {
  import opened CacheSpec
  import opened Strings

  /** The query as the simple parser leaves it: one string per key that is present. */
  type Query = map<string, string>

  function Parts(query: Query, params: seq<string>): seq<string> {
    if params == [] then []
    else (if params[0] in query then [params[0] + ['='] + query[params[0]]] else []) + Parts(query, params[1..])
  }

  function JoinWith(parts: seq<string>, sep: char): string {
    if |parts| == 0 then "" else if |parts| == 1 then parts[0] else parts[0] + [sep] + JoinWith(parts[1..], sep)
  }

  function Body(query: Query, params: seq<string>): string {
    JoinWith(Parts(query, params), '&')
  }

  function KeyOf(path: string, query: Query, params: seq<string>): (key: Key)
    ensures IsResponseKey(key)
  {
    "GET:" + (path + [':'] + Body(query, params))
  }

  function MemoKeyOf(assetId: string): (key: Key)
    ensures IsMemoKey(key)
  {
    "asset-public:" + assetId
  }

  method BuildCacheKey(path: string, query: Query, params: seq<string>) returns (key: Key)
    ensures key == KeyOf(path, query, params)
  {
    var parts: seq<string> := [];
    for i := 0 to |params|
      invariant parts + Parts(query, params[i..]) == Parts(query, params)
    {
      assert params[i..][1..] == params[i + 1..];
      if params[i] in query {
        parts := parts + [params[i] + ['='] + query[params[i]]];
      }
    }
    assert parts == Parts(query, params);
    key := "GET:" + (path + [':'] + JoinWith(parts, '&'));
  }

  lemma MemoKeyDeterminesAsset(a: string, b: string)
    ensures MemoKeyOf(a) == MemoKeyOf(b) <==> a == b
  {
    var n := |"asset-public:"|;
    assert MemoKeyOf(a)[n..] == a && MemoKeyOf(b)[n..] == b;
  }

  // ---- what a key tells -----------------------------------------------------------------

  /** Declared parameter names are distinct and contain none of the separators. */
  predicate GoodParams(params: seq<string>) {
    && (forall p | p in params :: '=' !in p && '&' !in p && ':' !in p)
    && (forall i, j | 0 <= i < j < |params| :: params[i] != params[j])
  }

  predicate Contains(s: string, t: string) {
    t <= s || (s != "" && Contains(s[1..], t))
  }

  lemma {:induction false} ContainsBetween(x: string, t: string, y: string)
    ensures Contains(x + t + y, t)
  {
    var s := x + t + y;
    if x == "" {
      assert s == t + y;
    } else {
      ContainsBetween(x[1..], t, y);
      assert s[1..] == x[1..] + t + y;
    }
  }

  lemma {:induction false} CutAt(s: string, t: string) returns (x: string, y: string)
    requires Contains(s, t)
    ensures s == x + t + y
  {
    if t <= s {
      x, y := "", s[|t|..];
    } else {
      x, y := CutAt(s[1..], t);
      x := [s[0]] + x;
    }
  }

  function Spelled(sep: char, name: string): string {
    [sep] + name + ['=']
  }

  /** No value spells out, behind `&`, a parameter declared after its own. */
  predicate PlainValues(query: Query, params: seq<string>) {
    if params == [] then true
    else
      && (params[0] in query ==> forall p | p in params[1..] :: !Contains(query[params[0]], Spelled('&', p)))
      && PlainValues(query, params[1..])
  }

  /** The path spells out no declared parameter behind `:`. */
  predicate PlainPath(path: string, params: seq<string>) {
    forall p | p in params :: !Contains(path, Spelled(':', p))
  }

  predicate PlainRequest(path: string, query: Query, params: seq<string>) {
    PlainPath(path, params) && PlainValues(query, params)
  }

  ghost predicate SameParams(q: Query, r: Query, params: seq<string>) {
    forall p | p in params :: (p in q <==> p in r) && (p in q ==> q[p] == r[p])
  }

  /** The parameters of a key, each behind a separator of its own. */
  function Tail(query: Query, params: seq<string>): string {
    if params == [] then ""
    else (if params[0] in query then Spelled('&', params[0]) + query[params[0]] else "") + Tail(query, params[1..])
  }

  lemma {:induction false} JoinIsTail(query: Query, params: seq<string>)
    ensures Tail(query, params) == if Parts(query, params) == [] then "" else "&" + JoinWith(Parts(query, params), '&')
  {
    if params != [] {
      JoinIsTail(query, params[1..]);
      var parts, rest := Parts(query, params), Parts(query, params[1..]);
      if params[0] in query {
        var first := params[0] + ['='] + query[params[0]];
        assert parts == [first] + rest && parts[1..] == rest;
        assert Spelled('&', params[0]) + query[params[0]] == "&" + first;
      } else {
        assert parts == rest;
      }
    }
  }

  /** Two keys are equal exactly when path and parameters read the same behind one another. */
  lemma KeysByTail(path: string, q: Query, path': string, r: Query, params: seq<string>)
    ensures KeyOf(path, q, params) == KeyOf(path', r, params) <==>
            path + [':'] + Body(q, params) == path' + [':'] + Body(r, params)
  {
    assert KeyOf(path, q, params)[4..] == path + [':'] + Body(q, params);
    assert KeyOf(path', r, params)[4..] == path' + [':'] + Body(r, params);
  }

  lemma SpelledRest(sep: char, name: string, more: string)
    ensures (Spelled(sep, name) + more)[1..] == name + ['='] + more
  {
  }

  lemma {:induction false} TailBegins(query: Query, params: seq<string>) returns (p: string, more: string)
    requires Tail(query, params) != ""
    ensures p in params && p in query && Tail(query, params) == Spelled('&', p) + more
  {
    if params[0] in query {
      p, more := params[0], query[params[0]] + Tail(query, params[1..]);
    } else {
      p, more := TailBegins(query, params[1..]);
    }
  }

  /** When one text ends earlier, the longer one swallows the name that follows the shorter. */
  lemma LongerSpells(sep: char, v: string, name: string, more: string, w: string, rest: string)
    requires v + (Spelled(sep, name) + more) == w + rest && |v| < |w|
    requires sep !in name && sep != '=' && (rest == "" || rest[0] == sep)
    ensures Contains(w, Spelled(sep, name))
  {
    var whole, spelled := w + rest, Spelled(sep, name);
    assert v + (spelled + more) == v + spelled + more;
    SeparatorComesLater(whole, v, sep, name, more, |w|);
    assert w == v + spelled + w[|v| + |spelled|..];
    ContainsBetween(v, spelled, w[|v| + |spelled|..]);
  }

  /** No separator stands inside a name spelled out, so a cut at one lies behind it. */
  lemma SeparatorComesLater(whole: string, v: string, sep: char, name: string, more: string, cut: nat)
    requires whole == v + Spelled(sep, name) + more && |v| < cut <= |whole|
    requires sep !in name && sep != '=' && (cut == |whole| || whole[cut] == sep)
    ensures |v| + |Spelled(sep, name)| <= cut
    ensures whole[..cut] == v + Spelled(sep, name) + whole[|v| + |Spelled(sep, name)|..cut]
  {
    var spelled := Spelled(sep, name);
    forall i | |v| < i < |v| + |spelled| ensures whole[i] != sep {
      assert whole[i] == spelled[i - |v|];
    }
  }

  lemma {:induction false} TailsAgree(q: Query, r: Query, params: seq<string>)
    requires GoodParams(params) && PlainValues(q, params) && PlainValues(r, params)
    requires Tail(q, params) == Tail(r, params)
    ensures SameParams(q, r, params)
  {
    if params != [] {
      FirstAgrees(q, r, params);
      TailsAgree(q, r, params[1..]);
      forall p | p in params ensures (p in q <==> p in r) && (p in q ==> q[p] == r[p]) {
        assert p == params[0] || p in params[1..];
      }
    }
  }

  lemma FirstAgrees(q: Query, r: Query, params: seq<string>)
    requires params != [] && GoodParams(params) && PlainValues(q, params) && PlainValues(r, params)
    requires Tail(q, params) == Tail(r, params)
    ensures (params[0] in q <==> params[0] in r) && (params[0] in q ==> q[params[0]] == r[params[0]])
    ensures Tail(q, params[1..]) == Tail(r, params[1..])
  {
    if params[0] in q {
      FirstPresent(q, r, params);
    }
    if params[0] in r {
      FirstPresent(r, q, params);
    }
    if params[0] in q {
      var head, v, w := Spelled('&', params[0]), q[params[0]], r[params[0]];
      assert v + Tail(q, params[1..]) == Tail(q, params)[|head|..] == w + Tail(r, params[1..]);
      NotLonger(q, r, params);
      NotLonger(r, q, params);
      assert v == (v + Tail(q, params[1..]))[..|v|] && Tail(q, params[1..]) == (v + Tail(q, params[1..]))[|v|..];
      assert w == (w + Tail(r, params[1..]))[..|w|] && Tail(r, params[1..]) == (w + Tail(r, params[1..]))[|w|..];
    } else {
      assert Tail(q, params) == Tail(q, params[1..]) && Tail(r, params) == Tail(r, params[1..]);
    }
  }

  /** No other name can pass for the first one. */
  lemma FirstPresent(q: Query, r: Query, params: seq<string>)
    requires params != [] && GoodParams(params) && Tail(q, params) == Tail(r, params) && params[0] in q
    ensures params[0] in r
  {
    var p, more := TailBegins(r, params);
    var rest := q[params[0]] + Tail(q, params[1..]);
    SpelledRest('&', p, more);
    SpelledRest('&', params[0], rest);
    assert Tail(q, params) == Spelled('&', params[0]) + rest;
    UniqueSplit(params[0], p, '=', rest, more);
  }

  lemma NotLonger(q: Query, r: Query, params: seq<string>)
    requires params != [] && GoodParams(params) && PlainValues(r, params) && params[0] in q && params[0] in r
    requires q[params[0]] + Tail(q, params[1..]) == r[params[0]] + Tail(r, params[1..])
    ensures |r[params[0]]| <= |q[params[0]]|
  {
    var v, w, t := q[params[0]], r[params[0]], Tail(r, params[1..]);
    if |v| < |w| && Tail(q, params[1..]) != "" {
      var p, more := TailBegins(q, params[1..]);
      if t != "" {
        var p', more' := TailBegins(r, params[1..]);
      }
      LongerSpells('&', v, p, more, w, t);
    }
  }

  /**
   Two plain requests of one route share a key only when they agree on the path and on every
   declared parameter.
   */
  lemma KeyDeterminesRequest(path: string, q: Query, path': string, r: Query, params: seq<string>)
    requires GoodParams(params) && PlainRequest(path, q, params) && PlainRequest(path', r, params)
    ensures KeyOf(path, q, params) == KeyOf(path', r, params) <==> path == path' && SameParams(q, r, params)
  {
    KeysByTail(path, q, path', r, params);
    if KeyOf(path, q, params) == KeyOf(path', r, params) {
      PathNotLonger(path, q, path', r, params);
      PathNotLonger(path', r, path, q, params);
      SamePathSameTail(path, q, path', r, params);
      TailsAgree(q, r, params);
    }
    if SameParams(q, r, params) {
      SameParts(q, r, params);
    }
  }

  lemma TailByBody(query: Query, params: seq<string>)
    ensures Tail(query, params) == if Body(query, params) == "" then "" else "&" + Body(query, params)
  {
    JoinIsTail(query, params);
    if Tail(query, params) != "" {
      var p, more := TailBegins(query, params);
    }
  }

  lemma BodyBegins(query: Query, params: seq<string>) returns (p: string, more: string)
    requires Body(query, params) != ""
    ensures p in params && Body(query, params) == p + ['='] + more
  {
    TailByBody(query, params);
    p, more := TailBegins(query, params);
    assert Tail(query, params)[1..] == Body(query, params);
    SpelledRest('&', p, more);
  }

  lemma PathNotLonger(path: string, q: Query, path': string, r: Query, params: seq<string>)
    requires GoodParams(params) && PlainPath(path', params)
    requires path + [':'] + Body(q, params) == path' + [':'] + Body(r, params)
    ensures |path'| <= |path|
  {
    if |path| < |path'| {
      var p, more := BodyBegins(q, params);
      assert [':'] + (p + ['='] + more) == Spelled(':', p) + more;
      assert path + [':'] + Body(q, params) == path + (Spelled(':', p) + more);
      assert path' + [':'] + Body(r, params) == path' + ([':'] + Body(r, params));
      LongerSpells(':', path, p, more, path', [':'] + Body(r, params));
    }
  }

  /** The parts read the same with their separators and without the first one. */
  lemma BodyByTail(q: Query, r: Query, params: seq<string>)
    ensures Body(q, params) == Body(r, params) <==> Tail(q, params) == Tail(r, params)
  {
    TailByBody(q, params);
    TailByBody(r, params);
    assert Tail(q, params) != "" ==> Body(q, params) == Tail(q, params)[1..];
    assert Tail(r, params) != "" ==> Body(r, params) == Tail(r, params)[1..];
  }

  lemma SamePathSameTail(path: string, q: Query, path': string, r: Query, params: seq<string>)
    requires path + [':'] + Body(q, params) == path' + [':'] + Body(r, params)
    requires |path| == |path'|
    ensures path == path' && Tail(q, params) == Tail(r, params)
  {
    var whole := path + [':'] + Body(q, params);
    assert path == whole[..|path|] == path';
    assert Body(q, params) == whole[|path| + 1..] == Body(r, params);
    BodyByTail(q, r, params);
  }

  lemma {:induction false} SameParts(q: Query, r: Query, params: seq<string>)
    requires SameParams(q, r, params)
    ensures Parts(q, params) == Parts(r, params)
  {
    if params != [] {
      assert params[0] in params;
      SameParts(q, r, params[1..]);
    }
  }

  // ---- what it does not tell ------------------------------------------------------------

  lemma {:induction false} TailOfOne(query: Query, params: seq<string>, name: string)
    requires name in params && name in query && (forall p | p in params && p in query :: p == name)
    requires forall i, j | 0 <= i < j < |params| :: params[i] != params[j]
    ensures Tail(query, params) == Spelled('&', name) + query[name]
  {
    if params[0] == name {
      TailOfNone(query, params[1..]);
    } else {
      assert params[0] !in query;
      TailOfOne(query, params[1..], name);
    }
  }

  lemma {:induction false} TailOfNone(query: Query, params: seq<string>)
    requires forall p | p in params :: p !in query
    ensures Tail(query, params) == ""
  {
    if params != [] {
      assert params[0] in params;
      TailOfNone(query, params[1..]);
    }
  }

  lemma {:induction false} TailFrame(q: Query, r: Query, params: seq<string>)
    requires SameParams(q, r, params)
    ensures Tail(q, params) == Tail(r, params)
  {
    if params != [] {
      assert params[0] in params;
      TailFrame(q, r, params[1..]);
    }
  }

  /** A value that spells out a later parameter reads like the value before it, and that parameter set. */
  lemma CutValue(q: Query, params: seq<string>, name: string) returns (r: Query)
    requires GoodParams(params) && params != [] && params[0] in q && name in params[1..]
    requires Contains(q[params[0]], Spelled('&', name))
    ensures Tail(r, params) == Tail(q, params) && params[0] in r && r[params[0]] != q[params[0]]
  {
    var x, y := CutAt(q[params[0]], Spelled('&', name));
    var rest := Tail(q, params[1..]);
    r := map[params[0] := x, name := y + rest];
    assert params[0] !in params[1..];
    TailOfOne(r, params[1..], name);
    assert Tail(r, params) == Spelled('&', params[0]) + x + (Spelled('&', name) + (y + rest));
    assert Tail(q, params) == Spelled('&', params[0]) + (x + Spelled('&', name) + y) + rest;
  }

  lemma {:induction false} TwinQuery(q: Query, params: seq<string>) returns (r: Query)
    requires GoodParams(params) && !PlainValues(q, params)
    ensures Tail(r, params) == Tail(q, params) && !SameParams(q, r, params)
  {
    if params[0] in q && exists p | p in params[1..] :: Contains(q[params[0]], Spelled('&', p)) {
      var name :| name in params[1..] && Contains(q[params[0]], Spelled('&', name));
      r := CutValue(q, params, name);
      assert params[0] in params;
    } else {
      var other := TwinQuery(q, params[1..]);
      r := if params[0] in q then other[params[0] := q[params[0]]] else other - {params[0]};
      assert params[0] !in params[1..];
      TailFrame(r, other, params[1..]);
      var p :| p in params[1..] && !((p in q <==> p in other) && (p in q ==> q[p] == other[p]));
      assert p in params;
    }
  }

  /** Every request that is not plain shares its key with a different one. */
  lemma SpelledOutCollides(path: string, q: Query, params: seq<string>) returns (path': string, r: Query)
    requires GoodParams(params) && !PlainRequest(path, q, params)
    ensures KeyOf(path, q, params) == KeyOf(path', r, params) && !(path == path' && SameParams(q, r, params))
  {
    if !PlainValues(q, params) {
      path' := path;
      r := TwinQuery(q, params);
      BodyByTail(q, r, params);
    } else {
      path', r := CutPath(path, q, params);
      KeysByTail(path, q, path', r, params);
    }
  }

  lemma BodyOfOne(query: Query, params: seq<string>, name: string)
    requires GoodParams(params) && name in params && query.Keys == {name}
    ensures Body(query, params) == name + ['='] + query[name]
  {
    TailOfOne(query, params, name);
    TailByBody(query, params);
    SpelledRest('&', name, query[name]);
    assert Tail(query, params)[1..] == Body(query, params);
  }

  /** A path that spells out a parameter reads like the path before it, and that parameter set. */
  lemma CutPath(path: string, q: Query, params: seq<string>) returns (path': string, r: Query)
    requires GoodParams(params) && !PlainPath(path, params)
    ensures path + [':'] + Body(q, params) == path' + [':'] + Body(r, params) && path' != path
  {
    var p :| p in params && Contains(path, Spelled(':', p));
    var x, y := CutAt(path, Spelled(':', p));
    var value := y + [':'] + Body(q, params);
    path', r := x, map[p := value];
    BodyOfOne(r, params, p);
    CutJoins(x, p, y, Body(q, params));
  }

  lemma CutJoins(x: string, p: string, y: string, body: string)
    ensures x + Spelled(':', p) + y + [':'] + body == x + [':'] + (p + ['='] + (y + [':'] + body))
  {
  }

  /** A query of the news list and a path, each with its twin. */
  lemma AmpersandAndColonCollide()
    ensures KeyOf("/news", map["page" := "1&limit=5"], ["page", "limit"]) ==
            KeyOf("/news", map["page" := "1", "limit" := "5"], ["page", "limit"])
    ensures KeyOf("/a:page=1", map[], ["page"]) == KeyOf("/a", map["page" := "1:"], ["page"])
  {
    AmpersandBodies();
    ColonBody();
    assert "/a:page=1" + [':'] + "" == "/a" + [':'] + "page=1:";
  }

  lemma ColonBody()
    ensures Body(map["page" := "1:"], ["page"]) == "page=1:" && Body(map[], ["page"]) == ""
  {
    assert "page" + ['='] + "1:" == "page=1:" && ["page"][1..] == [];
    assert Parts(map["page" := "1:"], ["page"]) == ["page=1:"];
  }

  lemma AmpersandBodies()
    ensures Body(map["page" := "1&limit=5"], ["page", "limit"]) == "page=1&limit=5"
    ensures Body(map["page" := "1", "limit" := "5"], ["page", "limit"]) == "page=1&limit=5"
  {
    AmpersandParts();
    assert "page=1" + ['&'] + "limit=5" == "page=1&limit=5";
    assert JoinWith(["page=1", "limit=5"], '&') == "page=1" + ['&'] + JoinWith(["limit=5"], '&');
  }

  lemma AmpersandParts()
    ensures Parts(map["page" := "1&limit=5"], ["page", "limit"]) == ["page=1&limit=5"]
    ensures Parts(map["page" := "1", "limit" := "5"], ["page", "limit"]) == ["page=1", "limit=5"]
  {
    var params, one, two := ["page", "limit"], map["page" := "1&limit=5"], map["page" := "1", "limit" := "5"];
    assert params[1..] == ["limit"] && ["limit"][1..] == [];
    assert "page" + ['='] + "1&limit=5" == "page=1&limit=5";
    assert "page" + ['='] + "1" == "page=1" && "limit" + ['='] + "5" == "limit=5";
    assert Parts(one, ["limit"]) == [] && Parts(two, ["limit"]) == ["limit=5"];
  }
}
