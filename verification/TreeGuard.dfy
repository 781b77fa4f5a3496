/** The write guard of the org chart: the walks over the table and the decision they add up to. */
module TreeGuard {
  import opened Wrappers
  import opened ParentTable

  const ORG_MAX_DEPTH: nat := 5

  datatype TreeRow = TreeRow(id: Id, parentId: Option<Id>)

  datatype TreeGuardError = SelfParent | ParentNotFound | Cycle | TooDeep

  /** `new Map(rows.map(...))`: the last row of an id wins. */
  function ById(rows: seq<TreeRow>): Table {
    if rows == [] then map[]
    else ById(rows[..|rows| - 1])[rows[|rows| - 1].id := rows[|rows| - 1].parentId]
  }

  predicate UniqueIds(rows: seq<TreeRow>) {
    forall i, j | 0 <= i < j < |rows| :: rows[i].id != rows[j].id
  }

  lemma {:induction false} ByIdRows(rows: seq<TreeRow>)
    requires UniqueIds(rows)
    ensures forall x :: x in ById(rows) <==> exists i :: 0 <= i < |rows| && rows[i].id == x
    ensures forall i | 0 <= i < |rows| :: rows[i].id in ById(rows) && ById(rows)[rows[i].id] == rows[i].parentId
  {
    if rows != [] {
      var init, last := rows[..|rows| - 1], rows[|rows| - 1];
      ByIdRows(init);
      assert forall i | 0 <= i < |init| :: init[i] == rows[i];
      forall x ensures x in ById(rows) <==> exists i :: 0 <= i < |rows| && rows[i].id == x {
        if x == last.id {
          assert rows[|rows| - 1].id == x;
        } else if x in ById(init) {
          var i :| 0 <= i < |init| && init[i].id == x;
          assert rows[i].id == x;
        }
      }
      forall i | 0 <= i < |rows| ensures rows[i].id in ById(rows) && ById(rows)[rows[i].id] == rows[i].parentId {
        if i < |init| {
          assert init[i] == rows[i];
        }
      }
    }
  }

  /** Every id some row names as its parent: the seen-set of a walk never leaves it. */
  ghost function Parents(p: Table): set<Id> {
    set x | x in p && p[x].Some? :: p[x].value
  }

  lemma UpInParents(p: Table, x: Id, n: nat)
    requires n >= 1 && Up(p, Some(x), n).Some?
    ensures Up(p, Some(x), n).value in Parents(p)
  {
    UpNext(p, Some(x), n - 1);
    if Up(p, Some(x), n - 1).Some? {
      assert Up(p, Some(x), n - 1).value in p;
    }
  }

  /** Exact on every table, cyclic ones included: the seen-set ends the walk only when it has come full circle. */
  method IsDescendant(byId: Table, candidate: Id, ancestor: Id) returns (found: bool)
    ensures found <==> ParentOf(byId, candidate).Some? && Below(byId, ParentOf(byId, candidate).value, ancestor)
  {
    var seen: set<Id> := {};
    var current := ParentOf(byId, candidate);
    ghost var start := current;
    ghost var n: nat := 0;
    while current.Some? && current.value !in seen
      invariant current == Up(byId, start, n) && seen == Visited(byId, start, n)
      invariant forall k | 0 <= k < n :: Up(byId, start, k) != Some(ancestor)
      invariant seen <= Parents(byId)
      decreases Parents(byId) - seen
    {
      if current.value == ancestor {
        assert start.None? ==> Up(byId, start, n) == None;
        assert Up(byId, Some(start.value), n) == Some(ancestor);
        return true;
      }
      assert Up(byId, Some(candidate), n + 1) == current;
      UpInParents(byId, candidate, n + 1);
      UpNext(byId, start, n);
      seen := seen + {current.value};
      current := ParentOf(byId, current.value);
      n := n + 1;
    }
    forall m: nat ensures Up(byId, start, m) != Some(ancestor) {
      WalkSawAll(byId, start, n, m);
    }
    return false;
  }

  /** A walk that stopped has shown everything the chain will ever show. */
  lemma WalkSawAll(p: Table, x: Option<Id>, n: nat, m: nat)
    requires Up(p, x, n).Some? ==> Up(p, x, n).value in Visited(p, x, n)
    ensures Up(p, x, m).Some? ==> exists k: nat :: k < n && Up(p, x, k) == Up(p, x, m)
  {
    if Up(p, x, n).None? {
      if m >= n {
        Ended(p, x, n, m);
      }
    } else if m >= n {
      InVisited(p, x, n, Up(p, x, n).value);
      var i: nat :| i < n && Up(p, x, i) == Up(p, x, n);
      var k := Repeats(p, x, i, n, m);
    }
  }

  lemma ChainStep(p: Table, x: Id, n: nat)
    requires Up(p, Some(x), n).Some?
    ensures Up(p, Some(x), n).value in Parents(p) + {x}
    ensures Up(p, Some(x), n + 1) == ParentOf(p, Up(p, Some(x), n).value)
    ensures Visited(p, Some(x), n + 1) == Visited(p, Some(x), n) + {Up(p, Some(x), n).value}
  {
    UpNext(p, Some(x), n);
    if n > 0 {
      UpInParents(p, x, n);
    }
  }

  /** The first `n` rows on the chain exist and are all different. */
  ghost predicate NoRepeat(p: Table, x: Id, n: nat) {
    n > 0 ==>
      && NoRepeat(p, x, n - 1) && Up(p, Some(x), n - 1).Some?
      && Up(p, Some(x), n - 1).value !in Visited(p, Some(x), n - 1)
  }

  /** The chain from `x` shows `n` different rows and then ends or comes back to one of them. */
  ghost predicate ShowsRows(p: Table, x: Id, n: nat) {
    && n >= 1 && NoRepeat(p, x, n)
    && (Up(p, Some(x), n).Some? ==> Up(p, Some(x), n).value in Visited(p, Some(x), n))
  }

  /** Counts the different rows on the chain of any table. */
  method DepthOf(byId: Table, id: Id) returns (depth: nat)
    ensures ShowsRows(byId, id, depth)
  {
    var seen: set<Id> := {};
    depth := 0;
    var current := Some(id);
    ghost var universe := Parents(byId) + {id};
    while current.Some? && current.value !in seen
      invariant current == Up(byId, Some(id), depth) && seen == Visited(byId, Some(id), depth)
      invariant NoRepeat(byId, id, depth) && (depth == 0 ==> current == Some(id))
      invariant seen <= universe
      decreases universe - seen
    {
      ChainStep(byId, id, depth);
      seen := seen + {current.value};
      depth := depth + 1;
      current := ParentOf(byId, current.value);
    }
  }

  /** On a tree nothing comes back, so that count is the depth. */
  lemma RowsShownIsDepth(p: Table, x: Id, n: nat)
    requires Acyclic(p) && ShowsRows(p, x, n)
    ensures IsDepth(p, x, n)
  {
    if Up(p, Some(x), n).Some? {
      var v := Up(p, Some(x), n).value;
      InVisited(p, Some(x), n, v);
      forall i: nat | i < n ensures Up(p, Some(x), i) != Some(v) {
        UpAdd(p, Some(x), i, n - i);
      }
    }
  }

  // ---- the height of a sub-tree ---------------------------------------------------------

  function Kids(rows: seq<TreeRow>, q: Id): seq<Id> {
    if rows == [] then []
    else Kids(rows[..|rows| - 1], q) + (if rows[|rows| - 1].parentId == Some(q) then [rows[|rows| - 1].id] else [])
  }

  function KidsIn(children: map<Id, seq<Id>>, q: Id): seq<Id> {
    if q in children then children[q] else []
  }

  method ChildrenOf(rows: seq<TreeRow>) returns (children: map<Id, seq<Id>>)
    ensures forall q :: KidsIn(children, q) == Kids(rows, q)
  {
    children := map[];
    for i := 0 to |rows|
      invariant forall q :: KidsIn(children, q) == Kids(rows[..i], q)
    {
      assert rows[..i + 1][..i] == rows[..i];
      var r := rows[i];
      if r.parentId.Some? {
        var list := KidsIn(children, r.parentId.value);
        children := children[r.parentId.value := list + [r.id]];
      }
    }
    assert rows[..|rows|] == rows;
  }

  lemma {:induction false} KidsAreRows(rows: seq<TreeRow>, q: Id)
    ensures forall c :: c in Kids(rows, q) <==> exists i :: 0 <= i < |rows| && rows[i] == TreeRow(c, Some(q))
    ensures UniqueIds(rows) ==> forall i, j | 0 <= i < j < |Kids(rows, q)| :: Kids(rows, q)[i] != Kids(rows, q)[j]
  {
    if rows != [] {
      var init, last := rows[..|rows| - 1], rows[|rows| - 1];
      KidsAreRows(init, q);
      forall c ensures c in Kids(rows, q) <==> exists i :: 0 <= i < |rows| && rows[i] == TreeRow(c, Some(q)) {
        if c in Kids(init, q) {
          var i :| 0 <= i < |init| && init[i] == TreeRow(c, Some(q));
          assert rows[i] == TreeRow(c, Some(q));
        }
        if i :| 0 <= i < |rows| && rows[i] == TreeRow(c, Some(q)) {
          assert i < |init| ==> init[i] == rows[i];
        }
      }
    }
  }

  ghost predicate AreChildren(p: Table, q: Id, kids: seq<Id>) {
    && (forall c :: c in kids <==> ParentOf(p, c) == Some(q))
    && (forall i, j | 0 <= i < j < |kids| :: kids[i] != kids[j])
  }

  ghost predicate Lists(children: map<Id, seq<Id>>, p: Table) {
    forall q :: AreChildren(p, q, KidsIn(children, q))
  }

  /** Nothing under `x` has been seen. */
  ghost predicate Untouched(p: Table, x: Id, seen: set<Id>) {
    forall y :: Below(p, y, x) ==> y !in seen
  }

  ghost predicate Reaches(p: Table, y: Id, n: nat, kids: seq<Id>) {
    Up(p, Some(y), n).Some? && Up(p, Some(y), n).value in kids
  }

  ghost predicate SomeReach(p: Table, n: nat, kids: seq<Id>) {
    exists y :: Reaches(p, y, n, kids)
  }

  /** The children in `kids` have been walked: `deepest` is their greatest height. */
  ghost predicate Walked(p: Table, kids: seq<Id>, deepest: nat) {
    && (deepest > 0 ==> SomeReach(p, deepest - 1, kids))
    && (forall y, n: nat | Reaches(p, y, n, kids) :: n < deepest)
  }

  /** The walk of `x` from the seen-set `was` found its height and left its sub-tree in `now`. */
  ghost predicate WalkDone(p: Table, x: Id, was: set<Id>, height: nat, now: set<Id>) {
    IsHeight(p, x, height) && forall y :: y in now <==> y in was || Below(p, y, x)
  }

  ghost predicate OnTree(children: map<Id, seq<Id>>, p: Table, x: Id, seen: set<Id>) {
    Acyclic(p) && Lists(children, p) && Untouched(p, x, seen)
  }

  /**
   One seen-set is shared by the whole walk, and the walk of one child leaves its rows in it for
   the next: on a tree no sibling ever meets them. `universe` only bounds the recursion.
   */
  method Walk(children: map<Id, seq<Id>>, node: Id, seen: set<Id>, ghost p: Table, ghost universe: set<Id>)
    returns (height: nat, seen': set<Id>)
    requires node in universe && forall q, c | c in KidsIn(children, q) :: c in universe
    ensures seen <= seen' && (node !in seen ==> height >= 1)
    ensures OnTree(children, p, node, seen) ==> WalkDone(p, node, seen, height, seen')
    decreases universe - seen, 1
  {
    if node in seen {
      assert Up(p, Some(node), 0) == Some(node);
      return 0, seen;
    }
    var deepest;
    deepest, seen' := WalkKids(children, node, seen, p, universe);
    height := 1 + deepest;
    if OnTree(children, p, node, seen) {
      WalkFromKids(p, node, KidsIn(children, node), seen, deepest, seen');
    }
  }

  lemma WalkFromKids(p: Table, node: Id, kids: seq<Id>, was: set<Id>, deepest: nat, now: set<Id>)
    requires AreChildren(p, node, kids) && KidsWalked(p, node, kids, was, deepest, now)
    ensures WalkDone(p, node, was, 1 + deepest, now)
  {
    HeightFromKids(kids, p, node, deepest);
    BelowByKids(kids, p, node);
  }

  /** The loop over the children of `node`, which joins the seen-set first. */
  method WalkKids(children: map<Id, seq<Id>>, node: Id, seen: set<Id>, ghost p: Table, ghost universe: set<Id>)
    returns (deepest: nat, seen': set<Id>)
    requires node in universe && node !in seen && forall q, c | c in KidsIn(children, q) :: c in universe
    ensures seen + {node} <= seen'
    ensures OnTree(children, p, node, seen) ==> KidsWalked(p, node, KidsIn(children, node), seen, deepest, seen')
    decreases universe - seen, 0
  {
    seen' := seen + {node};
    ghost var tree := OnTree(children, p, node, seen);
    var kids := KidsIn(children, node);
    deepest := 0;
    for i := 0 to |kids|
      invariant seen + {node} <= seen'
      invariant tree ==> KidsWalked(p, node, kids[..i], seen, deepest, seen')
    {
      ghost var before := seen';
      if tree {
        assert AreChildren(p, node, kids);
        KidUntouched(p, node, kids, i, seen, seen');
      }
      var h;
      h, seen' := Walk(children, kids[i], seen', p, universe);
      if tree {
        KidsWalkedNext(p, node, kids, i, seen, deepest, before, h, seen');
      }
      deepest := if h > deepest then h else deepest;
    }
    assert kids[..|kids|] == kids;
  }

  ghost predicate KidsWalked(p: Table, node: Id, kids: seq<Id>, was: set<Id>, deepest: nat, now: set<Id>) {
    Walked(p, kids, deepest) && Marked(p, node, kids, was, now)
  }

  lemma KidsWalkedNext(p: Table, node: Id, kids: seq<Id>, i: nat, was: set<Id>, deepest: nat, before: set<Id>, h: nat,
      now: set<Id>)
    requires i < |kids| && KidsWalked(p, node, kids[..i], was, deepest, before) && WalkDone(p, kids[i], before, h, now)
    ensures KidsWalked(p, node, kids[..i + 1], was, if h > deepest then h else deepest, now)
  {
    WalkedOneMore(p, kids, i, deepest, h);
    MarkedOneMore(p, node, kids, i, was, before, now);
  }

  /** The walk of `node` and of its children in `kids` turned the seen-set `was` into `now`. */
  ghost predicate Marked(p: Table, node: Id, kids: seq<Id>, was: set<Id>, now: set<Id>) {
    forall y :: y in now <==> y in was || y == node || BelowSome(p, y, kids)
  }

  ghost predicate BelowSome(p: Table, y: Id, kids: seq<Id>) {
    exists c :: c in kids && Below(p, y, c)
  }

  lemma MarkedOneMore(p: Table, node: Id, kids: seq<Id>, i: nat, was: set<Id>, before: set<Id>, now: set<Id>)
    requires i < |kids| && Marked(p, node, kids[..i], was, before)
    requires forall y :: y in now <==> y in before || Below(p, y, kids[i])
    ensures Marked(p, node, kids[..i + 1], was, now)
  {
  }

  lemma WalkedOneMore(p: Table, kids: seq<Id>, i: nat, deepest: nat, h: nat)
    requires i < |kids| && Walked(p, kids[..i], deepest) && IsHeight(p, kids[i], h)
    ensures Walked(p, kids[..i + 1], if h > deepest then h else deepest)
  {
    var d := if h > deepest then h else deepest;
    forall c ensures c in kids[..i + 1] <==> c in kids[..i] || c == kids[i] {
      assert kids[..i + 1] == kids[..i] + [kids[i]];
    }
    var y: Id;
    if h > deepest {
      y :| Up(p, Some(y), h - 1) == Some(kids[i]);
    } else {
      y :| Reaches(p, y, deepest - 1, kids[..i]);
    }
    assert Reaches(p, y, d - 1, kids[..i + 1]);
    var next := kids[..i + 1];
    forall z, n: nat | Reaches(p, z, n, next) ensures n < d {
      assert Reaches(p, z, n, kids[..i]) || Up(p, Some(z), n) == Some(kids[i]);
    }
  }

  lemma KidUntouched(p: Table, node: Id, kids: seq<Id>, i: nat, seen: set<Id>, now: set<Id>)
    requires Acyclic(p) && AreChildren(p, node, kids) && Untouched(p, node, seen)
    requires i < |kids| && Marked(p, node, kids[..i], seen, now)
    ensures Untouched(p, kids[i], now)
  {
    assert kids[i] in kids;
    ChildNotAbove(p, kids[i], node);
    forall y | Below(p, y, kids[i]) ensures y !in now {
      BelowParent(p, y, kids[i], node);
      if c :| c in kids[..i] && Below(p, y, c) {
        assert c in kids;
        SiblingsApart(p, c, kids[i], node, y);
      }
    }
  }

  lemma BelowByKids(kids: seq<Id>, p: Table, node: Id)
    requires AreChildren(p, node, kids)
    ensures forall y :: Below(p, y, node) <==> y == node || BelowSome(p, y, kids)
  {
    forall y ensures Below(p, y, node) <==> y == node || BelowSome(p, y, kids) {
      assert Up(p, Some(node), 0) == Some(node);
      if c :| c in kids && Below(p, y, c) {
        BelowParent(p, y, c, node);
      }
      if n: nat :| Up(p, Some(y), n) == Some(node) {
        if n > 0 {
          UpNext(p, Some(y), n - 1);
          var c := Up(p, Some(y), n - 1).value;
          assert ParentOf(p, c) == Some(node) && Below(p, y, c);
        }
      }
    }
  }

  lemma HeightFromKids(kids: seq<Id>, p: Table, node: Id, deepest: nat)
    requires AreChildren(p, node, kids)
    requires Walked(p, kids, deepest)
    ensures IsHeight(p, node, 1 + deepest)
  {
    LongestWayUp(kids, p, node, deepest);
    forall y, n: nat | Up(p, Some(y), n) == Some(node) ensures n < 1 + deepest {
      if n > 0 {
        UpNext(p, Some(y), n - 1);
        assert Reaches(p, y, n - 1, kids);
      }
    }
  }

  lemma LongestWayUp(kids: seq<Id>, p: Table, node: Id, deepest: nat)
    requires forall c | c in kids :: ParentOf(p, c) == Some(node)
    requires Walked(p, kids, deepest)
    ensures exists y :: Up(p, Some(y), deepest) == Some(node)
  {
    if deepest == 0 {
      assert Up(p, Some(node), 0) == Some(node);
    } else {
      var y :| Reaches(p, y, deepest - 1, kids);
      UpNext(p, Some(y), deepest - 1);
      assert Up(p, Some(y), deepest) == Some(node);
    }
  }

  lemma KidsAreChildren(rows: seq<TreeRow>, q: Id)
    requires UniqueIds(rows)
    ensures AreChildren(ById(rows), q, Kids(rows, q))
  {
    ByIdRows(rows);
    KidsAreRows(rows, q);
    forall c | ParentOf(ById(rows), c) == Some(q) ensures c in Kids(rows, q) {
      var i :| 0 <= i < |rows| && rows[i].id == c;
      assert rows[i] == TreeRow(c, Some(q));
    }
  }

  method SubtreeDepth(rows: seq<TreeRow>, id: Option<Id>) returns (levels: nat)
    ensures id.None? ==> levels == 1
    ensures id.Some? && UniqueIds(rows) && Acyclic(ById(rows)) ==> IsHeight(ById(rows), id.value, levels)
  {
    if id.None? {
      return 1;
    }
    var children := ChildrenOf(rows);
    ghost var p := ById(rows);
    ghost var universe := (set i | 0 <= i < |rows| :: rows[i].id) + {id.value};
    forall q ensures forall c | c in KidsIn(children, q) :: c in universe {
      KidsAreRows(rows, q);
    }
    if UniqueIds(rows) {
      forall q ensures AreChildren(p, q, KidsIn(children, q)) {
        KidsAreChildren(rows, q);
      }
    }
    var seen;
    levels, seen := Walk(children, id.value, {}, p, universe);
  }

  // ---- the decision ---------------------------------------------------------------------

  /** The table with `parentId` written: the moved row, or some new one. */
  ghost predicate Accepts(p: Table, id: Option<Id>, parentId: Option<Id>, maxDepth: nat) {
    match id
    case Some(i) => ValidTree(p[i := parentId], maxDepth)
    case None => forall i | i !in p :: ValidTree(p[i := parentId], maxDepth)
  }

  ghost predicate Refuses(p: Table, id: Option<Id>, parentId: Option<Id>, maxDepth: nat) {
    match id
    case Some(i) => !ValidTree(p[i := parentId], maxDepth)
    case None => forall i | i !in p :: !ValidTree(p[i := parentId], maxDepth)
  }

  /**
   The guard is exact on a valid table: it accepts when writing the parent gives a valid table
   again and refuses when it does not. The first three errors mean what they say on any table.
   */
  method CheckParent(rows: seq<TreeRow>, id: Option<Id>, parentId: Option<Id>, maxDepth: nat)
    returns (error: Option<TreeGuardError>)
    ensures error == Some(SelfParent) <==> parentId.Some? && id == parentId
    ensures error == Some(ParentNotFound) <==> parentId.Some? && id != parentId && parentId.value !in ById(rows)
    ensures error == Some(Cycle) <==>
              parentId.Some? && id.Some? && id != parentId && parentId.value in ById(rows) &&
                Below(ById(rows), parentId.value, id.value)
    ensures UniqueIds(rows) && ValidTree(ById(rows), maxDepth) ==>
              if error.None? then Accepts(ById(rows), id, parentId, maxDepth)
              else Refuses(ById(rows), id, parentId, maxDepth)
  {
    var byId := ById(rows);
    if parentId.None? {
      var levels := SubtreeDepth(rows, id);
      error := if levels > maxDepth then Some(TooDeep) else None;
      if UniqueIds(rows) && ValidTree(byId, maxDepth) {
        Decide(byId, id, None, maxDepth, 0, levels);
      }
      return;
    }
    if id == parentId {
      if Acyclic(byId) {
        assert Up(byId, parentId, 0) == parentId;
        BadParent(byId, parentId.value, parentId.value, maxDepth);
      }
      return Some(SelfParent);
    }
    if parentId.value !in byId {
      if Acyclic(byId) {
        forall i | id == Some(i) || i !in byId ensures !ValidTree(byId[i := parentId], maxDepth) {
          assert Up(byId, Some(i), 0) == Some(i);
          BadParent(byId, i, parentId.value, maxDepth);
        }
      }
      return Some(ParentNotFound);
    }
    var cycle := false;
    if id.Some? {
      cycle := IsDescendant(byId, parentId.value, id.value);
      BelowViaParent(byId, parentId.value, id.value);
    }
    if cycle {
      if Acyclic(byId) {
        BadParent(byId, id.value, parentId.value, maxDepth);
      }
      return Some(Cycle);
    }
    var above := DepthOf(byId, parentId.value);
    var levels := SubtreeDepth(rows, id);
    error := if above + levels > maxDepth then Some(TooDeep) else None;
    if UniqueIds(rows) && ValidTree(byId, maxDepth) {
      RowsShownIsDepth(byId, parentId.value, above);
      Decide(byId, id, parentId, maxDepth, above, levels);
    }
  }

  lemma Decide(p: Table, id: Option<Id>, par: Option<Id>, d: nat, above: nat, h: nat)
    requires ValidTree(p, d)
    requires par.Some? ==>
             par.value in p && IsDepth(p, par.value, above) && (id.Some? ==> !Below(p, par.value, id.value))
    requires par.None? ==> above == 0
    requires if id.Some? then IsHeight(p, id.value, h) else h == 1
    ensures if above + h <= d then Accepts(p, id, par, d) else Refuses(p, id, par, d)
  {
    forall i | id == Some(i) || (id.None? && i !in p)
      ensures if above + h <= d then ValidTree(p[i := par], d) else !ValidTree(p[i := par], d)
    {
      if id.None? {
        LeafHeight(p, i);
        if par.Some? {
          NewRowApart(p, par.value, i);
        }
      }
      if above + h <= d {
        FittingParent(p, i, par, d, above, h);
      } else {
        DeepParent(p, i, par, d, above, h);
      }
    }
  }

  lemma BelowViaParent(p: Table, y: Id, x: Id)
    requires y != x
    ensures Below(p, y, x) <==> ParentOf(p, y).Some? && Below(p, ParentOf(p, y).value, x)
  {
    if n: nat :| Up(p, Some(y), n) == Some(x) {
      assert Up(p, ParentOf(p, y), n - 1) == Some(x);
    }
    if ParentOf(p, y).Some? {
      if n: nat :| Up(p, ParentOf(p, y), n) == Some(x) {
        assert Up(p, Some(y), n + 1) == Some(x);
      }
    }
  }

  lemma NewRowApart(p: Table, x: Id, i: Id)
    requires Closed(p) && x in p && i !in p
    ensures !Below(p, x, i)
  {
    forall n: nat ensures Up(p, Some(x), n) != Some(i) {
      if Up(p, Some(x), n).Some? {
        StaysInside(p, x, n);
      }
    }
  }
}
