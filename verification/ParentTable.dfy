/** Parent-pointer tables: chains of ancestors, depth, height, and what re-parenting one row does. */
module ParentTable {
  import opened Wrappers

  type Id = string

  type Table = map<Id, Option<Id>>

  /** The parent of `x`; a missing row has none, as `byId.get(x)?.parentId ?? null`. */
  function ParentOf(p: Table, x: Id): Option<Id> {
    if x in p then p[x] else None
  }

  /** `n` steps up the chain of parents. */
  function Up(p: Table, x: Option<Id>, n: nat): Option<Id>
    decreases n
  {
    if n == 0 || x.None? then x else Up(p, ParentOf(p, x.value), n - 1)
  }

  ghost predicate Closed(p: Table) {
    forall x | x in p && p[x].Some? :: p[x].value in p
  }

  ghost predicate Acyclic(p: Table) {
    forall x, n: nat | n >= 1 :: Up(p, Some(x), n) != Some(x)
  }

  ghost predicate DepthAtMost(p: Table, d: nat) {
    forall x | x in p :: Up(p, Some(x), d) == None
  }

  /** What the position table must be: every parent exists and every chain ends within `d` levels. */
  ghost predicate ValidTree(p: Table, d: nat) {
    Closed(p) && Acyclic(p) && DepthAtMost(p, d)
  }

  ghost predicate IsDepth(p: Table, x: Id, d: nat) {
    d >= 1 && Up(p, Some(x), d - 1).Some? && Up(p, Some(x), d).None?
  }

  /** `h` is one more than the longest way up to `x`. */
  ghost predicate IsHeight(p: Table, x: Id, h: nat) {
    && h >= 1
    && (exists y :: Up(p, Some(y), h - 1) == Some(x))
    && (forall y, n: nat | Up(p, Some(y), n) == Some(x) :: n < h)
  }

  ghost predicate Below(p: Table, y: Id, x: Id) {
    exists n: nat :: Up(p, Some(y), n) == Some(x)
  }

  // ---- chains ---------------------------------------------------------------------------

  lemma {:induction false} UpAdd(p: Table, x: Option<Id>, m: nat, n: nat)
    ensures Up(p, Up(p, x, m), n) == Up(p, x, m + n)
    decreases m
  {
    if m > 0 && x.Some? {
      UpAdd(p, ParentOf(p, x.value), m - 1, n);
    }
  }

  lemma UpNext(p: Table, x: Option<Id>, n: nat)
    ensures Up(p, x, n + 1) == (if Up(p, x, n).None? then None else ParentOf(p, Up(p, x, n).value))
  {
    UpAdd(p, x, n, 1);
    assert Up(p, Up(p, x, n), 1) == if Up(p, x, n).None? then None else Up(p, ParentOf(p, Up(p, x, n).value), 0);
  }

  /** A chain that has ended stays ended. */
  lemma Ended(p: Table, x: Option<Id>, m: nat, n: nat)
    requires m <= n && Up(p, x, m) == None
    ensures Up(p, x, n) == None
  {
    UpAdd(p, x, m, n - m);
  }

  lemma {:induction false} StaysInside(p: Table, x: Id, n: nat)
    requires Closed(p) && x in p && Up(p, Some(x), n).Some?
    ensures Up(p, Some(x), n).value in p
  {
    if n > 0 {
      UpNext(p, Some(x), n - 1);
      StaysInside(p, x, n - 1);
    }
  }

  /** Once a chain repeats it shows nothing new. */
  lemma {:induction false} Repeats(p: Table, x: Option<Id>, i: nat, n: nat, m: nat) returns (k: nat)
    requires i < n <= m && Up(p, x, i) == Up(p, x, n)
    ensures i <= k < n && Up(p, x, k) == Up(p, x, m)
    decreases m
  {
    UpAdd(p, x, n, m - n);
    UpAdd(p, x, i, m - n);
    if i + (m - n) < n {
      k := i + (m - n);
    } else {
      k := Repeats(p, x, i, n, i + (m - n));
    }
  }

  lemma {:induction false} CycleNeverEnds(p: Table, x: Id, n: nat, m: nat)
    requires n >= 1 && Up(p, Some(x), n) == Some(x)
    ensures Up(p, Some(x), m).Some?
    decreases m
  {
    if m <= n {
      if Up(p, Some(x), m).None? {
        Ended(p, Some(x), m, n);
      }
    } else {
      UpAdd(p, Some(x), n, m - n);
      CycleNeverEnds(p, x, n, m - n);
    }
  }

  /** On a cycle every row is in the table, so a depth bound on the table rules cycles out. */
  lemma BoundedIsAcyclic(p: Table, d: nat)
    requires DepthAtMost(p, d)
    ensures Acyclic(p)
  {
    forall x, n: nat | n >= 1 ensures Up(p, Some(x), n) != Some(x) {
      if Up(p, Some(x), n) == Some(x) {
        CycleNeverEnds(p, x, n, d);
        if x !in p {
          Ended(p, Some(x), 1, n);
        }
      }
    }
  }

  // ---- the rows a walk has seen ---------------------------------------------------------

  /** The first `n` rows on the chain from `x`. */
  ghost function Visited(p: Table, x: Option<Id>, n: nat): set<Id> {
    if n == 0 then {}
    else Visited(p, x, n - 1) + (if Up(p, x, n - 1).Some? then {Up(p, x, n - 1).value} else {})
  }

  lemma {:induction false} VisitedAt(p: Table, x: Option<Id>, n: nat, i: nat)
    requires i < n && Up(p, x, i).Some?
    ensures Up(p, x, i).value in Visited(p, x, n)
  {
    if i < n - 1 {
      VisitedAt(p, x, n - 1, i);
    }
  }

  lemma {:induction false} VisitedIndex(p: Table, x: Option<Id>, n: nat, v: Id) returns (i: nat)
    requires v in Visited(p, x, n)
    ensures i < n && Up(p, x, i) == Some(v)
  {
    if Up(p, x, n - 1) == Some(v) {
      i := n - 1;
    } else {
      i := VisitedIndex(p, x, n - 1, v);
    }
  }

  lemma InVisited(p: Table, x: Option<Id>, n: nat, v: Id)
    ensures v in Visited(p, x, n) <==> exists i: nat :: i < n && Up(p, x, i) == Some(v)
  {
    if v in Visited(p, x, n) {
      var i := VisitedIndex(p, x, n, v);
      assert i < n && Up(p, x, i) == Some(v);
    }
    if i: nat :| i < n && Up(p, x, i) == Some(v) {
      VisitedAt(p, x, n, i);
    }
  }

  // ---- trees ----------------------------------------------------------------------------

  /** In an acyclic table a row sits at one distance only below another. */
  lemma DistanceUnique(p: Table, y: Id, x: Id, m: nat, n: nat)
    requires Acyclic(p) && Up(p, Some(y), m) == Some(x) && Up(p, Some(y), n) == Some(x)
    ensures m == n
  {
    var short, long := if m <= n then m else n, if m <= n then n else m;
    UpAdd(p, Some(y), short, long - short);
  }

  /** Sub-trees of different children of one row have no row in common. */
  lemma SiblingsApart(p: Table, c: Id, d: Id, x: Id, y: Id)
    requires Acyclic(p) && ParentOf(p, c) == Some(x) && ParentOf(p, d) == Some(x)
    requires Below(p, y, c) && Below(p, y, d)
    ensures c == d
  {
    var m: nat :| Up(p, Some(y), m) == Some(c);
    var n: nat :| Up(p, Some(y), n) == Some(d);
    UpNext(p, Some(y), m);
    UpNext(p, Some(y), n);
    DistanceUnique(p, y, x, m + 1, n + 1);
  }

  lemma ChildNotAbove(p: Table, c: Id, x: Id)
    requires Acyclic(p) && ParentOf(p, c) == Some(x)
    ensures !Below(p, x, c)
  {
    forall n: nat ensures Up(p, Some(x), n) != Some(c) {
      UpNext(p, Some(x), n);
      assert Up(p, Some(x), n + 1) != Some(x);
    }
  }

  lemma BelowParent(p: Table, y: Id, c: Id, x: Id)
    requires Below(p, y, c) && ParentOf(p, c) == Some(x)
    ensures Below(p, y, x)
  {
    var n: nat :| Up(p, Some(y), n) == Some(c);
    UpNext(p, Some(y), n);
  }

  // ---- re-parenting ---------------------------------------------------------------------

  /** Chains that have not passed `i` do not notice its new parent. */
  lemma {:induction false} UpAgrees(p: Table, i: Id, par: Option<Id>, x: Option<Id>, n: nat)
    requires forall k | 0 <= k < n :: Up(p, x, k) != Some(i)
    ensures Up(p[i := par], x, n) == Up(p, x, n)
    decreases n
  {
    if n > 0 && x.Some? {
      assert Up(p, x, 0) == x;
      forall k | 0 <= k < n - 1 ensures Up(p, ParentOf(p, x.value), k) != Some(i) {
        assert Up(p, x, k + 1) == Up(p, ParentOf(p, x.value), k);
      }
      UpAgrees(p, i, par, ParentOf(p, x.value), n - 1);
    }
  }

  lemma FirstToReach(p: Table, i: Id, x: Id, n: nat)
    requires Acyclic(p) && Up(p, Some(x), n) == Some(i)
    ensures forall k | 0 <= k < n :: Up(p, Some(x), k) != Some(i)
  {
    forall k | 0 <= k < n ensures Up(p, Some(x), k) != Some(i) {
      UpAdd(p, Some(x), k, n - k);
      assert Up(p, Some(i), n - k) != Some(i);
    }
  }

  lemma ReachesMoved(p: Table, i: Id, par: Option<Id>, x: Id, n: nat, m: nat)
    requires Acyclic(p) && Up(p, Some(x), n) == Some(i)
    ensures Up(p[i := par], Some(x), n + 1 + m) == Up(p[i := par], par, m)
  {
    var q := p[i := par];
    FirstToReach(p, i, x, n);
    UpAgrees(p, i, par, Some(x), n);
    UpAdd(q, Some(x), n, 1 + m);
    assert Up(q, Some(i), 1 + m) == Up(q, ParentOf(q, i), m);
  }

  /** A parent that does not exist, or lies at or below the moved row, spoils the table. */
  lemma BadParent(p: Table, i: Id, par: Id, d: nat)
    requires Acyclic(p)
    requires (par !in p && par != i) || Below(p, par, i)
    ensures !ValidTree(p[i := Some(par)], d)
  {
    var q := p[i := Some(par)];
    if Below(p, par, i) {
      var n: nat :| Up(p, Some(par), n) == Some(i);
      ReachesMoved(p, i, Some(par), par, n, 0);
      assert Up(q, Some(par), n + 1) == Some(par);
    } else {
      assert i in q && q[i] == Some(par) && par !in q;
    }
  }

  /** Above a good parent the table is as it was. */
  lemma AboveGoodParent(p: Table, i: Id, par: Option<Id>, m: nat)
    requires par.Some? ==> !Below(p, par.value, i)
    ensures Up(p[i := par], par, m) == Up(p, par, m)
  {
    forall k | 0 <= k < m ensures Up(p, par, k) != Some(i) {
      assert par.Some? ==> par == Some(par.value) && (Up(p, Some(par.value), k) == Some(i) ==> Below(p, par.value, i));
    }
    UpAgrees(p, i, par, par, m);
  }

  ghost predicate GoodParent(p: Table, i: Id, par: Option<Id>, above: nat) {
    if par.None? then above == 0
    else par.value in p && !Below(p, par.value, i) && IsDepth(p, par.value, above)
  }

  lemma FittingParent(p: Table, i: Id, par: Option<Id>, d: nat, above: nat, h: nat)
    requires ValidTree(p, d) && IsHeight(p, i, h) && GoodParent(p, i, par, above)
    requires above + h <= d
    ensures ValidTree(p[i := par], d)
  {
    var q := p[i := par];
    forall x | x in q ensures Up(q, Some(x), d) == None {
      if n: nat :| Up(p, Some(x), n) == Some(i) {
        EndsAboveMoved(p, i, par, d, above, x, n);
      } else {
        assert Up(p, Some(x), 0) == Some(x);
        UpAgrees(p, i, par, Some(x), d);
      }
    }
    BoundedIsAcyclic(q, d);
  }

  /** A row `n` below the moved one ends `above` steps past it. */
  lemma EndsAboveMoved(p: Table, i: Id, par: Option<Id>, d: nat, above: nat, x: Id, n: nat)
    requires Acyclic(p) && GoodParent(p, i, par, above) && Up(p, Some(x), n) == Some(i) && n + 1 + above <= d
    ensures Up(p[i := par], Some(x), d) == None
  {
    ReachesMoved(p, i, par, x, n, d - n - 1);
    AboveGoodParent(p, i, par, d - n - 1);
    Ended(p, par, above, d - n - 1);
  }

  lemma DeepParent(p: Table, i: Id, par: Option<Id>, d: nat, above: nat, h: nat)
    requires ValidTree(p, d) && IsHeight(p, i, h) && GoodParent(p, i, par, above)
    requires above + h > d
    ensures !ValidTree(p[i := par], d)
  {
    var q := p[i := par];
    var y :| Up(p, Some(y), h - 1) == Some(i);
    if h > 1 && y !in p {
      Ended(p, Some(y), 1, h - 1);
    }
    assert y in q;
    LongWay(p, i, par, above, y, h - 1);
    TooFar(q, y, d, above + h - 1);
  }

  lemma TooFar(p: Table, y: Id, d: nat, n: nat)
    requires y in p && d <= n && Up(p, Some(y), n).Some?
    ensures !ValidTree(p, d)
  {
    if Up(p, Some(y), d) == None {
      Ended(p, Some(y), d, n);
    }
  }

  /** A row `n` below the moved one has a chain of at least `n` rows more than the new parent's. */
  lemma LongWay(p: Table, i: Id, par: Option<Id>, above: nat, y: Id, n: nat)
    requires Acyclic(p) && GoodParent(p, i, par, above) && Up(p, Some(y), n) == Some(i)
    ensures Up(p[i := par], Some(y), above + n).Some?
  {
    if above == 0 {
      FirstToReach(p, i, y, n);
      UpAgrees(p, i, par, Some(y), n);
    } else {
      ReachesMoved(p, i, par, y, n, above - 1);
      AboveGoodParent(p, i, par, above - 1);
    }
  }

  /** Removing a row no other row points at changes no other chain. */
  lemma LeafRemoved(p: Table, x: Id, d: nat)
    requires ValidTree(p, d) && forall y | y in p :: p[y] != Some(x)
    ensures ValidTree(p - {x}, d)
  {
    var q := p - {x};
    forall y | y in q ensures Up(q, Some(y), d) == None {
      forall k | 0 <= k < d ensures Up(p, Some(y), k) != Some(x) {
        if k > 0 {
          UpNext(p, Some(y), k - 1);
        }
      }
      UpAgrees(p, x, None, Some(y), d);
      SameParents(q, p[x := None], Some(y), d);
    }
    BoundedIsAcyclic(q, d);
  }

  lemma {:induction false} SameParents(p: Table, q: Table, x: Option<Id>, n: nat)
    requires forall y :: ParentOf(p, y) == ParentOf(q, y)
    ensures Up(p, x, n) == Up(q, x, n)
    decreases n
  {
    if n > 0 && x.Some? {
      SameParents(p, q, ParentOf(p, x.value), n - 1);
    }
  }

  /** A row no other row points at has height one. */
  lemma LeafHeight(p: Table, x: Id)
    requires Closed(p) && x !in p
    ensures IsHeight(p, x, 1)
  {
    assert Up(p, Some(x), 0) == Some(x);
    forall y, n: nat | Up(p, Some(y), n) == Some(x) ensures n < 1 {
      if n >= 1 {
        UpNext(p, Some(y), n - 1);
      }
    }
  }
}
