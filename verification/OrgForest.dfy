/** The public chart: a nested forest built from the published positions and the published members. */
module OrgForest {
  import opened Wrappers
  import opened ParentTable
  import opened TreeGuard

  datatype OrgTone = Auto | Neutral | Sky | Green | Brand

  datatype Position = Position(id: Id, parentId: Option<Id>, nameAr: string, nameEn: Option<string>,
                               tone: OrgTone, showHolders: bool)

  datatype Member = Member(id: Id, nameAr: string, nameEn: Option<string>, orgPositionId: Option<Id>)

  datatype Holder = Holder(id: Id, nameAr: string, nameEn: Option<string>)

  datatype Node = Node(id: Id, nameAr: string, nameEn: Option<string>, tone: OrgTone,
                       holders: seq<Holder>, children: seq<Node>)

  const AUTO_TONES: seq<OrgTone> := [Neutral, Sky, Green, Brand]

  function ResolveTone(tone: OrgTone, depth: nat): (r: OrgTone)
    ensures r != Auto && (tone != Auto ==> r == tone)
    ensures tone == Auto ==>
            && (depth == 0 <==> r == Neutral) && (depth == 1 <==> r == Sky)
            && (depth == 2 <==> r == Green) && (depth >= 3 <==> r == Brand)
  {
    if tone != Auto then tone
    else AUTO_TONES[if depth < |AUTO_TONES| - 1 then depth else |AUTO_TONES| - 1]
  }

  // ---- building -------------------------------------------------------------------------

  function Listed<K, T>(lists: map<K, seq<T>>, key: K): seq<T> {
    if key in lists then lists[key] else []
  }

  function IdsOf(positions: seq<Position>): set<Id> {
    set i | 0 <= i < |positions| :: positions[i].id
  }

  /** The positions directly under `par`, in input order. */
  function Among(positions: seq<Position>, par: Option<Id>): seq<Position> {
    if positions == [] then []
    else Among(positions[..|positions| - 1], par) +
         (if positions[|positions| - 1].parentId == par then [positions[|positions| - 1]] else [])
  }

  /** A member whose position is null or the empty string holds none. */
  predicate Holds(m: Member, position: Id) {
    m.orgPositionId == Some(position) && position != ""
  }

  function HoldersOf(members: seq<Member>, position: Id): seq<Holder> {
    if members == [] then []
    else
      var m := members[|members| - 1];
      HoldersOf(members[..|members| - 1], position) +
      (if Holds(m, position) then [Holder(m.id, m.nameAr, m.nameEn)] else [])
  }

  lemma AmongNext(positions: seq<Position>, i: nat, par: Option<Id>)
    requires i < |positions|
    ensures Among(positions[..i + 1], par) ==
            Among(positions[..i], par) + (if positions[i].parentId == par then [positions[i]] else [])
  {
    assert positions[..i + 1][..i] == positions[..i];
  }

  lemma HoldersNext(members: seq<Member>, i: nat, x: Id)
    requires i < |members|
    ensures var m := members[i];
            HoldersOf(members[..i + 1], x) ==
            HoldersOf(members[..i], x) + (if Holds(m, x) then [Holder(m.id, m.nameAr, m.nameEn)] else [])
  {
    assert members[..i + 1][..i] == members[..i];
  }

  /** The lists of children of the rows seen, for parents in the input. */
  ghost predicate GroupsParents(children: map<Option<Id>, seq<Position>>, ids: set<Id>, seen: seq<Position>) {
    forall par :: Listed(children, par) == if par.None? || par.value in ids then Among(seen, par) else []
  }

  lemma ParentGrouped(children: map<Option<Id>, seq<Position>>, ids: set<Id>, positions: seq<Position>, i: nat)
    requires i < |positions| && GroupsParents(children, ids, positions[..i])
    ensures var p := positions[i];
            var next := if p.parentId.Some? && p.parentId.value !in ids then children
                        else children[p.parentId := Listed(children, p.parentId) + [p]];
            GroupsParents(next, ids, positions[..i + 1])
  {
    var p := positions[i];
    var next := if p.parentId.Some? && p.parentId.value !in ids then children
                else children[p.parentId := Listed(children, p.parentId) + [p]];
    forall par ensures Listed(next, par) ==
                       if par.None? || par.value in ids then Among(positions[..i + 1], par) else []
    {
      AmongNext(positions, i, par);
      assert Listed(children, par) == if par.None? || par.value in ids then Among(positions[..i], par) else [];
    }
  }

  method GroupByParent(positions: seq<Position>) returns (children: map<Option<Id>, seq<Position>>)
    ensures forall par :: Listed(children, par) ==
              if par.None? || par.value in IdsOf(positions) then Among(positions, par) else []
  {
    var ids := IdsOf(positions);
    children := map[];
    for i := 0 to |positions|
      invariant GroupsParents(children, ids, positions[..i])
    {
      ParentGrouped(children, ids, positions, i);
      var p := positions[i];
      if p.parentId.Some? && p.parentId.value !in ids {
        continue;
      }
      children := children[p.parentId := Listed(children, p.parentId) + [p]];
    }
    assert positions[..|positions|] == positions;
  }

  ghost predicate GroupsHolders(holders: map<Id, seq<Holder>>, seen: seq<Member>) {
    forall x :: Listed(holders, x) == HoldersOf(seen, x)
  }

  lemma HolderGrouped(holders: map<Id, seq<Holder>>, members: seq<Member>, i: nat)
    requires i < |members| && GroupsHolders(holders, members[..i])
    ensures var m := members[i];
            if m.orgPositionId.None? || m.orgPositionId.value == "" then GroupsHolders(holders, members[..i + 1])
            else
              var list := Listed(holders, m.orgPositionId.value) + [Holder(m.id, m.nameAr, m.nameEn)];
              GroupsHolders(holders[m.orgPositionId.value := list], members[..i + 1])
  {
    forall x ensures HoldersOf(members[..i + 1], x) ==
                     if Holds(members[i], x)
                     then Listed(holders, x) + [Holder(members[i].id, members[i].nameAr, members[i].nameEn)]
                     else Listed(holders, x)
    {
      HoldersNext(members, i, x);
      assert Listed(holders, x) == HoldersOf(members[..i], x);
    }
  }

  method GroupByPosition(members: seq<Member>) returns (holders: map<Id, seq<Holder>>)
    ensures forall x :: Listed(holders, x) == HoldersOf(members, x)
  {
    holders := map[];
    for i := 0 to |members|
      invariant GroupsHolders(holders, members[..i])
    {
      HolderGrouped(holders, members, i);
      var m := members[i];
      if m.orgPositionId.None? || m.orgPositionId.value == "" {
        continue;
      }
      var list := Listed(holders, m.orgPositionId.value);
      holders := holders[m.orgPositionId.value := list + [Holder(m.id, m.nameAr, m.nameEn)]];
    }
    assert members[..|members|] == members;
  }

  function Build(children: map<Option<Id>, seq<Position>>, holders: map<Id, seq<Holder>>, par: Option<Id>,
      depth: nat): seq<Node>
    decreases ORG_MAX_DEPTH - depth
  {
    if depth >= ORG_MAX_DEPTH then []
    else
      var list := Listed(children, par);
      seq(|list|, i requires 0 <= i < |list| =>
        Node(list[i].id, list[i].nameAr, list[i].nameEn, ResolveTone(list[i].tone, depth),
             if list[i].showHolders then Listed(holders, list[i].id) else [],
             Build(children, holders, Some(list[i].id), depth + 1)))
  }

  /** The same forest in terms of the input lists. */
  function Forest(positions: seq<Position>, members: seq<Member>, par: Option<Id>, depth: nat): seq<Node>
    decreases ORG_MAX_DEPTH - depth
  {
    if depth >= ORG_MAX_DEPTH then []
    else
      var list := Among(positions, par);
      seq(|list|, i requires 0 <= i < |list| =>
        Node(list[i].id, list[i].nameAr, list[i].nameEn, ResolveTone(list[i].tone, depth),
             ShownHolders(members, list[i]), Forest(positions, members, Some(list[i].id), depth + 1)))
  }

  function ShownHolders(members: seq<Member>, p: Position): seq<Holder> {
    if p.showHolders then HoldersOf(members, p.id) else []
  }

  method BuildOrgForest(positions: seq<Position>, members: seq<Member>) returns (forest: seq<Node>)
    ensures forest == Forest(positions, members, None, 0)
  {
    var children := GroupByParent(positions);
    var holders := GroupByPosition(members);
    forest := Build(children, holders, None, 0);
    BuildIsForest(positions, members, children, holders, None, 0);
  }

  lemma {:induction false} BuildIsForest(positions: seq<Position>, members: seq<Member>,
                                         children: map<Option<Id>, seq<Position>>, holders: map<Id, seq<Holder>>,
                                         par: Option<Id>, depth: nat)
    requires forall q ::
               Listed(children, q) == if q.None? || q.value in IdsOf(positions) then Among(positions, q) else []
    requires forall x :: Listed(holders, x) == HoldersOf(members, x)
    requires par.None? || par.value in IdsOf(positions)
    ensures Build(children, holders, par, depth) == Forest(positions, members, par, depth)
    decreases ORG_MAX_DEPTH - depth
  {
    if depth < ORG_MAX_DEPTH {
      var list := Among(positions, par);
      forall i | 0 <= i < |list|
        ensures Build(children, holders, Some(list[i].id), depth + 1) ==
                Forest(positions, members, Some(list[i].id), depth + 1)
      {
        AmongThem(positions, par, list[i]);
        BuildIsForest(positions, members, children, holders, Some(list[i].id), depth + 1);
      }
      assert Build(children, holders, par, depth) == Forest(positions, members, par, depth);
    }
  }

  lemma {:induction false} AmongThem(positions: seq<Position>, par: Option<Id>, p: Position)
    ensures p in Among(positions, par) <==> p in positions && p.parentId == par
  {
    if positions != [] {
      AmongThem(positions[..|positions| - 1], par, p);
      assert positions == positions[..|positions| - 1] + [positions[|positions| - 1]];
    }
  }

  /** Siblings come in input order, each once. */
  lemma {:induction false} SiblingsInOrder(positions: seq<Position>, par: Option<Id>) returns (at: seq<nat>)
    ensures |at| == |Among(positions, par)|
    ensures forall a | 0 <= a < |at| :: at[a] < |positions| && Among(positions, par)[a] == positions[at[a]]
    ensures forall a, b | 0 <= a < b < |at| :: at[a] < at[b]
  {
    if positions == [] {
      at := [];
    } else {
      at := SiblingsInOrder(positions[..|positions| - 1], par);
      if positions[|positions| - 1].parentId == par {
        at := at + [|positions| - 1];
      }
    }
  }

  /** The list shows, in input order, the members at these places, who hold the position, with their names. */
  ghost predicate ShowsAt(list: seq<Holder>, members: seq<Member>, position: Id, at: seq<nat>) {
    && |at| == |list|
    && (forall a | 0 <= a < |at| ::
          && at[a] < |members| && Holds(members[at[a]], position)
          && list[a] == Holder(members[at[a]].id, members[at[a]].nameAr, members[at[a]].nameEn))
    && (forall a, b | 0 <= a < b < |at| :: at[a] < at[b])
  }

  lemma ShowsOneMore(list: seq<Holder>, members: seq<Member>, m: Member, position: Id, at: seq<nat>)
    requires ShowsAt(list, members, position, at)
    ensures ShowsAt(list, members + [m], position, at)
    ensures Holds(m, position) ==>
              ShowsAt(list + [Holder(m.id, m.nameAr, m.nameEn)], members + [m], position, at + [|members|])
  {
  }

  /** The holders of a position come in input order too, each once. */
  lemma {:induction false} HoldersInOrder(members: seq<Member>, position: Id) returns (at: seq<nat>)
    ensures ShowsAt(HoldersOf(members, position), members, position, at)
  {
    if members == [] {
      at := [];
    } else {
      var before, m := members[..|members| - 1], members[|members| - 1];
      at := HoldersInOrder(before, position);
      ShowsOneMore(HoldersOf(before, position), before, m, position, at);
      assert members == before + [m];
      assert HoldersOf(before, position) + [] == HoldersOf(before, position);
      if Holds(m, position) {
        at := at + [|before|];
      }
    }
  }

  // ---- what is emitted ------------------------------------------------------------------

  function Rows(positions: seq<Position>): seq<TreeRow> {
    seq(|positions|, i requires 0 <= i < |positions| => TreeRow(positions[i].id, positions[i].parentId))
  }

  function TableOf(positions: seq<Position>): Table {
    ById(Rows(positions))
  }

  /** From `x`, `k` steps up inside the table lead to `y`; no step is made from a missing row. */
  ghost predicate Reaches(p: Table, x: Option<Id>, y: Option<Id>, k: nat)
    decreases k
  {
    if k == 0 then x == y else x.Some? && x.value in p && Reaches(p, p[x.value], y, k - 1)
  }

  /** The whole chain of ancestors of `x` is in the table and has `n` rows. */
  ghost predicate RootedAt(p: Table, x: Id, n: nat) {
    Reaches(p, Some(x), None, n)
  }

  lemma {:induction false} ReachesOn(p: Table, x: Option<Id>, y: Option<Id>, z: Option<Id>, m: nat, n: nat)
    requires Reaches(p, x, y, m) && Reaches(p, y, z, n)
    ensures Reaches(p, x, z, m + n)
    decreases m
  {
    if m > 0 {
      ReachesOn(p, p[x.value], y, z, m - 1, n);
    }
  }

  lemma {:induction false} LastStep(p: Table, x: Option<Id>, z: Option<Id>, n: nat) returns (y: Id)
    requires n >= 1 && Reaches(p, x, z, n)
    ensures y in p && p[y] == z && Reaches(p, x, Some(y), n - 1)
    decreases n
  {
    if n == 1 {
      y := x.value;
      assert Reaches(p, p[x.value], z, 0);
    } else {
      y := LastStep(p, p[x.value], z, n - 1);
    }
  }

  lemma {:induction false} OneTarget(p: Table, x: Option<Id>, y: Option<Id>, z: Option<Id>, n: nat)
    requires Reaches(p, x, y, n) && Reaches(p, x, z, n)
    ensures y == z
    decreases n
  {
    if n > 0 {
      OneTarget(p, p[x.value], y, z, n - 1);
    }
  }

  lemma {:induction false} OneLevel(p: Table, x: Option<Id>, m: nat, n: nat)
    requires Reaches(p, x, None, m) && Reaches(p, x, None, n)
    ensures m == n
    decreases m
  {
    if m > 0 && n > 0 {
      OneLevel(p, p[x.value], m - 1, n - 1);
    }
  }

  /** `x` lies at most `d` steps below `y`. */
  ghost predicate Within(p: Table, x: Id, y: Option<Id>, d: int) {
    exists k: nat :: 1 <= k <= d && Reaches(p, Some(x), y, k)
  }

  ghost predicate AtOrWithin(p: Table, x: Id, c: Id, d: int) {
    x == c || Within(p, x, Some(c), d)
  }

  /** No row lies below two siblings of a rooted branch. */
  lemma OneSibling(p: Table, x: Id, par: Option<Id>, depth: nat, c: Id, d: Id)
    requires Reaches(p, par, None, depth) && c in p && d in p && p[c] == par && p[d] == par
    requires AtOrWithin(p, x, c, ORG_MAX_DEPTH) && AtOrWithin(p, x, d, ORG_MAX_DEPTH)
    ensures c == d
  {
    var m: nat :| Reaches(p, Some(x), Some(c), m) by { assert x == c ==> Reaches(p, Some(x), Some(c), 0); }
    var n: nat :| Reaches(p, Some(x), Some(d), n) by { assert x == d ==> Reaches(p, Some(x), Some(d), 0); }
    assert Reaches(p, Some(c), None, depth + 1) && Reaches(p, Some(d), None, depth + 1);
    ReachesOn(p, Some(x), Some(c), None, m, depth + 1);
    ReachesOn(p, Some(x), Some(d), None, n, depth + 1);
    OneLevel(p, Some(x), m + depth + 1, n + depth + 1);
    OneTarget(p, Some(x), Some(c), Some(d), m);
  }

  /** All ids of a forest, a node before its children. */
  function Ids(nodes: seq<Node>): seq<Id> {
    if nodes == [] then []
    else Ids(nodes[..|nodes| - 1]) + [nodes[|nodes| - 1].id] + Ids(nodes[|nodes| - 1].children)
  }

  ghost function Times<T>(list: seq<T>, x: T): nat {
    multiset(list)[x]
  }

  ghost function CountIn(nodes: seq<Node>, x: Id): nat {
    if nodes == [] then 0
    else CountIn(nodes[..|nodes| - 1], x) + CountAt(nodes[|nodes| - 1], x)
  }

  ghost function CountAt(node: Node, x: Id): nat {
    (if node.id == x then 1 else 0) + CountIn(node.children, x)
  }

  lemma {:induction false} TimesIsCount(nodes: seq<Node>, x: Id)
    ensures Times(Ids(nodes), x) == CountIn(nodes, x)
  {
    if nodes != [] {
      var init, last := nodes[..|nodes| - 1], nodes[|nodes| - 1];
      TimesIsCount(init, x);
      TimesIsCount(last.children, x);
      assert Ids(nodes) == Ids(init) + [last.id] + Ids(last.children);
    }
  }

  ghost predicate AreSiblings(p: Table, list: seq<Position>, par: Option<Id>) {
    && (forall c | c in list :: c.id in p && p[c.id] == par)
    && (forall i, j | 0 <= i < j < |list| :: list[i].id != list[j].id)
  }

  /** The table holds the rows of the list, so a list of siblings is the list of rows with one parent. */
  lemma ListIsTable(positions: seq<Position>, par: Option<Id>)
    requires UniqueIds(Rows(positions))
    ensures AreSiblings(TableOf(positions), Among(positions, par), par)
    ensures forall y | y in TableOf(positions) && TableOf(positions)[y] == par ::
              exists i :: 0 <= i < |Among(positions, par)| && Among(positions, par)[i].id == y
  {
    var rows, list := Rows(positions), Among(positions, par);
    ByIdRows(rows);
    var at := SiblingsInOrder(positions, par);
    forall c | c in list ensures c.id in ById(rows) && ById(rows)[c.id] == par {
      AmongThem(positions, par, c);
      var i :| 0 <= i < |positions| && positions[i] == c;
      assert rows[i] == TreeRow(c.id, par);
    }
    forall y | y in ById(rows) && ById(rows)[y] == par ensures exists i :: 0 <= i < |list| && list[i].id == y {
      var i :| 0 <= i < |rows| && rows[i].id == y;
      AmongThem(positions, par, positions[i]);
    }
    forall i, j | 0 <= i < j < |list| ensures list[i].id != list[j].id {
      assert rows[at[i]].id == list[i].id && rows[at[j]].id == list[j].id;
    }
  }

  lemma NotUnderItself(p: Table, x: Id, n: nat, d: int)
    requires RootedAt(p, x, n)
    ensures !Within(p, x, Some(x), d)
  {
    forall k: nat | 1 <= k <= d ensures !Reaches(p, Some(x), Some(x), k) {
      if Reaches(p, Some(x), Some(x), k) {
        ReachesOn(p, Some(x), Some(x), None, k, n);
        OneLevel(p, Some(x), n, k + n);
      }
    }
  }

  ghost predicate UnderSome(p: Table, x: Id, list: seq<Position>, d: int) {
    exists i :: 0 <= i < |list| && AtOrWithin(p, x, list[i].id, d)
  }

  /** One step further down: below `par` is at or below one of its children. */
  lemma WithinByChildren(positions: seq<Position>, x: Id, par: Option<Id>, d: int)
    requires UniqueIds(Rows(positions)) && d >= 1
    ensures Within(TableOf(positions), x, par, d) <==> UnderSome(TableOf(positions), x, Among(positions, par), d - 1)
  {
    var p, list := TableOf(positions), Among(positions, par);
    ListIsTable(positions, par);
    if k: nat :| 1 <= k <= d && Reaches(p, Some(x), par, k) {
      var y := LastStep(p, Some(x), par, k);
      var i :| 0 <= i < |list| && list[i].id == y;
      assert AtOrWithin(p, x, y, d - 1);
    }
    if i :| 0 <= i < |list| && AtOrWithin(p, x, list[i].id, d - 1) {
      var c := list[i].id;
      assert c in p && p[c] == par;
      assert Reaches(p, p[c], par, 0);
      assert Reaches(p, Some(c), par, 1);
      if x != c {
        var k: nat :| 1 <= k <= d - 1 && Reaches(p, Some(x), Some(c), k);
        ReachesOn(p, Some(x), Some(c), par, k, 1);
      }
    }
  }

  ghost predicate CountedAt(p: Table, node: Node, x: Id, d: int) {
    CountIn(node.children, x) == if Within(p, x, Some(node.id), d) then 1 else 0
  }

  /** Below a rooted branch every row within the cut-off is emitted once, and nothing else is. */
  lemma {:induction false} OnceUnder(positions: seq<Position>, members: seq<Member>, par: Option<Id>, depth: nat, x: Id)
    requires UniqueIds(Rows(positions)) && Reaches(TableOf(positions), par, None, depth)
    ensures CountIn(Forest(positions, members, par, depth), x) ==
            if Within(TableOf(positions), x, par, ORG_MAX_DEPTH - depth) then 1 else 0
    decreases ORG_MAX_DEPTH - depth
  {
    var p := TableOf(positions);
    if depth < ORG_MAX_DEPTH {
      var list, nodes := Among(positions, par), Forest(positions, members, par, depth);
      ListIsTable(positions, par);
      forall i | 0 <= i < |nodes| ensures CountedAt(p, nodes[i], x, ORG_MAX_DEPTH - depth - 1) {
        assert list[i] in list;
        assert RootedAt(p, list[i].id, depth + 1);
        OnceUnder(positions, members, Some(list[i].id), depth + 1, x);
      }
      OnceAmong(p, list, nodes, par, depth, x, |nodes|);
      assert nodes[..|nodes|] == nodes && list[..|nodes|] == list;
      WithinByChildren(positions, x, par, ORG_MAX_DEPTH - depth);
    }
  }

  lemma {:induction false} OnceAmong(p: Table, list: seq<Position>, nodes: seq<Node>, par: Option<Id>, depth: nat,
      x: Id, n: nat)
    requires n <= |list| == |nodes| && depth < ORG_MAX_DEPTH && Reaches(p, par, None, depth)
    requires AreSiblings(p, list, par)
    requires forall i | 0 <= i < |list| ::
               nodes[i].id == list[i].id && CountedAt(p, nodes[i], x, ORG_MAX_DEPTH - depth - 1)
    ensures CountIn(nodes[..n], x) == if UnderSome(p, x, list[..n], ORG_MAX_DEPTH - depth - 1) then 1 else 0
  {
    if n > 0 {
      OnceAmong(p, list, nodes, par, depth, x, n - 1);
      OneBranch(p, list, par, depth, x, n - 1);
      assert nodes[..n][..n - 1] == nodes[..n - 1];
      assert CountedAt(p, nodes[n - 1], x, ORG_MAX_DEPTH - depth - 1);
    }
  }

  /** `x` is the next sibling, or below it, or in one of the branches before: at most one of the three. */
  lemma OneBranch(p: Table, list: seq<Position>, par: Option<Id>, depth: nat, x: Id, n: nat)
    requires n < |list| && depth < ORG_MAX_DEPTH && Reaches(p, par, None, depth) && AreSiblings(p, list, par)
    ensures var d := ORG_MAX_DEPTH - depth - 1;
            var before, at, below := UnderSome(p, x, list[..n], d), x == list[n].id, Within(p, x, Some(list[n].id), d);
            && (UnderSome(p, x, list[..n + 1], d) <==> before || at || below)
            && !(before && at) && !(before && below) && !(at && below)
  {
    var d := ORG_MAX_DEPTH - depth - 1;
    var c := list[n].id;
    assert list[n] in list && RootedAt(p, c, depth + 1);
    NotUnderItself(p, c, depth + 1, d);
    UnderOneMore(p, x, list, n, d);
    forall i | 0 <= i < n && AtOrWithin(p, x, list[i].id, d) ensures !AtOrWithin(p, x, c, d) {
      assert list[i] in list;
      if AtOrWithin(p, x, c, d) {
        OneSibling(p, x, par, depth, list[i].id, c);
      }
    }
  }

  lemma UnderOneMore(p: Table, x: Id, list: seq<Position>, n: nat, d: int)
    requires n < |list|
    ensures UnderSome(p, x, list[..n + 1], d) <==> UnderSome(p, x, list[..n], d) || AtOrWithin(p, x, list[n].id, d)
  {
  }

  /** The forest shows exactly the positions whose whole chain, of at most five rows, is in the input, each once. */
  lemma EachOnce(positions: seq<Position>, members: seq<Member>, x: Id)
    requires UniqueIds(Rows(positions))
    ensures Times(Ids(Forest(positions, members, None, 0)), x) ==
            if Within(TableOf(positions), x, None, 5) then 1 else 0
  {
    OnceUnder(positions, members, None, 0, x);
    TimesIsCount(Forest(positions, members, None, 0), x);
  }

  /** A chain of published rows is as long in the published rows as in the whole table. */
  lemma {:induction false} ReachesInWhole(p: Table, whole: Table, x: Option<Id>, y: Option<Id>, k: nat)
    requires forall z | z in p :: z in whole && whole[z] == p[z]
    requires Reaches(p, x, y, k)
    ensures Up(whole, x, k) == y
    ensures forall j: nat | j < k :: Up(whole, x, j).Some? && Up(whole, x, j).value in p
    decreases k
  {
    if k > 0 {
      ReachesInWhole(p, whole, p[x.value], y, k - 1);
      forall j: nat | j < k ensures Up(whole, x, j).Some? && Up(whole, x, j).value in p {
        assert j > 0 ==> Up(whole, x, j) == Up(whole, p[x.value], j - 1);
      }
    }
  }

  /** `x` and every row above it in the whole table are in `p`. */
  ghost predicate AllPublished(p: Table, whole: Table, x: Id) {
    forall n: nat | Up(whole, Some(x), n).Some? :: Up(whole, Some(x), n).value in p
  }

  lemma {:induction false} PublishedChain(p: Table, whole: Table, x: Id, d: nat) returns (n: nat)
    requires forall z | z in p :: z in whole && whole[z] == p[z]
    requires Up(whole, Some(x), d) == None
    requires AllPublished(p, whole, x)
    ensures 1 <= n <= d && RootedAt(p, x, n)
    decreases d
  {
    assert Up(whole, Some(x), 0) == Some(x);
    if p[x].None? {
      n := 1;
      assert Reaches(p, p[x], None, 0);
    } else {
      forall n: nat | Up(whole, Some(p[x].value), n).Some? ensures Up(whole, Some(p[x].value), n).value in p {
        assert Up(whole, Some(x), n + 1) == Up(whole, p[x], n);
      }
      var m := PublishedChain(p, whole, p[x].value, d - 1);
      n := m + 1;
    }
  }

  /**
   On the published rows of a table the write guard accepts, the depth cut-off drops nothing: a
   position is on the chart exactly when it and all its ancestors are published.
   */
  lemma ShownWhenAllPublished(whole: Table, positions: seq<Position>, members: seq<Member>, x: Id)
    requires ValidTree(whole, ORG_MAX_DEPTH) && x in whole
    requires UniqueIds(Rows(positions))
    requires forall z | z in TableOf(positions) :: z in whole && whole[z] == TableOf(positions)[z]
    ensures x in Ids(Forest(positions, members, None, 0)) <==> AllPublished(TableOf(positions), whole, x)
  {
    EachOnce(positions, members, x);
    var p := TableOf(positions);
    var ids := Ids(Forest(positions, members, None, 0));
    assert x in ids <==> Times(ids, x) > 0;
    if x in ids {
      var k: nat :| 1 <= k <= ORG_MAX_DEPTH && Reaches(p, Some(x), None, k);
      ReachesInWhole(p, whole, Some(x), None, k);
      forall n: nat | Up(whole, Some(x), n).Some? ensures Up(whole, Some(x), n).value in p {
        if n >= k {
          Ended(whole, Some(x), k, n);
        }
      }
    }
    if AllPublished(p, whole, x) {
      var n := PublishedChain(p, whole, x, ORG_MAX_DEPTH);
      assert Within(p, x, None, ORG_MAX_DEPTH);
    }
  }

  // ---- what a node shows ----------------------------------------------------------------

  /** `node` is found by taking the child with index `path[0]`, then `path[1]` and so on. */
  ghost predicate At(nodes: seq<Node>, path: seq<nat>, node: Node)
    decreases |path|
  {
    && |path| > 0 && path[0] < |nodes|
    && (if |path| == 1 then nodes[path[0]] == node else At(nodes[path[0]].children, path[1..], node))
  }

  function Names(list: seq<Position>): seq<Id> {
    seq(|list|, i requires 0 <= i < |list| => list[i].id)
  }

  function NodeIds(nodes: seq<Node>): seq<Id> {
    seq(|nodes|, i requires 0 <= i < |nodes| => nodes[i].id)
  }

  /** What the chart must show of `p` at `level` (1 for a root). */
  ghost predicate Shows(positions: seq<Position>, members: seq<Member>, node: Node, p: Position, level: nat) {
    && p in positions && node.id == p.id && node.nameAr == p.nameAr && node.nameEn == p.nameEn
    && (p.tone != Auto ==> node.tone == p.tone)
    && (p.tone == Auto && 1 <= level ==> node.tone == AUTO_TONES[if level <= 4 then level - 1 else 3])
    && node.holders == ShownHolders(members, p)
    && (level < ORG_MAX_DEPTH ==> NodeIds(node.children) == Names(Among(positions, Some(p.id))))
    && (level >= ORG_MAX_DEPTH ==> node.children == [])
  }

  ghost predicate ShowsSome(positions: seq<Position>, members: seq<Member>, node: Node, level: nat) {
    exists p :: Shows(positions, members, node, p, level)
  }

  lemma NodeShows(positions: seq<Position>, members: seq<Member>, par: Option<Id>, depth: nat, i: nat)
    requires depth < ORG_MAX_DEPTH && i < |Among(positions, par)|
    ensures Shows(positions, members, Forest(positions, members, par, depth)[i], Among(positions, par)[i], depth + 1)
  {
    var p := Among(positions, par)[i];
    AmongThem(positions, par, p);
    assert Forest(positions, members, par, depth)[i] ==
           Node(p.id, p.nameAr, p.nameEn, ResolveTone(p.tone, depth), ShownHolders(members, p),
             Forest(positions, members, Some(p.id), depth + 1));
  }

  /** Every node shows a position, at the level that position has in the input. */
  lemma {:induction false} NodeShowsPosition(positions: seq<Position>, members: seq<Member>, par: Option<Id>,
      depth: nat, node: Node, path: seq<nat>)
    requires UniqueIds(Rows(positions)) && Reaches(TableOf(positions), par, None, depth)
    requires At(Forest(positions, members, par, depth), path, node)
    ensures ShowsSome(positions, members, node, depth + |path|) && RootedAt(TableOf(positions), node.id, depth + |path|)
    decreases |path|
  {
    ChildRooted(positions, par, depth, path[0]);
    if |path| == 1 {
      NodeShows(positions, members, par, depth, path[0]);
    } else {
      var c := Forest(positions, members, par, depth)[path[0]];
      NodeShowsPosition(positions, members, Some(c.id), depth + 1, node, path[1..]);
    }
  }

  lemma ChildRooted(positions: seq<Position>, par: Option<Id>, depth: nat, i: nat)
    requires UniqueIds(Rows(positions)) && Reaches(TableOf(positions), par, None, depth) && i < |Among(positions, par)|
    ensures RootedAt(TableOf(positions), Among(positions, par)[i].id, depth + 1)
  {
    ListIsTable(positions, par);
    assert Among(positions, par)[i] in Among(positions, par);
  }

  // ---- holders --------------------------------------------------------------------------

  function AllHolders(nodes: seq<Node>): seq<Holder> {
    if nodes == [] then []
    else AllHolders(nodes[..|nodes| - 1]) + nodes[|nodes| - 1].holders + AllHolders(nodes[|nodes| - 1].children)
  }

  function HolderOf(m: Member): Holder {
    Holder(m.id, m.nameAr, m.nameEn)
  }

  predicate UniqueMembers(members: seq<Member>) {
    forall i, j | 0 <= i < j < |members| :: members[i].id != members[j].id
  }

  lemma {:induction false} HeldOnce(members: seq<Member>, m: Member, position: Id)
    requires UniqueMembers(members)
    ensures Times(HoldersOf(members, position), HolderOf(m)) <= 1
    ensures m in members ==> Times(HoldersOf(members, position), HolderOf(m)) == if Holds(m, position) then 1 else 0
    ensures Times(HoldersOf(members, position), HolderOf(m)) == 1 ==>
            exists i :: 0 <= i < |members| && members[i].id == m.id
  {
    if members != [] {
      var init, last := members[..|members| - 1], members[|members| - 1];
      HeldOnce(init, m, position);
      assert members == init + [last];
      TimesAdd(HoldersOf(init, position), if Holds(last, position) then [HolderOf(last)] else [], HolderOf(m));
      forall i | 0 <= i < |init| ensures init[i].id != last.id {
        assert members[i] == init[i];
      }
      if i :| 0 <= i < |init| && init[i].id == m.id {
        assert members[i].id == m.id;
      }
    }
  }

  lemma TimesAdd<T>(a: seq<T>, b: seq<T>, x: T)
    ensures Times(a + b, x) == Times(a, x) + Times(b, x)
  {
  }

  /** The node lists the holder `times` times if it shows `q` and not at all otherwise; so do the nodes below it. */
  ghost predicate HolderAt(node: Node, q: Id, h: Holder, times: nat) {
    && Times(node.holders, h) == (if node.id == q then times else 0)
    && Times(AllHolders(node.children), h) == (if times == 1 then CountIn(node.children, q) else 0)
  }

  lemma {:induction false} SumHolders(nodes: seq<Node>, q: Id, h: Holder, times: nat)
    requires times <= 1 && forall i | 0 <= i < |nodes| :: HolderAt(nodes[i], q, h, times)
    ensures Times(AllHolders(nodes), h) == if times == 1 then CountIn(nodes, q) else 0
  {
    if nodes != [] {
      var init, last := nodes[..|nodes| - 1], nodes[|nodes| - 1];
      SumHolders(init, q, h, times);
      assert HolderAt(last, q, h, times);
      TimesAdd(AllHolders(init) + last.holders, AllHolders(last.children), h);
      TimesAdd(AllHolders(init), last.holders, h);
    }
  }

  /** Positions with the id `q` list the holder `times` times, and no other position lists it. */
  ghost predicate ListedFor(positions: seq<Position>, members: seq<Member>, h: Holder, q: Id, times: nat) {
    forall p | p in positions :: Times(ShownHolders(members, p), h) == if p.id == q then times else 0
  }

  lemma {:induction false} HoldersUnder(positions: seq<Position>, members: seq<Member>, par: Option<Id>, depth: nat,
                                        h: Holder, q: Id, times: nat)
    requires times <= 1 && ListedFor(positions, members, h, q, times)
    ensures Times(AllHolders(Forest(positions, members, par, depth)), h) ==
            if times == 1 then CountIn(Forest(positions, members, par, depth), q) else 0
    decreases ORG_MAX_DEPTH - depth
  {
    if depth < ORG_MAX_DEPTH {
      var nodes, list := Forest(positions, members, par, depth), Among(positions, par);
      forall i | 0 <= i < |nodes| ensures HolderAt(nodes[i], q, h, times) {
        HoldersUnder(positions, members, Some(list[i].id), depth + 1, h, q, times);
        AmongThem(positions, par, list[i]);
      }
      SumHolders(nodes, q, h, times);
    }
  }

  lemma SameId(positions: seq<Position>, a: Position, b: Position)
    requires UniqueIds(Rows(positions)) && a in positions && b in positions && a.id == b.id
    ensures a == b
  {
    var i :| 0 <= i < |positions| && positions[i] == a;
    var j :| 0 <= j < |positions| && positions[j] == b;
    assert Rows(positions)[i].id == Rows(positions)[j].id;
  }

  /**
   A member appears once, at its position, when that position is on the chart and shows its holders,
   and never otherwise.
   */
  lemma HolderOnce(positions: seq<Position>, members: seq<Member>, m: Member, at: Position)
    requires UniqueIds(Rows(positions)) && UniqueMembers(members) && m in members
    requires at in positions && m.orgPositionId == Some(at.id)
    ensures Times(AllHolders(Forest(positions, members, None, 0)), HolderOf(m)) ==
            if at.showHolders && at.id != "" && Within(TableOf(positions), at.id, None, ORG_MAX_DEPTH) then 1 else 0
  {
    var times: nat := if at.showHolders && at.id != "" then 1 else 0;
    forall p | p in positions
      ensures Times(ShownHolders(members, p), HolderOf(m)) == if p.id == at.id then times else 0
    {
      HeldOnce(members, m, p.id);
      if p.id == at.id {
        SameId(positions, p, at);
      }
    }
    HoldersUnder(positions, members, None, 0, HolderOf(m), at.id, times);
    OnceUnder(positions, members, None, 0, at.id);
  }

  /** A member without a position, or with one that is not in the input, does not appear. */
  lemma HolderOfNothing(positions: seq<Position>, members: seq<Member>, m: Member)
    requires UniqueMembers(members) && m in members
    requires forall p | p in positions :: m.orgPositionId != Some(p.id)
    ensures HolderOf(m) !in AllHolders(Forest(positions, members, None, 0))
  {
    forall p | p in positions ensures Times(ShownHolders(members, p), HolderOf(m)) == 0 {
      HeldOnce(members, m, p.id);
    }
    HoldersUnder(positions, members, None, 0, HolderOf(m), "", 0);
    assert Times(AllHolders(Forest(positions, members, None, 0)), HolderOf(m)) == 0;
  }
}
