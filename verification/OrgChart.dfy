/** Admin writes to the org chart: each runs in one transaction that locks the whole table. */
module OrgChart {
  import opened Wrappers
  import opened ParentTable
  import opened TreeGuard

  datatype Position = Position(parentId: Option<Id>, sortOrder: int, isPublished: bool)

  datatype OrgError = NotFound | Guard(reason: TreeGuardError) | InUse

  function TableOf(positions: map<Id, Position>): Table {
    map x | x in positions :: positions[x].parentId
  }

  lemma TableWith(positions: map<Id, Position>, id: Id, row: Position)
    ensures TableOf(positions[id := row]) == TableOf(positions)[id := row.parentId]
  {
  }

  predicate IsChild(positions: map<Id, Position>, x: Id, parentId: Option<Id>) {
    x in positions && positions[x].parentId == parentId
  }

  /** Directly after the last child of `parentId`; 0 when there is none. */
  ghost predicate DirectlyLast(positions: map<Id, Position>, parentId: Option<Id>, sortOrder: int) {
    && (forall x | IsChild(positions, x, parentId) :: positions[x].sortOrder < sortOrder)
    && (if exists x :: IsChild(positions, x, parentId)
        then exists x :: IsChild(positions, x, parentId) && positions[x].sortOrder == sortOrder - 1
        else sortOrder == 0)
  }

  class OrgPositions {
    var positions: map<Id, Position>
    var members: map<Id, Option<Id>>

    /** The chart is a forest of at most five levels and members hold existing positions. */
    ghost predicate Valid()
      reads this
    {
      && ValidTree(TableOf(positions), ORG_MAX_DEPTH)
      && forall m | m in members && members[m].Some? :: members[m].value in positions
    }

    constructor ()
      ensures Valid() && positions == map[] && members == map[]
    {
      positions, members := map[], map[];
      BoundedIsAcyclic(map[], ORG_MAX_DEPTH);
      assert TableOf(map[]) == map[];
    }

    /** `SELECT id, parent_id FROM org_positions ... FOR UPDATE`. */
    method LockTree() returns (rows: seq<TreeRow>)
      ensures UniqueIds(rows) && ById(rows) == TableOf(positions)
    {
      rows := [];
      var rest := positions.Keys;
      while rest != {}
        invariant rest <= positions.Keys && UniqueIds(rows)
        invariant forall i | 0 <= i < |rows| ::
                    rows[i].id in positions.Keys - rest && rows[i].parentId == positions[rows[i].id].parentId
        invariant forall x | x in positions.Keys - rest :: TreeRow(x, positions[x].parentId) in rows
      {
        var x :| x in rest;
        rows := rows + [TreeRow(x, positions[x].parentId)];
        assert rows[|rows| - 1] == TreeRow(x, positions[x].parentId);
        rest := rest - {x};
      }
      ByIdRows(rows);
      forall x ensures x in ById(rows) <==> x in TableOf(positions) {
        if x in positions {
          var i :| 0 <= i < |rows| && rows[i] == TreeRow(x, positions[x].parentId);
        }
      }
    }

    /** `COALESCE(MAX(sort_order), -1) + 1` over the children of `parentId`. */
    method NextSortOrder(parentId: Option<Id>) returns (next: int)
      ensures DirectlyLast(positions, parentId, next)
    {
      var max: Option<Id> := None;
      var rest := positions.Keys;
      while rest != {}
        invariant rest <= positions.Keys
        invariant max.Some? ==> IsChild(positions, max.value, parentId) && max.value !in rest
        invariant forall x | IsChild(positions, x, parentId) && x !in rest ::
                    max.Some? && positions[x].sortOrder <= positions[max.value].sortOrder
      {
        var x :| x in rest;
        if positions[x].parentId == parentId && (max.None? || positions[x].sortOrder > positions[max.value].sortOrder) {
          max := Some(x);
        }
        rest := rest - {x};
      }
      next := if max.Some? then positions[max.value].sortOrder + 1 else 0;
    }

    method Create(id: Id, parentId: Option<Id>, sortOrder: Option<int>, isPublished: bool)
      returns (r: Result<Position, OrgError>)
      requires Valid() && id !in positions
      modifies this`positions
      ensures Valid()
      ensures r.Ok? <==> ValidTree(TableOf(old(positions))[id := parentId], ORG_MAX_DEPTH)
      ensures r.Err? ==> r.error.Guard? && positions == old(positions)
      ensures r.Ok? ==>
              positions == old(positions)[id := r.value] && r.value.parentId == parentId &&
                r.value.isPublished == isPublished
      ensures r.Ok? ==> if sortOrder.Some? then r.value.sortOrder == sortOrder.value
                        else DirectlyLast(old(positions), parentId, r.value.sortOrder)
    {
      var rows := LockTree();
      var error := CheckParent(rows, None, parentId, ORG_MAX_DEPTH);
      assert id !in TableOf(positions);
      if error.Some? {
        return Err(Guard(error.value));
      }
      var order;
      if sortOrder.Some? {
        order := sortOrder.value;
      } else {
        order := NextSortOrder(parentId);
      }
      var row := Position(parentId, order, isPublished);
      TableWith(positions, id, row);
      positions := positions[id := row];
      return Ok(row);
    }

    /** `parentId` is None when the request does not mention it, Some(None) when it asks for a root. */
    method Update(id: Id, parentId: Option<Option<Id>>, sortOrder: Option<int>, isPublished: Option<bool>)
      returns (r: Result<Position, OrgError>)
      requires Valid()
      modifies this`positions
      ensures Valid()
      ensures r.Ok? <==> (id in old(positions) &&
                          (parentId.None? || ValidTree(TableOf(old(positions))[id := parentId.value], ORG_MAX_DEPTH)))
      ensures r.Err? ==> positions == old(positions) && (r.error == NotFound <==> id !in old(positions))
      ensures r.Ok? ==>
                var was := old(positions)[id];
                && positions == old(positions)[id := r.value]
                && r.value.parentId == (if parentId.Some? then parentId.value else was.parentId)
                && r.value.isPublished == (if isPublished.Some? then isPublished.value else was.isPublished)
                && if sortOrder.Some? then r.value.sortOrder == sortOrder.value
                   else if r.value.parentId == was.parentId then r.value.sortOrder == was.sortOrder
                   else DirectlyLast(old(positions), r.value.parentId, r.value.sortOrder)
    {
      var rows := LockTree();
      if id !in positions {
        return Err(NotFound);
      }
      var was := positions[id];
      var moving := parentId.Some? && parentId.value != was.parentId;
      var row := Position(
        if parentId.Some? then parentId.value else was.parentId,
        if sortOrder.Some? then sortOrder.value else was.sortOrder,
        if isPublished.Some? then isPublished.value else was.isPublished);
      TableWith(positions, id, was);
      assert positions[id := was] == positions;
      if moving {
        var error := CheckParent(rows, Some(id), row.parentId, ORG_MAX_DEPTH);
        if error.Some? {
          return Err(Guard(error.value));
        }
        if sortOrder.None? {
          var order := NextSortOrder(row.parentId);
          row := row.(sortOrder := order);
        }
      }
      TableWith(positions, id, row);
      positions := positions[id := row];
      return Ok(row);
    }

    method Remove(id: Id) returns (r: Result<Position, OrgError>)
      requires Valid()
      modifies this`positions
      ensures Valid()
      ensures r.Err? ==> positions == old(positions)
      ensures r.Err? && r.error == NotFound <==> id !in old(positions)
      ensures r.Ok? <==>
              id in old(positions) && (forall x :: !IsChild(old(positions), x, Some(id))) &&
                forall m | m in members :: members[m] != Some(id)
      ensures r.Ok? ==> r.value == old(positions)[id] && positions == old(positions) - {id}
    {
      if id !in positions {
        return Err(NotFound);
      }
      if (exists x :: x in positions && IsChild(positions, x, Some(id))) ||
         exists m :: m in members && members[m] == Some(id) {
        return Err(InUse);
      }
      LeafRemoved(TableOf(positions), id, ORG_MAX_DEPTH);
      r := Ok(positions[id]);
      positions := positions - {id};
      assert TableOf(positions) == TableOf(old(positions)) - {id};
    }

    /** A member may hold any position that exists, or none. */
    method Assign(member: Id, position: Option<Id>) returns (r: Result<(), OrgError>)
      requires Valid()
      modifies this`members
      ensures Valid()
      ensures r.Ok? <==> position.None? || position.value in positions
      ensures members == if r.Ok? then old(members)[member := position] else old(members)
    {
      if position.Some? && position.value !in positions {
        return Err(NotFound);
      }
      members := members[member := position];
      return Ok(());
    }

    /** The inherited publish route writes one column. */
    method Publish(id: Id, nextState: bool) returns (r: Result<Position, OrgError>)
      requires Valid()
      modifies this`positions
      ensures Valid()
      ensures r == if id in old(positions) then Ok(old(positions)[id].(isPublished := nextState)) else Err(NotFound)
      ensures positions == if r.Ok? then old(positions)[id := r.value] else old(positions)
    {
      if id !in positions {
        return Err(NotFound);
      }
      r := Ok(positions[id].(isPublished := nextState));
      positions := positions[id := r.value];
      assert TableOf(positions) == TableOf(old(positions));
    }

    /** So does the inherited reorder route, for one row after the other; ids without a row are passed over. */
    method Reorder(items: seq<(Id, int)>)
      requires Valid()
      modifies this`positions
      ensures Valid() && positions.Keys == old(positions).Keys
      ensures forall x | x in positions ::
                positions[x] == old(positions)[x].(sortOrder := LastOrder(items, x, old(positions)[x].sortOrder))
    {
      for i := 0 to |items|
        invariant positions.Keys == old(positions).Keys
        invariant forall x | x in positions ::
                    positions[x] == old(positions)[x].(sortOrder :=
                      LastOrder(items[..i], x, old(positions)[x].sortOrder))
      {
        var (id, order) := items[i];
        assert items[..i + 1][..i] == items[..i];
        if id in positions {
          positions := positions[id := positions[id].(sortOrder := order)];
        }
      }
      assert items[..|items|] == items;
      assert TableOf(positions) == TableOf(old(positions));
    }
  }

  /** The order the last item for `x` asks for, or the one it had. */
  function LastOrder(items: seq<(Id, int)>, x: Id, was: int): int {
    if items == [] then was
    else if items[|items| - 1].0 == x then items[|items| - 1].1
    else LastOrder(items[..|items| - 1], x, was)
  }

  lemma {:induction false} NoOrderAsked(items: seq<(Id, int)>, x: Id, was: int)
    requires forall i | 0 <= i < |items| :: items[i].0 != x
    ensures LastOrder(items, x, was) == was
  {
    if items != [] {
      NoOrderAsked(items[..|items| - 1], x, was);
    }
  }

  lemma {:induction false} LastOrderIs(items: seq<(Id, int)>, x: Id, was: int, i: nat)
    requires i < |items| && items[i].0 == x && forall j | i < j < |items| :: items[j].0 != x
    ensures LastOrder(items, x, was) == items[i].1
  {
    if i < |items| - 1 {
      LastOrderIs(items[..|items| - 1], x, was, i);
    }
  }
}
