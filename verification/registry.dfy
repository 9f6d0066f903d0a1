/**
  The list of drawn areas: naming, lookup by cell, the overlap scan a new
  rectangle must pass, removal by id, and the invariant the editor keeps
  (areas inside the grid, pairwise non-overlapping, ids ascending and below
  the next id to be issued, names derived from ids).
*/
module Registry {
  import opened Wrappers
  import opened Geometry
  import Text

  /** Area ids are issued from 1 upwards, so every id is truthy in the source. */
  type AreaId = n: int | n >= 1 witness 1

  datatype Area = Area(id: AreaId, name: string, bounds: Rect)

  /** The class name of area `id`: "div" followed by the decimal id. */
  function AreaName(id: AreaId): (name: string)
    ensures |name| > 3 && name[..3] == "div"
    ensures Text.ParseNat(name[3..]) == Some(id)
    ensures Text.AllDigits(name[3..]) && Text.Canonical(name[3..])
  {
    Text.NatToStringRoundTrip(id);
    var name := "div" + Text.NatToString(id);
    assert name[3..] == Text.NatToString(id);
    name
  }

  /** Different ids never share a name. */
  lemma AreaNameInjective(a: AreaId, b: AreaId)
    requires AreaName(a) == AreaName(b)
    ensures a == b
  {
  }

  function NewArea(id: AreaId, b: Rect): Area {
    Area(id, AreaName(id), b)
  }

  /**
    The id of the first area, in list order, whose bounds cover `c`; None
    when no area covers it.
  */
  function AreaIdAtCell(areas: seq<Area>, c: Cell): (r: Option<AreaId>)
    ensures r.None? <==> forall j :: 0 <= j < |areas| ==> !Covers(areas[j].bounds, c)
    ensures r.Some? ==> exists j :: (0 <= j < |areas| && areas[j].id == r.value &&
      Covers(areas[j].bounds, c) && forall k :: 0 <= k < j ==> !Covers(areas[k].bounds, c))
  {
    if |areas| == 0 then None
    else if Covers(areas[0].bounds, c) then Some(areas[0].id)
    else
      var r := AreaIdAtCell(areas[1..], c);
      assert r.Some? ==> exists j :: (1 <= j < |areas| && areas[j].id == r.value &&
        Covers(areas[j].bounds, c) && forall k :: 0 <= k < j ==> !Covers(areas[k].bounds, c))
      by {
        if r.Some? {
          var j :| 0 <= j < |areas[1..]| && areas[1..][j].id == r.value &&
            Covers(areas[1..][j].bounds, c) && forall k :: 0 <= k < j ==> !Covers(areas[1..][k].bounds, c);
          assert areas[j + 1] == areas[1..][j];
          forall k | 0 <= k < j + 1 ensures !Covers(areas[k].bounds, c) {
            if k > 0 { assert areas[k] == areas[1..][k - 1]; }
          }
        }
      }
      r
  }

  /** Whether `b` overlaps any area in the list. */
  function HasOverlap(b: Rect, areas: seq<Area>): (r: bool)
    ensures r <==> exists j :: 0 <= j < |areas| && Overlap(b, areas[j].bounds)
  {
    if |areas| == 0 then false
    else if Overlap(b, areas[0].bounds) then true
    else
      var r := HasOverlap(b, areas[1..]);
      assert r ==> exists j :: 0 <= j < |areas| && Overlap(b, areas[j].bounds) by {
        if r {
          var j :| 0 <= j < |areas[1..]| && Overlap(b, areas[1..][j].bounds);
          assert areas[j + 1] == areas[1..][j];
        }
      }
      r
  }

  /** The list without the areas whose id is `id`, the rest in their order. */
  function RemoveId(areas: seq<Area>, id: AreaId): (r: seq<Area>)
    ensures |r| <= |areas|
    ensures (forall j :: 0 <= j < |areas| ==> areas[j].id != id) ==> r == areas
  {
    if |areas| == 0 then []
    else
      var rest := RemoveId(areas[1..], id);
      if areas[0].id == id then rest
      else
        assert (forall j :: 0 <= j < |areas| ==> areas[j].id != id) ==> rest == areas[1..] by {
          if forall j :: 0 <= j < |areas| ==> areas[j].id != id {
            forall j | 0 <= j < |areas[1..]| ensures areas[1..][j].id != id {
              assert areas[1..][j] == areas[j + 1];
            }
          }
        }
        assert areas == [areas[0]] + areas[1..];
        [areas[0]] + rest
  }

  /** Removal keeps exactly the areas whose id differs. */
  lemma {:induction false} RemoveIdMembers(areas: seq<Area>, id: AreaId)
    ensures forall a :: a in RemoveId(areas, id) <==> a in areas && a.id != id
    decreases |areas|
  {
    if |areas| > 0 {
      RemoveIdMembers(areas[1..], id);
      assert areas == [areas[0]] + areas[1..];
    }
  }

  predicate Disjoint(areas: seq<Area>) {
    forall i, j :: 0 <= i < j < |areas| ==> !Overlap(areas[i].bounds, areas[j].bounds)
  }

  predicate IdsAscending(areas: seq<Area>) {
    forall i, j :: 0 <= i < j < |areas| ==> areas[i].id < areas[j].id
  }

  predicate WellNamed(areas: seq<Area>) {
    forall i :: 0 <= i < |areas| ==> areas[i].name == AreaName(areas[i].id)
  }

  predicate IdsBelow(areas: seq<Area>, next: int) {
    forall i :: 0 <= i < |areas| ==> areas[i].id < next
  }

  predicate InsideGrid(areas: seq<Area>, rows: int, columns: int) {
    forall i :: 0 <= i < |areas| ==> RectInGrid(areas[i].bounds, rows, columns)
  }

  /** The registry invariant. */
  predicate WellFormed(areas: seq<Area>, next: int, rows: int, columns: int) {
    Disjoint(areas) && IdsAscending(areas) && WellNamed(areas) &&
    IdsBelow(areas, next) && InsideGrid(areas, rows, columns)
  }

  /**
    The registry invariant without the grid bound: what the list keeps even
    when its areas no longer fit the grid.
  */
  predicate Registered(areas: seq<Area>, next: int) {
    Disjoint(areas) && IdsAscending(areas) && WellNamed(areas) && IdsBelow(areas, next)
  }

  lemma AddKeepsDisjoint(areas: seq<Area>, a: Area)
    requires Disjoint(areas)
    requires !HasOverlap(a.bounds, areas)
    ensures Disjoint(areas + [a])
  {
    var s := areas + [a];
    forall i, j | 0 <= i < j < |s|
      ensures !Overlap(s[i].bounds, s[j].bounds)
    {
      assert s[i] == areas[i];
      if j == |areas| {
        OverlapSymmetric(a.bounds, s[i].bounds);
      } else {
        assert s[j] == areas[j];
      }
    }
  }

  lemma AddKeepsIds(areas: seq<Area>, next: AreaId)
    requires IdsAscending(areas) && IdsBelow(areas, next)
    ensures forall b :: IdsAscending(areas + [NewArea(next, b)]) && IdsBelow(areas + [NewArea(next, b)], next + 1)
  {
    forall b: Rect
      ensures IdsAscending(areas + [NewArea(next, b)]) && IdsBelow(areas + [NewArea(next, b)], next + 1)
    {
      var s := areas + [NewArea(next, b)];
      forall i, j | 0 <= i < j < |s| ensures s[i].id < s[j].id {
        assert s[i] == areas[i];
      }
      forall i | 0 <= i < |s| ensures s[i].id < next + 1 {
        if i < |areas| { assert s[i] == areas[i]; }
      }
    }
  }

  /** Appending a rectangle that passed the overlap scan keeps the invariant. */
  lemma AddPreservesWellFormed(areas: seq<Area>, next: AreaId, rows: int, columns: int, b: Rect)
    requires WellFormed(areas, next, rows, columns)
    requires RectInGrid(b, rows, columns)
    requires !HasOverlap(b, areas)
    ensures WellFormed(areas + [NewArea(next, b)], next + 1, rows, columns)
  {
    var s := areas + [NewArea(next, b)];
    AddKeepsDisjoint(areas, NewArea(next, b));
    AddKeepsIds(areas, next);
    forall i | 0 <= i < |s|
      ensures s[i].name == AreaName(s[i].id) && RectInGrid(s[i].bounds, rows, columns)
    {
      if i < |areas| { assert s[i] == areas[i]; }
    }
  }

  /** Appending a rectangle that passed the overlap scan keeps the list registered, whatever the grid. */
  lemma AddKeepsRegistered(areas: seq<Area>, next: AreaId, b: Rect)
    requires Registered(areas, next)
    requires !HasOverlap(b, areas)
    ensures Registered(areas + [NewArea(next, b)], next + 1)
  {
    var s := areas + [NewArea(next, b)];
    AddKeepsDisjoint(areas, NewArea(next, b));
    AddKeepsIds(areas, next);
    forall i | 0 <= i < |s|
      ensures s[i].name == AreaName(s[i].id)
    {
      if i < |areas| { assert s[i] == areas[i]; }
    }
  }

  /** One step of the removal scan: a kept head is followed by the kept tail. */
  lemma RemoveIdUnfold(areas: seq<Area>, id: AreaId)
    requires |areas| > 0
    ensures areas[0].id == id ==> RemoveId(areas, id) == RemoveId(areas[1..], id)
    ensures areas[0].id != id ==> RemoveId(areas, id) == [areas[0]] + RemoveId(areas[1..], id)
  {
  }

  /** A property of pairs that holds in a list holds in the list after removal. */
  lemma {:induction false} RemoveKeepsDisjoint(areas: seq<Area>, id: AreaId)
    requires Disjoint(areas) && IdsAscending(areas)
    ensures Disjoint(RemoveId(areas, id)) && IdsAscending(RemoveId(areas, id))
    decreases |areas|
  {
    if |areas| > 0 {
      var x := areas[0];
      var rest := areas[1..];
      OrderedTail(areas);
      RemoveKeepsDisjoint(rest, id);
      RemoveIdUnfold(areas, id);
      if x.id != id {
        var r' := RemoveId(rest, id);
        RemoveIdMembers(rest, id);
        HeadBeforeTail(areas);
        ConsOrdered(x, r');
      }
    }
  }

  lemma OrderedTail(areas: seq<Area>)
    requires Disjoint(areas) && IdsAscending(areas) && |areas| > 0
    ensures Disjoint(areas[1..]) && IdsAscending(areas[1..])
  {
    var rest := areas[1..];
    forall i, j | 0 <= i < j < |rest|
      ensures !Overlap(rest[i].bounds, rest[j].bounds) && rest[i].id < rest[j].id
    {
      assert rest[i] == areas[i + 1] && rest[j] == areas[j + 1];
    }
  }

  /** The first area is disjoint from, and numbered below, every later one. */
  lemma HeadBeforeTail(areas: seq<Area>)
    requires Disjoint(areas) && IdsAscending(areas) && |areas| > 0
    ensures forall y :: y in areas[1..] ==> !Overlap(areas[0].bounds, y.bounds) && areas[0].id < y.id
  {
    forall y | y in areas[1..] ensures !Overlap(areas[0].bounds, y.bounds) && areas[0].id < y.id {
      var k :| 0 <= k < |areas[1..]| && areas[1..][k] == y;
      assert areas[k + 1] == y;
    }
  }

  lemma ConsOrdered(x: Area, r: seq<Area>)
    requires Disjoint(r) && IdsAscending(r)
    requires forall y :: y in r ==> !Overlap(x.bounds, y.bounds) && x.id < y.id
    ensures Disjoint([x] + r) && IdsAscending([x] + r)
  {
    var s := [x] + r;
    forall i, j | 0 <= i < j < |s|
      ensures !Overlap(s[i].bounds, s[j].bounds) && s[i].id < s[j].id
    {
      assert s[j] == r[j - 1];
      if i > 0 {
        assert s[i] == r[i - 1];
      } else {
        assert r[j - 1] in r;
      }
    }
  }

  lemma RemoveKeepsPerArea(areas: seq<Area>, id: AreaId, next: int, rows: int, columns: int)
    requires WellNamed(areas) && IdsBelow(areas, next) && InsideGrid(areas, rows, columns)
    ensures var r := RemoveId(areas, id);
      WellNamed(r) && IdsBelow(r, next) && InsideGrid(r, rows, columns)
  {
    var r := RemoveId(areas, id);
    RemoveIdMembers(areas, id);
    forall i | 0 <= i < |r|
      ensures r[i].name == AreaName(r[i].id) && r[i].id < next && RectInGrid(r[i].bounds, rows, columns)
    {
      assert r[i] in areas;
    }
  }

  /** Removing by id keeps the invariant: removal only drops areas. */
  lemma RemovePreservesWellFormed(areas: seq<Area>, id: AreaId, next: int, rows: int, columns: int)
    requires WellFormed(areas, next, rows, columns)
    ensures WellFormed(RemoveId(areas, id), next, rows, columns)
  {
    RemoveKeepsDisjoint(areas, id);
    RemoveKeepsPerArea(areas, id, next, rows, columns);
  }

  /** Removing by id keeps the list registered, whatever the grid. */
  lemma RemoveKeepsRegistered(areas: seq<Area>, id: AreaId, next: int)
    requires Registered(areas, next)
    ensures Registered(RemoveId(areas, id), next)
  {
    var r := RemoveId(areas, id);
    RemoveKeepsDisjoint(areas, id);
    RemoveIdMembers(areas, id);
    forall i | 0 <= i < |r|
      ensures r[i].name == AreaName(r[i].id) && r[i].id < next
    {
      assert r[i] in areas;
    }
  }

  /**
    With ascending (hence distinct) ids, removing the id of the area at index
    `k` deletes exactly that area and keeps the others in order.
  */
  lemma {:induction false} RemoveIdExact(areas: seq<Area>, k: nat)
    requires IdsAscending(areas)
    requires k < |areas|
    ensures RemoveId(areas, areas[k].id) == areas[..k] + areas[k + 1..]
    decreases k
  {
    var id := areas[k].id;
    var rest := areas[1..];
    RemoveIdUnfold(areas, id);
    IdsAscendingTail(areas);
    if k == 0 {
      FirstIdNotInTail(areas);
    } else {
      assert rest[k - 1] == areas[k];
      assert areas[0].id < id;
      RemoveIdExact(rest, k - 1);
      SlicesOfTail(areas, k);
      assert RemoveId(areas, id) == [areas[0]] + RemoveId(rest, id);
    }
  }

  lemma IdsAscendingTail(areas: seq<Area>)
    requires IdsAscending(areas) && |areas| > 0
    ensures IdsAscending(areas[1..])
  {
    var rest := areas[1..];
    forall i, j | 0 <= i < j < |rest| ensures rest[i].id < rest[j].id {
      assert rest[i] == areas[i + 1] && rest[j] == areas[j + 1];
    }
  }

  /** With ascending ids the first id occurs nowhere else, so removing it from the tail changes nothing. */
  lemma FirstIdNotInTail(areas: seq<Area>)
    requires IdsAscending(areas) && |areas| > 0
    ensures RemoveId(areas[1..], areas[0].id) == areas[1..]
  {
    var rest := areas[1..];
    forall j | 0 <= j < |rest| ensures rest[j].id != areas[0].id {
      assert rest[j] == areas[j + 1];
    }
  }

  lemma SlicesOfTail<T>(xs: seq<T>, k: nat)
    requires 0 < k < |xs|
    ensures xs[..k] + xs[k + 1..] == [xs[0]] + (xs[1..][..k - 1] + xs[1..][k..])
  {
    assert xs[..k] == [xs[0]] + xs[1..][..k - 1];
    assert xs[k + 1..] == xs[1..][k..];
  }

  /**
    Under the invariant, the cell lookup finds the one area covering the
    cell, wherever it sits in the list.
  */
  lemma AreaIdAtCellUnique(areas: seq<Area>, next: int, rows: int, columns: int, i: nat, c: Cell)
    requires WellFormed(areas, next, rows, columns)
    requires i < |areas| && Covers(areas[i].bounds, c)
    ensures AreaIdAtCell(areas, c) == Some(areas[i].id)
  {
    var r := AreaIdAtCell(areas, c);
    var j :| 0 <= j < |areas| && areas[j].id == r.value && Covers(areas[j].bounds, c);
    if j != i {
      OverlapIffSharedCell(areas[i].bounds, areas[j].bounds);
      OverlapSymmetric(areas[i].bounds, areas[j].bounds);
      assert false;
    }
  }
}
