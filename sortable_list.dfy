/**
 * The sortable bullet lists of src/components/DailyLog.tsx and
 * src/components/CollectionView.tsx, which share their code: a selection
 * sorted by `order`, and a drag handler that moves one bullet with
 * `arrayMove` from @dnd-kit/sortable and renumbers the whole list.
 *
 * `arrayMove(array, from, to)` copies the array, computes the insertion
 * point `to < 0 ? length + to : to` on the copy BEFORE removing the item
 * (JavaScript evaluates the arguments of the outer `splice` left to right),
 * removes the item at `from` and inserts it at that point, clamped by
 * `splice` to the shortened array.
 */
module SortableList {
  import opened Types
  import opened Ordering
  import opened StoreReducer

  /** `(a.order || 0) - (b.order || 0)`: ascending by `order`. */
  function OrderKey(b: Bullet): Rank
  {
    Rank(0, b.order)
  }

  /** `findIndex(b => b.id === id)`: the first position with that id, or -1. */
  function FindIndex(bs: seq<Bullet>, id: Id): (i: int)
    ensures -1 <= i < |bs|
    ensures i == -1 <==> forall k :: 0 <= k < |bs| ==> bs[k].id != id
    ensures i >= 0 ==> bs[i].id == id && forall k :: 0 <= k < i ==> bs[k].id != id
  {
    if bs == [] then -1
    else if bs[0].id == id then 0
    else
      var j := FindIndex(bs[1..], id);
      if j == -1 then -1 else j + 1
  }

  /** Where `splice(start, …)` starts on an array of length `len`. */
  function SpliceStart(len: nat, start: int): (p: nat)
    ensures p <= len
  {
    if start < 0 then (if len + start < 0 then 0 else len + start)
    else if start > len then len else start
  }

  /** The point `arrayMove` inserts at, in the array without the moved item. */
  function InsertPoint(n: nat, to: int): (p: nat)
    requires n > 0
    ensures p < n
  {
    SpliceStart(n - 1, if to < 0 then n + to else to)
  }

  /** `arrayMove(xs, from, to)`. */
  function ArrayMove<T(!new)>(xs: seq<T>, from: int, to: int): (r: seq<T>)
    requires 0 <= from < |xs|
    ensures |r| == |xs|
  {
    var rest := xs[..from] + xs[from + 1..];
    var p := InsertPoint(|xs|, to);
    rest[..p] + [xs[from]] + rest[p..]
  }

  /** The position in `xs` that position `k` of the moved array comes from. */
  function Source(from: int, p: int, k: int): int
  {
    if k == p then from
    else
      var r := if k < p then k else k - 1;
      if r < from then r else r + 1
  }

  /** The moved array is `xs` read through `Source`. */
  lemma ArrayMoveAt<T(!new)>(xs: seq<T>, from: int, to: int, k: int)
    requires 0 <= from < |xs| && 0 <= k < |xs|
    ensures 0 <= Source(from, InsertPoint(|xs|, to), k) < |xs|
    ensures ArrayMove(xs, from, to)[k] == xs[Source(from, InsertPoint(|xs|, to), k)]
  {
    var rest := xs[..from] + xs[from + 1..];
    var p := InsertPoint(|xs|, to);
    var r := if k < p then k else k - 1;
    if k != p {
      assert rest[r] == xs[if r < from then r else r + 1];
    }
  }

  /** `Source` never sends two positions to the same one. */
  lemma SourceInjective(from: int, p: int, k: int, l: int)
    requires k != l
    ensures Source(from, p, k) != Source(from, p, l)
  {
  }

  /** `arrayMove` moves an element of `xs` and loses nothing: the result is a permutation. */
  lemma ArrayMovePermutes<T(!new)>(xs: seq<T>, from: int, to: int)
    requires 0 <= from < |xs|
    ensures multiset(ArrayMove(xs, from, to)) == multiset(xs)
  {
    var rest := xs[..from] + xs[from + 1..];
    var p := InsertPoint(|xs|, to);
    assert xs == xs[..from] + [xs[from]] + xs[from + 1..];
    assert rest == rest[..p] + rest[p..];
    calc {
      multiset(ArrayMove(xs, from, to));
      multiset(rest[..p]) + multiset{xs[from]} + multiset(rest[p..]);
      multiset(rest) + multiset{xs[from]};
      multiset(xs[..from]) + multiset(xs[from + 1..]) + multiset{xs[from]};
      multiset(xs);
    }
  }

  /**
   * With a target inside the array, the moved item lands at `to`, and taking
   * it out again gives `xs` without it: every other item keeps its order.
   */
  lemma ArrayMoveInRange<T(!new)>(xs: seq<T>, from: int, to: int)
    requires 0 <= from < |xs| && 0 <= to < |xs|
    ensures var r := ArrayMove(xs, from, to);
      r[to] == xs[from] && r[..to] + r[to + 1..] == xs[..from] + xs[from + 1..]
  {
    var rest := xs[..from] + xs[from + 1..];
    var r := ArrayMove(xs, from, to);
    assert InsertPoint(|xs|, to) == to;
    assert r[..to] == rest[..to];
    assert r[to + 1..] == rest[to..];
  }

  /** With target -1, which `findIndex` gives for an id not in the list, the item goes to the end. */
  lemma ArrayMoveMinusOneAppends<T(!new)>(xs: seq<T>, from: int)
    requires 0 <= from < |xs|
    ensures ArrayMove(xs, from, -1) == xs[..from] + xs[from + 1..] + [xs[from]]
  {
    var rest := xs[..from] + xs[from + 1..];
    assert InsertPoint(|xs|, -1) == |rest|;
    assert rest[..|rest|] == rest && rest[|rest|..] == [];
  }

  /** Moving an item onto its own place changes nothing. */
  lemma ArrayMoveInPlace<T(!new)>(xs: seq<T>, from: int)
    requires 0 <= from < |xs|
    ensures ArrayMove(xs, from, from) == xs
  {
    var r := ArrayMove(xs, from, from);
    forall k | 0 <= k < |xs| ensures r[k] == xs[k] {
      ArrayMoveAt(xs, from, from, k);
    }
  }

  /** `newOrder.map((b, index) => ({ id: b.id, order: index * 1000 }))`. */
  function Renumbered(bs: seq<Bullet>): (items: seq<OrderItem>)
    ensures |items| == |bs|
    ensures forall k :: 0 <= k < |bs| ==> items[k] == OrderItem(bs[k].id, k * 1000)
  {
    seq(|bs|, k requires 0 <= k < |bs| => OrderItem(bs[k].id, k * 1000))
  }

  /** `handleDragEnd`: the REORDER_BULLETS it dispatches, if any. */
  function DragEnd(list: seq<Bullet>, activeId: Id, overId: Option<Id>): Option<Action>
    requires FindIndex(list, activeId) >= 0
  {
    if overId == Some(activeId) then None
    else
      var oldIndex := FindIndex(list, activeId);
      var newIndex := if overId.Some? then FindIndex(list, overId.value) else -1;
      Some(ReorderBullets(Renumbered(ArrayMove(list, oldIndex, newIndex))))
  }

  // ---- properties ----

  /** A drag that ends on the dragged bullet itself dispatches nothing; any other drag dispatches. */
  lemma DropOnSelfDoesNothing(list: seq<Bullet>, activeId: Id, overId: Option<Id>)
    requires FindIndex(list, activeId) >= 0
    ensures DragEnd(list, activeId, overId).None? <==> overId == Some(activeId)
  {
  }

  /**
   * The dispatched items name the list's bullets in their new order, which
   * is a permutation of the list, with orders 0, 1000, 2000, … so strictly
   * increasing along it.
   */
  lemma DispatchRenumbersPermutation(list: seq<Bullet>, activeId: Id, overId: Option<Id>)
    requires FindIndex(list, activeId) >= 0 && overId != Some(activeId)
    ensures var a := DragEnd(list, activeId, overId).value;
      var newIndex := if overId.Some? then FindIndex(list, overId.value) else -1;
      var moved := ArrayMove(list, FindIndex(list, activeId), newIndex);
      && a.ReorderBullets?
      && multiset(moved) == multiset(list)
      && ItemIds(a.items) == BulletIds(moved)
      && (forall k :: 0 <= k < |a.items| ==> a.items[k].order == k * 1000)
      && (forall k, l :: 0 <= k < l < |a.items| ==> a.items[k].order < a.items[l].order)
  {
    var newIndex := if overId.Some? then FindIndex(list, overId.value) else -1;
    var moved := ArrayMove(list, FindIndex(list, activeId), newIndex);
    ArrayMovePermutes(list, FindIndex(list, activeId), newIndex);
    assert DragEnd(list, activeId, overId).value == ReorderBullets(Renumbered(moved));
    RenumberedIds(moved);
  }

  /** The renumbered items name the bullets in their order. */
  lemma RenumberedIds(bs: seq<Bullet>)
    ensures ItemIds(Renumbered(bs)) == BulletIds(bs)
  {
    var items := Renumbered(bs);
    assert |ItemIds(items)| == |BulletIds(bs)|;
    forall k | 0 <= k < |bs| ensures ItemIds(items)[k] == BulletIds(bs)[k] {
      assert items[k].id == bs[k].id;
    }
  }

  /** Two lists holding the same bullets name the same ids. */
  lemma PermutedIds(moved: seq<Bullet>, list: seq<Bullet>)
    requires multiset(moved) == multiset(list)
    ensures forall id :: id in BulletIds(moved) <==> exists b :: b in list && b.id == id
  {
    forall id ensures id in BulletIds(moved) <==> exists b :: b in list && b.id == id {
      if id in BulletIds(moved) {
        var k :| 0 <= k < |moved| && BulletIds(moved)[k] == id;
        assert moved[k] in multiset(list);
      }
      if exists b :: b in list && b.id == id {
        var b :| b in list && b.id == id;
        assert b in multiset(moved);
        var k :| 0 <= k < |moved| && moved[k] == b;
        assert BulletIds(moved)[k] == id;
      }
    }
  }

  /** The dispatch names every bullet of the list, and nothing else, once per bullet. */
  lemma DispatchCoversList(list: seq<Bullet>, activeId: Id, overId: Option<Id>)
    requires FindIndex(list, activeId) >= 0 && overId != Some(activeId)
    ensures var items := DragEnd(list, activeId, overId).value.items;
      && |items| == |list|
      && forall id :: id in ItemIds(items) <==> exists b :: b in list && b.id == id
  {
    var newIndex := if overId.Some? then FindIndex(list, overId.value) else -1;
    var moved := ArrayMove(list, FindIndex(list, activeId), newIndex);
    DispatchRenumbersPermutation(list, activeId, overId);
    PermutedIds(moved, list);
  }

  /** Dropping on another bullet of the list puts the dragged bullet at that bullet's position. */
  lemma DropOnOtherTakesItsPlace(list: seq<Bullet>, activeId: Id, overId: Id)
    requires FindIndex(list, activeId) >= 0 && FindIndex(list, overId) >= 0 && overId != activeId
    ensures var a := DragEnd(list, activeId, Some(overId)).value;
      var to := FindIndex(list, overId);
      a.items[to] == OrderItem(activeId, to * 1000)
  {
    ArrayMoveInRange(list, FindIndex(list, activeId), FindIndex(list, overId));
  }

  /**
   * A drop with no target, or on something outside the list, moves the
   * dragged bullet to the end: `findIndex` gives -1, and `arrayMove` reads
   * -1 as the last place.
   */
  lemma DropOutsideMovesToEnd(list: seq<Bullet>, activeId: Id, overId: Option<Id>)
    requires FindIndex(list, activeId) >= 0 && overId != Some(activeId)
    requires overId.None? || FindIndex(list, overId.value) == -1
    ensures var a := DragEnd(list, activeId, overId).value;
      var from := FindIndex(list, activeId);
      a.items == Renumbered(list[..from] + list[from + 1..] + [list[from]])
  {
    ArrayMoveMinusOneAppends(list, FindIndex(list, activeId));
  }

  /** Ids that tell the bullets of a list apart. */
  predicate DistinctIds(bs: seq<Bullet>)
  {
    forall i, j :: 0 <= i < j < |bs| ==> bs[i].id != bs[j].id
  }

  /** Moving a bullet keeps the ids distinct. */
  lemma ArrayMoveKeepsDistinctIds(list: seq<Bullet>, from: int, to: int)
    requires 0 <= from < |list| && DistinctIds(list)
    ensures DistinctIds(ArrayMove(list, from, to))
  {
    var r := ArrayMove(list, from, to);
    var p := InsertPoint(|list|, to);
    forall i, j | 0 <= i < j < |r| ensures r[i].id != r[j].id {
      ArrayMoveAt(list, from, to, i);
      ArrayMoveAt(list, from, to, j);
      SourceInjective(from, p, i, j);
      var si, sj := Source(from, p, i), Source(from, p, j);
      if si < sj {
        assert list[si].id != list[sj].id;
      } else {
        assert list[sj].id != list[si].id;
      }
    }
  }

  /**
   * Applying the dispatched REORDER_BULLETS to a state holding the list's
   * bullets (ids distinct) gives the `k`-th bullet of the new order the
   * order `k * 1000`, so sorting by `order` afterwards yields the new order.
   */
  lemma ReorderTakesEffect(m: map<Id, Bullet>, list: seq<Bullet>, activeId: Id, overId: Option<Id>, k: int)
    requires FindIndex(list, activeId) >= 0 && overId != Some(activeId) && DistinctIds(list)
    requires forall b :: b in list ==> b.id in m
    ensures var newIndex := if overId.Some? then FindIndex(list, overId.value) else -1;
      var moved := ArrayMove(list, FindIndex(list, activeId), newIndex);
      var m' := ReorderEach(m, DragEnd(list, activeId, overId).value.items);
      0 <= k < |moved| ==> moved[k].id in m' && m'[moved[k].id].order == k * 1000
  {
    var newIndex := if overId.Some? then FindIndex(list, overId.value) else -1;
    var from := FindIndex(list, activeId);
    var moved := ArrayMove(list, from, newIndex);
    var items := Renumbered(moved);
    if 0 <= k < |moved| {
      ArrayMoveKeepsDistinctIds(list, from, newIndex);
      ArrayMovePermutes(list, from, newIndex);
      assert moved[k] in multiset(list);
      assert DragEnd(list, activeId, overId).value.items == items;
      var ids := ItemIds(items);
      assert LastNaming(ids, k) by {
        forall j' | k < j' < |ids| ensures ids[j'] != ids[k] {
          assert ids[j'] == moved[j'].id && ids[k] == moved[k].id;
        }
      }
      assert items[k] == OrderItem(moved[k].id, k * 1000);
      ReorderEachLastWins(m, items, k);
    }
  }

  /** A selection sorted by `order` is ascending in `order`, and bullets of equal `order` keep their enumeration order. */
  lemma SortedByOrder(selected: seq<Bullet>, key: Rank)
    ensures var s := SortBy(selected, OrderKey);
      && multiset(s) == multiset(selected)
      && (forall i, j :: 0 <= i < j < |s| ==> s[i].order <= s[j].order)
      && WithRank(s, OrderKey, key) == WithRank(selected, OrderKey, key)
  {
    var s := SortBy(selected, OrderKey);
    SortBySorted(selected, OrderKey);
    SortByStable(selected, OrderKey, key);
    forall i, j | 0 <= i < j < |s| ensures s[i].order <= s[j].order {
      assert !Below(OrderKey(s[j]), OrderKey(s[i]));
    }
  }
}
