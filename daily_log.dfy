/**
 * The day's log (src/components/DailyLog.tsx): the bullets dated on the
 * viewed day, sorted by `order`, and the drag handler that reorders them.
 * `values` is `Object.values(state.bullets)` in the order the runtime
 * enumerates it.
 */
module DailyLog {
  import opened Types
  import opened Ordering
  import opened SortableList
  import opened StoreReducer

  function OnDay(date: Day): Bullet -> bool
  {
    (b: Bullet) => b.date == Some(date)
  }

  /** `dailyBullets`. */
  function DailyBullets(values: seq<Bullet>, view: View): seq<Bullet>
  {
    SortBy(Filter(values, OnDay(view.date)), OrderKey)
  }

  /** `handleDragEnd` on the daily list; dnd-kit only reports drags of the list's own items. */
  function HandleDragEnd(values: seq<Bullet>, view: View, activeId: Id, overId: Option<Id>): Option<Action>
    requires FindIndex(DailyBullets(values, view), activeId) >= 0
  {
    DragEnd(DailyBullets(values, view), activeId, overId)
  }

  // ---- properties ----

  /** The daily list holds exactly the bullets dated on the viewed day, ascending by `order`. */
  lemma DailyBulletsSelected(values: seq<Bullet>, view: View)
    ensures var d := DailyBullets(values, view);
      && (forall b :: b in d <==> b in values && b.date == Some(view.date))
      && (forall i, j :: 0 <= i < j < |d| ==> d[i].order <= d[j].order)
  {
    var f := Filter(values, OnDay(view.date));
    var d := DailyBullets(values, view);
    SortedByOrder(f, Rank(0, 0));
    forall b ensures b in d <==> b in values && b.date == Some(view.date) {
      assert b in d <==> b in multiset(d);
      assert b in f <==> b in multiset(f);
    }
  }

  /**
   * A drag onto itself dispatches nothing; any other drag dispatches one
   * REORDER_BULLETS naming every daily bullet, numbered 0, 1000, 2000, …
   */
  lemma DailyDragDispatch(values: seq<Bullet>, view: View, activeId: Id, overId: Option<Id>)
    requires FindIndex(DailyBullets(values, view), activeId) >= 0
    ensures HandleDragEnd(values, view, activeId, overId).None? <==> overId == Some(activeId)
    ensures overId != Some(activeId) ==>
      var a := HandleDragEnd(values, view, activeId, overId).value;
      && a.ReorderBullets?
      && (forall id :: id in ItemIds(a.items) <==>
            exists b :: b in values && b.date == Some(view.date) && b.id == id)
      && (forall k :: 0 <= k < |a.items| ==> a.items[k].order == k * 1000)
  {
    var d := DailyBullets(values, view);
    DailyBulletsSelected(values, view);
    if overId != Some(activeId) {
      DispatchCoversList(d, activeId, overId);
      DispatchRenumbersPermutation(d, activeId, overId);
    }
  }
}
