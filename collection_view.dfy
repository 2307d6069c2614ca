/**
 * A collection's page (src/components/CollectionView.tsx): the bullets
 * filed under the viewed collection, sorted by `order`, with the same drag
 * handler as the daily log.  Without a viewed collection, or with one that
 * does not exist, the page shows only "Collection not found".  `values` is
 * `Object.values(state.bullets)` in the order the runtime enumerates it.
 */
module CollectionView {
  import opened Types
  import opened Ordering
  import opened SortableList
  import opened StoreReducer

  datatype Page = NotFound | Listed(collection: Collection, bullets: seq<Bullet>)

  function InCollection(id: Id): Bullet -> bool
  {
    (b: Bullet) => b.collectionId == Some(id)
  }

  /** What the component renders: the collection and its sorted bullets, or the early return. */
  function CollectionPage(values: seq<Bullet>, collections: map<Id, Collection>, view: View): Page
  {
    if view.collectionId.None? || view.collectionId.value !in collections then NotFound
    else
      var id := view.collectionId.value;
      Listed(collections[id], SortBy(Filter(values, InCollection(id)), OrderKey))
  }

  /** `handleDragEnd` on the collection's list. */
  function HandleDragEnd(values: seq<Bullet>, collections: map<Id, Collection>, view: View,
                         activeId: Id, overId: Option<Id>): Option<Action>
    requires CollectionPage(values, collections, view).Listed?
    requires FindIndex(CollectionPage(values, collections, view).bullets, activeId) >= 0
  {
    DragEnd(CollectionPage(values, collections, view).bullets, activeId, overId)
  }

  // ---- properties ----

  /** The page short-circuits exactly when no collection is viewed or the viewed one does not exist. */
  lemma NotFoundWithoutCollection(values: seq<Bullet>, collections: map<Id, Collection>, view: View)
    ensures CollectionPage(values, collections, view).NotFound? <==>
      view.collectionId.None? || view.collectionId.value !in collections
    ensures CollectionPage(values, collections, view).Listed? ==>
      CollectionPage(values, collections, view).collection == collections[view.collectionId.value]
  {
  }

  /** The list holds exactly the bullets filed under the collection, ascending by `order`. */
  lemma CollectionBulletsSelected(values: seq<Bullet>, collections: map<Id, Collection>, view: View)
    requires view.collectionId.Some? && view.collectionId.value in collections
    ensures var l := CollectionPage(values, collections, view).bullets;
      && (forall b :: b in l <==> b in values && b.collectionId == view.collectionId)
      && (forall i, j :: 0 <= i < j < |l| ==> l[i].order <= l[j].order)
  {
    var f := Filter(values, InCollection(view.collectionId.value));
    var l := CollectionPage(values, collections, view).bullets;
    SortedByOrder(f, Rank(0, 0));
    forall b ensures b in l <==> b in values && b.collectionId == view.collectionId {
      assert b in l <==> b in multiset(l);
      assert b in f <==> b in multiset(f);
    }
  }

  /**
   * A drag onto itself dispatches nothing; any other drag dispatches one
   * REORDER_BULLETS naming every bullet of the collection, numbered 0, 1000, 2000, …
   */
  lemma CollectionDragDispatch(values: seq<Bullet>, collections: map<Id, Collection>, view: View,
                               activeId: Id, overId: Option<Id>)
    requires CollectionPage(values, collections, view).Listed?
    requires FindIndex(CollectionPage(values, collections, view).bullets, activeId) >= 0
    ensures HandleDragEnd(values, collections, view, activeId, overId).None? <==> overId == Some(activeId)
    ensures overId != Some(activeId) ==>
      var a := HandleDragEnd(values, collections, view, activeId, overId).value;
      && a.ReorderBullets?
      && (forall id :: id in ItemIds(a.items) <==>
            exists b :: b in values && b.collectionId == view.collectionId && b.id == id)
      && (forall k :: 0 <= k < |a.items| ==> a.items[k].order == k * 1000)
  {
    var l := CollectionPage(values, collections, view).bullets;
    CollectionBulletsSelected(values, collections, view);
    if overId != Some(activeId) {
      DispatchCoversList(l, activeId, overId);
      DispatchRenumbersPermutation(l, activeId, overId);
    }
  }
}
