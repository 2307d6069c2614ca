/**
 * The state reducer (src/storeReducer.ts): one case per action type.
 *
 * `Reduce` is the reducer as a function of the old state, the action and
 * the clock reading `now` (every `Date.now()` of one call reads the same
 * instant).  The cases that copy the bullet or collection map and then
 * update the copy in a `forEach` loop are specified by left folds
 * (`AddEach`, `UpdateEach`, `ReorderEach`, `ReorderCollectionsEach`,
 * `DeleteEach`); the method `Reducer` runs those cases as loops and is
 * proved equal to `Reduce`.
 */
module StoreReducer {
  import opened Types

  /** `initialState`, with `getTodayDate()` passed in as `today`. */
  function InitialState(today: Day): (s: AppState)
    ensures s.bullets == map[] && s.collections == map[]
    ensures s.view == View(Daily, today, None)
    ensures Pref(s.preferences, ShowCompleted) && !Pref(s.preferences, GroupByProject)
    ensures !Pref(s.preferences, SortByType) && ShowMigrated !in s.preferences
  {
    AppState(map[], map[], View(Daily, today, None),
             map[GroupByProject := false, ShowCompleted := true, SortByType := false])
  }

  /** The reducer needs the ids the store assigns before it runs. */
  predicate IdsAssigned(a: Action)
  {
    (a.AddBullet? ==> a.newId.Some?) && (a.AddCollection? ==> a.newCollectionId.Some?)
  }

  /** The bullet ADD_BULLET creates: the payload's data, open, stamped `now`. */
  function NewBullet(a: Action, now: int): Bullet
    requires a.AddBullet? && a.newId.Some?
  {
    Bullet(a.newId.value, a.content, a.kind, Open, a.date, a.collectionId,
           now, now, now, None, a.longFormContent, a.parentNoteId)
  }

  /**
   * The completion-timestamp rule of UPDATE_BULLET(S): completing a bullet
   * that was not completed stamps it, reopening a completed one clears the
   * stamp, and otherwise the payload's own `completedAt` (if any) applies.
   */
  function CompletedAtUpdate(b: Bullet, p: BulletPatch, now: int): Upd<Option<int>>
  {
    if p.state == Put(Completed) && b.state != Completed then Put(Some(now))
    else if p.state == Put(Open) && b.state == Completed then Put(None)
    else p.completedAt
  }

  /** `{ ...bullet, ...updates }` where `updates = { ...patch, updatedAt: now }` plus the completion rule. */
  function Patched(b: Bullet, p: BulletPatch, now: int): Bullet
  {
    Bullet(b.id,
           Over(p.content, b.content),
           Over(p.kind, b.kind),
           Over(p.state, b.state),
           Over(p.date, b.date),
           Over(p.collectionId, b.collectionId),
           Over(p.order, b.order),
           Over(p.createdAt, b.createdAt),
           now,
           Over(CompletedAtUpdate(b, p, now), b.completedAt),
           Over(p.longFormContent, b.longFormContent),
           Over(p.parentNoteId, b.parentNoteId))
  }

  function PatchedCollection(c: Collection, id: Id, p: CollectionPatch): Collection
  {
    Collection(id, Over(p.title, c.title), Over(p.kind, c.kind),
               Over(p.createdAt, c.createdAt), Over(p.order, c.order))
  }

  // ---- the forEach loops, as folds over the payload list ----

  function AddEach(m: map<Id, Bullet>, bs: seq<Bullet>): map<Id, Bullet>
  {
    if bs == [] then m
    else
      var b := bs[|bs| - 1];
      AddEach(m, bs[..|bs| - 1])[b.id := b]
  }

  function UpdateEach(m: map<Id, Bullet>, ids: seq<Id>, p: BulletPatch, now: int): map<Id, Bullet>
  {
    if ids == [] then m
    else
      var m' := UpdateEach(m, ids[..|ids| - 1], p, now);
      var id := ids[|ids| - 1];
      if id in m' then m'[id := Patched(m'[id], p, now)] else m'
  }

  function ReorderEach(m: map<Id, Bullet>, items: seq<OrderItem>): map<Id, Bullet>
  {
    if items == [] then m
    else
      var m' := ReorderEach(m, items[..|items| - 1]);
      var it := items[|items| - 1];
      if it.id in m' then m'[it.id := m'[it.id].(order := it.order)] else m'
  }

  function ReorderCollectionsEach(m: map<Id, Collection>, items: seq<OrderItem>): map<Id, Collection>
  {
    if items == [] then m
    else
      var m' := ReorderCollectionsEach(m, items[..|items| - 1]);
      var it := items[|items| - 1];
      if it.id in m' then m'[it.id := m'[it.id].(order := Some(it.order))] else m'
  }

  function DeleteEach(m: map<Id, Bullet>, ids: seq<Id>): map<Id, Bullet>
  {
    if ids == [] then m
    else DeleteEach(m, ids[..|ids| - 1]) - {ids[|ids| - 1]}
  }

  /** The reducer.  MIGRATE_BULLET has no case of its own and falls to `default`. */
  function Reduce(s: AppState, a: Action, now: int): AppState
    requires IdsAssigned(a)
  {
    match a
    case AddBullet(_, _, _, _, _, _, _) =>
      s.(bullets := s.bullets[a.newId.value := NewBullet(a, now)])
    case AddBullets(bs) =>
      s.(bullets := AddEach(s.bullets, bs))
    case UpdateBullet(id, p) =>
      if id !in s.bullets then s
      else s.(bullets := s.bullets[id := Patched(s.bullets[id], p, now).(id := id)])
    case UpdateBullets(ids, p) =>
      s.(bullets := UpdateEach(s.bullets, ids, p, now))
    case ReorderBullets(items) =>
      s.(bullets := ReorderEach(s.bullets, items))
    case ReorderCollections(items) =>
      s.(collections := ReorderCollectionsEach(s.collections, items))
    case DeleteBullet(id) =>
      s.(bullets := s.bullets - {id})
    case DeleteBullets(ids) =>
      s.(bullets := DeleteEach(s.bullets, ids))
    case SetView(mode, date, cid) =>
      s.(view := View(mode, if date.Some? then date.value else s.view.date, cid))
    case AddCollection(newId, title, kind) =>
      s.(collections := s.collections[newId.value := Collection(newId.value, title, kind, now, Some(now))])
    case UpdateCollection(id, p) =>
      if id !in s.collections then s
      else s.(collections := s.collections[id := PatchedCollection(s.collections[id], id, p)])
    case DeleteCollection(id) =>
      s.(collections := s.collections - {id})
    case TogglePreference(key) =>
      s.(preferences := s.preferences[key := !Pref(s.preferences, key)])
    case LoadData(bs, cs, ps) =>
      var merged := s.(bullets := s.bullets + (if bs.Some? then bs.value else map[]),
                       collections := s.collections + (if cs.Some? then cs.value else map[]));
      if ps.Some? then merged.(preferences := s.preferences + ps.value) else merged
    case RestoreBullet(b) =>
      s.(bullets := s.bullets[b.id := b])
    case MigrateBullet(_, _, _) => s
    case Undo => s
  }

  /**
   * The reducer as the source runs it: the list cases copy the map and
   * update the copy one payload entry at a time.
   */
  method Reducer(s: AppState, a: Action, now: int) returns (r: AppState)
    requires IdsAssigned(a)
    ensures r == Reduce(s, a, now)
  {
    match a {
      case AddBullets(bs) =>
        var m := StoreEach(s.bullets, bs);
        r := s.(bullets := m);
      case UpdateBullets(ids, p) =>
        var m := PatchEach(s.bullets, ids, p, now);
        r := s.(bullets := m);
      case ReorderBullets(items) =>
        var m := RenumberEach(s.bullets, items);
        r := s.(bullets := m);
      case ReorderCollections(items) =>
        var m := RenumberCollections(s.collections, items);
        r := s.(collections := m);
      case DeleteBullets(ids) =>
        var m := RemoveEach(s.bullets, ids);
        r := s.(bullets := m);
      case _ =>
        r := Reduce(s, a, now);
    }
  }

  /** The ADD_BULLETS loop: `newBullets[b.id] = b` for each payload bullet. */
  method StoreEach(bullets: map<Id, Bullet>, bs: seq<Bullet>) returns (m: map<Id, Bullet>)
    ensures m == AddEach(bullets, bs)
  {
    m := bullets;
    var i := 0;
    while i < |bs|
      invariant 0 <= i <= |bs|
      invariant m == AddEach(bullets, bs[..i])
    {
      assert bs[..i + 1][..i] == bs[..i];
      m := m[bs[i].id := bs[i]];
      i := i + 1;
    }
    assert bs[..|bs|] == bs;
  }

  /** The UPDATE_BULLETS loop: each listed present bullet patched and stamped. */
  method PatchEach(bullets: map<Id, Bullet>, ids: seq<Id>, p: BulletPatch, now: int) returns (m: map<Id, Bullet>)
    ensures m == UpdateEach(bullets, ids, p, now)
  {
    m := bullets;
    var i := 0;
    while i < |ids|
      invariant 0 <= i <= |ids|
      invariant m == UpdateEach(bullets, ids[..i], p, now)
    {
      assert ids[..i + 1][..i] == ids[..i];
      if ids[i] in m {
        m := m[ids[i] := Patched(m[ids[i]], p, now)];
      }
      i := i + 1;
    }
    assert ids[..|ids|] == ids;
  }

  /** The REORDER_BULLETS loop: each listed present bullet takes its new order. */
  method RenumberEach(bullets: map<Id, Bullet>, items: seq<OrderItem>) returns (m: map<Id, Bullet>)
    ensures m == ReorderEach(bullets, items)
  {
    m := bullets;
    var i := 0;
    while i < |items|
      invariant 0 <= i <= |items|
      invariant m == ReorderEach(bullets, items[..i])
    {
      assert items[..i + 1][..i] == items[..i];
      if items[i].id in m {
        m := m[items[i].id := m[items[i].id].(order := items[i].order)];
      }
      i := i + 1;
    }
    assert items[..|items|] == items;
  }

  /** The REORDER_COLLECTIONS loop: each listed present collection takes its new order. */
  method RenumberCollections(collections: map<Id, Collection>, items: seq<OrderItem>) returns (m: map<Id, Collection>)
    ensures m == ReorderCollectionsEach(collections, items)
  {
    m := collections;
    var i := 0;
    while i < |items|
      invariant 0 <= i <= |items|
      invariant m == ReorderCollectionsEach(collections, items[..i])
    {
      assert items[..i + 1][..i] == items[..i];
      if items[i].id in m {
        m := m[items[i].id := m[items[i].id].(order := Some(items[i].order))];
      }
      i := i + 1;
    }
    assert items[..|items|] == items;
  }

  /** The DELETE_BULLETS loop: each listed key removed. */
  method RemoveEach(bullets: map<Id, Bullet>, ids: seq<Id>) returns (m: map<Id, Bullet>)
    ensures m == DeleteEach(bullets, ids)
  {
    m := bullets;
    var i := 0;
    while i < |ids|
      invariant 0 <= i <= |ids|
      invariant m == DeleteEach(bullets, ids[..i])
    {
      assert ids[..i + 1][..i] == ids[..i];
      m := m - {ids[i]};
      i := i + 1;
    }
    assert ids[..|ids|] == ids;
  }

  // ---- properties of single actions ----

  /** ADD_BULLET inserts exactly the new bullet: open, stamped `now`, no completion time. */
  lemma AddBulletInserts(s: AppState, a: Action, now: int)
    requires a.AddBullet? && a.newId.Some?
    ensures var r := Reduce(s, a, now); var id := a.newId.value;
      && r.bullets.Keys == s.bullets.Keys + {id}
      && r.bullets[id].id == id && r.bullets[id].state == Open
      && r.bullets[id].order == now && r.bullets[id].createdAt == now && r.bullets[id].updatedAt == now
      && r.bullets[id].completedAt == None
      && r.bullets[id].content == a.content && r.bullets[id].kind == a.kind && r.bullets[id].date == a.date
      && r.bullets[id].collectionId == a.collectionId
      && r.bullets[id].longFormContent == a.longFormContent && r.bullets[id].parentNoteId == a.parentNoteId
      && (forall k :: k in s.bullets && k != id ==> r.bullets[k] == s.bullets[k])
      && r.collections == s.collections && r.view == s.view && r.preferences == s.preferences
  {
  }

  /** UPDATE_BULLET of an id that is not in the map leaves the state as it is. */
  lemma UpdateMissingIsNoOp(s: AppState, id: Id, p: BulletPatch, now: int)
    requires id !in s.bullets
    ensures Reduce(s, UpdateBullet(id, p), now) == s
  {
  }

  /**
   * UPDATE_BULLET of a present bullet: only that entry changes.  It keeps
   * the payload's id, every field the payload has overlays the old one,
   * `updatedAt` becomes `now`, and the completion rule decides
   * `completedAt`: stamped on completing, cleared on reopening, and
   * otherwise the payload's own value if it has one.
   */
  lemma UpdateBulletStamps(s: AppState, id: Id, p: BulletPatch, now: int)
    requires id in s.bullets
    ensures var r := Reduce(s, UpdateBullet(id, p), now); var old_ := s.bullets[id];
      && r.bullets.Keys == s.bullets.Keys
      && PatchedFieldsOnce(old_, r.bullets[id], p, now)
      && r.bullets[id].id == id
      && (forall k :: k in s.bullets && k != id ==> r.bullets[k] == s.bullets[k])
      && r.collections == s.collections && r.view == s.view && r.preferences == s.preferences
  {
    PatchedOnceFields(s.bullets[id], p, now);
  }

  /** Completing a bullet that is not completed. */
  predicate Completes(b: Bullet, p: BulletPatch)
  {
    p.state == Put(Completed) && b.state != Completed
  }

  /** Reopening a bullet that is completed. */
  predicate Reopens(b: Bullet, p: BulletPatch)
  {
    p.state == Put(Open) && b.state == Completed
  }

  /** Every field but `id` and `completedAt` is the payload's where it has one and the old one otherwise; `updatedAt` is `now`. */
  predicate OverlaidFields(b: Bullet, r: Bullet, p: BulletPatch, now: int)
  {
    && r.content == Over(p.content, b.content)
    && r.kind == Over(p.kind, b.kind)
    && r.state == Over(p.state, b.state)
    && r.date == Over(p.date, b.date)
    && r.collectionId == Over(p.collectionId, b.collectionId)
    && r.order == Over(p.order, b.order)
    && r.createdAt == Over(p.createdAt, b.createdAt)
    && r.updatedAt == now
    && r.longFormContent == Over(p.longFormContent, b.longFormContent)
    && r.parentNoteId == Over(p.parentNoteId, b.parentNoteId)
  }

  /** `r` is `b` after one pass of the patch: the overlay plus the completion rule. */
  predicate PatchedFieldsOnce(b: Bullet, r: Bullet, p: BulletPatch, now: int)
  {
    && OverlaidFields(b, r, p, now)
    && (Completes(b, p) ==> r.completedAt == Some(now))
    && (Reopens(b, p) ==> r.completedAt == None)
    && (!Completes(b, p) && !Reopens(b, p) ==> r.completedAt == Over(p.completedAt, b.completedAt))
  }

  lemma PatchedOnceFields(b: Bullet, p: BulletPatch, now: int)
    ensures PatchedFieldsOnce(b, Patched(b, p, now), p, now) && Patched(b, p, now).id == b.id
  {
  }

  /** DELETE_BULLET removes exactly the given key. */
  lemma DeleteBulletRemovesKey(s: AppState, id: Id, now: int)
    ensures var r := Reduce(s, DeleteBullet(id), now);
      && r.bullets.Keys == s.bullets.Keys - {id}
      && (forall k :: k in r.bullets ==> r.bullets[k] == s.bullets[k])
  {
  }

  /** After RESTORE_BULLET the map holds the payload under its id, and the other entries are as before. */
  lemma RestoreBulletPuts(s: AppState, b: Bullet, now: int)
    ensures var r := Reduce(s, RestoreBullet(b), now);
      && b.id in r.bullets && r.bullets[b.id] == b
      && r.bullets.Keys == s.bullets.Keys + {b.id}
      && (forall k :: k in s.bullets && k != b.id ==> r.bullets[k] == s.bullets[k])
  {
  }

  /** UNDO reaching the reducer, and MIGRATE_BULLET (which has no case), change nothing locally. */
  lemma UndoAndMigrateAreNoOps(s: AppState, id: Id, target: Day, newId: Option<Id>, now: int)
    ensures Reduce(s, Undo, now) == s
    ensures Reduce(s, MigrateBullet(id, target, newId), now) == s
  {
  }

  /** SET_VIEW keeps the current date when the payload has none, and always takes the payload's collection. */
  lemma SetViewDate(s: AppState, mode: ViewMode, date: Option<Day>, cid: Option<Id>, now: int)
    ensures var r := Reduce(s, SetView(mode, date, cid), now);
      && r.view.mode == mode && r.view.collectionId == cid
      && r.view.date == (if date.Some? then date.value else s.view.date)
      && r.bullets == s.bullets && r.collections == s.collections
  {
  }

  /** The loaded entries of a LOAD_DATA payload field: `payload.x || {}`. */
  function Loaded<K, V>(x: Option<map<K, V>>): map<K, V>
  {
    if x.Some? then x.value else map[]
  }

  /**
   * LOAD_DATA merges the loaded bullets and collections over the local
   * ones, and the loaded preferences, when given, key by key over the
   * local ones; the view is kept.
   */
  lemma LoadDataMerges(s: AppState, bs: Option<map<Id, Bullet>>, cs: Option<map<Id, Collection>>,
                       ps: Option<Preferences>, now: int)
    ensures var r := Reduce(s, LoadData(bs, cs, ps), now); var lb := Loaded(bs); var lc := Loaded(cs);
      && r.bullets.Keys == s.bullets.Keys + lb.Keys
      && (forall k :: k in lb ==> r.bullets[k] == lb[k])
      && (forall k :: k in s.bullets && k !in lb ==> r.bullets[k] == s.bullets[k])
      && r.collections.Keys == s.collections.Keys + lc.Keys
      && (forall k :: k in lc ==> r.collections[k] == lc[k])
      && (forall k :: k in s.collections && k !in lc ==> r.collections[k] == s.collections[k])
      && r.view == s.view
      && (ps.None? ==> r.preferences == s.preferences)
      && (ps.Some? ==>
            && r.preferences.Keys == s.preferences.Keys + ps.value.Keys
            && (forall k :: k in ps.value ==> r.preferences[k] == ps.value[k])
            && (forall k :: k in s.preferences && k !in ps.value ==> r.preferences[k] == s.preferences[k]))
  {
    var r := Reduce(s, LoadData(bs, cs, ps), now);
    assert r.bullets == s.bullets + Loaded(bs);
    assert r.collections == s.collections + Loaded(cs);
    assert r.view == s.view;
    assert r.preferences == if ps.Some? then s.preferences + ps.value else s.preferences;
  }

  /** TOGGLE_PREFERENCE flips one key; twice restores a key that was present. */
  lemma ToggleTwice(s: AppState, key: PrefKey, now: int)
    ensures var r := Reduce(s, TogglePreference(key), now);
      Pref(r.preferences, key) == !Pref(s.preferences, key)
    ensures var r := Reduce(Reduce(s, TogglePreference(key), now), TogglePreference(key), now);
      && (key in s.preferences ==> r.preferences == s.preferences)
      && (key !in s.preferences ==> r.preferences == s.preferences[key := false])
  {
  }

  /** ADD_COLLECTION inserts the collection under its id, created and ordered at `now`. */
  lemma AddCollectionInserts(s: AppState, id: Id, title: string, kind: CollectionType, now: int)
    ensures var r := Reduce(s, AddCollection(Some(id), title, kind), now);
      && r.collections.Keys == s.collections.Keys + {id}
      && r.collections[id] == Collection(id, title, kind, now, Some(now))
      && (forall k :: k in s.collections && k != id ==> r.collections[k] == s.collections[k])
      && r.bullets == s.bullets
  {
  }

  /**
   * UPDATE_COLLECTION of a missing id changes nothing; of a present one it
   * overlays the patch's fields and leaves the other entries as they were.
   */
  lemma UpdateCollectionMerges(s: AppState, id: Id, p: CollectionPatch, now: int)
    ensures var r := Reduce(s, UpdateCollection(id, p), now);
      && (id !in s.collections ==> r == s)
      && (id in s.collections ==>
            && r.collections.Keys == s.collections.Keys
            && r.collections[id].id == id
            && r.collections[id].title == Over(p.title, s.collections[id].title)
            && r.collections[id].kind == Over(p.kind, s.collections[id].kind)
            && r.collections[id].createdAt == Over(p.createdAt, s.collections[id].createdAt)
            && r.collections[id].order == Over(p.order, s.collections[id].order)
            && (forall k :: k in s.collections && k != id ==> r.collections[k] == s.collections[k])
            && r.bullets == s.bullets && r.view == s.view && r.preferences == s.preferences)
  {
  }

  /** DELETE_COLLECTION removes exactly the given key and leaves the bullets alone. */
  lemma DeleteCollectionRemovesKey(s: AppState, id: Id, now: int)
    ensures var r := Reduce(s, DeleteCollection(id), now);
      && r.collections.Keys == s.collections.Keys - {id}
      && (forall k :: k in r.collections ==> r.collections[k] == s.collections[k])
      && r.bullets == s.bullets
  {
  }

  // ---- properties of the list actions ----

  /**
   * A bullet after `times` passes of the same patch (an id listed `times`
   * times).  Every pass after the first finds the new state already in
   * place, so the completion rule no longer fires and the payload's own
   * `completedAt`, if it has one, is what remains.
   */
  function PatchedTimes(b: Bullet, p: BulletPatch, now: int, times: nat): Bullet
    requires times >= 1
  {
    if times == 1 || p.completedAt.Keep? then Patched(b, p, now)
    else Patched(b, p, now).(completedAt := p.completedAt.value)
  }

  /** One more pass of the patch. */
  lemma PatchAgain(b: Bullet, p: BulletPatch, now: int, times: nat)
    requires times >= 1
    ensures Patched(PatchedTimes(b, p, now, times), p, now) == PatchedTimes(b, p, now, times + 1)
  {
  }

  /** UPDATE_BULLETS patches each listed present bullet once per listing, and leaves the others alone. */
  lemma {:induction false} UpdateEachExact(m: map<Id, Bullet>, ids: seq<Id>, p: BulletPatch, now: int)
    ensures var r := UpdateEach(m, ids, p, now);
      && r.Keys == m.Keys
      && (forall k :: k in m && k !in ids ==> r[k] == m[k])
      && (forall k :: k in m && k in ids ==> r[k] == PatchedTimes(m[k], p, now, multiset(ids)[k]))
  {
    if ids != [] {
      var init := ids[..|ids| - 1];
      var last := ids[|ids| - 1];
      UpdateEachExact(m, init, p, now);
      assert ids == init + [last];
      assert multiset(ids) == multiset(init) + multiset{last};
      var m' := UpdateEach(m, init, p, now);
      var r := UpdateEach(m, ids, p, now);
      if last in m {
        if last in init {
          PatchAgain(m[last], p, now, multiset(init)[last]);
        } else {
          assert multiset(ids)[last] == 1;
        }
      }
      forall k | k in m && k in ids ensures r[k] == PatchedTimes(m[k], p, now, multiset(ids)[k]) {
        if k != last {
          assert k in init;
        }
      }
    }
  }

  /**
   * UPDATE_BULLETS never adds a key and leaves unlisted bullets as they
   * were.  A listed present bullet gets the payload's fields over its own
   * and `updatedAt` `now`; listed once, its `completedAt` follows the
   * completion rule; listed again, the payload's `completedAt`, if any,
   * wins.
   */
  lemma UpdateEachFrame(m: map<Id, Bullet>, ids: seq<Id>, p: BulletPatch, now: int)
    ensures var r := UpdateEach(m, ids, p, now);
      && r.Keys == m.Keys
      && (forall k :: k in m && k !in ids ==> r[k] == m[k])
      && (forall k :: k in m && k in ids ==> OverlaidFields(m[k], r[k], p, now) && r[k].id == m[k].id)
      && (forall k :: k in m && multiset(ids)[k] == 1 ==> PatchedFieldsOnce(m[k], r[k], p, now))
      && (forall k :: k in m && multiset(ids)[k] > 1 ==>
            if p.completedAt.Put? then r[k].completedAt == p.completedAt.value
            else PatchedFieldsOnce(m[k], r[k], p, now))
  {
    UpdateEachExact(m, ids, p, now);
    forall k | k in m && k in ids
      ensures PatchedFieldsOnce(m[k], Patched(m[k], p, now), p, now) && Patched(m[k], p, now).id == m[k].id
    {
      PatchedOnceFields(m[k], p, now);
    }
  }

  /** No payload entry after position `j` names the same id as entry `j`. */
  ghost predicate LastNaming(ids: seq<Id>, j: int)
    requires 0 <= j < |ids|
  {
    forall j' :: j < j' < |ids| ==> ids[j'] != ids[j]
  }

  function ItemIds(items: seq<OrderItem>): (r: seq<Id>)
    ensures |r| == |items| && forall j :: 0 <= j < |items| ==> r[j] == items[j].id
  {
    if items == [] then [] else ItemIds(items[..|items| - 1]) + [items[|items| - 1].id]
  }

  /** REORDER_BULLETS never adds a key, changes nothing but `order`, and leaves unlisted bullets alone. */
  lemma {:induction false} ReorderEachFrame(m: map<Id, Bullet>, items: seq<OrderItem>)
    ensures var r := ReorderEach(m, items);
      && r.Keys == m.Keys
      && (forall k :: k in m ==> r[k] == m[k].(order := r[k].order))
      && (forall k :: k in m && k !in ItemIds(items) ==> r[k] == m[k])
  {
    if items != [] {
      var init := items[..|items| - 1];
      var last := items[|items| - 1];
      ReorderEachFrame(m, init);
      assert ItemIds(items) == ItemIds(init) + [last.id];
    }
  }

  /** A listed present bullet gets the order of the last payload item naming it. */
  lemma {:induction false} ReorderEachLastWins(m: map<Id, Bullet>, items: seq<OrderItem>, j: int)
    requires 0 <= j < |items| && items[j].id in m && LastNaming(ItemIds(items), j)
    ensures items[j].id in ReorderEach(m, items) && ReorderEach(m, items)[items[j].id].order == items[j].order
    decreases |items|
  {
    var init := items[..|items| - 1];
    var last := items[|items| - 1];
    ReorderEachFrame(m, init);
    if j < |items| - 1 {
      var ids := ItemIds(items);
      assert ids[|items| - 1] != ids[j];
      assert LastNaming(ItemIds(init), j) by {
        forall j' | j < j' < |init| ensures ItemIds(init)[j'] != ItemIds(init)[j] {
          assert ids[j'] != ids[j];
        }
      }
      ReorderEachLastWins(m, init, j);
      assert init[j] == items[j];
    }
  }

  /**
   * REORDER_BULLETS never adds a key and changes nothing but `order`: a
   * listed bullet gets the order of the last payload item naming it.
   */
  lemma ReorderEachOnlyOrder(m: map<Id, Bullet>, items: seq<OrderItem>)
    ensures var r := ReorderEach(m, items);
      && r.Keys == m.Keys
      && (forall k :: k in m ==> r[k] == m[k].(order := r[k].order))
      && (forall k :: k in m && k !in ItemIds(items) ==> r[k] == m[k])
      && (forall j :: 0 <= j < |items| && items[j].id in m && LastNaming(ItemIds(items), j) ==>
            r[items[j].id].order == items[j].order)
  {
    ReorderEachFrame(m, items);
    forall j | 0 <= j < |items| && items[j].id in m && LastNaming(ItemIds(items), j)
      ensures ReorderEach(m, items)[items[j].id].order == items[j].order
    {
      ReorderEachLastWins(m, items, j);
    }
  }

  /** REORDER_COLLECTIONS never adds a key, changes nothing but `order`, and leaves unlisted collections alone. */
  lemma {:induction false} ReorderCollectionsFrame(m: map<Id, Collection>, items: seq<OrderItem>)
    ensures var r := ReorderCollectionsEach(m, items);
      && r.Keys == m.Keys
      && (forall k :: k in m ==> r[k] == m[k].(order := r[k].order))
      && (forall k :: k in m && k !in ItemIds(items) ==> r[k] == m[k])
  {
    if items != [] {
      var init := items[..|items| - 1];
      ReorderCollectionsFrame(m, init);
      assert ItemIds(items) == ItemIds(init) + [items[|items| - 1].id];
    }
  }

  /** A listed present collection gets the order of the last payload item naming it. */
  lemma {:induction false} ReorderCollectionsLastWins(m: map<Id, Collection>, items: seq<OrderItem>, j: int)
    requires 0 <= j < |items| && items[j].id in m && LastNaming(ItemIds(items), j)
    ensures items[j].id in ReorderCollectionsEach(m, items)
    ensures ReorderCollectionsEach(m, items)[items[j].id].order == Some(items[j].order)
    decreases |items|
  {
    var init := items[..|items| - 1];
    ReorderCollectionsFrame(m, init);
    if j < |items| - 1 {
      var ids := ItemIds(items);
      assert ids[|items| - 1] != ids[j];
      assert LastNaming(ItemIds(init), j) by {
        forall j' | j < j' < |init| ensures ItemIds(init)[j'] != ItemIds(init)[j] {
          assert ids[j'] != ids[j];
        }
      }
      ReorderCollectionsLastWins(m, init, j);
      assert init[j] == items[j];
    }
  }

  /**
   * REORDER_COLLECTIONS never adds a key and changes nothing but `order`:
   * a listed collection gets the order of the last payload item naming it.
   */
  lemma ReorderCollectionsOnlyOrder(m: map<Id, Collection>, items: seq<OrderItem>)
    ensures var r := ReorderCollectionsEach(m, items);
      && r.Keys == m.Keys
      && (forall k :: k in m ==> r[k] == m[k].(order := r[k].order))
      && (forall k :: k in m && k !in ItemIds(items) ==> r[k] == m[k])
      && (forall j :: 0 <= j < |items| && items[j].id in m && LastNaming(ItemIds(items), j) ==>
            r[items[j].id].order == Some(items[j].order))
  {
    ReorderCollectionsFrame(m, items);
    forall j | 0 <= j < |items| && items[j].id in m && LastNaming(ItemIds(items), j)
      ensures ReorderCollectionsEach(m, items)[items[j].id].order == Some(items[j].order)
    {
      ReorderCollectionsLastWins(m, items, j);
    }
  }

  /** DELETE_BULLETS removes exactly the listed keys. */
  lemma {:induction false} DeleteEachRemoves(m: map<Id, Bullet>, ids: seq<Id>)
    ensures DeleteEach(m, ids) == m - set k | k in ids
  {
    if ids != [] {
      var init := ids[..|ids| - 1];
      DeleteEachRemoves(m, init);
      assert (set k | k in ids) == (set k | k in init) + {ids[|ids| - 1]};
    }
  }

  function BulletIds(bs: seq<Bullet>): (r: seq<Id>)
    ensures |r| == |bs| && forall j :: 0 <= j < |bs| ==> r[j] == bs[j].id
  {
    if bs == [] then [] else BulletIds(bs[..|bs| - 1]) + [bs[|bs| - 1].id]
  }

  /** ADD_BULLETS: every listed bullet is stored under its id (the last one wins); other keys are untouched. */
  lemma {:induction false} AddEachStores(m: map<Id, Bullet>, bs: seq<Bullet>)
    ensures var r := AddEach(m, bs);
      && (forall k :: k in r <==> k in m || k in BulletIds(bs))
      && (forall k :: k in m && k !in BulletIds(bs) ==> r[k] == m[k])
      && (forall j :: 0 <= j < |bs| && LastNaming(BulletIds(bs), j) ==> r[bs[j].id] == bs[j])
  {
    if bs != [] {
      var init := bs[..|bs| - 1];
      var last := bs[|bs| - 1];
      AddEachStores(m, init);
      var r := AddEach(m, bs);
      var ids := BulletIds(bs);
      assert ids == BulletIds(init) + [last.id];
      forall j | 0 <= j < |bs| && LastNaming(ids, j) ensures r[bs[j].id] == bs[j] {
        if j < |bs| - 1 {
          assert ids[|bs| - 1] != ids[j];
          assert LastNaming(BulletIds(init), j) by {
            forall j' | j < j' < |init| ensures BulletIds(init)[j'] != BulletIds(init)[j] {
              assert ids[j'] != ids[j];
            }
          }
        }
      }
    }
  }
}
