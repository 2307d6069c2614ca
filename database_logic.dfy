/**
 * Firestore write planning (src/lib/database.logic.ts).
 *
 * `performActionInFirestoreLogic` issues, per action, an ordered sequence
 * of awaited document writes.  The model returns that sequence as a list
 * of `Write` values: `Plan` is the specification, and the method
 * `PerformAction` accumulates the same list the way the source issues it.
 * A document body is a map from field name to value; a field whose value
 * is `undefined` is not in the map.  The snapshot handler of
 * `subscribeToUserDataLogic` is `CollectDocs`.
 */
module DatabaseLogic {
  import opened Types
  import opened JsString

  datatype Value = Text(s: string) | Number(n: int) | DayValue(d: Day)

  /** The document fields the app writes. */
  datatype Key =
    | IdKey | ContentKey | TypeKey | StateKey | OrderKey | CreatedAtKey | UpdatedAtKey
    | DateKey | CollectionIdKey | CompletedAtKey | LongFormContentKey | ParentNoteIdKey | TitleKey

  /** The field's name in the stored document. */
  function KeyName(k: Key): string
  {
    match k
    case IdKey => "id"
    case ContentKey => "content"
    case TypeKey => "type"
    case StateKey => "state"
    case OrderKey => "order"
    case CreatedAtKey => "createdAt"
    case UpdatedAtKey => "updatedAt"
    case DateKey => "date"
    case CollectionIdKey => "collectionId"
    case CompletedAtKey => "completedAt"
    case LongFormContentKey => "longFormContent"
    case ParentNoteIdKey => "parentNoteId"
    case TitleKey => "title"
  }

  type Fields = map<Key, Value>

  datatype CollectionName = BulletsDocs | CollectionsDocs

  /** `users/<uid>/bullets/<id>` or `users/<uid>/collections/<id>`. */
  datatype DocPath = DocPath(uid: string, coll: CollectionName, id: Id)

  datatype Write =
    | SetDoc(path: DocPath, fields: Fields)
    | UpdateDoc(path: DocPath, fields: Fields)
    | DeleteDoc(path: DocPath)

  function TypeName(t: BulletType): string
  {
    match t
    case Task => "task"
    case Note => "note"
    case Event => "event"
  }

  function StateName(st: BulletState): string
  {
    match st
    case Open => "open"
    case Completed => "completed"
    case Migrated => "migrated"
    case Scheduled => "scheduled"
    case Cancelled => "cancelled"
  }

  function CollectionTypeName(t: CollectionType): string
  {
    match t
    case Project => "project"
    case List => "list"
    case FutureLog => "future_log"
  }

  const AllKeys: set<Key> := {IdKey, ContentKey, TypeKey, StateKey, OrderKey, CreatedAtKey, UpdatedAtKey,
                              DateKey, CollectionIdKey, CompletedAtKey, LongFormContentKey, ParentNoteIdKey, TitleKey}

  lemma AllKeysListed()
    ensures forall k: Key :: k in AllKeys
  {
    forall k: Key ensures k in AllKeys {
      match k
      case IdKey => case ContentKey => case TypeKey => case StateKey => case OrderKey =>
      case CreatedAtKey => case UpdatedAtKey => case DateKey => case CollectionIdKey =>
      case CompletedAtKey => case LongFormContentKey => case ParentNoteIdKey => case TitleKey =>
    }
  }

  /** The document whose field `k` is `v(k)`, a field being left out where `v(k)` is undefined. */
  function Build(v: Key -> Option<Value>): (f: Fields)
    ensures forall k :: k in f <==> v(k).Some?
    ensures forall k :: k in f ==> f[k] == v(k).value
  {
    AllKeysListed();
    map k | k in AllKeys && v(k).Some? :: v(k).value
  }

  function DefinedText(v: Option<string>): Option<Value>
  {
    if v.Some? then Some(Text(v.value)) else None
  }

  function DefinedId(v: Option<Id>): Option<Value>
  {
    if v.Some? then Some(Text(v.value)) else None
  }

  function DefinedNumber(v: Option<int>): Option<Value>
  {
    if v.Some? then Some(Number(v.value)) else None
  }

  function DefinedDay(v: Option<Day>): Option<Value>
  {
    if v.Some? then Some(DayValue(v.value)) else None
  }

  /** A payload field: defined when it is in the payload with a defined value. */
  function Given<T>(u: Upd<T>, enc: T -> Value): Option<Value>
  {
    if u.Put? then Some(enc(u.value)) else None
  }

  function GivenOpt<T>(u: Upd<Option<T>>, enc: T -> Value): Option<Value>
  {
    if u.Put? && u.value.Some? then Some(enc(u.value.value)) else None
  }

  /** Field `k` of a bullet, as `{ ...bullet }` spreads it. */
  function BulletValue(b: Bullet, k: Key): Option<Value>
  {
    match k
    case IdKey => Some(Text(b.id))
    case ContentKey => Some(Text(b.content))
    case TypeKey => Some(Text(TypeName(b.kind)))
    case StateKey => Some(Text(StateName(b.state)))
    case OrderKey => Some(Number(b.order))
    case CreatedAtKey => Some(Number(b.createdAt))
    case UpdatedAtKey => Some(Number(b.updatedAt))
    case DateKey => DefinedDay(b.date)
    case CollectionIdKey => DefinedId(b.collectionId)
    case CompletedAtKey => DefinedNumber(b.completedAt)
    case LongFormContentKey => DefinedText(b.longFormContent)
    case ParentNoteIdKey => DefinedId(b.parentNoteId)
    case TitleKey => None
  }

  /**
   * Field `k` of the document ADD_BULLET sets: `{ ...cleanData, id, state:
   * 'open', createdAt, updatedAt, order }`, `cleanData` being the payload
   * without its id and its undefined fields.
   */
  function AddedValue(a: Action, id: Id, now: int, k: Key): Option<Value>
    requires a.AddBullet?
  {
    match k
    case IdKey => Some(Text(id))
    case ContentKey => Some(Text(a.content))
    case TypeKey => Some(Text(TypeName(a.kind)))
    case StateKey => Some(Text("open"))
    case OrderKey => Some(Number(now))
    case CreatedAtKey => Some(Number(now))
    case UpdatedAtKey => Some(Number(now))
    case DateKey => DefinedDay(a.date)
    case CollectionIdKey => DefinedId(a.collectionId)
    case CompletedAtKey => None
    case LongFormContentKey => DefinedText(a.longFormContent)
    case ParentNoteIdKey => DefinedId(a.parentNoteId)
    case TitleKey => None
  }

  /** Field `k` of the UPDATE_BULLET write: the payload (id included) without undefined fields, plus `updatedAt`. */
  function PatchValue(id: Id, p: BulletPatch, now: int, k: Key): Option<Value>
  {
    match k
    case IdKey => Some(Text(id))
    case ContentKey => Given(p.content, (c: string) => Text(c))
    case TypeKey => Given(p.kind, (t: BulletType) => Text(TypeName(t)))
    case StateKey => Given(p.state, (st: BulletState) => Text(StateName(st)))
    case OrderKey => Given(p.order, (n: int) => Number(n))
    case CreatedAtKey => Given(p.createdAt, (n: int) => Number(n))
    case UpdatedAtKey => Some(Number(now))
    case DateKey => GivenOpt(p.date, (d: Day) => DayValue(d))
    case CollectionIdKey => GivenOpt(p.collectionId, (x: Id) => Text(x))
    case CompletedAtKey => GivenOpt(p.completedAt, (n: int) => Number(n))
    case LongFormContentKey => GivenOpt(p.longFormContent, (c: string) => Text(c))
    case ParentNoteIdKey => GivenOpt(p.parentNoteId, (x: Id) => Text(x))
    case TitleKey => None
  }

  /** Field `k` of the UPDATE_COLLECTION write: the payload (id included) without undefined fields. */
  function CollectionPatchValue(id: Id, p: CollectionPatch, k: Key): Option<Value>
  {
    match k
    case IdKey => Some(Text(id))
    case TitleKey => Given(p.title, (c: string) => Text(c))
    case TypeKey => Given(p.kind, (t: CollectionType) => Text(CollectionTypeName(t)))
    case CreatedAtKey => Given(p.createdAt, (n: int) => Number(n))
    case OrderKey => GivenOpt(p.order, (n: int) => Number(n))
    case _ => None
  }

  /**
   * Field `k` of the copy a daily-log migration creates: `{ ...bullet, id:
   * newId, date, state: 'open', createdAt, updatedAt, order }`.
   */
  function CopyValue(b: Bullet, newId: Id, target: Day, now: int, k: Key): Option<Value>
  {
    match k
    case IdKey => Some(Text(newId))
    case DateKey => Some(DayValue(target))
    case StateKey => Some(Text("open"))
    case CreatedAtKey => Some(Number(now))
    case UpdatedAtKey => Some(Number(now))
    case OrderKey => Some(Number(now))
    case _ => BulletValue(b, k)
  }

  /** The text a parent note uses to reference an embedded task. */
  function BulletRef(id: Id): string
  {
    "\"bulletId\":\"" + id + "\""
  }

  /** Step 3 of a daily-log migration: the parent note's references to the old id, rewritten. */
  function ParentNoteWrites(uid: string, s: AppState, b: Bullet, newId: Id, now: int): seq<Write>
  {
    if b.parentNoteId.Some? && b.parentNoteId.value in s.bullets then
      var parent := s.bullets[b.parentNoteId.value];
      if parent.longFormContent.Some? && parent.longFormContent.value != "" then
        [UpdateDoc(DocPath(uid, BulletsDocs, parent.id),
                   map[LongFormContentKey := Text(ReplaceAll(parent.longFormContent.value, BulletRef(b.id), BulletRef(newId))),
                       UpdatedAtKey := Number(now)])]
      else []
    else []
  }

  function ReorderWrites(uid: string, items: seq<OrderItem>): (ws: seq<Write>)
  {
    if items == [] then []
    else
      var it := items[|items| - 1];
      ReorderWrites(uid, items[..|items| - 1]) + [UpdateDoc(DocPath(uid, BulletsDocs, it.id), map[OrderKey := Number(it.order)])]
  }

  /**
   * The writes `performActionInFirestoreLogic(uid, a, s)` issues, in order,
   * with every `Date.now()` reading `now`.  Actions without a case issue none.
   */
  function Plan(uid: string, a: Action, s: AppState, now: int): seq<Write>
  {
    match a
    case AddBullet(newId, _, _, _, _, _, _) =>
      if newId.None? then []
      else
        [SetDoc(DocPath(uid, BulletsDocs, newId.value), Build(k => AddedValue(a, newId.value, now, k)))]
    case UpdateBullet(id, p) =>
      [UpdateDoc(DocPath(uid, BulletsDocs, id), Build(k => PatchValue(id, p, now, k)))]
    case DeleteBullet(id) =>
      [DeleteDoc(DocPath(uid, BulletsDocs, id))]
    case MigrateBullet(id, target, newId) =>
      if id !in s.bullets then []
      else
        var b := s.bullets[id];
        if b.collectionId.Some? then
          [UpdateDoc(DocPath(uid, BulletsDocs, b.id), map[DateKey := DayValue(target), UpdatedAtKey := Number(now)])]
        else if newId.None? then []
        else
          [UpdateDoc(DocPath(uid, BulletsDocs, b.id), map[StateKey := Text("migrated"), UpdatedAtKey := Number(now)]),
           SetDoc(DocPath(uid, BulletsDocs, newId.value), Build(k => CopyValue(b, newId.value, target, now, k)))]
          + ParentNoteWrites(uid, s, b, newId.value, now)
    case AddCollection(newId, title, kind) =>
      if newId.None? then []
      else
        [SetDoc(DocPath(uid, CollectionsDocs, newId.value),
                map[TitleKey := Text(title), TypeKey := Text(CollectionTypeName(kind)),
                    IdKey := Text(newId.value), CreatedAtKey := Number(now)])]
    case UpdateCollection(id, p) =>
      [UpdateDoc(DocPath(uid, CollectionsDocs, id), Build(k => CollectionPatchValue(id, p, k)))]
    case DeleteCollection(id) =>
      [DeleteDoc(DocPath(uid, CollectionsDocs, id))]
    case ReorderBullets(items) =>
      ReorderWrites(uid, items)
    case _ => []
  }

  /** The planner as the source runs it: each awaited write is appended in turn. */
  method PerformAction(uid: string, a: Action, s: AppState, now: int) returns (writes: seq<Write>)
    ensures writes == Plan(uid, a, s, now)
  {
    match a {
      case ReorderBullets(items) =>
        writes := [];
        var i := 0;
        while i < |items|
          invariant 0 <= i <= |items|
          invariant writes == ReorderWrites(uid, items[..i])
        {
          assert items[..i + 1][..i] == items[..i];
          writes := writes + [UpdateDoc(DocPath(uid, BulletsDocs, items[i].id), map[OrderKey := Number(items[i].order)])];
          i := i + 1;
        }
        assert items[..|items|] == items;
      case _ =>
        writes := Plan(uid, a, s, now);
    }
  }

  // ---- properties of the plan ----

  /** ADD_BULLET without an id issues no writes. */
  lemma AddWithoutIdWritesNothing(uid: string, a: Action, s: AppState, now: int)
    requires a.AddBullet? && a.newId.None?
    ensures Plan(uid, a, s, now) == []
  {
  }

  /**
   * ADD_BULLET issues one set of `bullets/<id>`: the payload's defined
   * fields, the id, state `open`, and the three timestamps.
   */
  lemma AddBulletSetsDocument(uid: string, a: Action, s: AppState, now: int)
    requires a.AddBullet? && a.newId.Some?
    ensures var ws := Plan(uid, a, s, now);
      && |ws| == 1 && ws[0].SetDoc? && ws[0].path == DocPath(uid, BulletsDocs, a.newId.value)
      && var f := ws[0].fields;
      && (forall k :: k in f <==>
            k in {IdKey, ContentKey, TypeKey, StateKey, CreatedAtKey, UpdatedAtKey, OrderKey}
            || (k == DateKey && a.date.Some?) || (k == CollectionIdKey && a.collectionId.Some?)
            || (k == LongFormContentKey && a.longFormContent.Some?) || (k == ParentNoteIdKey && a.parentNoteId.Some?))
      && f[IdKey] == Text(a.newId.value) && f[StateKey] == Text("open") && f[ContentKey] == Text(a.content)
      && f[CreatedAtKey] == Number(now) && f[UpdatedAtKey] == Number(now) && f[OrderKey] == Number(now)
  {
  }

  /**
   * UPDATE_BULLET issues one update of `bullets/<id>` carrying the id, the
   * payload's defined fields and `updatedAt`; it never carries the
   * completion stamp the reducer computes locally.
   */
  lemma UpdateBulletUpdatesDocument(uid: string, id: Id, p: BulletPatch, s: AppState, now: int)
    ensures var ws := Plan(uid, UpdateBullet(id, p), s, now);
      && |ws| == 1 && ws[0].UpdateDoc? && ws[0].path == DocPath(uid, BulletsDocs, id)
      && var f := ws[0].fields;
      && f[IdKey] == Text(id) && f[UpdatedAtKey] == Number(now)
      && (StateKey in f <==> p.state.Put?)
      && (p.state.Put? ==> f[StateKey] == Text(StateName(p.state.value)))
      && (ContentKey in f <==> p.content.Put?)
      && (DateKey in f <==> p.date.Put? && p.date.value.Some?)
      && (CompletedAtKey in f <==> p.completedAt.Put? && p.completedAt.value.Some?)
      && (forall k :: k in f ==> k in {IdKey, UpdatedAtKey, ContentKey, TypeKey, StateKey, DateKey, CollectionIdKey,
                                      OrderKey, CreatedAtKey, CompletedAtKey, LongFormContentKey, ParentNoteIdKey})
  {
  }

  /** MIGRATE_BULLET of an unknown bullet, or of a daily bullet without a new id, issues no writes. */
  lemma MigrateWritesNothing(uid: string, id: Id, target: Day, newId: Option<Id>, s: AppState, now: int)
    requires id !in s.bullets || (s.bullets[id].collectionId.None? && newId.None?)
    ensures Plan(uid, MigrateBullet(id, target, newId), s, now) == []
  {
  }

  /** MIGRATE_BULLET of a bullet in a collection only moves its date. */
  lemma MigrateInCollectionMovesDate(uid: string, id: Id, target: Day, newId: Option<Id>, s: AppState, now: int)
    requires id in s.bullets && s.bullets[id].collectionId.Some?
    ensures Plan(uid, MigrateBullet(id, target, newId), s, now) ==
      [UpdateDoc(DocPath(uid, BulletsDocs, s.bullets[id].id), map[DateKey := DayValue(target), UpdatedAtKey := Number(now)])]
  {
  }

  /** The copy keeps the old bullet's fields except the id, date, state and timestamps it sets. */
  lemma CopyFields(b: Bullet, newId: Id, target: Day, now: int)
    ensures var f := Build(k => CopyValue(b, newId, target, now, k));
      && f[IdKey] == Text(newId) && f[DateKey] == DayValue(target) && f[StateKey] == Text("open")
      && f[CreatedAtKey] == Number(now) && f[UpdatedAtKey] == Number(now) && f[OrderKey] == Number(now)
      && f[ContentKey] == Text(b.content) && f[TypeKey] == Text(TypeName(b.kind))
      && (CollectionIdKey in f <==> b.collectionId.Some?)
      && (ParentNoteIdKey in f <==> b.parentNoteId.Some?)
      && (LongFormContentKey in f <==> b.longFormContent.Some?)
      && (CompletedAtKey in f <==> b.completedAt.Some?)
      && TitleKey !in f
  {
  }

  /**
   * MIGRATE_BULLET of a daily bullet: first the old one is marked migrated,
   * then an open copy of it is created at the new id (see `CopyFields`);
   * one more write follows exactly when the bullet belongs to a parent
   * note, held in the map, with non-empty content.
   */
  lemma MigrateDailyCopies(uid: string, id: Id, target: Day, newId: Id, s: AppState, now: int)
    requires id in s.bullets && s.bullets[id].collectionId.None?
    ensures var ws := Plan(uid, MigrateBullet(id, target, Some(newId)), s, now); var b := s.bullets[id];
      && 2 <= |ws| <= 3
      && ws[0] == UpdateDoc(DocPath(uid, BulletsDocs, b.id), map[StateKey := Text("migrated"), UpdatedAtKey := Number(now)])
      && ws[1] == SetDoc(DocPath(uid, BulletsDocs, newId), Build(k => CopyValue(b, newId, target, now, k)))
      && ws[2..] == ParentNoteWrites(uid, s, b, newId, now)
      && (|ws| == 3 <==> b.parentNoteId.Some? && b.parentNoteId.value in s.bullets
                          && s.bullets[b.parentNoteId.value].longFormContent.Some?
                          && s.bullets[b.parentNoteId.value].longFormContent.value != "")
  {
  }

  /**
   * The parent-note rewrite replaces every reference to the old id, left
   * to right: the note splits at the old references into pieces that hold
   * none, and the new text is those pieces joined by the new reference.
   */
  lemma ParentNoteRewrite(uid: string, s: AppState, b: Bullet, newId: Id, now: int)
    requires b.parentNoteId.Some? && b.parentNoteId.value in s.bullets
    requires s.bullets[b.parentNoteId.value].longFormContent.Some?
    requires s.bullets[b.parentNoteId.value].longFormContent.value != ""
    ensures var ws := ParentNoteWrites(uid, s, b, newId, now);
      var parent := s.bullets[b.parentNoteId.value];
      var c := parent.longFormContent.value;
      var pieces := Split(c, BulletRef(b.id));
      && |ws| == 1 && ws[0].UpdateDoc? && ws[0].path == DocPath(uid, BulletsDocs, parent.id)
      && ws[0].fields.Keys == {LongFormContentKey, UpdatedAtKey}
      && Join(pieces, BulletRef(b.id)) == c
      && (forall piece :: piece in pieces ==> !Occurs(piece, BulletRef(b.id)))
      && ws[0].fields[LongFormContentKey] == Text(Join(pieces, BulletRef(newId)))
  {
    var c := s.bullets[b.parentNoteId.value].longFormContent.value;
    SplitJoinRoundTrip(c, BulletRef(b.id));
    SplitPiecesAreFree(c, BulletRef(b.id));
  }

  /** A parent note with no reference to the old id is written back unchanged. */
  lemma ParentNoteWithoutReference(uid: string, s: AppState, b: Bullet, newId: Id, now: int)
    requires b.parentNoteId.Some? && b.parentNoteId.value in s.bullets
    requires s.bullets[b.parentNoteId.value].longFormContent.Some?
    requires s.bullets[b.parentNoteId.value].longFormContent.value != ""
    requires !Occurs(s.bullets[b.parentNoteId.value].longFormContent.value, BulletRef(b.id))
    ensures var ws := ParentNoteWrites(uid, s, b, newId, now);
      |ws| == 1 && ws[0].fields[LongFormContentKey] == Text(s.bullets[b.parentNoteId.value].longFormContent.value)
  {
    ReplaceAbsentIsIdentity(s.bullets[b.parentNoteId.value].longFormContent.value, BulletRef(b.id), BulletRef(newId));
  }

  /** REORDER_BULLETS issues one order-only update per item, in payload order. */
  lemma {:induction false} ReorderWritesOnePerItem(uid: string, items: seq<OrderItem>)
    ensures var ws := ReorderWrites(uid, items);
      && |ws| == |items|
      && forall j :: 0 <= j < |items| ==>
           ws[j] == UpdateDoc(DocPath(uid, BulletsDocs, items[j].id), map[OrderKey := Number(items[j].order)])
  {
    if items != [] {
      ReorderWritesOnePerItem(uid, items[..|items| - 1]);
    }
  }

  /**
   * The collection actions: ADD_COLLECTION without an id writes nothing and
   * with one sets `collections/<id>` to the title, type, id and creation
   * time; UPDATE_COLLECTION and DELETE_COLLECTION touch `collections/<id>` once.
   */
  lemma CollectionWrites(uid: string, id: Id, title: string, kind: CollectionType, p: CollectionPatch, s: AppState, now: int)
    ensures Plan(uid, AddCollection(None, title, kind), s, now) == []
    ensures Plan(uid, AddCollection(Some(id), title, kind), s, now) ==
      [SetDoc(DocPath(uid, CollectionsDocs, id),
              map[TitleKey := Text(title), TypeKey := Text(CollectionTypeName(kind)),
                  IdKey := Text(id), CreatedAtKey := Number(now)])]
    ensures var ws := Plan(uid, UpdateCollection(id, p), s, now);
      && |ws| == 1 && ws[0].UpdateDoc? && ws[0].path == DocPath(uid, CollectionsDocs, id)
      && ws[0].fields[IdKey] == Text(id)
      && (TitleKey in ws[0].fields <==> p.title.Put?)
      && (OrderKey in ws[0].fields <==> p.order.Put? && p.order.value.Some?)
      && UpdatedAtKey !in ws[0].fields
    ensures Plan(uid, DeleteCollection(id), s, now) == [DeleteDoc(DocPath(uid, CollectionsDocs, id))]
  {
    AddCollectionWrites(uid, id, title, kind, s, now);
    UpdateCollectionWrites(uid, id, p, s, now);
  }

  lemma AddCollectionWrites(uid: string, id: Id, title: string, kind: CollectionType, s: AppState, now: int)
    ensures Plan(uid, AddCollection(None, title, kind), s, now) == []
    ensures Plan(uid, AddCollection(Some(id), title, kind), s, now) ==
      [SetDoc(DocPath(uid, CollectionsDocs, id),
              map[TitleKey := Text(title), TypeKey := Text(CollectionTypeName(kind)),
                  IdKey := Text(id), CreatedAtKey := Number(now)])]
  {
  }

  lemma UpdateCollectionWrites(uid: string, id: Id, p: CollectionPatch, s: AppState, now: int)
    ensures var ws := Plan(uid, UpdateCollection(id, p), s, now);
      && |ws| == 1 && ws[0].UpdateDoc? && ws[0].path == DocPath(uid, CollectionsDocs, id)
      && ws[0].fields[IdKey] == Text(id)
      && (TitleKey in ws[0].fields <==> p.title.Put?)
      && (OrderKey in ws[0].fields <==> p.order.Put? && p.order.value.Some?)
      && UpdatedAtKey !in ws[0].fields
  {
  }

  /** The actions without a Firestore case issue no writes. */
  lemma UnsyncedActionsWriteNothing(uid: string, a: Action, s: AppState, now: int)
    requires a.AddBullets? || a.UpdateBullets? || a.DeleteBullets? || a.ReorderCollections?
          || a.SetView? || a.TogglePreference? || a.LoadData? || a.RestoreBullet? || a.Undo?
    ensures Plan(uid, a, s, now) == []
  {
  }

  // ---- the snapshot handler ----

  datatype Doc<T> = Doc(id: Id, data: T)

  /** The map the snapshot handler builds: each document under its id, later documents winning. */
  function DocsToMap<T>(docs: seq<Doc<T>>): map<Id, T>
  {
    if docs == [] then map[]
    else
      var d := docs[|docs| - 1];
      DocsToMap(docs[..|docs| - 1])[d.id := d.data]
  }

  /** `snapshot.forEach(doc => m[doc.id] = doc.data())`. */
  method CollectDocs<T>(docs: seq<Doc<T>>) returns (m: map<Id, T>)
    ensures m == DocsToMap(docs)
  {
    m := map[];
    var i := 0;
    while i < |docs|
      invariant 0 <= i <= |docs|
      invariant m == DocsToMap(docs[..i])
    {
      assert docs[..i + 1][..i] == docs[..i];
      m := m[docs[i].id := docs[i].data];
      i := i + 1;
    }
    assert docs[..|docs|] == docs;
  }

  /** The keys are exactly the document ids. */
  lemma {:induction false} DocsToMapKeys<T>(docs: seq<Doc<T>>)
    ensures forall k :: k in DocsToMap(docs) <==> exists j :: 0 <= j < |docs| && docs[j].id == k
  {
    if docs != [] {
      var init := docs[..|docs| - 1];
      var last := docs[|docs| - 1];
      DocsToMapKeys(init);
      assert DocsToMap(docs) == DocsToMap(init)[last.id := last.data];
      forall k | k in DocsToMap(docs) ensures exists j :: 0 <= j < |docs| && docs[j].id == k {
        if k != last.id {
          var j :| 0 <= j < |init| && init[j].id == k;
          assert docs[j].id == k;
        }
      }
      forall k | exists j :: 0 <= j < |docs| && docs[j].id == k ensures k in DocsToMap(docs) {
        var j :| 0 <= j < |docs| && docs[j].id == k;
        if j < |init| {
          assert init[j].id == k;
        }
      }
    }
  }

  /** Each id holds the data of the last document with that id. */
  lemma {:induction false} DocsToMapLast<T>(docs: seq<Doc<T>>, j: int)
    requires 0 <= j < |docs| && forall j' :: j < j' < |docs| ==> docs[j'].id != docs[j].id
    ensures docs[j].id in DocsToMap(docs) && DocsToMap(docs)[docs[j].id] == docs[j].data
    decreases |docs|
  {
    var init := docs[..|docs| - 1];
    var last := docs[|docs| - 1];
    assert DocsToMap(docs) == DocsToMap(init)[last.id := last.data];
    if j < |init| {
      forall j' | j < j' < |init| ensures init[j'].id != init[j].id {
        assert init[j'] == docs[j'];
      }
      DocsToMapLast(init, j);
      assert init[j] == docs[j];
    }
  }

  /** The keys are exactly the document ids, and each holds the data of the last document with that id. */
  lemma DocsToMapContents<T>(docs: seq<Doc<T>>)
    ensures var m := DocsToMap(docs);
      && (forall k :: k in m <==> exists j :: 0 <= j < |docs| && docs[j].id == k)
      && (forall j :: 0 <= j < |docs| && (forall j' :: j < j' < |docs| ==> docs[j'].id != docs[j].id) ==>
            m[docs[j].id] == docs[j].data)
  {
    DocsToMapKeys(docs);
    forall j | 0 <= j < |docs| && (forall j' :: j < j' < |docs| ==> docs[j'].id != docs[j].id)
      ensures docs[j].id in DocsToMap(docs) && DocsToMap(docs)[docs[j].id] == docs[j].data
    {
      DocsToMapLast(docs, j);
    }
  }
}
