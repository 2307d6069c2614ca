/**
 * The application's data model (types.ts, plus the fields the code uses
 * and types.ts omits: `parentNoteId` on bullets, `order` on collections and
 * the `preferences` record of AppState).
 *
 * Conventions of the whole model:
 * - Ids are non-empty strings.  Where the source tests an optional id for
 *   truthiness (`!id`, `x || null`) the model has `Option<Id>`, and None
 *   stands for undefined, null and the empty string alike.
 * - Dates are day numbers (`Day`, day 0 is 1970-01-01).  Where the source
 *   tests `!b.date` the model has `Option<Day>`.
 * - Timestamps (`Date.now()`) are integers passed in by the caller.
 */
module Types {

  datatype Option<+T> = None | Some(value: T)

  /** A document or entity id: never the empty string. */
  type Id = s: string | s != "" witness "id"

  /** A calendar day, counted from 1970-01-01. */
  type Day = int

  datatype BulletType = Task | Note | Event

  datatype BulletState = Open | Completed | Migrated | Scheduled | Cancelled

  datatype Bullet = Bullet(
    id: Id,
    content: string,
    kind: BulletType,
    state: BulletState,
    date: Option<Day>,
    collectionId: Option<Id>,
    order: int,
    createdAt: int,
    updatedAt: int,
    completedAt: Option<int>,
    longFormContent: Option<string>,
    parentNoteId: Option<Id>)

  datatype CollectionType = Project | List | FutureLog

  datatype Collection = Collection(
    id: Id,
    title: string,
    kind: CollectionType,
    createdAt: int,
    order: Option<int>)

  datatype ViewMode = Daily | Week | Future | CollectionMode | Search | Backlog

  datatype View = View(mode: ViewMode, date: Day, collectionId: Option<Id>)

  datatype PrefKey = GroupByProject | ShowCompleted | SortByType | ShowMigrated

  /** Preferences as the source keeps them: a record whose keys may be missing. */
  type Preferences = map<PrefKey, bool>

  /** `state.preferences[key]` read as a boolean: a missing key is falsy. */
  function Pref(prefs: Preferences, key: PrefKey): bool
  {
    key in prefs && prefs[key]
  }

  datatype AppState = AppState(
    bullets: map<Id, Bullet>,
    collections: map<Id, Collection>,
    view: View,
    preferences: Preferences)

  /**
   * One field of a `Partial<...>` payload: `Keep` is a key that is not in
   * the payload; `Put(v)` a key that is.  For an optional field `Put(None)`
   * is a key present with the value `undefined`, which spreads over (and so
   * clears) the old value.
   */
  datatype Upd<+T> = Keep | Put(value: T)

  function Over<T>(u: Upd<T>, old_: T): T
  {
    match u
    case Keep => old_
    case Put(v) => v
  }

  /** The updatable fields of a bullet (`Partial<Bullet>` without `id` and `updatedAt`). */
  datatype BulletPatch = BulletPatch(
    content: Upd<string>,
    kind: Upd<BulletType>,
    state: Upd<BulletState>,
    date: Upd<Option<Day>>,
    collectionId: Upd<Option<Id>>,
    order: Upd<int>,
    createdAt: Upd<int>,
    completedAt: Upd<Option<int>>,
    longFormContent: Upd<Option<string>>,
    parentNoteId: Upd<Option<Id>>)

  const EmptyPatch := BulletPatch(Keep, Keep, Keep, Keep, Keep, Keep, Keep, Keep, Keep, Keep)

  /** The updatable fields of a collection. */
  datatype CollectionPatch = CollectionPatch(
    title: Upd<string>,
    kind: Upd<CollectionType>,
    createdAt: Upd<int>,
    order: Upd<Option<int>>)

  datatype OrderItem = OrderItem(id: Id, order: int)

  /** The store's actions, with their payloads. */
  datatype Action =
    | AddBullet(newId: Option<Id>, content: string, kind: BulletType, date: Option<Day>,
                collectionId: Option<Id>, longFormContent: Option<string>, parentNoteId: Option<Id>)
    | AddBullets(bullets: seq<Bullet>)
    | UpdateBullet(id: Id, patch: BulletPatch)
    | UpdateBullets(ids: seq<Id>, patch: BulletPatch)
    | ReorderBullets(items: seq<OrderItem>)
    | ReorderCollections(items: seq<OrderItem>)
    | DeleteBullet(id: Id)
    | DeleteBullets(ids: seq<Id>)
    | SetView(mode: ViewMode, viewDate: Option<Day>, viewCollectionId: Option<Id>)
    | AddCollection(newCollectionId: Option<Id>, title: string, collectionKind: CollectionType)
    | UpdateCollection(id: Id, collectionPatch: CollectionPatch)
    | DeleteCollection(id: Id)
    | TogglePreference(key: PrefKey)
    | LoadData(loadedBullets: Option<map<Id, Bullet>>, loadedCollections: Option<map<Id, Collection>>,
               loadedPreferences: Option<Preferences>)
    | RestoreBullet(bullet: Bullet)
    | MigrateBullet(id: Id, targetDate: Day, migratedId: Option<Id>)
    | Undo
}
