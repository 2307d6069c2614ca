/**
 * The dispatch wrapper of the store (src/store.tsx): id generation for
 * creations, the single-slot undo stack, the local reducer step and the
 * Firestore sync.
 *
 * `Step` is the wrapper as a function of the session (state and undo
 * stack) before the call; the class `Store` holds the two as fields and
 * its method `Dispatch` updates them in place.  `generateUUID()` is the
 * parameter `uuid`, the signed-in user's id is `user` (None when signed
 * out), the clock is `now`; the toast is returned, and so are the
 * Firestore writes, in the order they are issued.
 */
module Store {
  import opened Types
  import opened StoreReducer
  import opened DatabaseLogic

  /** An action the undo layer can store: the inverse of an add, an update or a delete. */
  predicate IsInverse(a: Action)
  {
    a.DeleteBullet? || a.RestoreBullet?
  }

  datatype Session = Session(state: AppState, undoStack: seq<Action>)

  /** Every capture assigns a list of at most one inverse. */
  predicate ValidSession(ses: Session)
  {
    |ses.undoStack| <= 1 && forall a :: a in ses.undoStack ==> IsInverse(a)
  }

  datatype Outcome = Outcome(after: Session, toast: Option<string>, writes: seq<Write>)

  /** The action with the generated id filled in where a creation carries none. */
  function Enhance(a: Action, uuid: Id): (e: Action)
    ensures IdsAssigned(e)
    ensures a.AddBullet? && a.newId.None? ==> e == a.(newId := Some(uuid))
    ensures a.AddCollection? && a.newCollectionId.None? ==> e == a.(newCollectionId := Some(uuid))
    ensures a.MigrateBullet? && a.migratedId.None? ==> e == a.(migratedId := Some(uuid))
    ensures !(a.AddBullet? || a.AddCollection? || a.MigrateBullet?) ==> e == a
    ensures a.AddBullet? && a.newId.Some? ==> e == a
    ensures a.AddCollection? && a.newCollectionId.Some? ==> e == a
    ensures a.MigrateBullet? && a.migratedId.Some? ==> e == a
  {
    match a
    case AddBullet(newId, _, _, _, _, _, _) => if newId.None? then a.(newId := Some(uuid)) else a
    case AddCollection(newId, _, _) => if newId.None? then a.(newCollectionId := Some(uuid)) else a
    case MigrateBullet(_, _, migratedId) => if migratedId.None? then a.(migratedId := Some(uuid)) else a
    case _ => a
  }

  /** The undo stack after capturing the inverse of `e`, which is about to run on `s`. */
  function Capture(stack: seq<Action>, e: Action, s: AppState): seq<Action>
    requires IdsAssigned(e)
  {
    match e
    case AddBullet(newId, _, _, _, _, _, _) => [DeleteBullet(newId.value)]
    case DeleteBullet(id) => if id in s.bullets then [RestoreBullet(s.bullets[id])] else stack
    case UpdateBullet(id, _) => if id in s.bullets then [RestoreBullet(s.bullets[id])] else stack
    case MigrateBullet(_, _, _) => []
    case AddCollection(_, _, _) => []
    case UpdateCollection(_, _) => []
    case DeleteCollection(_) => []
    case ReorderBullets(_) => []
    case ReorderCollections(_) => []
    case _ => stack
  }

  /** Whether the wrapper syncs the action to Firestore: everything but SET_VIEW and LOAD_DATA. */
  predicate Synced(a: Action)
  {
    !a.SetView? && !a.LoadData?
  }

  function Sync(user: Option<string>, e: Action, s: AppState, now: int): seq<Write>
  {
    if user.Some? then Plan(user.value, e, s, now) else []
  }

  /** One call of the dispatch wrapper. */
  function Step(ses: Session, a: Action, now: int, uuid: Id, user: Option<string>): Outcome
    requires ValidSession(ses)
  {
    if a.Undo? then
      if ses.undoStack == [] then Outcome(ses, None, [])
      else
        var u := ses.undoStack[|ses.undoStack| - 1];
        assert u in ses.undoStack;
        Outcome(Session(Reduce(ses.state, u, now), ses.undoStack[..|ses.undoStack| - 1]),
                Some("Undone"), Sync(user, u, ses.state, now))
    else
      var e := Enhance(a, uuid);
      Outcome(Session(Reduce(ses.state, e, now), Capture(ses.undoStack, e, ses.state)),
              None, if Synced(a) then Sync(user, e, ses.state, now) else [])
  }

  class Store {
    var state: AppState
    var undoStack: seq<Action>

    ghost predicate Valid()
      reads this
    {
      ValidSession(Session(state, undoStack))
    }

    constructor(today: Day)
      ensures Valid()
      ensures state == InitialState(today) && undoStack == []
    {
      state := InitialState(today);
      undoStack := [];
    }

    /** `dispatch(action)`, with its toast and Firestore writes returned. */
    method Dispatch(a: Action, now: int, uuid: Id, user: Option<string>) returns (toast: Option<string>, writes: seq<Write>)
      requires Valid()
      modifies this
      ensures Valid()
      ensures var o := Step(Session(old(state), old(undoStack)), a, now, uuid, user);
        Session(state, undoStack) == o.after && toast == o.toast && writes == o.writes
    {
      ghost var o := Step(Session(state, undoStack), a, now, uuid, user);
      StepKeepsSingleSlot(Session(state, undoStack), a, now, uuid, user);
      toast := None;
      writes := [];
      if a.Undo? {
        if undoStack != [] {
          var u := undoStack[|undoStack| - 1];
          assert u in undoStack;
          undoStack := undoStack[..|undoStack| - 1];
          var pre := state;
          state := Reducer(state, u, now);
          if user.Some? {
            writes := PerformAction(user.value, u, pre, now);
          }
          toast := Some("Undone");
        }
        return;
      }
      var e := Enhance(a, uuid);
      undoStack := Capture(undoStack, e, state);
      var pre := state;
      state := Reducer(state, e, now);
      if user.Some? && Synced(a) {
        writes := PerformAction(user.value, e, pre, now);
      }
    }
  }

  // ---- properties of the undo layer ----

  /** Every call keeps the stack to at most one stored inverse. */
  lemma StepKeepsSingleSlot(ses: Session, a: Action, now: int, uuid: Id, user: Option<string>)
    requires ValidSession(ses)
    ensures ValidSession(Step(ses, a, now, uuid, user).after)
    ensures |Step(ses, a, now, uuid, user).after.undoStack| <= 1
  {
  }

  /** UNDO with an empty stack changes nothing, writes nothing and shows no toast. */
  lemma UndoEmptyIsNoOp(s: AppState, now: int, uuid: Id, user: Option<string>)
    ensures Step(Session(s, []), Undo, now, uuid, user) == Outcome(Session(s, []), None, [])
  {
  }

  /** UNDO pops the stored inverse, applies it to the state and shows "Undone". */
  lemma UndoAppliesInverse(s: AppState, u: Action, now: int, uuid: Id, user: Option<string>)
    requires IsInverse(u)
    ensures var o := Step(Session(s, [u]), Undo, now, uuid, user);
      && o.after == Session(Reduce(s, u, now), [])
      && o.toast == Some("Undone")
      && o.writes == Sync(user, u, s, now)
  {
  }

  /** Creations without an id get the generated one before the reducer runs. */
  lemma CreationsGetFreshIds(a: Action, uuid: Id)
    ensures a.AddBullet? ==>
      Enhance(a, uuid).newId == (if a.newId.Some? then a.newId else Some(uuid))
    ensures a.AddCollection? ==>
      Enhance(a, uuid).newCollectionId == (if a.newCollectionId.Some? then a.newCollectionId else Some(uuid))
    ensures a.MigrateBullet? ==>
      Enhance(a, uuid).migratedId == (if a.migratedId.Some? then a.migratedId else Some(uuid))
  {
  }

  /** ADD_BULLET stores DELETE_BULLET of the id it creates. */
  lemma AddCapturesDelete(ses: Session, a: Action, now: int, uuid: Id, user: Option<string>)
    requires ValidSession(ses) && a.AddBullet?
    ensures Step(ses, a, now, uuid, user).after.undoStack ==
      [DeleteBullet(if a.newId.Some? then a.newId.value else uuid)]
  {
  }

  /** DELETE_BULLET and UPDATE_BULLET of an existing bullet store RESTORE_BULLET of its old value. */
  lemma ChangeCapturesRestore(ses: Session, a: Action, now: int, uuid: Id, user: Option<string>)
    requires ValidSession(ses) && (a.DeleteBullet? || a.UpdateBullet?) && a.id in ses.state.bullets
    ensures Step(ses, a, now, uuid, user).after.undoStack == [RestoreBullet(ses.state.bullets[a.id])]
  {
  }

  /** Migrations, collection actions and reorders clear the stack. */
  lemma StructuralActionsClearStack(ses: Session, a: Action, now: int, uuid: Id, user: Option<string>)
    requires ValidSession(ses)
    requires a.MigrateBullet? || a.AddCollection? || a.UpdateCollection? || a.DeleteCollection?
          || a.ReorderBullets? || a.ReorderCollections?
    ensures Step(ses, a, now, uuid, user).after.undoStack == []
  {
  }

  /** An update or delete of a missing bullet, and the view, preference, load and list actions, keep the stack. */
  lemma OtherActionsKeepStack(ses: Session, a: Action, now: int, uuid: Id, user: Option<string>)
    requires ValidSession(ses)
    requires ((a.DeleteBullet? || a.UpdateBullet?) && a.id !in ses.state.bullets)
          || a.SetView? || a.TogglePreference? || a.LoadData? || a.AddBullets? || a.UpdateBullets?
          || a.DeleteBullets? || a.RestoreBullet?
    ensures Step(ses, a, now, uuid, user).after.undoStack == ses.undoStack
  {
  }

  /** SET_VIEW and LOAD_DATA are never synced, and nothing is synced while signed out. */
  lemma UnsyncedDispatches(ses: Session, a: Action, now: int, uuid: Id, user: Option<string>)
    requires ValidSession(ses)
    requires a.SetView? || a.LoadData? || user.None?
    ensures Step(ses, a, now, uuid, user).writes == []
  {
  }

  /**
   * ADD_BULLET of a new id followed by UNDO gives back the state as it was,
   * and the undo deletes the created document.
   */
  lemma AddThenUndoRestores(s: AppState, stack: seq<Action>, a: Action, now: int, now2: int,
                            uuid: Id, uuid2: Id, user: Option<string>)
    requires ValidSession(Session(s, stack)) && a.AddBullet?
    requires Enhance(a, uuid).newId.value !in s.bullets
    ensures var o1 := Step(Session(s, stack), a, now, uuid, user);
      var o2 := Step(o1.after, Undo, now2, uuid2, user);
      && o2.after == Session(s, [])
      && o2.toast == Some("Undone")
      && (user.Some? ==> o2.writes == [DeleteDoc(DocPath(user.value, BulletsDocs, Enhance(a, uuid).newId.value))])
  {
    var id := Enhance(a, uuid).newId.value;
    var s1 := Reduce(s, Enhance(a, uuid), now);
    assert s1.bullets - {id} == s.bullets;
  }

  /**
   * UPDATE_BULLET or DELETE_BULLET of an existing bullet followed by UNDO
   * gives back the state as it was, provided the bullet is stored under its
   * own id (RESTORE_BULLET stores it under `bullet.id`); the undo issues no
   * Firestore write, since RESTORE_BULLET has no case there.
   */
  lemma ChangeThenUndoRestores(s: AppState, stack: seq<Action>, a: Action, now: int, now2: int,
                               uuid: Id, uuid2: Id, user: Option<string>)
    requires ValidSession(Session(s, stack)) && (a.UpdateBullet? || a.DeleteBullet?) && a.id in s.bullets
    requires s.bullets[a.id].id == a.id
    ensures var o1 := Step(Session(s, stack), a, now, uuid, user);
      var o2 := Step(o1.after, Undo, now2, uuid2, user);
      && o2.after == Session(s, [])
      && o2.toast == Some("Undone")
      && o2.writes == []
  {
    var s1 := Reduce(s, a, now);
    if a.UpdateBullet? {
      assert s1.bullets == s.bullets[a.id := s1.bullets[a.id]];
    } else {
      assert s1.bullets == s.bullets - {a.id};
    }
    assert s1.bullets[a.id := s.bullets[a.id]] == s.bullets;
  }
}
