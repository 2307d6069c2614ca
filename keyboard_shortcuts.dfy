/**
 * The keyboard shortcut dispatcher (src/lib/keyboardShortcuts.ts).
 *
 * `HandleKeyboardShortcut` returns what the handler does as an `Effect`:
 * whether it calls `preventDefault`, and the callbacks it calls in order.
 * A callback that receives a value is a `Call` carrying that value; the
 * confirmation's `onConfirm` is the action it would dispatch.
 */
module KeyboardShortcuts {
  import opened Types
  import opened JsString

  /** The fields of a keyboard event the handler reads. */
  datatype KeyEvent = KeyEvent(key: string, ctrlKey: bool, metaKey: bool)

  datatype Confirmation = Confirmation(title: string, message: string, isDanger: bool,
                                       confirmLabel: string, onConfirm: Action)

  datatype Call =
    | MoveUp
    | MoveDown
    | ClearFocus
    | SetEditingId(editId: Id)
    | Dispatch(action: Action)
    | OpenNote(noteId: Id)
    | MigratePrompt(migrateId: Id)
    | MoveToProject(moveId: Id)
    | RequestConfirmation(confirmation: Confirmation)

  datatype Effect = Effect(preventDefault: bool, calls: seq<Call>)

  const Nothing := Effect(false, [])

  /** The action `x` dispatches: completed bullets reopen, all others complete. */
  function ToggleAction(b: Bullet): Action
  {
    UpdateBullet(b.id, EmptyPatch.(state := Put(if b.state == Completed then Open else Completed)))
  }

  /** The confirmation `d` requests. */
  function DeleteConfirmation(b: Bullet): Confirmation
  {
    Confirmation("Delete Item", "Delete this item?", true, "Delete", DeleteBullet(b.id))
  }

  /** The `switch (key)` on the focused bullet. */
  function OnFocused(key: string, b: Bullet): Effect
  {
    if key == "e" then Effect(true, [SetEditingId(b.id)])
    else if key == "x" then Effect(true, [Dispatch(ToggleAction(b))])
    else if key == "n" then Effect(true, [OpenNote(b.id)])
    else if key == "m" then Effect(true, [MigratePrompt(b.id)])
    else if key == "p" then Effect(true, [MoveToProject(b.id)])
    else if key == "d" then Effect(true, [RequestConfirmation(DeleteConfirmation(b))])
    else if key == "tab" then Effect(true, [ClearFocus])
    else Nothing
  }

  /** `handleKeyboardShortcut` as written: it has no branch for Ctrl/Meta+Z. */
  function HandleKeyboardShortcut(e: KeyEvent, s: AppState, focusedId: Option<Id>, isInput: bool): Effect
  {
    if e.key == "Escape" then Effect(true, [ClearFocus])
    else if isInput then Nothing
    else
      var key := KeyLowerString(e.key);
      if key == "j" || e.key == "ArrowDown" then Effect(true, [MoveDown])
      else if key == "k" || e.key == "ArrowUp" then Effect(true, [MoveUp])
      else if focusedId.None? || focusedId.value !in s.bullets then Nothing
      else OnFocused(key, s.bullets[focusedId.value])
  }

  /** Whether the event is Ctrl+Z or Meta+Z. */
  predicate IsUndoChord(e: KeyEvent)
  {
    KeyLowerString(e.key) == "z" && (e.ctrlKey || e.metaKey)
  }

  /**
   * The handler with the undo chord its tests expect: outside inputs,
   * Ctrl/Meta+Z prevents the default and dispatches UNDO, focused or not.
   */
  function HandleKeyboardShortcutWithUndo(e: KeyEvent, s: AppState, focusedId: Option<Id>, isInput: bool): Effect
  {
    if e.key == "Escape" then Effect(true, [ClearFocus])
    else if isInput then Nothing
    else if IsUndoChord(e) then Effect(true, [Dispatch(Undo)])
    else HandleKeyboardShortcut(e, s, focusedId, isInput)
  }

  // ---- properties ----

  /** Escape clears the focus and prevents the default, even inside an input. */
  lemma EscapeClearsFocus(e: KeyEvent, s: AppState, focusedId: Option<Id>, isInput: bool)
    requires e.key == "Escape"
    ensures HandleKeyboardShortcut(e, s, focusedId, isInput) == Effect(true, [ClearFocus])
  {
  }

  /** Inside an input every other key is left alone. */
  lemma InputIgnoresKeys(e: KeyEvent, s: AppState, focusedId: Option<Id>)
    requires e.key != "Escape"
    ensures HandleKeyboardShortcut(e, s, focusedId, true) == Nothing
    ensures HandleKeyboardShortcutWithUndo(e, s, focusedId, true) == Nothing
  {
  }

  /** `j`/ArrowDown and `k`/ArrowUp move the focus, whatever is focused. */
  lemma NavigationIgnoresFocus(e: KeyEvent, s: AppState, focusedId: Option<Id>)
    requires e.key != "Escape"
    ensures KeyLowerString(e.key) == "j" || e.key == "ArrowDown" ==>
      HandleKeyboardShortcut(e, s, focusedId, false) == Effect(true, [MoveDown])
    ensures KeyLowerString(e.key) != "j" && e.key != "ArrowDown" && (KeyLowerString(e.key) == "k" || e.key == "ArrowUp") ==>
      HandleKeyboardShortcut(e, s, focusedId, false) == Effect(true, [MoveUp])
  {
  }

  /** Without a focused bullet held in the state, no other key does anything. */
  lemma NoFocusNoAction(e: KeyEvent, s: AppState, focusedId: Option<Id>)
    requires e.key != "Escape" && e.key != "ArrowDown" && e.key != "ArrowUp"
    requires KeyLowerString(e.key) != "j" && KeyLowerString(e.key) != "k"
    requires focusedId.None? || focusedId.value !in s.bullets
    ensures HandleKeyboardShortcut(e, s, focusedId, false) == Nothing
  {
  }

  /** `x` toggles completion of the focused bullet; `d` asks before deleting it. */
  lemma FocusedActions(s: AppState, id: Id, ctrl: bool, meta: bool)
    requires id in s.bullets
    ensures var b := s.bullets[id];
      HandleKeyboardShortcut(KeyEvent("x", ctrl, meta), s, Some(id), false) ==
        Effect(true, [Dispatch(UpdateBullet(b.id, EmptyPatch.(state := Put(if b.state == Completed then Open else Completed))))])
    ensures var b := s.bullets[id];
      && var eff := HandleKeyboardShortcut(KeyEvent("d", ctrl, meta), s, Some(id), false);
      && eff.preventDefault && |eff.calls| == 1 && eff.calls[0].RequestConfirmation?
      && eff.calls[0].confirmation.title == "Delete Item" && eff.calls[0].confirmation.isDanger
      && eff.calls[0].confirmation.onConfirm == DeleteBullet(b.id)
  {
    assert KeyLowerString("x") == "x";
    assert KeyLowerString("d") == "d";
  }

  /** Lower-casing a lower-cased key changes nothing. */
  lemma {:induction false} KeyLowerIdempotent(s: string)
    ensures KeyLowerString(KeyLowerString(s)) == KeyLowerString(s)
  {
    var t := KeyLowerString(s);
    var u := KeyLowerString(t);
    forall i | 0 <= i < |s| ensures u[i] == t[i] {
      assert KeyLower(KeyLower(s[i])) == KeyLower(s[i]);
    }
  }

  /** Letter keys match without regard to case: a key and its lower case do the same. */
  lemma LettersMatchAnyCase(e: KeyEvent, s: AppState, focusedId: Option<Id>, isInput: bool)
    requires e.key != "Escape" && e.key != "ArrowDown" && e.key != "ArrowUp"
    ensures HandleKeyboardShortcut(e, s, focusedId, isInput) ==
      HandleKeyboardShortcut(e.(key := KeyLowerString(e.key)), s, focusedId, isInput)
  {
    KeyLowerIdempotent(e.key);
  }

  /** As written, Ctrl+Z and Meta+Z do nothing at all: no UNDO is dispatched. */
  lemma UndoChordIgnoredAsWritten(s: AppState, focusedId: Option<Id>, ctrl: bool, meta: bool)
    ensures HandleKeyboardShortcut(KeyEvent("z", ctrl, meta), s, focusedId, false) == Nothing
  {
    assert KeyLowerString("z") == "z";
  }

  /**
   * With the undo branch, Ctrl/Meta+Z outside an input prevents the default
   * and dispatches exactly UNDO, and every other event is handled as before.
   */
  lemma UndoChordDispatchesUndo(e: KeyEvent, s: AppState, focusedId: Option<Id>, isInput: bool)
    ensures IsUndoChord(e) && !isInput ==>
      HandleKeyboardShortcutWithUndo(e, s, focusedId, isInput) == Effect(true, [Dispatch(Undo)])
    ensures !IsUndoChord(e) ==>
      HandleKeyboardShortcutWithUndo(e, s, focusedId, isInput) == HandleKeyboardShortcut(e, s, focusedId, isInput)
    ensures IsUndoChord(e) && isInput ==> HandleKeyboardShortcutWithUndo(e, s, focusedId, isInput) == Nothing
  {
    if IsUndoChord(e) {
      assert e.key != "Escape" by {
        assert KeyLowerString(e.key)[0] == KeyLower(e.key[0]);
      }
    }
  }
}
