/**
 * The keyboard focus cursor (src/contexts/KeyboardFocusContext.tsx).
 *
 * `MoveUp` and `MoveDown` are the state updaters the provider passes to
 * `setFocusedId`, as functions of the current focus and the visible ids.
 * The class `FocusCursor` is the provider's state; each setter is followed
 * by the effect that drops a focus no longer visible.
 */
module KeyboardFocus {
  import opened Types

  /** `ids.indexOf(x)`: the first position of `x`, or -1. */
  function IndexOf(ids: seq<Id>, x: Id): (i: int)
    ensures -1 <= i < |ids|
    ensures i == -1 <==> x !in ids
    ensures 0 <= i ==> ids[i] == x && forall j :: 0 <= j < i ==> ids[j] != x
  {
    if ids == [] then -1
    else if ids[0] == x then 0
    else
      var r := IndexOf(ids[1..], x);
      if r == -1 then -1 else r + 1
  }

  /** `ids[0] || null`. */
  function First(ids: seq<Id>): Option<Id>
  {
    if ids == [] then None else Some(ids[0])
  }

  /** `ids[ids.length - 1] || null`. */
  function Last(ids: seq<Id>): Option<Id>
  {
    if ids == [] then None else Some(ids[|ids| - 1])
  }

  function MoveUp(curr: Option<Id>, ids: seq<Id>): Option<Id>
  {
    if curr.None? then First(ids)
    else
      var idx := IndexOf(ids, curr.value);
      if idx <= 0 then First(ids) else Some(ids[idx - 1])
  }

  function MoveDown(curr: Option<Id>, ids: seq<Id>): Option<Id>
  {
    if curr.None? then First(ids)
    else
      var idx := IndexOf(ids, curr.value);
      if idx == -1 || idx >= |ids| - 1 then Last(ids) else Some(ids[idx + 1])
  }

  /** The effect's rule: a focus missing from a non-empty visible list is dropped. */
  function Invalidate(curr: Option<Id>, ids: seq<Id>): Option<Id>
  {
    if curr.Some? && |ids| > 0 && curr.value !in ids then None else curr
  }

  /** What the provider keeps true between renders. */
  predicate FocusValid(curr: Option<Id>, ids: seq<Id>)
  {
    curr.None? || ids == [] || curr.value in ids
  }

  // ---- properties of the movements ----

  /** Either move lands on a visible id, or on nothing. */
  lemma MovesStayVisible(curr: Option<Id>, ids: seq<Id>)
    ensures MoveUp(curr, ids).None? || MoveUp(curr, ids).value in ids
    ensures MoveDown(curr, ids).None? || MoveDown(curr, ids).value in ids
    ensures MoveUp(curr, ids).None? <==> ids == []
    ensures MoveDown(curr, ids).None? <==> ids == []
  {
  }

  /** From no focus both moves go to the first visible id. */
  lemma MovesFromNothing(ids: seq<Id>)
    ensures MoveUp(None, ids) == First(ids) && MoveDown(None, ids) == First(ids)
  {
  }

  /**
   * For ids listed once, `moveDown` steps to the next one and stops at the
   * last, and `moveUp` steps to the previous one and stops at the first.
   */
  lemma MovesStep(ids: seq<Id>, i: int)
    requires 0 <= i < |ids|
    requires forall j, k :: 0 <= j < k < |ids| ==> ids[j] != ids[k]
    ensures MoveDown(Some(ids[i]), ids) == Some(ids[if i + 1 < |ids| then i + 1 else i])
    ensures MoveUp(Some(ids[i]), ids) == Some(ids[if i > 0 then i - 1 else 0])
  {
    var idx := IndexOf(ids, ids[i]);
    assert idx == i;
  }

  /** A focus that is not visible goes to the last id on `moveDown` and the first on `moveUp`. */
  lemma MovesFromHidden(x: Id, ids: seq<Id>)
    requires x !in ids
    ensures MoveDown(Some(x), ids) == Last(ids) && MoveUp(Some(x), ids) == First(ids)
  {
  }

  /** Dropping an invisible focus leaves a valid focus, and keeps a valid one as it was. */
  lemma InvalidateRestoresValidity(curr: Option<Id>, ids: seq<Id>)
    ensures FocusValid(Invalidate(curr, ids), ids)
    ensures FocusValid(curr, ids) ==> Invalidate(curr, ids) == curr
  {
  }

  /** The provider's focus state. */
  class FocusCursor {
    var focusedId: Option<Id>
    var editingId: Option<Id>
    var visibleIds: seq<Id>

    ghost predicate Valid()
      reads this
    {
      FocusValid(focusedId, visibleIds)
    }

    constructor()
      ensures Valid()
      ensures focusedId == None && editingId == None && visibleIds == []
    {
      focusedId, editingId, visibleIds := None, None, [];
    }

    /** `moveUp()`, then the focus effect, which finds nothing to drop. */
    method Up()
      modifies this
      ensures Valid()
      ensures focusedId == MoveUp(old(focusedId), visibleIds)
      ensures visibleIds == old(visibleIds) && editingId == old(editingId)
    {
      focusedId := MoveUp(focusedId, visibleIds);
      MovesStayVisible(old(focusedId), visibleIds);
      focusedId := Invalidate(focusedId, visibleIds);
    }

    /** `moveDown()`, then the focus effect, which finds nothing to drop. */
    method Down()
      modifies this
      ensures Valid()
      ensures focusedId == MoveDown(old(focusedId), visibleIds)
      ensures visibleIds == old(visibleIds) && editingId == old(editingId)
    {
      focusedId := MoveDown(focusedId, visibleIds);
      MovesStayVisible(old(focusedId), visibleIds);
      focusedId := Invalidate(focusedId, visibleIds);
    }

    /** `clearFocus()`. */
    method ClearFocus()
      modifies this
      ensures Valid()
      ensures focusedId == None
      ensures visibleIds == old(visibleIds) && editingId == old(editingId)
    {
      focusedId := None;
    }

    /** `setFocusedId(id)`, then the focus effect. */
    method SetFocusedId(id: Option<Id>)
      modifies this
      ensures Valid()
      ensures focusedId == Invalidate(id, visibleIds)
      ensures visibleIds == old(visibleIds) && editingId == old(editingId)
    {
      focusedId := id;
      focusedId := Invalidate(focusedId, visibleIds);
    }

    /** `setVisibleIds(ids)`, then the focus effect. */
    method SetVisibleIds(ids: seq<Id>)
      modifies this
      ensures Valid()
      ensures visibleIds == ids
      ensures focusedId == Invalidate(old(focusedId), ids)
      ensures editingId == old(editingId)
    {
      visibleIds := ids;
      focusedId := Invalidate(focusedId, visibleIds);
    }

    /** `setEditingId(id)`. */
    method SetEditingId(id: Option<Id>)
      requires Valid()
      modifies this
      ensures Valid()
      ensures editingId == id
      ensures focusedId == old(focusedId) && visibleIds == old(visibleIds)
    {
      editingId := id;
    }
  }
}
