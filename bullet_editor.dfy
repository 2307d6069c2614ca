/**
 * Quick entry (src/components/BulletEditor.tsx).
 *
 * The editor keeps the text of its input; on Enter with non-blank text it
 * reads a two-character type marker off the front, dispatches ADD_BULLET
 * for the rest and empties the input.  The class `Editor` is that input's
 * state; `HandleKeyDown` returns the action it dispatches, if any.
 */
module BulletEditor {
  import opened Types
  import opened JsString

  /** The markers that select a type, each two characters long. */
  const NoteMarkers: seq<string> := ["- "]
  const EventMarkers: seq<string> := ["o ", "\U{25CB} "]
  const TaskMarkers: seq<string> := [". ", "\U{2022} "]

  /** The type the text's marker selects, tested in the source's order; `task` without a marker. */
  function EntryKind(content: string): BulletType
  {
    if StartsWith(content, "- ") then Note
    else if StartsWith(content, "o ") || StartsWith(content, "\U{25CB} ") then Event
    else Task
  }

  /** Whether the text starts with one of the five markers. */
  predicate HasMarker(content: string)
  {
    StartsWith(content, "- ") || StartsWith(content, "o ") || StartsWith(content, "\U{25CB} ")
    || StartsWith(content, ". ") || StartsWith(content, "\U{2022} ")
  }

  /** The text that becomes the bullet's content: without its marker, or unchanged. */
  function EntryText(content: string): string
  {
    if HasMarker(content) then content[2..] else content
  }

  /** The ADD_BULLET the editor dispatches for `content`. */
  function EntryAction(content: string, defaultDate: Option<Day>, view: View): Action
  {
    AddBullet(None, EntryText(content), EntryKind(content),
              Some(if defaultDate.Some? then defaultDate.value else view.date),
              view.collectionId, None, None)
  }

  /** Whether an Enter press on this text dispatches: the text is not blank. */
  predicate Submits(key: string, content: string)
  {
    key == "Enter" && Trim(content) != ""
  }

  class Editor {
    var content: string

    constructor()
      ensures content == ""
    {
      content := "";
    }

    /** The input's `onChange`. */
    method SetContent(value: string)
      modifies this
      ensures content == value
    {
      content := value;
    }

    /** `handleKeyDown(e)`: the action dispatched, if any, and the input afterwards. */
    method HandleKeyDown(key: string, view: View, defaultDate: Option<Day>) returns (dispatched: Option<Action>)
      modifies this
      ensures Submits(key, old(content)) ==> dispatched == Some(EntryAction(old(content), defaultDate, view)) && content == ""
      ensures !Submits(key, old(content)) ==> dispatched == None && content == old(content)
    {
      dispatched := None;
      if key == "Enter" && Trim(content) != "" {
        var kind := Task;
        var cleanContent := content;
        var targetDate := if defaultDate.Some? then defaultDate.value else view.date;
        if StartsWith(content, "- ") {
          kind := Note;
          cleanContent := content[2..];
        } else if StartsWith(content, "o ") || StartsWith(content, "\U{25CB} ") {
          kind := Event;
          cleanContent := content[2..];
        } else if StartsWith(content, ". ") || StartsWith(content, "\U{2022} ") {
          kind := Task;
          cleanContent := content[2..];
        }
        dispatched := Some(AddBullet(None, cleanContent, kind, Some(targetDate), view.collectionId, None, None));
        content := "";
      }
    }
  }

  // ---- properties ----

  /** Blank text dispatches nothing, whatever the key. */
  lemma BlankDispatchesNothing(key: string, content: string)
    requires forall i :: 0 <= i < |content| ==> IsJsWhitespace(content[i])
    ensures !Submits(key, content)
  {
    TrimEmptyIffBlank(content);
  }

  /** Each marker followed by any text gives its type and exactly that text. */
  lemma MarkersRoundTrip(t: string)
    ensures EntryKind("- " + t) == Note && EntryText("- " + t) == t
    ensures forall m :: m in EventMarkers ==> EntryKind(m + t) == Event && EntryText(m + t) == t
    ensures forall m :: m in TaskMarkers ==> EntryKind(m + t) == Task && EntryText(m + t) == t
  {
    assert ("- " + t)[..2] == "- ";
    assert ("- " + t)[2..] == t;
    forall m | m in EventMarkers
      ensures EntryKind(m + t) == Event && EntryText(m + t) == t
    {
      assert (m + t)[..2] == m && (m + t)[2..] == t;
    }
    forall m | m in TaskMarkers
      ensures EntryKind(m + t) == Task && EntryText(m + t) == t
    {
      assert (m + t)[..2] == m && (m + t)[2..] == t;
    }
  }

  /** Text without a marker is a task with the text as it is. */
  lemma UnmarkedIsTask(content: string)
    requires !HasMarker(content)
    ensures EntryKind(content) == Task && EntryText(content) == content
  {
  }

  /** Stripping loses nothing but the marker: putting it back gives the text typed. */
  lemma MarkerThenTextIsContent(content: string)
    requires HasMarker(content)
    ensures content == content[..2] + EntryText(content)
    ensures content[..2] in NoteMarkers + EventMarkers + TaskMarkers
    ensures content[..2] in NoteMarkers <==> EntryKind(content) == Note
    ensures content[..2] in EventMarkers <==> EntryKind(content) == Event
    ensures content[..2] in TaskMarkers <==> EntryKind(content) == Task
  {
  }

  /** The bullet goes on `defaultDate` when given, else on the viewed day, and into the viewed collection. */
  lemma EntryTargets(content: string, defaultDate: Option<Day>, view: View)
    ensures var a := EntryAction(content, defaultDate, view);
      && a.date == Some(if defaultDate.Some? then defaultDate.value else view.date)
      && a.collectionId == view.collectionId
      && a.newId.None?
  {
  }
}
