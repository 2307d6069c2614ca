/**
 * Plain-text extraction from a note document (test_extraction.js).
 *
 * `extractTextFromContent` parses the note and walks the tree with a
 * recursive `traverse` that appends to the closure variable `text`.  The
 * method `Traverse` takes the text collected so far and gives back the
 * text after the walk of one node, with `ok` false where the walk throws
 * (on reading a field of `null`).  `Texts` is the reference definition:
 * the list of texts the walk meets, in pre-order.
 */
module TextExtraction {
  import opened Types
  import opened JsString
  import opened NoteUtils

  /** A node's own text when it is truthy. */
  function OwnText(v: Value): seq<string>
  {
    if v.Obj? && v.text.Some? && v.text.value != "" then [v.text.value] else []
  }

  /** The truthy texts under `v` in pre-order, or `None` where the walk meets `null`. */
  function Texts(v: Value): Option<seq<string>>
    decreases v
  {
    if v.Null? then None
    else if HasChildren(v) then
      var inner := TextsAll(v.content.value.items);
      if inner.None? then None else Some(OwnText(v) + inner.value)
    else Some(OwnText(v))
  }

  function TextsAll(items: seq<Value>): Option<seq<string>>
    decreases items
  {
    if items == [] then Some([])
    else
      var h := Texts(items[0]);
      var t := TextsAll(items[1..]);
      if h.None? || t.None? then None else Some(h.value + t.value)
  }

  /** Each text followed by one space, as `text += node.text + ' '` builds it. */
  function Spaced(ts: seq<string>): string
  {
    if ts == [] then "" else ts[0] + " " + Spaced(ts[1..])
  }

  /** What `extractTextFromContent(content)` returns, with `parsed` the result of `JSON.parse(content)`. */
  function ExtractedText(content: string, parsed: Option<Value>): string
  {
    if content == "" then ""
    else if parsed.None? then content
    else if parsed.value.Null? || parsed.value.Scalar? then content
    else
      var ts := Texts(parsed.value);
      if ts.None? then content else Trim(Spaced(ts.value))
  }

  // ---- helper facts about the reference definitions ----

  lemma {:induction false} SpacedAppend(a: seq<string>, b: seq<string>)
    ensures Spaced(a + b) == Spaced(a) + Spaced(b)
    decreases |a|
  {
    if a != [] {
      assert (a + b)[1..] == a[1..] + b;
      SpacedAppend(a[1..], b);
    } else {
      assert a + b == b;
    }
  }

  lemma {:induction false} TextsAllAppend(a: seq<Value>, b: seq<Value>)
    ensures TextsAll(a + b).Some? <==> TextsAll(a).Some? && TextsAll(b).Some?
    ensures TextsAll(a + b).Some? ==> TextsAll(a + b).value == TextsAll(a).value + TextsAll(b).value
    decreases |a|
  {
    if a == [] {
      assert a + b == b;
    } else {
      assert (a + b)[0] == a[0];
      assert (a + b)[1..] == a[1..] + b;
      TextsAllAppend(a[1..], b);
      if TextsAll(a + b).Some? {
        assert TextsAll(a + b).value == Texts(a[0]).value + TextsAll(a[1..] + b).value;
      }
    }
  }

  /** One more item on a prefix of the children. */
  lemma TextsAllStep(items: seq<Value>, i: nat)
    requires i < |items|
    ensures TextsAll(items[..i + 1]).Some? <==> TextsAll(items[..i]).Some? && Texts(items[i]).Some?
    ensures TextsAll(items[..i + 1]).Some? ==>
      TextsAll(items[..i + 1]).value == TextsAll(items[..i]).value + Texts(items[i]).value
  {
    TextsAllAppend(items[..i], [items[i]]);
    assert items[..i + 1] == items[..i] + [items[i]];
    TextsAllSingle(items[i]);
  }

  /** The walk of a one-child list is the walk of that child. */
  lemma TextsAllSingle(v: Value)
    ensures TextsAll([v]) == Texts(v)
  {
    assert [v][0] == v && [v][1..] == [];
    assert TextsAll([v][1..]) == Some([]);
    if Texts(v).Some? {
      assert Texts(v).value + [] == Texts(v).value;
    }
  }

  /** A prefix of the children on which the walk fails makes the whole walk fail. */
  lemma TextsAllPrefixFails(items: seq<Value>, j: nat)
    requires j <= |items| && TextsAll(items[..j]).None?
    ensures TextsAll(items).None?
  {
    TextsAllAppend(items[..j], items[j..]);
    assert items[..j] + items[j..] == items;
  }

  /** Appending one more child's texts to the text so far appends them to the spaced list. */
  lemma WalkStep(text: string, before: string, after: string, done: seq<string>, next: seq<string>)
    requires before == text + Spaced(done)
    requires after == before + Spaced(next)
    ensures after == text + Spaced(done + next)
  {
    SpacedAppend(done, next);
    var a, b := Spaced(done), Spaced(next);
    assert (text + a) + b == text + (a + b);
  }

  // ---- the walk ----

  /** `traverse(node)`: appends the texts under `v` to `text`, or fails where the walk meets `null`. */
  method Traverse(v: Value, text: string) returns (out: string, ok: bool)
    ensures ok <==> Texts(v).Some?
    ensures ok ==> out == text + Spaced(Texts(v).value)
    decreases v
  {
    if v.Null? {
      return text, false;
    }
    out := text;
    if v.Obj? && v.text.Some? && v.text.value != "" {
      out := out + v.text.value + " ";
    }
    assert out == text + Spaced(OwnText(v));
    if HasChildren(v) {
      var mid := out;
      out, ok := TraverseEach(v.content.value.items, mid);
      if ok {
        SpacedAppend(OwnText(v), TextsAll(v.content.value.items).value);
      }
    } else {
      ok := true;
    }
  }

  /** `node.content.forEach(traverse)`. */
  method TraverseEach(items: seq<Value>, text: string) returns (out: string, ok: bool)
    ensures ok <==> TextsAll(items).Some?
    ensures ok ==> out == text + Spaced(TextsAll(items).value)
    decreases items
  {
    out := text;
    var i := 0;
    while i < |items|
      invariant 0 <= i <= |items|
      invariant TextsAll(items[..i]).Some?
      invariant out == text + Spaced(TextsAll(items[..i]).value)
    {
      var before := out;
      var childOk;
      out, childOk := Traverse(items[i], before);
      TextsAllStep(items, i);
      if !childOk {
        TextsAllPrefixFails(items, i + 1);
        return out, false;
      }
      WalkStep(text, before, out, TextsAll(items[..i]).value, Texts(items[i]).value);
      i := i + 1;
    }
    assert items[..i] == items;
    ok := true;
  }

  /** `extractTextFromContent(content)`. */
  method ExtractTextFromContent(content: string, parsed: Option<Value>) returns (r: string)
    ensures r == ExtractedText(content, parsed)
  {
    if content == "" {
      return "";
    }
    if parsed.None? {
      return content;
    }
    var json := parsed.value;
    if json.Null? || json.Scalar? {
      return content;
    }
    var text, ok := Traverse(json, "");
    assert ok ==> text == Spaced(Texts(json).value);
    if !ok {
      return content;
    }
    r := Trim(text);
  }

  // ---- properties ----

  /** Empty input gives the empty string; unparseable input and JSON that is not an object come back as they are. */
  lemma NonDocumentsPassThrough(content: string, parsed: Option<Value>)
    ensures content == "" ==> ExtractedText(content, parsed) == ""
    ensures content != "" && (parsed.None? || parsed.value.Null? || parsed.value.Scalar?) ==>
      ExtractedText(content, parsed) == content
  {
  }

  /** A document with no truthy text, such as an array root, gives the empty string. */
  lemma NoTextGivesEmpty(content: string, v: Value)
    requires content != "" && !v.Null? && !v.Scalar? && Texts(v) == Some([])
    ensures ExtractedText(content, Some(v)) == ""
  {
  }

  /** Only array-valued `content` is walked into: any other `content` contributes nothing. */
  lemma NonArrayContentIgnored(v: Value)
    requires v.Obj? && !HasChildren(v)
    ensures Texts(v) == Some(OwnText(v))
  {
  }

  /** An array root is neither a text node nor has `content`, so it yields nothing. */
  lemma ArrayRootEmpty(content: string, items: seq<Value>)
    requires content != ""
    ensures ExtractedText(content, Some(Arr(items))) == ""
  {
  }

  /** A text that neither starts nor ends with whitespace followed by one space trims back to itself. */
  lemma TrimDropsFinalSpace(s: string)
    requires s != [] && !IsJsWhitespace(s[0]) && !IsJsWhitespace(s[|s| - 1])
    ensures Trim(s + " ") == s
  {
    var t := s + " ";
    assert TrimStartIndex(t) == 0;
    assert BackWhitespace(t, 0, |t|) == BackWhitespace(t, 0, |s|);
    assert TrimEndIndex(t) == |s|;
    assert t[..|s|] == s;
  }

  /** The texts each followed by a space are the texts joined by spaces, plus one more space. */
  lemma {:induction false} SpacedIsJoinPlusSpace(ts: seq<string>)
    requires ts != []
    ensures Spaced(ts) == Join(ts, " ") + " "
    decreases |ts|
  {
    if |ts| > 1 {
      SpacedIsJoinPlusSpace(ts[1..]);
    }
  }

  /** First and last characters of a join of non-empty pieces. */
  lemma {:induction false} JoinEnds(ts: seq<string>)
    requires ts != [] && forall i :: 0 <= i < |ts| ==> ts[i] != []
    ensures Join(ts, " ") != []
    ensures Join(ts, " ")[0] == ts[0][0]
    ensures Join(ts, " ")[|Join(ts, " ")| - 1] == ts[|ts| - 1][|ts[|ts| - 1]| - 1]
    decreases |ts|
  {
    if |ts| > 1 {
      JoinEnds(ts[1..]);
      var rest := Join(ts[1..], " ");
      assert Join(ts, " ") == ts[0] + " " + rest;
    }
  }

  /**
   * When no text starts or ends with whitespace, the result is the texts in
   * pre-order joined by single spaces.
   */
  lemma ExtractJoinsTexts(content: string, v: Value)
    requires content != "" && !v.Null? && !v.Scalar? && Texts(v).Some? && Texts(v).value != []
    requires forall i :: 0 <= i < |Texts(v).value| ==>
      var t := Texts(v).value[i]; t != [] && !IsJsWhitespace(t[0]) && !IsJsWhitespace(t[|t| - 1])
    ensures ExtractedText(content, Some(v)) == Join(Texts(v).value, " ")
  {
    var ts := Texts(v).value;
    SpacedIsJoinPlusSpace(ts);
    JoinEnds(ts);
    TrimDropsFinalSpace(Join(ts, " "));
  }
}
