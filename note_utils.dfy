/**
 * Note documents (src/lib/noteUtils.ts).
 *
 * A note is stored as a JSON string holding a rich-text document tree.
 * `Value` is that string once parsed: `null`, a scalar (string, number or
 * boolean), an array, or an object with the fields the core reads.  Parsing
 * is a parameter: `None` when `JSON.parse` throws.
 */
module NoteUtils {
  import opened Types
  import opened JsString

  /**
   * A parsed JSON value.  For an object, `kind` is its `type`, `bulletId`
   * its `attrs.bulletId` (None when `attrs` or the field is missing or
   * null), `text` its `text`, and `content` its `content` (None when absent).
   */
  datatype Value =
    | Null
    | Scalar
    | Arr(items: seq<Value>)
    | Obj(kind: Option<string>, bulletId: Option<string>, text: Option<string>, content: Option<Value>)

  /** Whether the value's `content` is an array, the only kind of children the core walks into. */
  predicate HasChildren(v: Value)
  {
    v.Obj? && v.content.Some? && v.content.value.Arr?
  }

  /** An `embeddedTask` node with a truthy `bulletId` whose bullet is not in `bullets`. */
  predicate Orphan(v: Value, bullets: map<Id, Bullet>)
  {
    v.Obj? && v.kind == Some("embeddedTask") && v.bulletId.Some? && v.bulletId.value != ""
    && v.bulletId.value !in bullets
  }

  /** An `embeddedTask` node with a truthy `bulletId`: the filter keeps or drops it whole. */
  predicate TaskReference(v: Value)
  {
    v.Obj? && v.kind == Some("embeddedTask") && v.bulletId.Some? && v.bulletId.value != ""
  }

  /**
   * `cleanNodes(nodes)`: the nodes that are not orphans, in their order,
   * each cleaned by `CleanNode`.  `None` when the walk throws.
   */
  function CleanNodes(items: seq<Value>, bullets: map<Id, Bullet>): Option<seq<Value>>
    decreases items
  {
    if items == [] then Some([])
    else
      var rest := CleanNodes(items[1..], bullets);
      if Orphan(items[0], bullets) then rest
      else
        var c := CleanNode(items[0], bullets);
        if c.None? || rest.None? then None else Some([c.value] + rest.value)
  }

  /**
   * The filter callback on one node it keeps: reading `node.type` of `null`
   * throws; a task reference is kept whole; any other node with an array
   * `content` has that array cleaned in turn.
   */
  function CleanNode(v: Value, bullets: map<Id, Bullet>): Option<Value>
    decreases v
  {
    if v.Null? then None
    else if TaskReference(v) || !HasChildren(v) then Some(v)
    else
      var inner := CleanNodes(v.content.value.items, bullets);
      if inner.None? then None else Some(v.(content := Some(Arr(inner.value))))
  }

  /** What `cleanNoteContent` returns: a string as it is, or the serialisation of a value. */
  datatype CleanResult = AsText(s: string) | Serialized(v: Value)

  /** `cleanNoteContent(raw, bullets)`, with `parsed` the result of `JSON.parse(raw)`. */
  function CleanNoteContent(raw: string, parsed: Option<Value>, bullets: map<Id, Bullet>): (r: CleanResult)
    ensures raw == "" ==> r == AsText("")
    ensures raw != "" && parsed.None? ==> r == AsText(raw)
    ensures raw != "" && parsed.Some? && !HasChildren(parsed.value) ==> r == Serialized(parsed.value)
  {
    if raw == "" then AsText("")
    else if parsed.None? then AsText(raw)
    else
      var p := parsed.value;
      if HasChildren(p) then
        var cleaned := CleanNodes(p.content.value.items, bullets);
        if cleaned.None? then AsText(raw)
        else Serialized(p.(content := Some(Arr(cleaned.value))))
      else Serialized(p)
  }

  // ---- the reference definitions the filter is checked against ----

  /** No orphan anywhere the filter looks: at the top level and under every node it walks into. */
  predicate NoOrphans(items: seq<Value>, bullets: map<Id, Bullet>)
    decreases items
  {
    items == [] ||
    (!Orphan(items[0], bullets) && NodeHasNoOrphans(items[0], bullets) && NoOrphans(items[1..], bullets))
  }

  predicate NodeHasNoOrphans(v: Value, bullets: map<Id, Bullet>)
    decreases v
  {
    HasChildren(v) && !TaskReference(v) ==> NoOrphans(v.content.value.items, bullets)
  }

  /** No `null` anywhere the filter looks, so it cannot throw. */
  predicate NullFree(items: seq<Value>, bullets: map<Id, Bullet>)
    decreases items
  {
    items == [] ||
    ((Orphan(items[0], bullets) || NodeNullFree(items[0], bullets)) && NullFree(items[1..], bullets))
  }

  predicate NodeNullFree(v: Value, bullets: map<Id, Bullet>)
    decreases v
  {
    !v.Null? && (HasChildren(v) && !TaskReference(v) ==> NullFree(v.content.value.items, bullets))
  }

  /** The value with its child array, if it has one, emptied: what the top-level filter decides on. */
  function Label(v: Value): Value
  {
    if HasChildren(v) then v.(content := Some(Arr([]))) else v
  }

  function Labels(items: seq<Value>): (r: seq<Value>)
    ensures |r| == |items| && forall i :: 0 <= i < |items| ==> r[i] == Label(items[i])
  {
    if items == [] then [] else [Label(items[0])] + Labels(items[1..])
  }

  /** The plain top-level filter `nodes.filter(node => !orphan(node))`. */
  function Survivors(items: seq<Value>, bullets: map<Id, Bullet>): (r: seq<Value>)
    ensures forall v :: v in r ==> v in items && !Orphan(v, bullets)
    ensures forall v :: v in items && !Orphan(v, bullets) ==> v in r
  {
    if items == [] then []
    else if Orphan(items[0], bullets) then Survivors(items[1..], bullets)
    else [items[0]] + Survivors(items[1..], bullets)
  }

  // ---- properties ----

  /** The filter fails exactly when it meets a `null`. */
  lemma {:induction false} CleanFailsOnNull(items: seq<Value>, bullets: map<Id, Bullet>)
    ensures CleanNodes(items, bullets).Some? <==> NullFree(items, bullets)
    decreases items
  {
    if items != [] {
      CleanFailsOnNull(items[1..], bullets);
      NodeFailsOnNull(items[0], bullets);
    }
  }

  lemma {:induction false} NodeFailsOnNull(v: Value, bullets: map<Id, Bullet>)
    ensures CleanNode(v, bullets).Some? <==> NodeNullFree(v, bullets)
    decreases v
  {
    if HasChildren(v) && !TaskReference(v) {
      CleanFailsOnNull(v.content.value.items, bullets);
    }
  }

  /** After cleaning no orphan is left at any depth the filter walks into (not under a kept task reference). */
  lemma {:induction false} CleanRemovesOrphans(items: seq<Value>, bullets: map<Id, Bullet>)
    requires CleanNodes(items, bullets).Some?
    ensures NoOrphans(CleanNodes(items, bullets).value, bullets)
    decreases items
  {
    if items != [] {
      CleanRemovesOrphans(items[1..], bullets);
      if !Orphan(items[0], bullets) {
        NodeRemovesOrphans(items[0], bullets);
        var r := CleanNodes(items, bullets).value;
        assert r[1..] == CleanNodes(items[1..], bullets).value;
      }
    }
  }

  lemma {:induction false} NodeRemovesOrphans(v: Value, bullets: map<Id, Bullet>)
    requires CleanNode(v, bullets).Some?
    ensures var c := CleanNode(v, bullets).value;
      NodeHasNoOrphans(c, bullets) && Orphan(c, bullets) == Orphan(v, bullets)
    decreases v
  {
    if HasChildren(v) && !TaskReference(v) {
      CleanRemovesOrphans(v.content.value.items, bullets);
    }
  }

  /**
   * At each level the kept nodes are exactly the non-orphans in their
   * original order; each kept node is the same apart from the children it
   * is cleaned of.
   */
  lemma {:induction false} CleanKeepsSurvivorsInOrder(items: seq<Value>, bullets: map<Id, Bullet>)
    requires CleanNodes(items, bullets).Some?
    ensures Labels(CleanNodes(items, bullets).value) == Labels(Survivors(items, bullets))
    decreases items
  {
    if items != [] {
      CleanKeepsSurvivorsInOrder(items[1..], bullets);
      var v := items[0];
      var rest := CleanNodes(items[1..], bullets).value;
      if !Orphan(v, bullets) {
        var r := CleanNodes(items, bullets).value;
        assert r == [CleanNode(v, bullets).value] + rest;
        assert Label(r[0]) == Label(v);
        assert Labels(r) == [Label(v)] + Labels(rest);
      }
    }
  }

  /** A document with no orphans and no `null` comes out of the filter unchanged. */
  lemma {:induction false} CleanIsIdentityOnCleanInput(items: seq<Value>, bullets: map<Id, Bullet>)
    requires NoOrphans(items, bullets) && NullFree(items, bullets)
    ensures CleanNodes(items, bullets) == Some(items)
    decreases items
  {
    if items != [] {
      CleanIsIdentityOnCleanInput(items[1..], bullets);
      NodeIsIdentityOnCleanInput(items[0], bullets);
      assert items == [items[0]] + items[1..];
    }
  }

  lemma {:induction false} NodeIsIdentityOnCleanInput(v: Value, bullets: map<Id, Bullet>)
    requires NodeHasNoOrphans(v, bullets) && NodeNullFree(v, bullets)
    ensures CleanNode(v, bullets) == Some(v)
    decreases v
  {
    if HasChildren(v) && !TaskReference(v) {
      CleanIsIdentityOnCleanInput(v.content.value.items, bullets);
      assert v.(content := Some(Arr(v.content.value.items))) == v;
    }
  }

  /** Cleaning twice is cleaning once. */
  lemma CleanIdempotent(items: seq<Value>, bullets: map<Id, Bullet>)
    requires CleanNodes(items, bullets).Some?
    ensures var r := CleanNodes(items, bullets).value;
      CleanNodes(r, bullets) == Some(r)
  {
    var r := CleanNodes(items, bullets).value;
    CleanRemovesOrphans(items, bullets);
    CleanAgainNullFree(items, bullets);
    CleanIsIdentityOnCleanInput(r, bullets);
  }

  /** What the filter returns holds no `null` it would meet. */
  lemma {:induction false} CleanAgainNullFree(items: seq<Value>, bullets: map<Id, Bullet>)
    requires CleanNodes(items, bullets).Some?
    ensures NullFree(CleanNodes(items, bullets).value, bullets)
    decreases items
  {
    if items != [] {
      CleanAgainNullFree(items[1..], bullets);
      if !Orphan(items[0], bullets) {
        NodeAgainNullFree(items[0], bullets);
        var r := CleanNodes(items, bullets).value;
        assert r[1..] == CleanNodes(items[1..], bullets).value;
      }
    }
  }

  lemma {:induction false} NodeAgainNullFree(v: Value, bullets: map<Id, Bullet>)
    requires CleanNode(v, bullets).Some?
    ensures NodeNullFree(CleanNode(v, bullets).value, bullets)
    decreases v
  {
    if HasChildren(v) && !TaskReference(v) {
      CleanAgainNullFree(v.content.value.items, bullets);
    }
  }

  /** `embeddedTask` nodes whose `bulletId` is missing, null or empty are never dropped. */
  lemma UntaggedTasksKept(v: Value, bullets: map<Id, Bullet>)
    requires v.Obj? && v.kind == Some("embeddedTask") && (v.bulletId.None? || v.bulletId.value == "")
    ensures !Orphan(v, bullets)
    ensures forall items :: v in items ==> v in Survivors(items, bullets)
  {
  }

  /** A document whose root holds an orphan and a kept task loses only the orphan. */
  lemma CleanDropsOnlyOrphan(p: Value, keep: Id, gone: Id, bullets: map<Id, Bullet>)
    requires keep in bullets && gone !in bullets
    requires p == Obj(Some("doc"), None, None, Some(Arr([
      Obj(Some("embeddedTask"), Some(keep), None, None),
      Obj(Some("embeddedTask"), Some(gone), None, None)])))
    ensures CleanNoteContent("{}", Some(p), bullets) ==
      Serialized(Obj(Some("doc"), None, None, Some(Arr([Obj(Some("embeddedTask"), Some(keep), None, None)]))))
  {
    var items := p.content.value.items;
    assert Orphan(items[1], bullets);
    assert CleanNodes(items[1..][1..], bullets) == Some([]);
    assert CleanNodes(items[1..], bullets) == Some([]);
    assert CleanNode(items[0], bullets) == Some(items[0]);
    assert [items[0]] + [] == [items[0]];
  }

  // ---- URL whitelist ----

  /** The protocols a link may use, as the lower-case prefixes the pattern matches. */
  const Protocols: seq<string> := ["http://", "https://", "mailto:", "tel:"]

  /** `isValidUrl(url)`: `url` is non-empty and, trimmed, starts with an allowed protocol, ignoring ASCII case. */
  function IsValidUrl(url: string): (ok: bool)
    ensures ok <==> url != "" && exists i :: 0 <= i < |Protocols| && StartsWith(AsciiLowerString(Trim(url)), Protocols[i])
  {
    if url == "" then false
    else
      var t := AsciiLowerString(Trim(url));
      if StartsWith(t, "http://") then assert StartsWith(t, Protocols[0]); true
      else if StartsWith(t, "https://") then assert StartsWith(t, Protocols[1]); true
      else if StartsWith(t, "mailto:") then assert StartsWith(t, Protocols[2]); true
      else if StartsWith(t, "tel:") then assert StartsWith(t, Protocols[3]); true
      else false
  }

  /** Whitespace around a URL does not change the verdict. */
  lemma UrlWhitespaceIgnored(url: string)
    requires Trim(url) != ""
    ensures IsValidUrl(url) == IsValidUrl(Trim(url))
  {
    TrimIdempotent(url);
  }

  /** Blank input is never a valid URL. */
  lemma BlankUrlRejected(url: string)
    requires forall i :: 0 <= i < |url| ==> IsJsWhitespace(url[i])
    ensures !IsValidUrl(url)
  {
    TrimEmptyIffBlank(url);
  }

  /**
   * An allowed protocol in any mix of ASCII case, followed by anything that
   * does not end in whitespace, is accepted.
   */
  lemma ProtocolInAnyCaseAccepted(proto: string, rest: string, i: nat)
    requires i < |Protocols| && AsciiLowerString(proto) == Protocols[i]
    requires !IsJsWhitespace((proto + rest)[|proto + rest| - 1])
    ensures IsValidUrl(proto + rest)
  {
    var url := proto + rest;
    ProtocolStartsWithLetter(i);
    assert url[0] == proto[0];
    LetterNotWhitespace(url[0], Protocols[i][0]);
    TrimUnpadded(url);
    LowerOfPrefix(proto, rest);
    assert StartsWith(AsciiLowerString(Trim(url)), Protocols[i]);
  }

  /** Every allowed protocol starts with `h`, `m` or `t`. */
  lemma ProtocolStartsWithLetter(i: nat)
    requires i < |Protocols|
    ensures |Protocols[i]| > 0 && (Protocols[i][0] == 'h' || Protocols[i][0] == 'm' || Protocols[i][0] == 't')
  {
  }

  /** A character that folds to a lower-case letter is not whitespace. */
  lemma LetterNotWhitespace(c: char, letter: char)
    requires 'a' <= letter <= 'z' && AsciiLower(c) == letter
    ensures !IsJsWhitespace(c)
  {
  }

  /** Lower-casing a string lower-cases each of its prefixes. */
  lemma LowerOfPrefix(a: string, b: string)
    ensures AsciiLowerString(a + b)[..|a|] == AsciiLowerString(a)
  {
    var l := AsciiLowerString(a + b);
    forall k | 0 <= k < |a| ensures l[..|a|][k] == AsciiLowerString(a)[k] {
      assert (a + b)[k] == a[k];
    }
  }

  /** A URL whose trimmed text starts with a letter other than h, m or t (in either case), or with no letter, is rejected. */
  lemma OtherSchemesRejected(url: string)
    requires Trim(url) != []
    requires AsciiLower(Trim(url)[0]) != 'h' && AsciiLower(Trim(url)[0]) != 'm' && AsciiLower(Trim(url)[0]) != 't'
    ensures !IsValidUrl(url)
  {
    var t := AsciiLowerString(Trim(url));
    assert t[0] != 'h' && t[0] != 'm' && t[0] != 't';
    assert !StartsWith(t, "http://") && !StartsWith(t, "https://") && !StartsWith(t, "mailto:") && !StartsWith(t, "tel:");
  }
}
