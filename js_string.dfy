/**
 * The few JavaScript string operations the core relies on: `trim`,
 * `startsWith`, `toLowerCase` (as far as comparing with ASCII key names
 * goes), the ASCII-only case folding of a `/i` regular expression, and
 * `split`/`join` with a non-empty separator.
 */
module JsString {

  /** The characters `String.prototype.trim` removes (WhiteSpace and LineTerminator of ECMAScript). */
  predicate IsJsWhitespace(c: char)
  {
    c == '\t' || c == '\n' || c == '\U{000B}' || c == '\U{000C}' || c == '\r' || c == ' ' ||
    c == '\U{00A0}' || c == '\U{1680}' || ('\U{2000}' <= c <= '\U{200A}') ||
    c == '\U{2028}' || c == '\U{2029}' || c == '\U{202F}' || c == '\U{205F}' ||
    c == '\U{3000}' || c == '\U{FEFF}'
  }

  /** The index of the first character of `s` at or after `i` that is not whitespace (or `|s|`). */
  function SkipWhitespace(s: string, i: nat): (j: nat)
    requires i <= |s|
    ensures i <= j <= |s|
    ensures forall k :: i <= k < j ==> IsJsWhitespace(s[k])
    ensures j < |s| ==> !IsJsWhitespace(s[j])
    decreases |s| - i
  {
    if i < |s| && IsJsWhitespace(s[i]) then SkipWhitespace(s, i + 1) else i
  }

  /** The index just past the last character of `s[lo..j]` that is not whitespace (or `lo`). */
  function BackWhitespace(s: string, lo: nat, j: nat): (e: nat)
    requires lo <= j <= |s|
    ensures lo <= e <= j
    ensures forall k :: e <= k < j ==> IsJsWhitespace(s[k])
    ensures lo < e ==> !IsJsWhitespace(s[e - 1])
    decreases j
  {
    if lo < j && IsJsWhitespace(s[j - 1]) then BackWhitespace(s, lo, j - 1) else j
  }

  /** Where the text kept by `trim` starts. */
  function TrimStartIndex(s: string): nat
    ensures TrimStartIndex(s) <= |s|
  {
    SkipWhitespace(s, 0)
  }

  /** Where the text kept by `trim` ends. */
  function TrimEndIndex(s: string): nat
    ensures TrimStartIndex(s) <= TrimEndIndex(s) <= |s|
  {
    BackWhitespace(s, TrimStartIndex(s), |s|)
  }

  /**
   * `s.trim()`: the slice of `s` between its leading and trailing whitespace
   * runs; what it cuts is whitespace and what it keeps neither starts nor
   * ends with whitespace.
   */
  function Trim(s: string): (r: string)
    ensures r == s[TrimStartIndex(s)..TrimEndIndex(s)]
    ensures forall k :: 0 <= k < TrimStartIndex(s) ==> IsJsWhitespace(s[k])
    ensures forall k :: TrimEndIndex(s) <= k < |s| ==> IsJsWhitespace(s[k])
    ensures r != [] ==> !IsJsWhitespace(r[0]) && !IsJsWhitespace(r[|r| - 1])
  {
    var lo := TrimStartIndex(s);
    var hi := TrimEndIndex(s);
    assert lo == SkipWhitespace(s, 0);
    assert hi == BackWhitespace(s, lo, |s|);
    assert lo < hi ==> s[lo..hi][0] == s[lo] && s[lo..hi][hi - lo - 1] == s[hi - 1];
    s[lo..hi]
  }

  /** Whether `s` is empty or all whitespace, which is when `s.trim()` is falsy. */
  lemma TrimEmptyIffBlank(s: string)
    ensures Trim(s) == [] <==> forall i :: 0 <= i < |s| ==> IsJsWhitespace(s[i])
  {
    if Trim(s) == [] {
      assert TrimStartIndex(s) == TrimEndIndex(s);
    } else {
      assert TrimStartIndex(s) < |s|;
    }
  }

  /** `trim` leaves a string that neither starts nor ends with whitespace as it is. */
  lemma TrimUnpadded(s: string)
    requires s != [] ==> !IsJsWhitespace(s[0]) && !IsJsWhitespace(s[|s| - 1])
    ensures Trim(s) == s
  {
    if s != [] {
      assert TrimStartIndex(s) == 0;
      assert TrimEndIndex(s) == |s|;
    }
  }

  /** Trimming twice is trimming once. */
  lemma TrimIdempotent(s: string)
    ensures Trim(Trim(s)) == Trim(s)
  {
    TrimUnpadded(Trim(s));
  }

  predicate StartsWith(s: string, prefix: string)
  {
    |prefix| <= |s| && s[..|prefix|] == prefix
  }

  /** Case folding of ASCII letters, which is all a `/i` regular expression without the `u` flag folds to ASCII. */
  function AsciiLower(c: char): char
  {
    if 'A' <= c <= 'Z' then (c as int + 32) as char else c
  }

  function AsciiLowerString(s: string): (r: string)
    ensures |r| == |s| && forall i :: 0 <= i < |s| ==> r[i] == AsciiLower(s[i])
  {
    if s == [] then [] else [AsciiLower(s[0])] + AsciiLowerString(s[1..])
  }

  /**
   * `toLowerCase` of one character, exact as far as the result can equal
   * an ASCII letter: ASCII capitals and the Kelvin sign (U+212A, whose lower
   * case is 'k') are the only characters that lower-case into ASCII.  Other
   * characters are left as they are; their true lower case is never ASCII.
   */
  function KeyLower(c: char): char
  {
    if 'A' <= c <= 'Z' then (c as int + 32) as char
    else if c == '\U{212A}' then 'k'
    else c
  }

  function KeyLowerString(s: string): (r: string)
    ensures |r| == |s| && forall i :: 0 <= i < |s| ==> r[i] == KeyLower(s[i])
  {
    if s == [] then [] else [KeyLower(s[0])] + KeyLowerString(s[1..])
  }

  // ---- split / join ----

  /** `sep` occurs in `s` at position `i`. */
  predicate OccursAt(s: string, sep: string, i: int)
  {
    0 <= i && i + |sep| <= |s| && s[i..i + |sep|] == sep
  }

  ghost predicate Occurs(s: string, sep: string)
  {
    exists i :: OccursAt(s, sep, i)
  }

  /** `s.split(sep)`: the pieces between the leftmost non-overlapping occurrences of `sep`. */
  function Split(s: string, sep: string): (parts: seq<string>)
    requires sep != []
    ensures |parts| >= 1
    decreases |s|
  {
    if |s| < |sep| then [s]
    else if s[..|sep|] == sep then [""] + Split(s[|sep|..], sep)
    else
      var rest := Split(s[1..], sep);
      [[s[0]] + rest[0]] + rest[1..]
  }

  /** `parts.join(sep)`. */
  function Join(parts: seq<string>, sep: string): string
  {
    if parts == [] then ""
    else if |parts| == 1 then parts[0]
    else parts[0] + sep + Join(parts[1..], sep)
  }

  /** `s.split(sep).join(replacement)`: every occurrence of `sep`, left to right, replaced. */
  function ReplaceAll(s: string, sep: string, replacement: string): string
    requires sep != []
  {
    Join(Split(s, sep), replacement)
  }

  /** Joining the pieces back with the separator gives the original string. */
  lemma {:induction false} SplitJoinRoundTrip(s: string, sep: string)
    requires sep != []
    ensures Join(Split(s, sep), sep) == s
    decreases |s|
  {
    if |s| < |sep| {
    } else if s[..|sep|] == sep {
      var tail := Split(s[|sep|..], sep);
      SplitJoinRoundTrip(s[|sep|..], sep);
      JoinAfterEmptyPiece(tail, sep);
      assert Split(s, sep) == [""] + tail;
      assert s == sep + s[|sep|..];
    } else {
      var rest := Split(s[1..], sep);
      SplitJoinRoundTrip(s[1..], sep);
      JoinExtendsFirstPiece(s[0], rest, sep);
      assert Split(s, sep) == [[s[0]] + rest[0]] + rest[1..];
      assert s == [s[0]] + s[1..];
    }
  }

  /** An empty first piece puts the separator in front of the join. */
  lemma JoinAfterEmptyPiece(tail: seq<string>, sep: string)
    requires |tail| >= 1
    ensures Join([""] + tail, sep) == sep + Join(tail, sep)
  {
    var parts := [""] + tail;
    assert parts[1..] == tail;
    assert Join(parts, sep) == "" + sep + Join(tail, sep);
  }

  /** Putting a character in front of the first piece puts it in front of the join. */
  lemma JoinExtendsFirstPiece(c: char, rest: seq<string>, sep: string)
    requires |rest| >= 1
    ensures Join([[c] + rest[0]] + rest[1..], sep) == [c] + Join(rest, sep)
  {
    var parts := [[c] + rest[0]] + rest[1..];
    assert parts[0] == [c] + rest[0];
    if |rest| > 1 {
      assert parts[1..] == rest[1..];
      assert Join(parts, sep) == parts[0] + sep + Join(rest[1..], sep);
      assert Join(rest, sep) == rest[0] + sep + Join(rest[1..], sep);
    }
  }

  /** No piece of a split contains the separator. */
  lemma {:induction false} SplitPiecesAreFree(s: string, sep: string)
    requires sep != []
    ensures forall p :: p in Split(s, sep) ==> !Occurs(p, sep)
    decreases |s|
  {
    if |s| < |sep| {
      assert forall i :: !OccursAt(s, sep, i);
    } else if s[..|sep|] == sep {
      SplitPiecesAreFree(s[|sep|..], sep);
      assert forall i :: !OccursAt("", sep, i);
    } else {
      var rest := Split(s[1..], sep);
      SplitPiecesAreFree(s[1..], sep);
      assert rest[0] in rest;
      var head := [s[0]] + rest[0];
      FirstPieceIsPrefix(s[1..], sep);
      assert rest[0] == s[1..|rest[0]| + 1];
      HeadPieceFree(s, sep, rest[0]);
      assert Split(s, sep) == [head] + rest[1..];
      forall p | p in [head] + rest[1..] ensures !Occurs(p, sep) {
        if p != head {
          assert p in rest;
        }
      }
    }
  }

  /** A separator-free prefix of `s[1..]`, with `s[0]` in front, stays free of a separator that `s` does not start with. */
  lemma HeadPieceFree(s: string, sep: string, first: string)
    requires sep != [] && |s| >= |sep| && s[..|sep|] != sep
    requires |first| < |s| && first == s[1..|first| + 1]
    requires !Occurs(first, sep)
    ensures !Occurs([s[0]] + first, sep)
  {
    var head := [s[0]] + first;
    assert head == s[..|head|];
    forall i | 0 <= i && i + |sep| <= |head| ensures !OccursAt(head, sep, i) {
      if i == 0 {
        assert head[..|sep|] == s[..|sep|];
      } else {
        assert first[i - 1..i - 1 + |sep|] == head[i..i + |sep|];
        assert !OccursAt(first, sep, i - 1);
      }
    }
  }

  /** The first piece of a split is a prefix of the string. */
  lemma {:induction false} FirstPieceIsPrefix(s: string, sep: string)
    requires sep != []
    ensures |Split(s, sep)[0]| <= |s| && Split(s, sep)[0] == s[..|Split(s, sep)[0]|]
    decreases |s|
  {
    if |s| < |sep| {
      assert s[..|s|] == s;
    } else if s[..|sep|] == sep {
      assert Split(s, sep)[0] == "";
    } else {
      var rest := Split(s[1..], sep);
      FirstPieceIsPrefix(s[1..], sep);
      var n := |rest[0]|;
      assert Split(s, sep)[0] == [s[0]] + rest[0];
      assert rest[0] == s[1..][..n] == s[1..n + 1];
      assert [s[0]] + s[1..n + 1] == s[..n + 1];
    }
  }

  /**
   * The split cuts at the leftmost occurrence: no occurrence starts inside
   * the first piece; when there are more pieces the separator follows the
   * first one and the rest is the split of what comes after it; otherwise
   * the first piece is the whole string.  Applied piece by piece this fixes
   * every piece, even for a separator that overlaps itself.
   */
  lemma SplitAtLeftmost(s: string, sep: string)
    requires sep != []
    ensures var parts := Split(s, sep); var f := parts[0];
      && |f| <= |s|
      && (forall i :: 0 <= i < |f| ==> !OccursAt(s, sep, i))
      && (|parts| == 1 ==> f == s)
      && (|parts| > 1 ==> |f| + |sep| <= |s| && OccursAt(s, sep, |f|) && parts[1..] == Split(s[|f| + |sep|..], sep))
  {
    FirstPieceIsPrefix(s, sep);
    NoOccurrenceInFirstPiece(s, sep);
    SplitJoinRoundTrip(s, sep);
    SplitCutsAtSeparator(s, sep);
  }

  /** No occurrence of the separator starts inside the first piece. */
  lemma {:induction false} NoOccurrenceInFirstPiece(s: string, sep: string)
    requires sep != []
    ensures forall i :: 0 <= i < |Split(s, sep)[0]| ==> !OccursAt(s, sep, i)
    decreases |s|
  {
    if |s| >= |sep| && s[..|sep|] != sep {
      var rest := Split(s[1..], sep);
      NoOccurrenceInFirstPiece(s[1..], sep);
      var f := Split(s, sep)[0];
      assert f == [s[0]] + rest[0];
      forall i | 0 <= i < |f| ensures !OccursAt(s, sep, i) {
        if i == 0 {
          assert s[0..|sep|] == s[..|sep|];
        } else {
          ShiftedOccurrence(s, sep, i - 1);
        }
      }
    }
  }

  /** With more than one piece, the separator follows the first piece and the rest is the split of what follows it. */
  lemma {:induction false} SplitCutsAtSeparator(s: string, sep: string)
    requires sep != []
    ensures var parts := Split(s, sep); var f := parts[0];
      |parts| > 1 ==> |f| + |sep| <= |s| && OccursAt(s, sep, |f|) && parts[1..] == Split(s[|f| + |sep|..], sep)
    decreases |s|
  {
    if |s| < |sep| {
    } else if s[..|sep|] == sep {
      assert s[0..0 + |sep|] == sep;
    } else {
      var rest := Split(s[1..], sep);
      SplitCutsAtSeparator(s[1..], sep);
      var parts := Split(s, sep);
      assert parts == [[s[0]] + rest[0]] + rest[1..];
      if |parts| > 1 {
        var n := |rest[0]|;
        assert |parts[0]| == n + 1 && parts[1..] == rest[1..] && |rest| > 1;
        CutOnePlaceOn(s, sep, n, rest[1..]);
      }
    }
  }

  /** A cut of `s[1..]` after `n` characters is a cut of `s` after `n + 1`. */
  lemma CutOnePlaceOn(s: string, sep: string, n: nat, tail: seq<string>)
    requires sep != [] && |s| >= 1
    requires n + |sep| <= |s| - 1 && OccursAt(s[1..], sep, n) && tail == Split(s[1..][n + |sep|..], sep)
    ensures n + 1 + |sep| <= |s| && OccursAt(s, sep, n + 1) && tail == Split(s[n + 1 + |sep|..], sep)
  {
    ShiftedOccurrence(s, sep, n);
    assert s[1..][n + |sep|..] == s[n + 1 + |sep|..];
  }

  /** An occurrence in `s[1..]` is one in `s`, one place on. */
  lemma ShiftedOccurrence(s: string, sep: string, i: nat)
    requires |s| >= 1
    ensures OccursAt(s[1..], sep, i) <==> OccursAt(s, sep, i + 1)
  {
    if i + |sep| <= |s| - 1 {
      assert s[1..][i..i + |sep|] == s[i + 1..i + 1 + |sep|];
    }
  }

  /** A string without the separator is a single piece, so replacing leaves it unchanged. */
  lemma {:induction false} ReplaceAbsentIsIdentity(s: string, sep: string, replacement: string)
    requires sep != [] && !Occurs(s, sep)
    ensures Split(s, sep) == [s]
    ensures ReplaceAll(s, sep, replacement) == s
    decreases |s|
  {
    if |s| < |sep| {
    } else if s[..|sep|] == sep {
      assert OccursAt(s, sep, 0);
    } else {
      forall i | 0 <= i && i + |sep| <= |s| - 1 ensures !OccursAt(s[1..], sep, i) {
        assert s[1..][i..i + |sep|] == s[i + 1..i + 1 + |sep|];
        assert !OccursAt(s, sep, i + 1);
      }
      assert !Occurs(s[1..], sep);
      ReplaceAbsentIsIdentity(s[1..], sep, replacement);
      assert s == [s[0]] + s[1..];
    }
  }

  /** Replacing a separator by itself changes nothing. */
  lemma ReplaceBySelfIsIdentity(s: string, sep: string)
    requires sep != []
    ensures ReplaceAll(s, sep, sep) == s
  {
    SplitJoinRoundTrip(s, sep);
  }
}
