/**
 * The ECMAScript string operations the splitters are built from:
 * `String.prototype.split` with a string separator and no limit,
 * `Array.prototype.join` and `String.prototype.trim`.
 * A `char` is a Unicode scalar value; ECMAScript strings are UTF-16 code
 * units, and the two agree on text inside the Basic Multilingual Plane.
 */
module JsStrings {
  import opened Wrappers

  type String = seq<char>

  /** `sep` occurs in `s` at index `i`. */
  predicate OccursAt(s: String, sep: String, i: nat) {
    i + |sep| <= |s| && s[i..i + |sep|] == sep
  }

  /** `s.includes(sep)` */
  predicate Contains(s: String, sep: String) {
    exists i: nat | i <= |s| :: OccursAt(s, sep, i)
  }

  lemma ContainsChar(s: String, c: char)
    ensures Contains(s, [c]) <==> c in s
  {
    if c in s {
      var k :| 0 <= k < |s| && s[k] == c;
      assert s[k..k + 1] == [c];
      assert OccursAt(s, [c], k);
    }
    if Contains(s, [c]) {
      var i: nat :| i <= |s| && OccursAt(s, [c], i);
      assert s[i..i + 1][0] == s[i];
    }
  }

  /** The first index at or after `from` where `sep` occurs, as the split matcher scans. */
  function FindFrom(s: String, sep: String, from: nat): (r: Option<nat>)
    requires from <= |s|
    decreases |s| - from
    ensures r.Some? ==> from <= r.value && OccursAt(s, sep, r.value)
    ensures forall j: nat :: from <= j && (r.None? || j < r.value) ==> !OccursAt(s, sep, j)
  {
    if OccursAt(s, sep, from) then Some(from)
    else if from == |s| then None
    else FindFrom(s, sep, from + 1)
  }

  /** `parts.join(sep)` */
  function Join(parts: seq<String>, sep: String): String
    decreases |parts|
  {
    if |parts| == 0 then []
    else if |parts| == 1 then parts[0]
    else parts[0] + sep + Join(parts[1..], sep)
  }

  lemma PrefixBeforeFirstOccurrence(s: String, sep: String, i: nat)
    requires sep != [] && i <= |s|
    requires forall j: nat :: j < i ==> !OccursAt(s, sep, j)
    ensures !Contains(s[..i], sep)
  {
    forall j: nat | j <= i && OccursAt(s[..i], sep, j)
      ensures false
    {
      assert s[..i][j..j + |sep|] == s[j..j + |sep|];
      assert OccursAt(s, sep, j);
    }
  }

  /**
   * No occurrence of `sep` starts inside `field` and runs on into the
   * separator that follows it: that separator is the leftmost one.
   */
  predicate CutAtFirst(field: String, sep: String)
    requires sep != []
  {
    !Contains(field + sep[..|sep| - 1], sep)
  }

  /** The text before the first occurrence of `sep` is cut at that occurrence. */
  lemma FirstOccurrenceIsCut(s: String, sep: String, i: nat)
    requires sep != [] && OccursAt(s, sep, i)
    requires forall j: nat :: j < i ==> !OccursAt(s, sep, j)
    ensures CutAtFirst(s[..i], sep)
  {
    var t := s[..i] + sep[..|sep| - 1];
    assert t == s[..i + |sep| - 1] by {
      assert s[i..i + |sep|] == sep;
    }
    forall j: nat | j <= |t| ensures !OccursAt(t, sep, j) {
      if j + |sep| <= |t| {
        assert t[j..j + |sep|] == s[j..j + |sep|];
        assert j < i && !OccursAt(s, sep, j);
      }
    }
  }

  /**
   * `s.split(sep)` for a non-empty separator: the fields between the leftmost,
   * non-overlapping occurrences of `sep`, empty fields included.
   */
  function SplitOn(s: String, sep: String): (fields: seq<String>)
    requires sep != []
    decreases |s|
    ensures |fields| >= 1
    ensures Join(fields, sep) == s
    ensures forall k :: 0 <= k < |fields| ==> !Contains(fields[k], sep)
    ensures forall k :: 0 <= k < |fields| - 1 ==> CutAtFirst(fields[k], sep)
  {
    match FindFrom(s, sep, 0)
    case None =>
      PrefixBeforeFirstOccurrence(s, sep, |s|);
      assert s[..|s|] == s;
      [s]
    case Some(i) =>
      PrefixBeforeFirstOccurrence(s, sep, i);
      var rest := SplitOn(s[i + |sep|..], sep);
      assert s == s[..i] + sep + s[i + |sep|..] by {
        assert s[i..i + |sep|] == sep;
      }
      FirstOccurrenceIsCut(s, sep, i);
      var fields := [s[..i]] + rest;
      forall k | 1 <= k < |fields| - 1 ensures CutAtFirst(fields[k], sep) {
        assert fields[k] == rest[k - 1];
      }
      assert fields[1..] == rest;
      fields
  }

  /** `s.split("")`: one piece per character, and none for the empty string. */
  function Chars(s: String): (pieces: seq<String>)
    decreases |s|
    ensures |pieces| == |s|
    ensures forall k :: 0 <= k < |s| ==> pieces[k] == [s[k]]
    ensures Join(pieces, []) == s
  {
    if s == [] then []
    else
      var rest := Chars(s[1..]);
      assert ([[s[0]]] + rest)[1..] == rest;
      [[s[0]]] + rest
  }

  /** `s.split(sep)` of ECMAScript, without a limit. */
  function Split(s: String, sep: String): (fields: seq<String>)
    ensures Join(fields, sep) == s
    ensures sep != [] ==> |fields| >= 1
    ensures sep != [] ==> forall k :: 0 <= k < |fields| ==> !Contains(fields[k], sep)
    ensures sep != [] ==> forall k :: 0 <= k < |fields| - 1 ==> CutAtFirst(fields[k], sep)
    ensures sep == [] ==> |fields| == |s| && forall k :: 0 <= k < |s| ==> fields[k] == [s[k]]
  {
    if sep == [] then Chars(s) else SplitOn(s, sep)
  }

  /** `"aaa".split("aa")`: the cut is at the leftmost occurrence, not the rightmost. */
  lemma SplitOverlappingSeparator()
    ensures Split("aaa", "aa") == ["", "a"]
  {
    var s, sep := "aaa", "aa";
    assert OccursAt(s, sep, 0);
    assert FindFrom(s, sep, 0) == Some(0);
    assert s[2..] == "a";
    assert FindFrom("a", sep, 0) == None;
  }

  /** The number of indices at which `sep` occurs in `s`, overlapping ones included. */
  function Occurrences(s: String, sep: String): nat
    requires sep != []
    decreases |s|
  {
    if |s| < |sep| then 0
    else (if s[..|sep|] == sep then 1 else 0) + Occurrences(s[1..], sep)
  }

  lemma {:induction false} OccurrencesOfSuffix(s: String, sep: String, k: nat)
    requires sep != [] && k <= |s|
    ensures Occurrences(s[k..], sep) <= Occurrences(s, sep)
  {
    if k > 0 {
      OccurrencesOfSuffix(s[1..], sep, k - 1);
      assert s[1..][k - 1..] == s[k..];
    }
  }

  lemma {:induction false} OccurrenceCounted(s: String, sep: String, i: nat)
    requires sep != [] && OccursAt(s, sep, i)
    ensures Occurrences(s[i + |sep|..], sep) + 1 <= Occurrences(s, sep)
  {
    if i == 0 {
      assert s[..|sep|] == sep;
      OccurrencesOfSuffix(s[1..], sep, |sep| - 1);
      assert s[1..][|sep| - 1..] == s[|sep|..];
    } else {
      assert OccursAt(s[1..], sep, i - 1) by {
        assert s[1..][i - 1..i - 1 + |sep|] == s[i..i + |sep|];
      }
      OccurrenceCounted(s[1..], sep, i - 1);
      assert s[1..][i - 1 + |sep|..] == s[i + |sep|..];
    }
  }

  /** Splitting yields at most one field more than there are occurrences of the separator. */
  lemma {:induction false} SplitOnCount(s: String, sep: String)
    requires sep != []
    ensures |SplitOn(s, sep)| <= Occurrences(s, sep) + 1
    decreases |s|
  {
    match FindFrom(s, sep, 0)
    case None =>
    case Some(i) =>
      SplitOnCount(s[i + |sep|..], sep);
      OccurrenceCounted(s, sep, i);
  }

  /** A one-character separator: the field before its first occurrence comes first. */
  lemma SplitOnCharCons(a: String, c: char, b: String)
    requires c !in a
    ensures SplitOn(a + [c] + b, [c]) == [a] + SplitOn(b, [c])
  {
    var s := a + [c] + b;
    assert s[|a|..|a| + 1] == [c];
    assert OccursAt(s, [c], |a|);
    forall j: nat | j < |a| ensures !OccursAt(s, [c], j) {
      assert s[j..j + 1][0] == a[j];
    }
    var r := FindFrom(s, [c], 0);
    assert r == Some(|a|);
    assert s[..|a|] == a;
    assert s[|a| + 1..] == b;
  }

  /** A string without the separator character is a single field. */
  lemma SplitOnCharNone(a: String, c: char)
    requires c !in a
    ensures SplitOn(a, [c]) == [a]
  {
    ContainsChar(a, c);
    forall j: nat | j <= |a| ensures !OccursAt(a, [c], j) {
      if j + 1 <= |a| {
        assert a[j..j + 1][0] == a[j];
      }
    }
    assert FindFrom(a, [c], 0) == None;
  }

  /** With a one-character separator, the fields are the only separator-free parts that join to the text. */
  lemma {:induction false} SplitOnCharUnique(parts: seq<String>, c: char)
    requires |parts| >= 1
    requires forall k :: 0 <= k < |parts| ==> c !in parts[k]
    ensures SplitOn(Join(parts, [c]), [c]) == parts
    decreases |parts|
  {
    if |parts| == 1 {
      SplitOnCharNone(parts[0], c);
    } else {
      SplitOnCharUnique(parts[1..], c);
      SplitOnCharCons(parts[0], c, Join(parts[1..], [c]));
      assert parts == [parts[0]] + parts[1..];
    }
  }

  /** With a one-character separator there is one field more than there are separators. */
  lemma {:induction false} SplitOnCharCount(s: String, c: char)
    ensures |SplitOn(s, [c])| == multiset(s)[c] + 1
    decreases |s|
  {
    match FindFrom(s, [c], 0)
    case None =>
      ContainsChar(s, c);
      assert s[..|s|] == s;
    case Some(i) =>
      ContainsChar(s[..i], c);
      assert s == s[..i] + [c] + s[i + 1..] by {
        assert s[i..i + 1] == [c];
      }
      SplitOnCharCount(s[i + 1..], c);
  }

  /** Splitting on one character: one field per occurrence plus one, none holding the character. */
  lemma SplitOnCharFields(s: String, c: char)
    ensures |Split(s, [c])| == multiset(s)[c] + 1
    ensures forall k :: 0 <= k < |Split(s, [c])| ==> c !in Split(s, [c])[k]
  {
    var fields := Split(s, [c]);
    SplitOnCharCount(s, c);
    forall k | 0 <= k < |fields| ensures c !in fields[k] {
      ContainsChar(fields[k], c);
    }
  }

  lemma {:induction false} JoinAppend(a: seq<String>, b: seq<String>, sep: String)
    requires |a| >= 1 && |b| >= 1
    ensures Join(a + b, sep) == Join(a, sep) + sep + Join(b, sep)
    decreases |a|
  {
    if |a| == 1 {
      assert (a + b)[1..] == b;
    } else {
      JoinAppend(a[1..], b, sep);
      assert (a + b)[1..] == a[1..] + b;
    }
  }

  /** A character of any part is a character of the joined string. */
  lemma {:induction false} JoinHasPartChars(parts: seq<String>, sep: String, k: nat, c: char)
    requires k < |parts| && c in parts[k]
    ensures c in Join(parts, sep)
    decreases |parts|
  {
    if k > 0 {
      JoinHasPartChars(parts[1..], sep, k - 1, c);
    }
  }

  /** With a one-character separator, splitting distributes over a separator occurrence. */
  lemma SplitOnCharDistributes(a: String, c: char, b: String)
    ensures SplitOn(a + [c] + b, [c]) == SplitOn(a, [c]) + SplitOn(b, [c])
  {
    var fa, fb := SplitOn(a, [c]), SplitOn(b, [c]);
    JoinAppend(fa, fb, [c]);
    forall k | 0 <= k < |fa + fb| ensures c !in (fa + fb)[k] {
      ContainsChar((fa + fb)[k], c);
    }
    SplitOnCharUnique(fa + fb, c);
  }

  /** ECMAScript WhiteSpace and LineTerminator code points: what `trim` removes. */
  predicate IsTrimmable(c: char) {
    c == '\t' || c == '\n' || c == '\U{000B}' || c == '\U{000C}' || c == '\r' || c == ' '
    || c == '\U{00A0}' || c == '\U{1680}' || ('\U{2000}' <= c <= '\U{200A}')
    || c == '\U{2028}' || c == '\U{2029}' || c == '\U{202F}' || c == '\U{205F}'
    || c == '\U{3000}' || c == '\U{FEFF}'
  }

  function LeadingTrimmable(s: String): (n: nat)
    decreases |s|
    ensures n <= |s|
    ensures forall k :: 0 <= k < n ==> IsTrimmable(s[k])
    ensures n < |s| ==> !IsTrimmable(s[n])
  {
    if s != [] && IsTrimmable(s[0]) then 1 + LeadingTrimmable(s[1..]) else 0
  }

  function TrailingTrimmable(s: String): (n: nat)
    decreases |s|
    ensures n <= |s|
    ensures forall k :: |s| - n <= k < |s| ==> IsTrimmable(s[k])
    ensures n < |s| ==> !IsTrimmable(s[|s| - 1 - n])
  {
    if s != [] && IsTrimmable(s[|s| - 1]) then 1 + TrailingTrimmable(s[..|s| - 1]) else 0
  }

  /** `r` is `s` with trimmable characters removed before index `i` and after `i + |r|`. */
  ghost predicate TrimmedAt(s: String, r: String, i: nat) {
    && i + |r| <= |s|
    && r == s[i..i + |r|]
    && (forall k :: 0 <= k < i ==> IsTrimmable(s[k]))
    && (forall k :: i + |r| <= k < |s| ==> IsTrimmable(s[k]))
  }

  /** `s.trim()` */
  function Trim(s: String): (r: String)
    ensures r == [] || (!IsTrimmable(r[0]) && !IsTrimmable(r[|r| - 1]))
    ensures exists i: nat :: TrimmedAt(s, r, i)
  {
    var a := LeadingTrimmable(s);
    if a == |s| then
      assert TrimmedAt(s, [], 0);
      []
    else
      var b := |s| - TrailingTrimmable(s);
      assert a < b;
      assert TrimmedAt(s, s[a..b], a);
      s[a..b]
  }

  /** A string with nothing trimmable in it is its own trim. */
  lemma TrimUntrimmed(s: String)
    requires forall k :: 0 <= k < |s| ==> !IsTrimmable(s[k])
    ensures Trim(s) == s
  {
    if s != [] {
      assert LeadingTrimmable(s) == 0;
      assert TrailingTrimmable(s) == 0;
    }
  }

  /** The first field of a one-character split is the text up to its first separator, or all of it. */
  lemma FirstFieldOfSplit(s: String, c: char)
    ensures var f := SplitOn(s, [c])[0];
      && |f| <= |s| && s[..|f|] == f && c !in f
      && (|f| == |s| || s[|f|] == c)
  {
    var fields := SplitOn(s, [c]);
    ContainsChar(fields[0], c);
    if |fields| > 1 {
      assert s == fields[0] + [c] + Join(fields[1..], [c]);
    }
  }
}
