/**
 * The string operations the backend uses, with Python's meaning:
 * `str.strip()` and `str.strip(c)`, `str.startswith`, `str.replace(p, "")`,
 * `str.split(c)`, `str.split(c, 1)[1]` and `str.upper()`.
 */
module Text {

  /** Python's `str.isspace()` for a single character (the characters `str.strip()` removes). */
  predicate IsSpace(c: char) {
    var n := c as int;
    n in {9, 10, 11, 12, 13, 28, 29, 30, 31, 32, 133, 160, 5760, 8232, 8233, 8239, 8287, 12288}
    || 8192 <= n <= 8202
  }

  /** `s` with its longest prefix of characters satisfying `drop` removed. */
  function TrimStart(s: string, drop: char -> bool): (r: string)
    ensures |r| <= |s| && r == s[|s| - |r|..]
    ensures r == [] || !drop(r[0])
    ensures forall i :: 0 <= i < |s| - |r| ==> drop(s[i])
  {
    if s != [] && drop(s[0]) then TrimStart(s[1..], drop) else s
  }

  /** `s` with its longest suffix of characters satisfying `drop` removed. */
  function TrimEnd(s: string, drop: char -> bool): (r: string)
    ensures |r| <= |s| && r == s[..|r|]
    ensures r == [] || !drop(r[|r| - 1])
    ensures forall i :: |r| <= i < |s| ==> drop(s[i])
  {
    if s != [] && drop(s[|s| - 1]) then TrimEnd(s[..|s| - 1], drop) else s
  }

  /** `s.strip()` */
  function Strip(s: string): string {
    TrimEnd(TrimStart(s, IsSpace), IsSpace)
  }

  /** `s.strip(c)` for a one-character argument. */
  function StripChar(s: string, c: char): string {
    TrimEnd(TrimStart(s, x => x == c), x => x == c)
  }

  /** A string that `strip()` leaves alone: empty, or neither end is whitespace. */
  predicate Trimmed(s: string) {
    s == [] || (!IsSpace(s[0]) && !IsSpace(s[|s| - 1]))
  }

  lemma StripTrimmed(s: string)
    requires Trimmed(s)
    ensures Strip(s) == s
  {
    assert TrimStart(s, IsSpace) == s;
  }

  /** Stripping leaves no whitespace at either end, and keeps a contiguous middle of `s`. */
  lemma StripResult(s: string)
    ensures Trimmed(Strip(s))
    ensures exists i, j :: 0 <= i <= j <= |s| && Strip(s) == s[i..j]
  {
    var t := TrimStart(s, IsSpace);
    var r := TrimEnd(t, IsSpace);
    if r != [] {
      assert r[0] == t[0];
    }
    var i := |s| - |t|;
    assert s[i..i + |r|] == r;
  }

  /** `s.startswith(p)` */
  predicate StartsWith(s: string, p: string) {
    |p| <= |s| && s[..|p|] == p
  }

  /** `p` occurs in `s` at position `i`. */
  predicate OccursAt(s: string, p: string, i: nat) {
    i + |p| <= |s| && s[i..i + |p|] == p
  }

  /** `p` does not occur anywhere in `s`. */
  ghost predicate NoOccurrence(s: string, p: string) {
    forall i: nat :: !OccursAt(s, p, i)
  }

  /** `s.replace(p, "")`: every non-overlapping occurrence of `p`, scanning left to right, removed. */
  function RemoveAll(s: string, p: string): (r: string)
    requires p != []
    ensures |r| <= |s|
    decreases |s|
  {
    if |s| < |p| then s
    else if s[..|p|] == p then RemoveAll(s[|p|..], p)
    else [s[0]] + RemoveAll(s[1..], p)
  }

  lemma {:induction false} RemoveAllAbsent(s: string, p: string)
    requires p != [] && NoOccurrence(s, p)
    ensures RemoveAll(s, p) == s
    decreases |s|
  {
    if |s| >= |p| {
      assert !OccursAt(s, p, 0);
      assert NoOccurrence(s[1..], p) by {
        forall i: nat
          ensures !OccursAt(s[1..], p, i)
        {
          assert !OccursAt(s, p, i + 1);
          if i + |p| <= |s| - 1 {
            assert s[1..][i..i + |p|] == s[i + 1..i + 1 + |p|];
          }
        }
      }
      RemoveAllAbsent(s[1..], p);
    }
  }

  /** Removing the pattern from a string that starts with it and has no other occurrence leaves the rest. */
  lemma RemoveAllPrefix(p: string, rest: string)
    requires p != [] && rest != [] && rest[0] != p[0] && NoOccurrence(rest, p)
    ensures RemoveAll(p + rest, p) == rest
  {
    assert (p + rest)[..|p|] == p;
    assert (p + rest)[|p|..] == rest;
    RemoveAllAbsent(rest, p);
  }

  /** Position of the first `c` in `s`, or `|s|` when there is none. */
  function IndexOf(s: string, c: char): (i: nat)
    ensures i <= |s|
    ensures i < |s| ==> s[i] == c
    ensures forall j :: 0 <= j < i ==> s[j] != c
  {
    if s == [] then 0
    else if s[0] == c then 0
    else 1 + IndexOf(s[1..], c)
  }

  /** `s.split(sep)` for a one-character separator. */
  function Split(s: string, sep: char): (r: seq<string>)
    ensures |r| >= 1
    ensures forall k :: 0 <= k < |r| ==> sep !in r[k]
    decreases |s|
  {
    var i := IndexOf(s, sep);
    if i == |s| then [s] else [s[..i]] + Split(s[i + 1..], sep)
  }

  /** `sep.join(parts)` for a one-character separator. */
  function Join(parts: seq<string>, sep: char): string {
    if parts == [] then ""
    else if |parts| == 1 then parts[0]
    else parts[0] + [sep] + Join(parts[1..], sep)
  }

  /** Splitting and joining again gives back the string. */
  lemma {:induction false} JoinSplit(s: string, sep: char)
    ensures Join(Split(s, sep), sep) == s
    decreases |s|
  {
    var i := IndexOf(s, sep);
    if i < |s| {
      JoinSplit(s[i + 1..], sep);
      SplitFirst(s, sep);
      JoinCons(s[..i], Split(s[i + 1..], sep), sep);
      Around(s, i);
    } else {
      assert Split(s, sep) == [s];
    }
  }

  /** `split` cuts at the first separator and carries on after it. */
  lemma SplitFirst(s: string, sep: char)
    requires IndexOf(s, sep) < |s|
    ensures Split(s, sep) == [s[..IndexOf(s, sep)]] + Split(s[IndexOf(s, sep) + 1..], sep)
  {
  }

  lemma JoinCons(head: string, parts: seq<string>, sep: char)
    requires parts != []
    ensures Join([head] + parts, sep) == head + [sep] + Join(parts, sep)
  {
    assert ([head] + parts)[1..] == parts;
  }

  lemma Around(s: string, i: nat)
    requires i < |s|
    ensures s[..i] + [s[i]] + s[i + 1..] == s
  {
  }

  /** Joining pieces free of the separator and splitting again gives back the pieces. */
  lemma {:induction false} SplitJoin(parts: seq<string>, sep: char)
    requires |parts| >= 1
    requires forall k :: 0 <= k < |parts| ==> sep !in parts[k]
    ensures Split(Join(parts, sep), sep) == parts
  {
    var s := Join(parts, sep);
    if |parts| == 1 {
      assert IndexOf(s, sep) == |s|;
    } else {
      var head := parts[0];
      var tail := Join(parts[1..], sep);
      assert s == head + [sep] + tail;
      assert IndexOf(s, sep) == |head| by {
        assert s[|head|] == sep;
        assert forall j :: 0 <= j < |head| ==> s[j] == head[j];
      }
      assert s[..|head|] == head;
      assert s[|head| + 1..] == tail;
      SplitJoin(parts[1..], sep);
    }
  }

  /** `s.split(c, 1)[1]`: the text after the first `c`; the caller has checked that `c` occurs. */
  function AfterFirst(s: string, c: char): (r: string)
    requires c in s
    ensures |r| < |s| && r == s[|s| - |r|..] && s[|s| - |r| - 1] == c
    ensures c !in s[..|s| - |r| - 1]
  {
    s[IndexOf(s, c) + 1..]
  }

  /** `c.upper()` for ASCII letters; every other character is left as it is. */
  function UpperChar(c: char): char {
    if 'a' <= c <= 'z' then (c as int - 32) as char else c
  }

  /** `s.upper()` (ASCII case mapping). */
  function Upper(s: string): (r: string)
    ensures |r| == |s|
    ensures forall i :: 0 <= i < |s| ==> r[i] == UpperChar(s[i])
  {
    seq(|s|, i requires 0 <= i < |s| => UpperChar(s[i]))
  }

  /** Joined non-empty pieces start with the first piece's first character and end with the last piece's last one. */
  lemma {:induction false} JoinEnds(parts: seq<string>, sep: char)
    requires |parts| >= 1 && forall k :: 0 <= k < |parts| ==> parts[k] != []
    ensures var s := Join(parts, sep);
      |s| > 0 && s[0] == parts[0][0] && s[|s| - 1] == parts[|parts| - 1][|parts[|parts| - 1]| - 1]
  {
    if |parts| > 1 {
      JoinEnds(parts[1..], sep);
    }
  }

  /** One space in front of a non-empty trimmed string is all `strip()` removes. */
  lemma StripPadded(s: string)
    requires s != [] && Trimmed(s)
    ensures Strip(" " + s) == s
  {
    assert (" " + s)[1..] == s;
    assert TrimStart(s, IsSpace) == s;
    assert TrimStart(" " + s, IsSpace) == s;
  }

  /** A character that cannot start `p`, put in front of a string free of `p`, keeps it free of `p`. */
  lemma NoOccurrenceCons(c: char, s: string, p: string)
    requires p != [] && c != p[0] && NoOccurrence(s, p)
    ensures NoOccurrence([c] + s, p)
  {
    forall i: nat
      ensures !OccursAt([c] + s, p, i)
    {
      if i > 0 {
        assert !OccursAt(s, p, i - 1);
        if i + |p| <= |[c] + s| {
          assert ([c] + s)[i..i + |p|] == s[i - 1..i - 1 + |p|];
        }
      }
    }
  }

  /** `k + " " + q` starts with the keyword `k`. */
  lemma KeywordLineStarts(k: string, q: string)
    ensures StartsWith(k + " " + q, k)
  {
    assert (k + " " + q)[..|k|] == k;
  }

  /** A keyword line whose keyword and text have no whitespace at the outer ends is left alone by `strip()`. */
  lemma KeywordLineTrimmed(k: string, q: string)
    requires k != [] && !IsSpace(k[0]) && q != [] && Trimmed(q)
    ensures Strip(k + " " + q) == k + " " + q
  {
    var line := k + " " + q;
    assert line[0] == k[0];
    assert line[|line| - 1] == q[|q| - 1];
    StripTrimmed(line);
  }

  /** Removing the keyword from a keyword line and stripping gives back the text, when the text never contains the keyword. */
  lemma KeywordLineText(k: string, q: string)
    requires k != [] && k[0] != ' ' && q != [] && Trimmed(q) && NoOccurrence(q, k)
    ensures Strip(RemoveAll(k + " " + q, k)) == q
  {
    NoOccurrenceCons(' ', q, k);
    assert " " + q == [' '] + q;
    assert k + " " + q == k + (" " + q);
    RemoveAllPrefix(k, " " + q);
    StripPadded(q);
  }
}
