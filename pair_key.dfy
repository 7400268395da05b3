/**
 * The pair key: the namespace under which a couple's questions, trivia, date
 * ideas and memories are stored. The two user ids are sorted with Python's
 * string order and joined with an underscore.
 */
module PairKey {
  import opened Common
  import opened Text

  /** Python's `a < b` on strings: code point by code point, a proper prefix first. */
  predicate Below(a: string, b: string)
    decreases |a|
  {
    if a == [] then b != []
    else if b == [] then false
    else if a[0] != b[0] then a[0] < b[0]
    else Below(a[1..], b[1..])
  }

  lemma {:induction false} BelowAsymmetric(a: string, b: string)
    ensures !(Below(a, b) && Below(b, a))
    decreases |a|
  {
    if a != [] && b != [] && a[0] == b[0] {
      BelowAsymmetric(a[1..], b[1..]);
    }
  }

  lemma {:induction false} BelowTotal(a: string, b: string)
    requires a != b
    ensures Below(a, b) || Below(b, a)
    decreases |a|
  {
    if a != [] && b != [] && a[0] == b[0] {
      assert a == [a[0]] + a[1..] && b == [b[0]] + b[1..];
      BelowTotal(a[1..], b[1..]);
    }
  }

  /** `sorted([a, b])`: the sort is stable, so the two are swapped only when `b < a`. */
  function Sorted2(a: UserId, b: UserId): (UserId, UserId) {
    if Below(b, a) then (b, a) else (a, b)
  }

  /** `f"{pair_ids[0]}_{pair_ids[1]}"` with `pair_ids = sorted([a, b])` (server.py:470-471 and its six copies). */
  function Key(a: UserId, b: UserId): (k: string)
    ensures k == a + "_" + b || k == b + "_" + a
    ensures |k| == |a| + |b| + 1
  {
    var ids := Sorted2(a, b);
    ids.0 + "_" + ids.1
  }

  /** The key does not depend on which of the two users asks. */
  lemma KeySymmetric(a: UserId, b: UserId)
    ensures Key(a, b) == Key(b, a)
  {
    if a != b {
      BelowTotal(a, b);
      BelowAsymmetric(a, b);
    }
  }

  /** The smaller id (in Python's order) always comes first. */
  lemma KeyOrdered(a: UserId, b: UserId)
    ensures var ids := Sorted2(a, b);
      Key(a, b) == ids.0 + "_" + ids.1 && !Below(ids.1, ids.0) && {ids.0, ids.1} == {a, b}
  {
    if Below(b, a) {
      BelowAsymmetric(a, b);
    }
  }

  /** Reads the two ids back out of a key, cutting at the first underscore. */
  function SplitKey(k: string): (r: Option<(UserId, UserId)>)
    ensures r.Some? <==> '_' in k
    ensures r.Some? ==> k == r.value.0 + "_" + r.value.1 && '_' !in r.value.0
  {
    var i := IndexOf(k, '_');
    if i == |k| then None
    else
      assert k == k[..i] + "_" + k[i + 1..];
      Some((k[..i], k[i + 1..]))
  }

  /** For ids without underscores (uuid4 strings) the key can be read back into the sorted pair. */
  lemma SplitKeyOfKey(a: UserId, b: UserId)
    requires '_' !in a && '_' !in b
    ensures SplitKey(Key(a, b)) == Some(Sorted2(a, b))
  {
    var ids := Sorted2(a, b);
    var k := Key(a, b);
    assert k == ids.0 + "_" + ids.1;
    assert k[|ids.0|] == '_';
    assert forall j :: 0 <= j < |ids.0| ==> k[j] == ids.0[j];
    assert IndexOf(k, '_') == |ids.0|;
    assert k[..|ids.0|] == ids.0;
    assert k[|ids.0| + 1..] == ids.1;
  }

  /** For ids without underscores, two keys are equal exactly when they name the same two users. */
  lemma KeyIdentifiesPair(a: UserId, b: UserId, c: UserId, d: UserId)
    requires '_' !in a && '_' !in b && '_' !in c && '_' !in d
    ensures Key(a, b) == Key(c, d) <==> {a, b} == {c, d}
  {
    KeyOrdered(a, b);
    KeyOrdered(c, d);
    if Key(a, b) == Key(c, d) {
      SplitKeyOfKey(a, b);
      SplitKeyOfKey(c, d);
    }
    if {a, b} == {c, d} {
      assert a in {c, d} && b in {c, d} && c in {a, b} && d in {a, b};
      if a == c {
        assert b == d;
      } else {
        assert a == d && b == c;
        KeySymmetric(a, b);
      }
    }
  }
}
