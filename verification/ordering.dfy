/**
 The order in which the summary table is displayed: strings compared
 lexicographically by code point, which is how Python compares `str` values
 and therefore how `sort_values` orders the substation-name column.
 */
module Ordering {

  /** `a` sorts strictly before `b`. */
  predicate Less(a: string, b: string)
    decreases |a|
  {
    if |a| == 0 then |b| > 0
    else if |b| == 0 then false
    else if a[0] != b[0] then a[0] < b[0]
    else Less(a[1..], b[1..])
  }

  lemma {:induction false} LessIrreflexive(a: string)
    ensures !Less(a, a)
  {
    if |a| > 0 {
      LessIrreflexive(a[1..]);
    }
  }

  lemma {:induction false} LessTransitive(a: string, b: string, c: string)
    requires Less(a, b) && Less(b, c)
    ensures Less(a, c)
  {
    if |a| > 0 && |b| > 0 && |c| > 0 && a[0] == b[0] && b[0] == c[0] {
      LessTransitive(a[1..], b[1..], c[1..]);
    }
  }

  /** Any two different strings are ordered one way or the other. */
  lemma {:induction false} LessConnected(a: string, b: string)
    requires a != b
    ensures Less(a, b) || Less(b, a)
  {
    if |a| > 0 && |b| > 0 && a[0] == b[0] {
      assert a == [a[0]] + a[1..];
      assert b == [b[0]] + b[1..];
      LessConnected(a[1..], b[1..]);
    }
  }

  /** Every element sorts strictly before every later one. */
  predicate StrictlySorted(s: seq<string>) {
    forall i, j :: 0 <= i < j < |s| ==> Less(s[i], s[j])
  }

  /** No string occurs twice. */
  predicate Distinct(s: seq<string>) {
    forall i, j :: 0 <= i < |s| && 0 <= j < |s| && i != j ==> s[i] != s[j]
  }

  lemma SortedIsDistinct(s: seq<string>)
    requires StrictlySorted(s)
    ensures Distinct(s)
  {
    forall i, j | 0 <= i < |s| && 0 <= j < |s| && i != j
      ensures s[i] != s[j]
    {
      if i < j {
        LessIrreflexive(s[i]);
      } else {
        LessIrreflexive(s[j]);
      }
    }
  }

  lemma PrependSmaller(k: string, s: seq<string>)
    requires StrictlySorted(s)
    requires |s| > 0 && Less(k, s[0])
    ensures StrictlySorted([k] + s)
  {
    var r := [k] + s;
    forall i, j | 0 <= i < j < |r|
      ensures Less(r[i], r[j])
    {
      if i == 0 && j > 1 {
        LessTransitive(k, s[0], s[j - 1]);
      }
    }
  }

  lemma PrependBelowAll(k: string, s: seq<string>)
    requires StrictlySorted(s)
    requires forall x :: x in s ==> Less(k, x)
    ensures StrictlySorted([k] + s)
  {
    var r := [k] + s;
    forall i, j | 0 <= i < j < |r|
      ensures Less(r[i], r[j])
    {
      if i == 0 {
        assert r[j] == s[j - 1];
      }
    }
  }

  /** Adds `k` to a strictly sorted sequence, keeping it strictly sorted; a key already present is not added again. */
  function Insert(k: string, s: seq<string>): (r: seq<string>)
    requires StrictlySorted(s)
    ensures StrictlySorted(r)
    ensures forall x :: x in r <==> x == k || x in s
  {
    if |s| == 0 then [k]
    else if k == s[0] then s
    else if Less(k, s[0]) then
      PrependSmaller(k, s);
      [k] + s
    else
      LessConnected(k, s[0]);
      var tail := Insert(k, s[1..]);
      assert forall x :: x in tail ==> Less(s[0], x);
      PrependBelowAll(s[0], tail);
      [s[0]] + tail
  }
}
