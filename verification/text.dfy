/**
 Key normalisation for substation names: Python's `str.upper()` followed by
 `str.strip()`, and the "S/E " marker that the generation table's keys carry.
 Upper-casing is modelled over ASCII letters and stripping over the ASCII
 characters Python counts as whitespace.
 */
module Text {

  /** The marker every generation-side substation key starts with. */
  const Prefix: string := "S/E "

  predicate IsLower(c: char) {
    'a' <= c <= 'z'
  }

  /** Python's `str.isspace()` restricted to ASCII: space, tab, line feed,
      vertical tab, form feed, carriage return and the four separators 0x1C-0x1F. */
  predicate IsSpace(c: char) {
    c == ' ' || '\t' <= c <= '\r' || 0x1C <= c as int <= 0x1F
  }

  predicate NoLower(s: string) {
    forall i :: 0 <= i < |s| ==> !IsLower(s[i])
  }

  predicate AllSpace(s: string) {
    forall i :: 0 <= i < |s| ==> IsSpace(s[i])
  }

  /** Neither starts nor ends with whitespace. */
  predicate NoEdgeSpace(s: string) {
    |s| == 0 || (!IsSpace(s[0]) && !IsSpace(s[|s| - 1]))
  }

  predicate StartsWith(s: string, p: string) {
    |p| <= |s| && s[..|p|] == p
  }

  function UpperChar(c: char): char {
    if IsLower(c) then (c as int - 32) as char else c
  }

  /** `str.upper()`: same length; every lower-case letter becomes its capital
      and every other character is kept, so no lower-case letter is left. */
  function Upper(s: string): (r: string)
    ensures |r| == |s|
    ensures NoLower(r)
    ensures forall i :: 0 <= i < |s| && !IsLower(s[i]) ==> r[i] == s[i]
    ensures forall i :: 0 <= i < |s| && IsLower(s[i]) ==> 'A' <= r[i] <= 'Z' && r[i] as int == s[i] as int - 32
  {
    seq(|s|, i requires 0 <= i < |s| => UpperChar(s[i]))
  }

  /** Text that is already upper case is left alone; with the contract of
      `Upper` this makes upper-casing idempotent. */
  lemma UpperFixesNoLower(s: string)
    requires NoLower(s)
    ensures Upper(s) == s
  {
  }

  /** `Upper(s) == t` whenever `t` is `s` with each lower-case letter replaced by its
      capital and every other character kept. */
  lemma UpperMatches(s: string, t: string)
    requires |s| == |t|
    requires forall i :: 0 <= i < |s| ==>
      if IsLower(s[i]) then t[i] as int == s[i] as int - 32 else t[i] == s[i]
    ensures Upper(s) == t
  {
    var u := Upper(s);
    forall i | 0 <= i < |s|
      ensures u[i] == t[i]
    {
      if IsLower(s[i]) {
        assert u[i] as int == t[i] as int;
      }
    }
  }

  lemma UpperIdempotent(s: string)
    ensures Upper(Upper(s)) == Upper(s)
  {
    UpperFixesNoLower(Upper(s));
  }

  /** The index of the first non-whitespace character of `s` at or after `i`,
      or `|s|` when there is none. */
  function TextStart(s: string, i: nat): (j: nat)
    requires i <= |s|
    ensures i <= j <= |s|
    ensures forall k :: i <= k < j ==> IsSpace(s[k])
    ensures j == |s| || !IsSpace(s[j])
    decreases |s| - i
  {
    if i == |s| || !IsSpace(s[i]) then i else TextStart(s, i + 1)
  }

  /** The index just past the last non-whitespace character of `s[..j]`, or 0 when there is none. */
  function TextEnd(s: string, j: nat): (k: nat)
    requires j <= |s|
    ensures k <= j
    ensures forall m :: k <= m < j ==> IsSpace(s[m])
    ensures k == 0 || !IsSpace(s[k - 1])
  {
    if j == 0 || !IsSpace(s[j - 1]) then j else TextEnd(s, j - 1)
  }

  /** The contract of `TextStart` determines it. */
  lemma TextStartUnique(s: string, i: nat, j: nat)
    requires i <= j <= |s|
    requires forall k :: i <= k < j ==> IsSpace(s[k])
    requires j == |s| || !IsSpace(s[j])
    ensures TextStart(s, i) == j
  {
  }

  /** The contract of `TextEnd` determines it. */
  lemma TextEndUnique(s: string, j: nat, k: nat)
    requires k <= j <= |s|
    requires forall m :: k <= m < j ==> IsSpace(s[m])
    requires k == 0 || !IsSpace(s[k - 1])
    ensures TextEnd(s, j) == k
  {
  }

  /** `str.lstrip()`: drops the leading whitespace and nothing else. */
  function TrimStart(s: string): (r: string)
    ensures |r| <= |s| && r == s[|s| - |r|..]
    ensures AllSpace(s[..|s| - |r|])
    ensures |r| == 0 || !IsSpace(r[0])
  {
    s[TextStart(s, 0)..]
  }

  /** `str.rstrip()`: drops the trailing whitespace and nothing else. */
  function TrimEnd(s: string): (r: string)
    ensures |r| <= |s| && r == s[..|r|]
    ensures AllSpace(s[|r|..])
    ensures |r| == 0 || !IsSpace(r[|r| - 1])
  {
    s[..TextEnd(s, |s|)]
  }

  /** `str.strip()`: the result has no whitespace at either end, and it is
      cut out of `s` (so it brings no new lower-case letter with it). */
  function Strip(s: string): (r: string)
    ensures NoEdgeSpace(r)
    ensures |r| <= |s|
    ensures NoLower(s) ==> NoLower(r)
  {
    TrimEnd(TrimStart(s))
  }

  /** Stripping recovers exactly the text between any whitespace padding:
      with `StripSplit` and `Strip`'s own contract this pins `Strip` down completely. */
  lemma StripPadding(p: string, t: string, q: string)
    requires AllSpace(p) && AllSpace(q) && NoEdgeSpace(t)
    ensures Strip(p + t + q) == t
  {
    var s := p + t + q;
    if |t| == 0 {
      TextStartUnique(s, 0, |s|);
    } else {
      TextStartUnique(s, 0, |p|);
      var u := TrimStart(s);
      assert u == t + q;
      TextEndUnique(u, |u|, |t|);
    }
  }

  /** Stripping only removes whitespace: the input is the result padded by
      whitespace on both sides. */
  lemma StripSplit(s: string) returns (p: string, q: string)
    ensures AllSpace(p) && AllSpace(q)
    ensures s == p + Strip(s) + q
  {
    var u := TrimStart(s);
    var r := TrimEnd(u);
    p := s[..|s| - |u|];
    q := u[|r|..];
    assert u == r + q;
    assert s == p + u;
  }

  /** Text without edge whitespace is a fixed point of stripping. */
  lemma StripFixesNoEdgeSpace(t: string)
    requires NoEdgeSpace(t)
    ensures Strip(t) == t
  {
    assert [] + t + [] == t;
    StripPadding([], t, []);
  }

  lemma StripIdempotent(s: string)
    ensures Strip(Strip(s)) == Strip(s)
  {
    StripFixesNoEdgeSpace(Strip(s));
  }

  /** The substation-name normalisation of both tables: upper-case, then strip. */
  function Normalize(s: string): (r: string)
    ensures NoLower(r) && NoEdgeSpace(r)
  {
    Strip(Upper(s))
  }

  /** The normalised names are exactly the upper-case texts without edge
      whitespace: those are left unchanged. */
  lemma NormalizeFixesClean(s: string)
    requires NoLower(s) && NoEdgeSpace(s)
    ensures Normalize(s) == s
  {
    UpperFixesNoLower(s);
    StripFixesNoEdgeSpace(s);
  }

  lemma NormalizeIdempotent(s: string)
    ensures Normalize(Normalize(s)) == Normalize(s)
  {
    NormalizeFixesClean(Normalize(s));
  }

  /** The generation-side key: `s` itself when it already starts with the marker,
      otherwise the marker followed by `s`. */
  function WithPrefix(s: string): (r: string)
    ensures StartsWith(r, Prefix)
    ensures |r| == if StartsWith(s, Prefix) then |s| else |Prefix| + |s|
    ensures r[|r| - |s|..] == s
    ensures r == s <==> StartsWith(s, Prefix)
  {
    if StartsWith(s, Prefix) then s else Prefix + s
  }

  lemma WithPrefixIdempotent(s: string)
    ensures WithPrefix(WithPrefix(s)) == WithPrefix(s)
  {
  }
}
