/**
 `groupby(key)[amount].sum()` over a table of (key, amount) entries: one
 total per distinct key, listed in ascending key order. `SumFor` is the
 reference meaning of a group total: the sum of the amounts of all entries
 carrying that key.
 */
module Grouping {
  import opened Ordering

  datatype Entry = Entry(key: string, amount: real)

  /** The sum of all amounts. */
  function Total(es: seq<Entry>): real {
    if |es| == 0 then 0.0 else es[0].amount + Total(es[1..])
  }

  /** The sum of the amounts of the entries whose key is `k`. */
  function SumFor(es: seq<Entry>, k: string): real {
    if |es| == 0 then 0.0
    else (if es[0].key == k then es[0].amount else 0.0) + SumFor(es[1..], k)
  }

  function KeySet(es: seq<Entry>): set<string> {
    set e | e in es :: e.key
  }

  /** Appending one entry adds its amount to its own key's total and to no other. */
  lemma {:induction false} SumForAppend(es: seq<Entry>, e: Entry, k: string)
    ensures SumFor(es + [e], k) == SumFor(es, k) + (if e.key == k then e.amount else 0.0)
  {
    if |es| > 0 {
      assert (es + [e])[1..] == es[1..] + [e];
      SumForAppend(es[1..], e, k);
    }
  }

  /** The group-by: exactly one total per distinct key, equal to the sum of the
      amounts of all entries with that key; every other key sums to zero. */
  function GroupSum(es: seq<Entry>): (m: map<string, real>)
    ensures m.Keys == KeySet(es)
    ensures forall k :: k in m ==> m[k] == SumFor(es, k)
    ensures forall k :: k !in m ==> SumFor(es, k) == 0.0
  {
    if |es| == 0 then map[]
    else
      var rest := GroupSum(es[1..]);
      var e := es[0];
      assert KeySet(es) == {e.key} + KeySet(es[1..]) by {
        assert forall x :: x in es <==> x == e || x in es[1..];
      }
      rest[e.key := e.amount + (if e.key in rest then rest[e.key] else 0.0)]
  }

  /** The distinct keys, in ascending order, as `groupby` lists its groups. */
  function SortedKeys(es: seq<Entry>): (r: seq<string>)
    ensures StrictlySorted(r)
    ensures forall k :: k in r <==> k in KeySet(es)
  {
    if |es| == 0 then []
    else
      assert forall x :: x in es <==> x == es[0] || x in es[1..];
      Insert(es[0].key, SortedKeys(es[1..]))
  }

  /** The sum, over the keys `ks`, of each key's group total. */
  function SumOver(ks: seq<string>, es: seq<Entry>): real {
    if |ks| == 0 then 0.0 else SumFor(es, ks[0]) + SumOver(ks[1..], es)
  }

  /** The sum of the values a table holds for the keys `ks`. */
  function TotalOver(ks: seq<string>, m: map<string, real>): real
    requires forall k :: k in ks ==> k in m
  {
    if |ks| == 0 then 0.0 else m[ks[0]] + TotalOver(ks[1..], m)
  }

  lemma {:induction false} SumOverEmpty(ks: seq<string>)
    ensures SumOver(ks, []) == 0.0
  {
    if |ks| > 0 {
      SumOverEmpty(ks[1..]);
    }
  }

  lemma {:induction false} SumOverCons(ks: seq<string>, e: Entry, es: seq<Entry>)
    requires Distinct(ks)
    ensures SumOver(ks, [e] + es) == SumOver(ks, es) + (if e.key in ks then e.amount else 0.0)
  {
    if |ks| > 0 {
      assert ([e] + es)[1..] == es;
      assert Distinct(ks[1..]);
      SumOverCons(ks[1..], e, es);
      if e.key == ks[0] {
        assert e.key !in ks[1..];
      } else {
        assert e.key in ks <==> e.key in ks[1..];
      }
    }
  }

  /** Summing the group totals over a duplicate-free list of keys that covers
      every key gives back the grand total. */
  lemma {:induction false} SumOverCovering(ks: seq<string>, es: seq<Entry>)
    requires Distinct(ks)
    requires forall k :: k in KeySet(es) ==> k in ks
    ensures SumOver(ks, es) == Total(es)
  {
    if |es| == 0 {
      SumOverEmpty(ks);
    } else {
      assert es == [es[0]] + es[1..];
      assert forall x :: x in es[1..] ==> x in es;
      SumOverCovering(ks, es[1..]);
      SumOverCons(ks, es[0], es[1..]);
      assert es[0].key in KeySet(es);
    }
  }

  lemma {:induction false} TotalOverGroupSum(ks: seq<string>, es: seq<Entry>)
    requires forall k :: k in ks ==> k in GroupSum(es)
    ensures TotalOver(ks, GroupSum(es)) == SumOver(ks, es)
  {
    if |ks| > 0 {
      TotalOverGroupSum(ks[1..], es);
    }
  }

  /** Conservation: the group totals add up to the sum of all amounts. */
  lemma GroupSumConserves(es: seq<Entry>)
    ensures TotalOver(SortedKeys(es), GroupSum(es)) == Total(es)
  {
    var ks := SortedKeys(es);
    SortedIsDistinct(ks);
    TotalOverGroupSum(ks, es);
    SumOverCovering(ks, es);
  }
}
