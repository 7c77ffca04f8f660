/**
 The capacity reconciliation of `app.py`: transformer capacity summed per
 normalised substation name, generation power in a discounting status summed
 per "S/E "-prefixed substation key, a left join of the two, and
 available = capacity - discounted, listed by substation name.
 */
module Reconcile {
  import opened Wrappers
  import opened Ordering
  import opened Text
  import opened Grouping

  /** One row of the transformer table. A name cell is `None` when pandas reads it as
      missing (empty, or a default NA marker such as "NA" or "NULL"); a capacity
      cell is `None` when it is missing or cannot be parsed as a number. */
  datatype TransformerRow = TransformerRow(substation: Option<string>, capacity: Option<real>)

  /** One row of the distributed-generation table. */
  datatype GenerationRow = GenerationRow(substation: Option<string>, power: Option<real>, status: Option<string>)

  /** One row of the displayed summary. */
  datatype SummaryRow = SummaryRow(substation: string, capacity: real, discounted: real, available: real)

  /** The statuses whose power is subtracted from capacity. */
  const DiscountingStatuses: set<string> := {"CONECTADO", "ICC", "SCR"}

  /** `astype(str)` as pandas 2.x does it: a missing cell becomes the text "nan". */
  function CellText(cell: Option<string>): string {
    cell.GetOr("nan")
  }

  /** `to_numeric(errors='coerce').fillna(0)`: an unparsable cell is worth 0. */
  function Coerce(cell: Option<real>): real {
    cell.GetOr(0.0)
  }

  /** Transformer-side key: the normalised name, without any prefix. */
  function TransformerKey(t: TransformerRow): string {
    Normalize(CellText(t.substation))
  }

  /** Generation-side key: the normalised name with the "S/E " marker. */
  function GenerationKey(g: GenerationRow): string {
    WithPrefix(Normalize(CellText(g.substation)))
  }

  /** The status is upper-cased but not stripped before the membership test. */
  predicate Discounts(g: GenerationRow) {
    Upper(CellText(g.status)) in DiscountingStatuses
  }

  /** The (name, capacity) pair one transformer row contributes. */
  function CapacityEntry(t: TransformerRow): Entry {
    Entry(TransformerKey(t), Coerce(t.capacity))
  }

  /** The (name, capacity) column pair the transformer group-by reads: one entry
      per row, and its keys are exactly the normalised names of the rows. */
  function CapacityEntries(ts: seq<TransformerRow>): (es: seq<Entry>)
    ensures |es| == |ts|
    ensures forall k :: k in KeySet(es) <==> exists t :: t in ts && TransformerKey(t) == k
  {
    EntryKeys(ts);
    RowEntries(ts)
  }

  /** The entries of the rows `ts`, before their key set is known. */
  function RowEntries(ts: seq<TransformerRow>): seq<Entry>
  {
    seq(|ts|, i requires 0 <= i < |ts| => CapacityEntry(ts[i]))
  }

  lemma EntryKeys(ts: seq<TransformerRow>)
    ensures forall k :: k in KeySet(RowEntries(ts)) <==> exists t :: t in ts && TransformerKey(t) == k
  {
    forall k | k in KeySet(RowEntries(ts)) {
      EntryKeyHasRow(ts, k);
    }
    forall t | t in ts {
      RowHasEntryKey(ts, t);
    }
  }

  lemma EntryKeyHasRow(ts: seq<TransformerRow>, k: string)
    requires k in KeySet(RowEntries(ts))
    ensures exists t :: t in ts && TransformerKey(t) == k
  {
    var es := RowEntries(ts);
    var e :| e in es && e.key == k;
    var i :| 0 <= i < |es| && es[i] == e;
    assert ts[i] in ts && CapacityEntry(ts[i]).key == k;
  }

  lemma RowHasEntryKey(ts: seq<TransformerRow>, t: TransformerRow)
    requires t in ts
    ensures TransformerKey(t) in KeySet(RowEntries(ts))
  {
    var es := RowEntries(ts);
    var i :| 0 <= i < |ts| && ts[i] == t;
    assert es[i] in es && es[i].key == TransformerKey(t);
  }

  /** The (key, power) column pair of the generation rows that survive the status filter. */
  function DiscountEntries(gs: seq<GenerationRow>): (es: seq<Entry>)
    ensures |es| <= |gs|
    ensures forall e :: e in es ==> StartsWith(e.key, Prefix)
  {
    if |gs| == 0 then []
    else
      var g := gs[0];
      var rest := DiscountEntries(gs[1..]);
      if Discounts(g) then [Entry(GenerationKey(g), Coerce(g.power))] + rest else rest
  }

  /** Every discount entry comes from a generation record whose status discounts. */
  lemma {:induction false} DiscountEntryOrigin(gs: seq<GenerationRow>, e: Entry)
    requires e in DiscountEntries(gs)
    ensures exists g :: g in gs && Discounts(g) && e == Entry(GenerationKey(g), Coerce(g.power))
  {
    if |gs| > 0 {
      var g := gs[0];
      if Discounts(g) && e == Entry(GenerationKey(g), Coerce(g.power)) {
        assert g in gs;
      } else {
        assert e in DiscountEntries(gs[1..]);
        DiscountEntryOrigin(gs[1..], e);
        var h :| h in gs[1..] && Discounts(h) && e == Entry(GenerationKey(h), Coerce(h.power));
        assert h in gs;
      }
    }
  }

  /** The capacity entries of appended rows are the appended entries. */
  lemma CapacityEntriesAppend(ts: seq<TransformerRow>, t: TransformerRow)
    ensures CapacityEntries(ts + [t]) == CapacityEntries(ts) + [Entry(TransformerKey(t), Coerce(t.capacity))]
  {
    var l := CapacityEntries(ts + [t]);
    var r := CapacityEntries(ts) + [CapacityEntry(t)];
    forall i | 0 <= i < |l|
      ensures l[i] == r[i]
    {
      if i < |ts| {
        assert (ts + [t])[i] == ts[i];
      } else {
        assert (ts + [t])[i] == t;
      }
    }
  }

  /** A record reaches the discount entries exactly when its status discounts. */
  lemma {:induction false} DiscountEntriesAppend(gs: seq<GenerationRow>, g: GenerationRow)
    ensures DiscountEntries(gs + [g])
         == DiscountEntries(gs) + (if Discounts(g) then [Entry(GenerationKey(g), Coerce(g.power))] else [])
  {
    if |gs| > 0 {
      assert (gs + [g])[1..] == gs[1..] + [g];
      DiscountEntriesAppend(gs[1..], g);
    }
  }

  /** The merge: one row per name, discount 0 where the discount table has no entry. */
  function LeftJoin(names: seq<string>, capacity: map<string, real>, discounted: map<string, real>): seq<SummaryRow>
    requires forall k :: k in names ==> k in capacity
  {
    seq(|names|, i requires 0 <= i < |names| =>
      var k := names[i];
      var d := if k in discounted then discounted[k] else 0.0;
      SummaryRow(k, capacity[k], d, capacity[k] - d))
  }

  /** Joining two group-by results reads, for every name, the two group totals. */
  lemma JoinOfGroupSums(names: seq<string>, capEntries: seq<Entry>, discEntries: seq<Entry>)
    requires forall k :: k in names ==> k in KeySet(capEntries)
    ensures forall i :: 0 <= i < |names| ==>
      var row := LeftJoin(names, GroupSum(capEntries), GroupSum(discEntries))[i];
      row.capacity == SumFor(capEntries, names[i]) && row.discounted == SumFor(discEntries, names[i])
  {
    var cap := GroupSum(capEntries);
    var disc := GroupSum(discEntries);
    var rows := LeftJoin(names, cap, disc);
    forall i | 0 <= i < |names|
      ensures rows[i].capacity == SumFor(capEntries, names[i]) && rows[i].discounted == SumFor(discEntries, names[i])
    {
      var k := names[i];
      if k !in disc {
        assert SumFor(discEntries, k) == 0.0;
      }
    }
  }

  predicate OrderedByName(rows: seq<SummaryRow>) {
    forall i, j :: 0 <= i < j < |rows| ==> Less(rows[i].substation, rows[j].substation)
  }

  /** The substation column. */
  function Names(rows: seq<SummaryRow>): seq<string>
  {
    seq(|rows|, i requires 0 <= i < |rows| => rows[i].substation)
  }

  /** The merge of the two group-by results: ordered by name, one row per capacity key
      and no other, each holding the two group totals of its key and their difference. */
  function Reconciled(capEntries: seq<Entry>, discEntries: seq<Entry>): (rows: seq<SummaryRow>)
    ensures OrderedByName(rows)
    ensures forall k :: k in Names(rows) <==> k in KeySet(capEntries)
    ensures forall i :: 0 <= i < |rows| ==>
      && rows[i].capacity == SumFor(capEntries, rows[i].substation)
      && rows[i].discounted == SumFor(discEntries, rows[i].substation)
      && rows[i].available == rows[i].capacity - rows[i].discounted
  {
    var names := SortedKeys(capEntries);
    JoinOfGroupSums(names, capEntries, discEntries);
    var rows := LeftJoin(names, GroupSum(capEntries), GroupSum(discEntries));
    assert Names(rows) == names;
    rows
  }

  /** The summary table, as displayed: ordered by substation name, one row per
      distinct normalised transformer-side name and no other, holding the sum of
      that name's capacities, the sum of the discounting power filed under the
      same key (0 when there is none), and their unclamped difference. */
  function Summary(ts: seq<TransformerRow>, gs: seq<GenerationRow>): (rows: seq<SummaryRow>)
    ensures OrderedByName(rows)
    ensures forall k :: k in Names(rows) <==> exists t :: t in ts && TransformerKey(t) == k
    ensures forall i :: 0 <= i < |rows| ==>
      && rows[i].capacity == SumFor(CapacityEntries(ts), rows[i].substation)
      && rows[i].discounted == SumFor(DiscountEntries(gs), rows[i].substation)
      && rows[i].available == rows[i].capacity - rows[i].discounted
  {
    Reconciled(CapacityEntries(ts), DiscountEntries(gs))
  }
}
