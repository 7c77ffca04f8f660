/**
 Properties of the reconciliation as a whole: what each input row contributes,
 which rows contribute nothing, conservation of the summed columns, and the
 consequences of prefixing only the generation side.
 */
module ReconcileProperties {
  import opened Wrappers
  import opened Ordering
  import opened Text
  import opened Grouping
  import opened Reconcile

  /** A transformer row adds its coerced capacity to its own substation's total and to no other. */
  lemma CapacityContribution(ts: seq<TransformerRow>, t: TransformerRow, k: string)
    ensures SumFor(CapacityEntries(ts + [t]), k)
         == SumFor(CapacityEntries(ts), k) + (if TransformerKey(t) == k then Coerce(t.capacity) else 0.0)
  {
    CapacityEntriesAppend(ts, t);
    SumForAppend(CapacityEntries(ts), Entry(TransformerKey(t), Coerce(t.capacity)), k);
  }

  /** A capacity cell that cannot be parsed contributes exactly nothing. */
  lemma UnparsableCapacityContributesNothing(ts: seq<TransformerRow>, t: TransformerRow, k: string)
    requires t.capacity.None?
    ensures SumFor(CapacityEntries(ts + [t]), k) == SumFor(CapacityEntries(ts), k)
  {
    CapacityContribution(ts, t, k);
  }

  /** A parsable capacity cell contributes its value to its substation. */
  lemma ParsedCapacityContributesValue(ts: seq<TransformerRow>, t: TransformerRow, v: real)
    requires t.capacity == Some(v)
    ensures SumFor(CapacityEntries(ts + [t]), TransformerKey(t))
         == SumFor(CapacityEntries(ts), TransformerKey(t)) + v
  {
    CapacityContribution(ts, t, TransformerKey(t));
  }

  /** A generation record adds its coerced power to the discount of its prefixed key
      exactly when its upper-cased status is one of the discounting statuses. */
  lemma DiscountContribution(gs: seq<GenerationRow>, g: GenerationRow, k: string)
    ensures SumFor(DiscountEntries(gs + [g]), k)
         == SumFor(DiscountEntries(gs), k) + (if Discounts(g) && GenerationKey(g) == k then Coerce(g.power) else 0.0)
  {
    var e := Entry(GenerationKey(g), Coerce(g.power));
    DiscountEntriesAppend(gs, g);
    if Discounts(g) {
      assert DiscountEntries(gs + [g]) == DiscountEntries(gs) + [e];
      SumForAppend(DiscountEntries(gs), e, k);
    } else {
      assert DiscountEntries(gs + [g]) == DiscountEntries(gs) + [];
      assert DiscountEntries(gs) + [] == DiscountEntries(gs);
    }
  }

  /** A power cell that cannot be parsed contributes exactly nothing. */
  lemma UnparsablePowerContributesNothing(gs: seq<GenerationRow>, g: GenerationRow, k: string)
    requires g.power.None?
    ensures SumFor(DiscountEntries(gs + [g]), k) == SumFor(DiscountEntries(gs), k)
  {
    DiscountContribution(gs, g, k);
  }

  /** A record whose status does not discount contributes nothing to any key. */
  lemma NonDiscountingStatusIgnored(gs: seq<GenerationRow>, g: GenerationRow, k: string)
    requires !Discounts(g)
    ensures SumFor(DiscountEntries(gs + [g]), k) == SumFor(DiscountEntries(gs), k)
  {
    DiscountContribution(gs, g, k);
  }

  /** The status is compared without stripping: leading whitespace disqualifies it. */
  lemma PaddedStatusNotDiscounted(g: GenerationRow)
    requires g.status.Some? && |g.status.value| > 0 && IsSpace(g.status.value[0])
    ensures !Discounts(g)
  {
    var u := Upper(CellText(g.status));
    assert u[0] == g.status.value[0];
    assert u != "CONECTADO" && u != "ICC" && u != "SCR" by {
      assert !IsSpace('C') && !IsSpace('I') && !IsSpace('S');
    }
  }

  /** An empty status cell reads as "nan", which never discounts. */
  lemma MissingStatusNotDiscounted(g: GenerationRow)
    requires g.status.None?
    ensures !Discounts(g)
  {
    var u := Upper("nan");
    assert u[0] == 'N';
  }

  /** The status comparison ignores letter case: any spelling of a discounting status
      that differs from it only in the case of letters discounts. */
  lemma StatusIgnoresCase(g: GenerationRow, t: string)
    requires t in DiscountingStatuses
    requires g.status.Some? && |g.status.value| == |t|
    requires forall i :: 0 <= i < |t| ==> g.status.value[i] == t[i] || g.status.value[i] as int == t[i] as int + 32
    ensures Discounts(g)
  {
    var s := g.status.value;
    forall i | 0 <= i < |s|
      ensures if IsLower(s[i]) then t[i] as int == s[i] as int - 32 else t[i] == s[i]
    {
      assert !IsLower(t[i]);
    }
    UpperMatches(s, t);
  }

  /** The two summed columns of the summary. */
  datatype Column = CapacityColumn | DiscountColumn

  function Cell(row: SummaryRow, c: Column): real {
    match c
    case CapacityColumn => row.capacity
    case DiscountColumn => row.discounted
  }

  /** The sum of one column over all rows. */
  function ColumnSum(rows: seq<SummaryRow>, c: Column): real {
    if |rows| == 0 then 0.0 else Cell(rows[0], c) + ColumnSum(rows[1..], c)
  }

  /** A column holding each row's group total sums to the group totals over the row names. */
  lemma {:induction false} ColumnIsSumOver(rows: seq<SummaryRow>, es: seq<Entry>, c: Column)
    requires forall i :: 0 <= i < |rows| ==> Cell(rows[i], c) == SumFor(es, rows[i].substation)
    ensures ColumnSum(rows, c) == SumOver(Names(rows), es)
  {
    if |rows| > 0 {
      assert Names(rows[1..]) == Names(rows)[1..];
      ColumnIsSumOver(rows[1..], es, c);
    }
  }

  lemma SummaryNamesDistinct(rows: seq<SummaryRow>)
    requires OrderedByName(rows)
    ensures Distinct(Names(rows))
  {
    assert StrictlySorted(Names(rows));
    SortedIsDistinct(Names(rows));
  }

  /** Every transformer row's substation has a row in the summary. */
  lemma SummaryCoversSubstation(ts: seq<TransformerRow>, gs: seq<GenerationRow>, t: TransformerRow)
    requires t in ts
    ensures exists i :: 0 <= i < |Summary(ts, gs)| && Summary(ts, gs)[i].substation == TransformerKey(t)
  {
    var rows := Summary(ts, gs);
    assert TransformerKey(t) in Names(rows);
    var i :| 0 <= i < |rows| && Names(rows)[i] == TransformerKey(t);
    assert rows[i].substation == TransformerKey(t);
  }

  /** No substation occurs in two summary rows. */
  lemma SummaryNamesUnique(ts: seq<TransformerRow>, gs: seq<GenerationRow>)
    ensures var rows := Summary(ts, gs);
      forall i, j :: 0 <= i < j < |rows| ==> rows[i].substation != rows[j].substation
  {
    var rows := Summary(ts, gs);
    forall i, j | 0 <= i < j < |rows|
      ensures rows[i].substation != rows[j].substation
    {
      LessIrreflexive(rows[i].substation);
    }
  }

  /** The capacity column of the summary adds up to the total coerced capacity of all transformer rows. */
  lemma SummaryConservesCapacity(ts: seq<TransformerRow>, gs: seq<GenerationRow>)
    ensures ColumnSum(Summary(ts, gs), CapacityColumn) == Total(CapacityEntries(ts))
  {
    var rows := Summary(ts, gs);
    var es := CapacityEntries(ts);
    ColumnIsSumOver(rows, es, CapacityColumn);
    SummaryNamesDistinct(rows);
    SumOverCovering(Names(rows), es);
  }

  /** When every discounting record's key names a transformer-side substation, the
      discount column adds up to the total power of the discounting records. */
  lemma SummaryConservesDiscount(ts: seq<TransformerRow>, gs: seq<GenerationRow>)
    requires forall g :: g in gs && Discounts(g) ==> exists t :: t in ts && TransformerKey(t) == GenerationKey(g)
    ensures ColumnSum(Summary(ts, gs), DiscountColumn) == Total(DiscountEntries(gs))
  {
    var rows := Summary(ts, gs);
    var es := DiscountEntries(gs);
    ColumnIsSumOver(rows, es, DiscountColumn);
    SummaryNamesDistinct(rows);
    forall k | k in KeySet(es)
      ensures k in Names(rows)
    {
      var e :| e in es && e.key == k;
      DiscountEntryOrigin(gs, e);
      var g :| g in gs && Discounts(g) && e == Entry(GenerationKey(g), Coerce(g.power));
    }
    SumOverCovering(Names(rows), es);
  }

  /** Left-join default: a substation that no discounting record is keyed to gets discount 0,
      and its available capacity is its full capacity. */
  lemma MissingDiscountIsZero(ts: seq<TransformerRow>, gs: seq<GenerationRow>, k: string)
    requires forall g :: g in gs && Discounts(g) ==> GenerationKey(g) != k
    ensures var rows := Summary(ts, gs);
      forall i :: 0 <= i < |rows| && rows[i].substation == k ==>
        rows[i].discounted == 0.0 && rows[i].available == rows[i].capacity
  {
    var es := DiscountEntries(gs);
    forall e | e in es
      ensures e.key != k
    {
      DiscountEntryOrigin(gs, e);
      var g :| g in gs && Discounts(g) && e == Entry(GenerationKey(g), Coerce(g.power));
    }
    assert k !in GroupSum(es);
  }

  /** The quirk of prefixing only one side: a substation whose transformer-side name does
      not already start with "S/E " never receives a discount, whatever the generation table says. */
  lemma UnprefixedSubstationGetsNoDiscount(ts: seq<TransformerRow>, gs: seq<GenerationRow>, k: string)
    requires !StartsWith(k, Prefix)
    ensures var rows := Summary(ts, gs);
      forall i :: 0 <= i < |rows| && rows[i].substation == k ==>
        rows[i].discounted == 0.0 && rows[i].available == rows[i].capacity
  {
    MissingDiscountIsZero(ts, gs, k);
  }

  /** A generation record whose substation cell holds only whitespace (or is the
      empty string) is keyed "S/E ", which ends in a
      space; no stripped transformer-side name can equal it, so such power is always dropped. */
  lemma BlankGenerationNameNeverMatches(g: GenerationRow, t: TransformerRow)
    requires Normalize(CellText(g.substation)) == ""
    ensures GenerationKey(g) == Prefix
    ensures TransformerKey(t) != GenerationKey(g)
  {
    BlankKeyIsPrefix();
    NormalizedIsNotPrefix(CellText(t.substation));
  }

  lemma BlankKeyIsPrefix()
    ensures WithPrefix("") == Prefix
  {
    assert !StartsWith("", Prefix);
    assert Prefix + "" == Prefix;
  }

  lemma NormalizedIsNotPrefix(s: string)
    ensures Normalize(s) != Prefix
  {
    assert IsSpace(Prefix[|Prefix| - 1]);
  }

  /** A generation record that does not discount, or whose key names no transformer-side
      substation, leaves the whole summary unchanged: unmatched keys are dropped. */
  lemma UnmatchedGenerationIgnored(ts: seq<TransformerRow>, gs: seq<GenerationRow>, g: GenerationRow)
    requires !Discounts(g) || forall t :: t in ts ==> TransformerKey(t) != GenerationKey(g)
    ensures Summary(ts, gs + [g]) == Summary(ts, gs)
  {
    var a := Summary(ts, gs + [g]);
    var b := Summary(ts, gs);
    assert |a| == |b|;
    forall i | 0 <= i < |a|
      ensures a[i] == b[i]
    {
      var k := a[i].substation;
      assert k in Names(a);
      DiscountContribution(gs, g, k);
    }
  }

  /** Available capacity is not clamped: over-subscribed substations show a negative value.
      The example also shows the two sides meeting: the bare generation-side name "a"
      is keyed as "S/E A", the transformer-side name of the substation. */
  lemma AvailableMayBeNegative()
    ensures var rows := Summary([TransformerRow(Some("S/E A"), Some(1.0))],
                                [GenerationRow(Some("a"), Some(3.0), Some("ICC"))]);
            |rows| == 1 && rows[0] == SummaryRow("S/E A", 1.0, 3.0, -2.0)
  {
    var t := TransformerRow(Some("S/E A"), Some(1.0));
    var g := GenerationRow(Some("a"), Some(3.0), Some("ICC"));
    ExampleKeys(t, g);
    SingleCapacityEntry(t);
    SingleDiscountEntry(g);
    SingleSubstationSummary([t], [g], "S/E A", 1.0, 3.0);
  }

  /** A single transformer row gives a single capacity entry. */
  lemma SingleCapacityEntry(t: TransformerRow)
    ensures CapacityEntries([t]) == [Entry(TransformerKey(t), Coerce(t.capacity))]
  {
  }

  /** A single discounting generation row gives a single discount entry. */
  lemma SingleDiscountEntry(g: GenerationRow)
    ensures Discounts(g) ==> DiscountEntries([g]) == [Entry(GenerationKey(g), Coerce(g.power))]
  {
    assert [g][1..] == [];
  }

  /** With a single capacity entry and a single discount entry under the same key,
      the summary is the single row holding their difference. */
  lemma SingleSubstationSummary(ts: seq<TransformerRow>, gs: seq<GenerationRow>, k: string, c: real, d: real)
    requires CapacityEntries(ts) == [Entry(k, c)]
    requires DiscountEntries(gs) == [Entry(k, d)]
    ensures Summary(ts, gs) == [SummaryRow(k, c, d, c - d)]
  {
    SingleKeyReconciled(k, c, d);
  }

  lemma SingleKeyReconciled(k: string, c: real, d: real)
    ensures Reconciled([Entry(k, c)], [Entry(k, d)]) == [SummaryRow(k, c, d, c - d)]
  {
    assert [Entry(k, c)][1..] == [] && [Entry(k, d)][1..] == [];
    assert SortedKeys([Entry(k, c)]) == [k];
    assert GroupSum([Entry(k, c)]) == map[k := c];
    assert GroupSum([Entry(k, d)]) == map[k := d];
    assert LeftJoin([k], map[k := c], map[k := d]) == [SummaryRow(k, c, d, c - d)];
  }

  lemma ExampleKeys(t: TransformerRow, g: GenerationRow)
    requires t == TransformerRow(Some("S/E A"), Some(1.0))
    requires g == GenerationRow(Some("a"), Some(3.0), Some("ICC"))
    ensures TransformerKey(t) == "S/E A"
    ensures GenerationKey(g) == "S/E A"
    ensures Discounts(g)
  {
    ExampleTransformerKey(t);
    ExampleGenerationKey(g);
    ExampleStatus(g);
  }

  lemma ExampleTransformerKey(t: TransformerRow)
    requires t.substation == Some("S/E A")
    ensures TransformerKey(t) == "S/E A"
  {
    assert CellText(t.substation) == "S/E A";
    NormalizePrefixedA();
  }

  lemma ExampleGenerationKey(g: GenerationRow)
    requires g.substation == Some("a")
    ensures GenerationKey(g) == "S/E A"
  {
    assert CellText(g.substation) == "a";
    NormalizeLowerA();
    PrefixA();
  }

  lemma ExampleStatus(g: GenerationRow)
    requires g.status == Some("ICC")
    ensures Discounts(g)
  {
    assert CellText(g.status) == "ICC";
    UpperIccFixed();
  }

  lemma NormalizePrefixedA()
    ensures Normalize("S/E A") == "S/E A"
  {
    NormalizeFixesClean("S/E A");
  }

  lemma UpperIccFixed()
    ensures Upper("ICC") == "ICC"
  {
    UpperFixesNoLower("ICC");
  }

  lemma NormalizeLowerA()
    ensures Normalize("a") == "A"
  {
    UpperMatches("a", "A");
    StripFixesNoEdgeSpace("A");
  }

  lemma PrefixA()
    ensures WithPrefix("A") == "S/E A"
  {
    assert !StartsWith("A", Prefix);
  }
}
