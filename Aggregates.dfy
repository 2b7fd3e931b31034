/** The figures `main` derives from the filtered sales and from the whole
    receivables, inventory and imports tables: the five KPI metrics, the
    monthly series, the two regional breakdowns, the top-15 customers and
    products, and the inventory and import summaries. */
module Aggregates {
  import opened TextOrder
  import opened Calendar
  import opened Schema
  import opened Frames
  import opened Cleaning
  import opened GroupBy
  import Filtering

  function Subtotal(r: SaleExt): Option<int> { r.venta.subtotalCop }
  function Margen(r: SaleExt): Option<int> { r.venta.margenTotalCop }
  function Cantidad(r: SaleExt): Option<int> { r.venta.cantidad }
  function Saldo(c: Receivable): Option<int> { c.saldoCop }

  /** `ventas_f["subtotal_cop"].sum()`. */
  function TotalVentas(ventasF: seq<SaleExt>): int { Total(Column(ventasF, Subtotal)) }

  /** `ventas_f["margen_total_cop"].sum()`. */
  function MargenTotal(ventasF: seq<SaleExt>): int { Total(Column(ventasF, Margen)) }

  /** `ventas_f["cantidad"].sum()`. */
  function TotalUnidades(ventasF: seq<SaleExt>): int { Total(Column(ventasF, Cantidad)) }

  const Vigente: string := "Vigente"
  const EnMora: string := "En mora"

  /** The row predicate `cartera["estado"] == e`; a NaN status equals nothing. */
  function EstadoIs(e: string): Receivable -> bool
  {
    (c: Receivable) => c.estado == Some(e)
  }

  /** `cartera[cartera["estado"] == e]["saldo_cop"].sum()`. */
  function SaldoPorEstado(cartera: seq<Receivable>, e: string): int
  {
    Total(Column(Where(cartera, Column(cartera, EstadoIs(e))), Saldo))
  }

  /** `cartera_vigente`, over the whole receivables table. */
  function CarteraVigente(cartera: seq<Receivable>): int { SaldoPorEstado(cartera, Vigente) }

  /** `cartera_mora`, over the whole receivables table. */
  function CarteraMora(cartera: seq<Receivable>): int { SaldoPorEstado(cartera, EnMora) }

  /** Reference definition: the balances of the documents in status `e`, row by row. */
  function SaldoRef(cartera: seq<Receivable>, e: string): int
  {
    if |cartera| == 0 then 0
    else (if cartera[0].estado == Some(e) then Amount(cartera[0].saldoCop) else 0) + SaldoRef(cartera[1..], e)
  }

  lemma {:induction false} ColumnAppend<T, U>(a: seq<T>, b: seq<T>, f: T -> U)
    ensures Column(a + b, f) == Column(a, f) + Column(b, f)
  {
  }

  /** Each KPI over stacked sales is the sum of the KPIs of the parts: the
      metrics are sums over rows, independent of how the rows are split. */
  lemma KpiAppend(a: seq<SaleExt>, b: seq<SaleExt>)
    ensures TotalVentas(a + b) == TotalVentas(a) + TotalVentas(b)
    ensures MargenTotal(a + b) == MargenTotal(a) + MargenTotal(b)
    ensures TotalUnidades(a + b) == TotalUnidades(a) + TotalUnidades(b)
  {
    ColumnAppend(a, b, Subtotal);
    TotalAppend(Column(a, Subtotal), Column(b, Subtotal));
    ColumnAppend(a, b, Margen);
    TotalAppend(Column(a, Margen), Column(b, Margen));
    ColumnAppend(a, b, Cantidad);
    TotalAppend(Column(a, Cantidad), Column(b, Cantidad));
  }

  /** The receivables KPI of status `e` adds up the balances of exactly the
      documents in that status (a NaN balance counts as zero); the stored
      order of the documents and the documents in any other status do not
      matter. */
  lemma {:induction false} SaldoPorEstadoSpec(cartera: seq<Receivable>, e: string)
    ensures SaldoPorEstado(cartera, e) == SaldoRef(cartera, e)
  {
    if |cartera| != 0 {
      var rest := cartera[1..];
      SaldoPorEstadoSpec(rest, e);
      assert Column(cartera, EstadoIs(e))[1..] == Column(rest, EstadoIs(e));
      var m := Column(cartera, EstadoIs(e));
      assert m[0] == (cartera[0].estado == Some(e));
      var head := if cartera[0].estado == Some(e) then [cartera[0]] else [];
      var kept := Where(rest, Column(rest, EstadoIs(e)));
      assert Where(cartera, m) == head + kept;
      ColumnAppend(head, kept, Saldo);
      TotalAppend(Column(head, Saldo), Column(kept, Saldo));
      assert Total(Column(head, Saldo)) == if cartera[0].estado == Some(e) then Amount(cartera[0].saldoCop) else 0;
    }
  }

  /** Appending a document changes the KPI of status `e` by its balance when
      it is in that status, and not at all otherwise. */
  lemma {:induction false} SaldoRefAppend(cartera: seq<Receivable>, c: Receivable, e: string)
    ensures SaldoRef(cartera + [c], e) == SaldoRef(cartera, e) + (if c.estado == Some(e) then Amount(c.saldoCop) else 0)
  {
    if |cartera| != 0 {
      assert (cartera + [c])[1..] == cartera[1..] + [c];
      SaldoRefAppend(cartera[1..], c, e);
    }
  }

  lemma CarteraSpec(cartera: seq<Receivable>, c: Receivable)
    ensures CarteraVigente(cartera) == SaldoRef(cartera, Vigente)
    ensures CarteraMora(cartera) == SaldoRef(cartera, EnMora)
    ensures CarteraVigente(cartera + [c]) == CarteraVigente(cartera) + (if c.estado == Some(Vigente) then Amount(c.saldoCop) else 0)
    ensures CarteraMora(cartera + [c]) == CarteraMora(cartera) + (if c.estado == Some(EnMora) then Amount(c.saldoCop) else 0)
  {
    SaldoPorEstadoSpec(cartera, Vigente);
    SaldoPorEstadoSpec(cartera, EnMora);
    SaldoPorEstadoSpec(cartera + [c], Vigente);
    SaldoPorEstadoSpec(cartera + [c], EnMora);
    SaldoRefAppend(cartera, c, Vigente);
    SaldoRefAppend(cartera, c, EnMora);
  }

  /** Every grouped table sums only the rows whose key columns are all
      non-null: its values add up to the column total over those rows. */
  lemma KeyedTotal<T>(rows: seq<T>, key: T -> Option<Key>, val: T -> Option<int>)
    ensures SumTotals(GroupSum(Column(rows, key), Column(rows, val)))
            == Total(Column(Where(rows, Column(rows, Present(key))), val))
  {
    var ks, vs := Column(rows, key), Column(rows, val);
    GroupSumSpec(ks, vs);
    SumPresentIsTotalOfKeyed(ks, vs);
    assert PresentMask(ks) == Column(rows, Present(key));
    ColumnOfWhere(rows, Column(rows, Present(key)), val);
  }

  /** A single-column text key, `groupby("c")`. */
  function TextKey(o: Option<string>): Option<Key>
  {
    if o.Some? then Some([StrCell(o.value)]) else None
  }

  /** A two-column text key, `groupby(["c1", "c2"])`. */
  function TextPairKey(a: Option<string>, b: Option<string>): Option<Key>
  {
    if a.Some? && b.Some? then Some([StrCell(a.value), StrCell(b.value)]) else None
  }

  // ---------------------------------------------------------------- monthly

  /** `mes` is `astype(str)` of a period, "NaT" for a missing date: never null. */
  function MesKey(r: SaleExt): Option<Key> { Some([StrCell(r.mes)]) }

  /** A row of `ventas_mes`. */
  datatype MonthRow = MonthRow(mes: string, subtotalCop: int, margenTotalCop: int)

  /** The text of a one-column text key. */
  function KeyText(k: Key): string
  {
    if |k| == 1 && k[0].StrCell? then k[0].s else ""
  }

  /** The row `j` of the two grouped sums, side by side. */
  function MonthRows(sub: seq<GroupRow>, mar: seq<GroupRow>): (r: seq<MonthRow>)
    requires |sub| == |mar|
    ensures |r| == |sub|
  {
    seq(|sub|, j requires 0 <= j < |sub| => MonthRow(KeyText(sub[j].key), sub[j].total, mar[j].total))
  }

  /** Inserts a row after the rows whose `mes` is smaller. */
  function InsertByMes(x: MonthRow, s: seq<MonthRow>): seq<MonthRow>
  {
    if |s| == 0 then [x]
    else if LexLess(s[0].mes, x.mes) then [s[0]] + InsertByMes(x, s[1..])
    else [x] + s
  }

  /** `sort_values("mes")`. */
  function SortByMes(s: seq<MonthRow>): seq<MonthRow>
  {
    if |s| == 0 then [] else InsertByMes(s[0], SortByMes(s[1..]))
  }

  /** `ventas_f.groupby("mes", as_index=False)[["subtotal_cop", "margen_total_cop"]].sum()`. */
  function MonthlyGrouped(ventasF: seq<SaleExt>): seq<MonthRow>
  {
    var ks := Column(ventasF, MesKey);
    MonthRows(GroupSum(ks, Column(ventasF, Subtotal)), GroupSum(ks, Column(ventasF, Margen)))
  }

  /** `ventas_mes`: the grouped table, then `sort_values("mes")`. */
  function MonthlySeries(ventasF: seq<SaleExt>): seq<MonthRow>
  {
    SortByMes(MonthlyGrouped(ventasF))
  }

  ghost predicate MesAscending(s: seq<MonthRow>)
  {
    forall a, b :: 0 <= a < b < |s| ==> LexLess(s[a].mes, s[b].mes)
  }

  /** Sorting a table that is already strictly ascending by `mes` leaves it as it is. */
  lemma {:induction false} SortByMesOfAscending(s: seq<MonthRow>)
    requires MesAscending(s)
    ensures SortByMes(s) == s
  {
    if |s| != 0 {
      assert MesAscending(s[1..]) by {
        forall a, b | 0 <= a < b < |s[1..]|
          ensures LexLess(s[1..][a].mes, s[1..][b].mes)
        {
          assert s[1..][a] == s[a + 1] && s[1..][b] == s[b + 1];
        }
      }
      SortByMesOfAscending(s[1..]);
      if |s| > 1 {
        LexLessAsymmetric(s[0].mes, s[1].mes);
        assert s == [s[0]] + s[1..];
      }
    }
  }

  function SumSubtotals(s: seq<MonthRow>): int
  {
    if |s| == 0 then 0 else s[0].subtotalCop + SumSubtotals(s[1..])
  }

  function SumMargins(s: seq<MonthRow>): int
  {
    if |s| == 0 then 0 else s[0].margenTotalCop + SumMargins(s[1..])
  }

  lemma {:induction false} MonthRowsSums(sub: seq<GroupRow>, mar: seq<GroupRow>)
    requires |sub| == |mar|
    ensures SumSubtotals(MonthRows(sub, mar)) == SumTotals(sub)
    ensures SumMargins(MonthRows(sub, mar)) == SumTotals(mar)
  {
    if |sub| != 0 {
      assert MonthRows(sub, mar)[1..] == MonthRows(sub[1..], mar[1..]);
      MonthRowsSums(sub[1..], mar[1..]);
    }
  }

  /** Row `j` of the grouped table is the group of the key `[mes]` of some
      filtered row, in both value columns. */
  lemma {:induction false} MonthlyGroupedKeys(ventasF: seq<SaleExt>)
    ensures forall j :: 0 <= j < |MonthlyGrouped(ventasF)| ==>
              && GroupSum(Column(ventasF, MesKey), Column(ventasF, Subtotal))[j].key == [StrCell(MonthlyGrouped(ventasF)[j].mes)]
              && GroupSum(Column(ventasF, MesKey), Column(ventasF, Margen))[j].key == [StrCell(MonthlyGrouped(ventasF)[j].mes)]
              && exists i :: 0 <= i < |ventasF| && ventasF[i].mes == MonthlyGrouped(ventasF)[j].mes
  {
    var ks := Column(ventasF, MesKey);
    var sub, mar := GroupSum(ks, Column(ventasF, Subtotal)), GroupSum(ks, Column(ventasF, Margen));
    var rows := MonthlyGrouped(ventasF);
    GroupSumSpec(ks, Column(ventasF, Subtotal));
    assert forall j :: 0 <= j < |sub| ==> sub[j].key == mar[j].key == GroupKeys(ks)[j];
    forall j | 0 <= j < |rows|
      ensures sub[j].key == [StrCell(rows[j].mes)]
      ensures exists i :: 0 <= i < |ventasF| && ventasF[i].mes == rows[j].mes
    {
      var i :| 0 <= i < |ks| && ks[i] == Some(sub[j].key);
      assert ks[i] == MesKey(ventasF[i]) == Some([StrCell(ventasF[i].mes)]);
    }
  }

  lemma {:induction false} MonthlyGroupedAscending(ventasF: seq<SaleExt>)
    ensures MesAscending(MonthlyGrouped(ventasF))
  {
    var ks := Column(ventasF, MesKey);
    var sub := GroupSum(ks, Column(ventasF, Subtotal));
    var rows := MonthlyGrouped(ventasF);
    GroupSumSpec(ks, Column(ventasF, Subtotal));
    MonthlyGroupedKeys(ventasF);
    forall a, b | 0 <= a < b < |rows|
      ensures LexLess(rows[a].mes, rows[b].mes)
    {
      var ka, kb := sub[a].key, sub[b].key;
      assert KeyLess(ka, kb);
      assert ka == [StrCell(rows[a].mes)] && kb == [StrCell(rows[b].mes)];
      assert ka[1..] == kb[1..] == [];
      assert !KeyLess(ka[1..], kb[1..]);
      assert CellLess(ka[0], kb[0]);
    }
  }

  lemma {:induction false} MonthlyGroupedCovers(ventasF: seq<SaleExt>)
    ensures forall i :: 0 <= i < |ventasF| ==>
              exists j :: 0 <= j < |MonthlyGrouped(ventasF)| && MonthlyGrouped(ventasF)[j].mes == ventasF[i].mes
  {
    var ks := Column(ventasF, MesKey);
    var sub := GroupSum(ks, Column(ventasF, Subtotal));
    var rows := MonthlyGrouped(ventasF);
    GroupSumSpec(ks, Column(ventasF, Subtotal));
    MonthlyGroupedKeys(ventasF);
    forall i | 0 <= i < |ventasF|
      ensures exists j :: 0 <= j < |rows| && rows[j].mes == ventasF[i].mes
    {
      assert ks[i] == MesKey(ventasF[i]) == Some([StrCell(ventasF[i].mes)]);
      var j :| 0 <= j < |sub| && sub[j].key == ks[i].value;
      assert [StrCell(rows[j].mes)][0] == [StrCell(ventasF[i].mes)][0];
    }
  }

  lemma {:induction false} MonthlyGroupedSums(ventasF: seq<SaleExt>)
    ensures forall j :: 0 <= j < |MonthlyGrouped(ventasF)| ==>
              && MonthlyGrouped(ventasF)[j].subtotalCop
                 == SumWhere(Column(ventasF, MesKey), Column(ventasF, Subtotal), [StrCell(MonthlyGrouped(ventasF)[j].mes)])
              && MonthlyGrouped(ventasF)[j].margenTotalCop
                 == SumWhere(Column(ventasF, MesKey), Column(ventasF, Margen), [StrCell(MonthlyGrouped(ventasF)[j].mes)])
    ensures SumSubtotals(MonthlyGrouped(ventasF)) == TotalVentas(ventasF)
    ensures SumMargins(MonthlyGrouped(ventasF)) == MargenTotal(ventasF)
  {
    var ks := Column(ventasF, MesKey);
    var sub, mar := GroupSum(ks, Column(ventasF, Subtotal)), GroupSum(ks, Column(ventasF, Margen));
    GroupSumSpec(ks, Column(ventasF, Subtotal));
    GroupSumSpec(ks, Column(ventasF, Margen));
    MonthlyGroupedKeys(ventasF);
    MonthRowsSums(sub, mar);
    SumPresentAllKeyed(ks, Column(ventasF, Subtotal));
    SumPresentAllKeyed(ks, Column(ventasF, Margen));
  }

  /** The monthly series has one row per distinct `mes` among the filtered
      rows, in strictly ascending order of `mes`. */
  lemma {:induction false} MonthlySeriesRows(ventasF: seq<SaleExt>)
    ensures MesAscending(MonthlySeries(ventasF))
    ensures forall j :: 0 <= j < |MonthlySeries(ventasF)| ==>
              exists i :: 0 <= i < |ventasF| && ventasF[i].mes == MonthlySeries(ventasF)[j].mes
    ensures forall i :: 0 <= i < |ventasF| ==>
              exists j :: 0 <= j < |MonthlySeries(ventasF)| && MonthlySeries(ventasF)[j].mes == ventasF[i].mes
  {
    MonthlyGroupedAscending(ventasF);
    SortByMesOfAscending(MonthlyGrouped(ventasF));
    assert MonthlySeries(ventasF) == MonthlyGrouped(ventasF);
    MonthlyGroupedKeys(ventasF);
    MonthlyGroupedCovers(ventasF);
  }

  /** Each row of the monthly series carries the sums of `subtotal_cop` and
      `margen_total_cop` over that month's rows, and the two columns add up
      to the KPIs `total_ventas` and `margen_total`. */
  lemma {:induction false} MonthlySeriesSums(ventasF: seq<SaleExt>)
    ensures forall j :: 0 <= j < |MonthlySeries(ventasF)| ==>
              && MonthlySeries(ventasF)[j].subtotalCop
                 == SumWhere(Column(ventasF, MesKey), Column(ventasF, Subtotal), [StrCell(MonthlySeries(ventasF)[j].mes)])
              && MonthlySeries(ventasF)[j].margenTotalCop
                 == SumWhere(Column(ventasF, MesKey), Column(ventasF, Margen), [StrCell(MonthlySeries(ventasF)[j].mes)])
    ensures SumSubtotals(MonthlySeries(ventasF)) == TotalVentas(ventasF)
    ensures SumMargins(MonthlySeries(ventasF)) == MargenTotal(ventasF)
  {
    MonthlyGroupedAscending(ventasF);
    SortByMesOfAscending(MonthlyGrouped(ventasF));
    MonthlyGroupedSums(ventasF);
  }

  /** When `mes` is the month bucket of each row's date, as the enrichment
      makes it, the ascending order of the series is chronological order. */
  lemma {:induction false} MonthlySeriesChronological(ventasF: seq<SaleExt>, a: nat, b: nat, i: nat, i2: nat)
    requires forall k :: 0 <= k < |ventasF| ==> ventasF[k].venta.fecha.Some? && ventasF[k].mes == MonthKey(ventasF[k].venta.fecha.value)
    requires a < b < |MonthlySeries(ventasF)| && i < |ventasF| && i2 < |ventasF|
    requires ventasF[i].mes == MonthlySeries(ventasF)[a].mes && ventasF[i2].mes == MonthlySeries(ventasF)[b].mes
    ensures var d, d2 := ventasF[i].venta.fecha.value, ventasF[i2].venta.fecha.value;
            d.year < d2.year || (d.year == d2.year && d.month < d2.month)
  {
    MonthlyGroupedAscending(ventasF);
    SortByMesOfAscending(MonthlyGrouped(ventasF));
    assert LexLess(ventasF[i].mes, ventasF[i2].mes);
    MonthKeyOrder(ventasF[i].venta.fecha.value, ventasF[i2].venta.fecha.value);
  }

  // ------------------------------------------------------- regional tables

  function RegionSegmentoKey(r: SaleExt): Option<Key> { TextPairKey(r.Region(), r.Segmento()) }
  function RegionCiudadKey(r: SaleExt): Option<Key> { TextPairKey(r.Region(), r.Ciudad()) }

  /** `ventas_f.groupby(["region", "segmento"])["subtotal_cop"].sum()`. */
  function VentasRegion(ventasF: seq<SaleExt>): seq<GroupRow>
  {
    GroupSum(Column(ventasF, RegionSegmentoKey), Column(ventasF, Subtotal))
  }

  /** `ventas_f.groupby(["region", "ciudad"])["subtotal_cop"].sum()`. */
  function VentasCiudad(ventasF: seq<SaleExt>): seq<GroupRow>
  {
    GroupSum(Column(ventasF, RegionCiudadKey), Column(ventasF, Subtotal))
  }

  /** The rows of a table grouped on two text columns: one per distinct pair
      of non-null values present in the rows. */
  lemma PairTableSpec<T>(rows: seq<T>, first: T -> Option<string>, second: T -> Option<string>,
                         key: T -> Option<Key>, val: T -> Option<int>)
    requires forall x :: key(x) == TextPairKey(first(x), second(x))
    ensures KeysAscending(GroupSum(Column(rows, key), Column(rows, val)))
    ensures forall j :: 0 <= j < |GroupSum(Column(rows, key), Column(rows, val))| ==>
              exists i :: 0 <= i < |rows| && first(rows[i]).Some? && second(rows[i]).Some?
                && GroupSum(Column(rows, key), Column(rows, val))[j].key == [StrCell(first(rows[i]).value), StrCell(second(rows[i]).value)]
    ensures forall i :: 0 <= i < |rows| && first(rows[i]).Some? && second(rows[i]).Some? ==>
              exists j :: 0 <= j < |GroupSum(Column(rows, key), Column(rows, val))|
                && GroupSum(Column(rows, key), Column(rows, val))[j].key == [StrCell(first(rows[i]).value), StrCell(second(rows[i]).value)]
    ensures forall j :: 0 <= j < |GroupSum(Column(rows, key), Column(rows, val))| ==>
              GroupSum(Column(rows, key), Column(rows, val))[j].total
              == SumWhere(Column(rows, key), Column(rows, val), GroupSum(Column(rows, key), Column(rows, val))[j].key)
  {
    var ks := Column(rows, key);
    var t := GroupSum(ks, Column(rows, val));
    GroupSumSpec(ks, Column(rows, val));
    assert forall i :: 0 <= i < |rows| ==> ks[i] == TextPairKey(first(rows[i]), second(rows[i]));
    forall j | 0 <= j < |t|
      ensures exists i :: 0 <= i < |rows| && first(rows[i]).Some? && second(rows[i]).Some?
                && t[j].key == [StrCell(first(rows[i]).value), StrCell(second(rows[i]).value)]
    {
      var i :| 0 <= i < |ks| && ks[i] == Some(t[j].key);
    }
  }

  /** Region × segment: one row per (region, segment) pair present among the
      filtered rows, ascending; the values add up to the sales of the rows
      whose region and segment are both known, and only those; each row holds
      the sum over its own pair. */
  lemma VentasRegionSpec(ventasF: seq<SaleExt>)
    ensures KeysAscending(VentasRegion(ventasF))
    ensures forall j :: 0 <= j < |VentasRegion(ventasF)| ==>
              exists i :: 0 <= i < |ventasF| && ventasF[i].Region().Some? && ventasF[i].Segmento().Some?
                && VentasRegion(ventasF)[j].key == [StrCell(ventasF[i].Region().value), StrCell(ventasF[i].Segmento().value)]
    ensures forall i :: 0 <= i < |ventasF| && ventasF[i].Region().Some? && ventasF[i].Segmento().Some? ==>
              exists j :: 0 <= j < |VentasRegion(ventasF)|
                && VentasRegion(ventasF)[j].key == [StrCell(ventasF[i].Region().value), StrCell(ventasF[i].Segmento().value)]
    ensures forall j :: 0 <= j < |VentasRegion(ventasF)| ==>
              VentasRegion(ventasF)[j].total == SumWhere(Column(ventasF, RegionSegmentoKey), Column(ventasF, Subtotal), VentasRegion(ventasF)[j].key)
    ensures SumTotals(VentasRegion(ventasF)) == TotalVentas(Where(ventasF, Column(ventasF, Present(RegionSegmentoKey))))
  {
    PairTableSpec(ventasF, Filtering.RegionCol, Filtering.SegmentoCol, RegionSegmentoKey, Subtotal);
    KeyedTotal(ventasF, RegionSegmentoKey, Subtotal);
  }

  function CiudadCol(r: SaleExt): Option<string> { r.Ciudad() }

  /** Region × city, with the same coverage as region × segment. */
  lemma VentasCiudadSpec(ventasF: seq<SaleExt>)
    ensures KeysAscending(VentasCiudad(ventasF))
    ensures forall j :: 0 <= j < |VentasCiudad(ventasF)| ==>
              exists i :: 0 <= i < |ventasF| && ventasF[i].Region().Some? && ventasF[i].Ciudad().Some?
                && VentasCiudad(ventasF)[j].key == [StrCell(ventasF[i].Region().value), StrCell(ventasF[i].Ciudad().value)]
    ensures forall i :: 0 <= i < |ventasF| && ventasF[i].Region().Some? && ventasF[i].Ciudad().Some? ==>
              exists j :: 0 <= j < |VentasCiudad(ventasF)|
                && VentasCiudad(ventasF)[j].key == [StrCell(ventasF[i].Region().value), StrCell(ventasF[i].Ciudad().value)]
    ensures forall j :: 0 <= j < |VentasCiudad(ventasF)| ==>
              VentasCiudad(ventasF)[j].total == SumWhere(Column(ventasF, RegionCiudadKey), Column(ventasF, Subtotal), VentasCiudad(ventasF)[j].key)
    ensures SumTotals(VentasCiudad(ventasF)) == TotalVentas(Where(ventasF, Column(ventasF, Present(RegionCiudadKey))))
  {
    PairTableSpec(ventasF, Filtering.RegionCol, CiudadCol, RegionCiudadKey, Subtotal);
    KeyedTotal(ventasF, RegionCiudadKey, Subtotal);
  }

  function HasRegion(r: SaleExt): bool { r.Region().Some? }

  /** A sale whose customer is unknown (no region after the left join) is in
      no regional group: dropping every sale without a region leaves both
      regional tables as they are, so their values miss those amounts. */
  lemma RegionalTablesIgnoreUnknownRegion(ventasF: seq<SaleExt>)
    ensures VentasRegion(ventasF) == VentasRegion(Where(ventasF, Column(ventasF, HasRegion)))
    ensures VentasCiudad(ventasF) == VentasCiudad(Where(ventasF, Column(ventasF, HasRegion)))
  {
    var m := Column(ventasF, HasRegion);
    var kr, kc := Column(ventasF, RegionSegmentoKey), Column(ventasF, RegionCiudadKey);
    forall i | 0 <= i < |ventasF| && !m[i]
      ensures kr[i].None? && kc[i].None?
    {
      assert m[i] == HasRegion(ventasF[i]);
      assert kr[i] == RegionSegmentoKey(ventasF[i]);
      assert kc[i] == RegionCiudadKey(ventasF[i]);
    }
    ColumnOfWhere(ventasF, m, RegionSegmentoKey);
    ColumnOfWhere(ventasF, m, RegionCiudadKey);
    ColumnOfWhere(ventasF, m, Subtotal);
    GroupSumOfWhere(kr, Column(ventasF, Subtotal), m);
    GroupSumOfWhere(kc, Column(ventasF, Subtotal), m);
  }

  /** When no sale has a region, both regional tables are empty. */
  lemma RegionalTablesEmptyWithoutRegion(ventasF: seq<SaleExt>)
    requires forall i :: 0 <= i < |ventasF| ==> ventasF[i].Region().None?
    ensures VentasRegion(ventasF) == [] && VentasCiudad(ventasF) == []
  {
    forall i | 0 <= i < |ventasF|
      ensures Column(ventasF, RegionSegmentoKey)[i].None? && Column(ventasF, RegionCiudadKey)[i].None?
    {
      assert Column(ventasF, RegionSegmentoKey)[i] == RegionSegmentoKey(ventasF[i]);
      assert Column(ventasF, RegionCiudadKey)[i] == RegionCiudadKey(ventasF[i]);
    }
    GroupSumEmpty(Column(ventasF, RegionSegmentoKey), Column(ventasF, Subtotal));
    GroupSumEmpty(Column(ventasF, RegionCiudadKey), Column(ventasF, Subtotal));
  }

  // ------------------------------------------------------------ top tables

  /** `head(15)`. */
  const TopCount: nat := 15

  /** Key `(cliente_id, nombre_cliente)`. */
  function ClienteKey(r: SaleExt): Option<Key>
  {
    if r.venta.clienteId.Some? && r.NombreCliente().Some?
    then Some([IntCell(r.venta.clienteId.value), StrCell(r.NombreCliente().value)])
    else None
  }

  /** Key `(producto_id, sku, descripcion)`. */
  function ProductoKey(r: SaleExt): Option<Key>
  {
    if r.venta.productoId.Some? && r.Sku().Some? && r.Descripcion().Some?
    then Some([IntCell(r.venta.productoId.value), StrCell(r.Sku().value), StrCell(r.Descripcion().value)])
    else None
  }

  /** `top_clientes`. */
  function TopClientes(ventasF: seq<SaleExt>): seq<GroupRow>
  {
    TopN(GroupSum(Column(ventasF, ClienteKey), Column(ventasF, Subtotal)), TopCount)
  }

  /** `top_productos`. */
  function TopProductos(ventasF: seq<SaleExt>): seq<GroupRow>
  {
    TopN(GroupSum(Column(ventasF, ProductoKey), Column(ventasF, Subtotal)), TopCount)
  }

  /** A ranking of the groups of `key`: at most 15 rows, the 15 largest when
      there are more groups, in non-increasing order; each row is a group that
      exists among the rows and carries that group's summed value, and no
      group left out sums to more than a group kept. */
  lemma TopTableSpec<T>(rows: seq<T>, key: T -> Option<Key>, val: T -> Option<int>)
    ensures var groups := GroupSum(Column(rows, key), Column(rows, val));
            |TopN(groups, TopCount)| == if |groups| < TopCount then |groups| else TopCount
    ensures NonIncreasing(TopN(GroupSum(Column(rows, key), Column(rows, val)), TopCount))
    ensures forall x :: x in TopN(GroupSum(Column(rows, key), Column(rows, val)), TopCount) ==>
              && (exists i :: 0 <= i < |rows| && key(rows[i]) == Some(x.key))
              && x.total == SumWhere(Column(rows, key), Column(rows, val), x.key)
    ensures var groups := GroupSum(Column(rows, key), Column(rows, val));
            var top := TopN(groups, TopCount);
            forall a, y :: 0 <= a < |top| && y in multiset(groups) - multiset(top) ==> y.total <= top[a].total
  {
    var ks := Column(rows, key);
    var groups := GroupSum(ks, Column(rows, val));
    GroupSumSpec(ks, Column(rows, val));
    TopNSpec(groups, TopCount);
    var top := TopN(groups, TopCount);
    forall x | x in top
      ensures exists i :: 0 <= i < |rows| && key(rows[i]) == Some(x.key)
      ensures x.total == SumWhere(ks, Column(rows, val), x.key)
    {
      assert x in multiset(top);
      assert x in multiset(groups);
      var j :| 0 <= j < |groups| && groups[j] == x;
      var i :| 0 <= i < |ks| && ks[i] == Some(x.key);
    }
  }

  lemma TopClientesSpec(ventasF: seq<SaleExt>)
    ensures |TopClientes(ventasF)| <= TopCount
    ensures NonIncreasing(TopClientes(ventasF))
    ensures forall x :: x in TopClientes(ventasF) ==>
              && (exists i :: 0 <= i < |ventasF| && ventasF[i].venta.clienteId.Some? && ventasF[i].NombreCliente().Some?
                    && x.key == [IntCell(ventasF[i].venta.clienteId.value), StrCell(ventasF[i].NombreCliente().value)])
              && x.total == SumWhere(Column(ventasF, ClienteKey), Column(ventasF, Subtotal), x.key)
    ensures var groups := GroupSum(Column(ventasF, ClienteKey), Column(ventasF, Subtotal));
            forall a, y :: 0 <= a < |TopClientes(ventasF)| && y in multiset(groups) - multiset(TopClientes(ventasF)) ==>
              y.total <= TopClientes(ventasF)[a].total
  {
    TopTableSpec(ventasF, ClienteKey, Subtotal);
  }

  lemma TopProductosSpec(ventasF: seq<SaleExt>)
    ensures |TopProductos(ventasF)| <= TopCount
    ensures NonIncreasing(TopProductos(ventasF))
    ensures forall x :: x in TopProductos(ventasF) ==>
              && (exists i :: 0 <= i < |ventasF| && ventasF[i].venta.productoId.Some? && ventasF[i].Sku().Some? && ventasF[i].Descripcion().Some?
                    && x.key == [IntCell(ventasF[i].venta.productoId.value), StrCell(ventasF[i].Sku().value), StrCell(ventasF[i].Descripcion().value)])
              && x.total == SumWhere(Column(ventasF, ProductoKey), Column(ventasF, Subtotal), x.key)
    ensures var groups := GroupSum(Column(ventasF, ProductoKey), Column(ventasF, Subtotal));
            forall a, y :: 0 <= a < |TopProductos(ventasF)| && y in multiset(groups) - multiset(TopProductos(ventasF)) ==>
              y.total <= TopProductos(ventasF)[a].total
  {
    TopTableSpec(ventasF, ProductoKey, Subtotal);
  }

  // ------------------------------------------------ inventory and imports

  function CentroKey(s: InventorySnapshot): Option<Key> { TextKey(s.centroLogistico) }
  function ValorInventario(s: InventorySnapshot): Option<int> { s.valorInventarioCop }
  function PaisKey(o: ImportOrder): Option<Key> { TextKey(o.paisOrigen) }
  function CostoMercancia(o: ImportOrder): Option<int> { o.costoMercanciaUsd }

  /** `inventario.groupby(["centro_logistico"])["valor_inventario_cop"].sum()`. */
  function InventarioPorCentro(inventario: seq<InventorySnapshot>): seq<GroupRow>
  {
    GroupSum(Column(inventario, CentroKey), Column(inventario, ValorInventario))
  }

  /** `importaciones.groupby("pais_origen")["costo_mercancia_usd"].sum()`. */
  function ImportacionesPorPais(importaciones: seq<ImportOrder>): seq<GroupRow>
  {
    GroupSum(Column(importaciones, PaisKey), Column(importaciones, CostoMercancia))
  }

  /** The rows of a table grouped on one text column: one per distinct
      non-null value, ascending, each with the sum over the rows holding it. */
  lemma TextTableSpec<T>(rows: seq<T>, col: T -> Option<string>, key: T -> Option<Key>, val: T -> Option<int>)
    requires forall x :: key(x) == TextKey(col(x))
    ensures KeysAscending(GroupSum(Column(rows, key), Column(rows, val)))
    ensures forall j :: 0 <= j < |GroupSum(Column(rows, key), Column(rows, val))| ==>
              exists i :: 0 <= i < |rows| && col(rows[i]).Some?
                && GroupSum(Column(rows, key), Column(rows, val))[j].key == [StrCell(col(rows[i]).value)]
    ensures forall i :: 0 <= i < |rows| && col(rows[i]).Some? ==>
              exists j :: 0 <= j < |GroupSum(Column(rows, key), Column(rows, val))|
                && GroupSum(Column(rows, key), Column(rows, val))[j].key == [StrCell(col(rows[i]).value)]
    ensures forall j :: 0 <= j < |GroupSum(Column(rows, key), Column(rows, val))| ==>
              GroupSum(Column(rows, key), Column(rows, val))[j].total
              == SumWhere(Column(rows, key), Column(rows, val), GroupSum(Column(rows, key), Column(rows, val))[j].key)
  {
    var ks := Column(rows, key);
    var t := GroupSum(ks, Column(rows, val));
    GroupSumSpec(ks, Column(rows, val));
    assert forall i :: 0 <= i < |rows| ==> ks[i] == TextKey(col(rows[i]));
    forall j | 0 <= j < |t|
      ensures exists i :: 0 <= i < |rows| && col(rows[i]).Some? && t[j].key == [StrCell(col(rows[i]).value)]
    {
      var i :| 0 <= i < |ks| && ks[i] == Some(t[j].key);
    }
  }

  function CentroCol(s: InventorySnapshot): Option<string> { s.centroLogistico }
  function PaisCol(o: ImportOrder): Option<string> { o.paisOrigen }

  /** Inventory value per logistics centre, over the whole inventory table:
      one row per centre, ascending, each with the centre's summed value; the
      values add up to the inventory of the snapshots whose centre is known. */
  lemma InventarioPorCentroSpec(inventario: seq<InventorySnapshot>)
    ensures KeysAscending(InventarioPorCentro(inventario))
    ensures forall j :: 0 <= j < |InventarioPorCentro(inventario)| ==>
              exists i :: 0 <= i < |inventario| && inventario[i].centroLogistico.Some?
                && InventarioPorCentro(inventario)[j].key == [StrCell(inventario[i].centroLogistico.value)]
    ensures forall i :: 0 <= i < |inventario| && inventario[i].centroLogistico.Some? ==>
              exists j :: 0 <= j < |InventarioPorCentro(inventario)|
                && InventarioPorCentro(inventario)[j].key == [StrCell(inventario[i].centroLogistico.value)]
    ensures forall j :: 0 <= j < |InventarioPorCentro(inventario)| ==>
              InventarioPorCentro(inventario)[j].total
              == SumWhere(Column(inventario, CentroKey), Column(inventario, ValorInventario), InventarioPorCentro(inventario)[j].key)
    ensures SumTotals(InventarioPorCentro(inventario))
            == Total(Column(Where(inventario, Column(inventario, Present(CentroKey))), ValorInventario))
  {
    TextTableSpec(inventario, CentroCol, CentroKey, ValorInventario);
    KeyedTotal(inventario, CentroKey, ValorInventario);
  }

  /** Import cost per origin country, over the whole imports table. */
  lemma ImportacionesPorPaisSpec(importaciones: seq<ImportOrder>)
    ensures KeysAscending(ImportacionesPorPais(importaciones))
    ensures forall j :: 0 <= j < |ImportacionesPorPais(importaciones)| ==>
              exists i :: 0 <= i < |importaciones| && importaciones[i].paisOrigen.Some?
                && ImportacionesPorPais(importaciones)[j].key == [StrCell(importaciones[i].paisOrigen.value)]
    ensures forall i :: 0 <= i < |importaciones| && importaciones[i].paisOrigen.Some? ==>
              exists j :: 0 <= j < |ImportacionesPorPais(importaciones)|
                && ImportacionesPorPais(importaciones)[j].key == [StrCell(importaciones[i].paisOrigen.value)]
    ensures forall j :: 0 <= j < |ImportacionesPorPais(importaciones)| ==>
              ImportacionesPorPais(importaciones)[j].total
              == SumWhere(Column(importaciones, PaisKey), Column(importaciones, CostoMercancia), ImportacionesPorPais(importaciones)[j].key)
    ensures SumTotals(ImportacionesPorPais(importaciones))
            == Total(Column(Where(importaciones, Column(importaciones, Present(PaisKey))), CostoMercancia))
  {
    TextTableSpec(importaciones, PaisCol, PaisKey, CostoMercancia);
    KeyedTotal(importaciones, PaisKey, CostoMercancia);
  }
}
