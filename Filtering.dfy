/** The sidebar filter of `main`: an inclusive date range on `fecha` and an
    optional equality on `region` and on `segmento`, where the option
    "Todos" means no constraint. The mask is built step by step and the
    filtered table is `ventas_ext[mask]`. */
module Filtering {
  import opened Calendar
  import opened Schema
  import opened Frames
  import opened Envelope

  /** The first entry of both selectboxes. */
  const Todos: string := "Todos"

  /** What the sidebar widgets hand to the filter. */
  datatype Selection = Selection(desde: Date, hasta: Date, region: string, segmento: string)

  /** Reference definition of the rows the filter keeps. NaT and NaN compare
      false, so a row without a date, or without a region when a region is
      chosen, is never kept. */
  predicate Keep(r: SaleExt, sel: Selection)
  {
    && InRange(r, sel)
    && (sel.region == Todos || r.Region() == Some(sel.region))
    && (sel.segmento == Todos || r.Segmento() == Some(sel.segmento))
  }

  predicate InRange(r: SaleExt, sel: Selection)
  {
    r.venta.fecha.Some? && DateLe(sel.desde, r.venta.fecha.value) && DateLe(r.venta.fecha.value, sel.hasta)
  }

  function KeepRow(sel: Selection): SaleExt -> bool
  {
    (r: SaleExt) => Keep(r, sel)
  }

  /** The filtered table `ventas_f`, as a function of its inputs. */
  function FilterSales(ext: seq<SaleExt>, sel: Selection): seq<SaleExt>
  {
    Where(ext, Column(ext, KeepRow(sel)))
  }

  /** `col >= pd.to_datetime(d)`. */
  function GeMask(col: seq<Option<Date>>, d: Date): (m: seq<bool>)
    ensures |m| == |col|
  {
    seq(|col|, i requires 0 <= i < |col| => col[i].Some? && DateLe(d, col[i].value))
  }

  /** `col <= pd.to_datetime(d)`. */
  function LeMask(col: seq<Option<Date>>, d: Date): (m: seq<bool>)
    ensures |m| == |col|
  {
    seq(|col|, i requires 0 <= i < |col| => col[i].Some? && DateLe(col[i].value, d))
  }

  /** `col == v` on an object column. */
  function EqMask(col: seq<Option<string>>, v: string): (m: seq<bool>)
    ensures |m| == |col|
  {
    seq(|col|, i requires 0 <= i < |col| => col[i] == Some(v))
  }

  function RegionCol(r: SaleExt): Option<string> { r.Region() }
  function SegmentoCol(r: SaleExt): Option<string> { r.Segmento() }

  /** The filter as `main` computes it: the date mask, narrowed with `&=`
      by the region and the segment when one is chosen. */
  method ApplyFilters(ventasExt: seq<SaleExt>, sel: Selection) returns (ventasF: seq<SaleExt>)
    ensures ventasF == FilterSales(ventasExt, sel)
    ensures forall k :: 0 <= k < |ventasF| ==> Keep(ventasF[k], sel)
  {
    var fechas := Column(ventasExt, VentaFecha);
    var mask := AndMask(GeMask(fechas, sel.desde), LeMask(fechas, sel.hasta));
    DateMaskSpec(ventasExt, sel);
    if sel.region != Todos {
      NarrowSpec(ventasExt, mask, RegionCol, sel.region);
      mask := AndMask(mask, EqMask(Column(ventasExt, RegionCol), sel.region));
    }
    assert forall i :: 0 <= i < |ventasExt| ==>
      (mask[i] <==> InRange(ventasExt[i], sel) && (sel.region == Todos || ventasExt[i].Region() == Some(sel.region)));
    if sel.segmento != Todos {
      NarrowSpec(ventasExt, mask, SegmentoCol, sel.segmento);
      mask := AndMask(mask, EqMask(Column(ventasExt, SegmentoCol), sel.segmento));
    }
    KeepMask(ventasExt, sel, mask);
    ventasF := Where(ventasExt, mask);
    FilterKeeps(ventasExt, sel);
  }

  /** The date mask `(fecha >= desde) & (fecha <= hasta)` holds exactly of the rows in range. */
  lemma {:induction false} DateMaskSpec(ext: seq<SaleExt>, sel: Selection)
    ensures var fechas := Column(ext, VentaFecha);
            forall i :: 0 <= i < |ext| ==>
              (AndMask(GeMask(fechas, sel.desde), LeMask(fechas, sel.hasta))[i] <==> InRange(ext[i], sel))
  {
    var fechas := Column(ext, VentaFecha);
    forall i | 0 <= i < |ext|
      ensures AndMask(GeMask(fechas, sel.desde), LeMask(fechas, sel.hasta))[i] <==> InRange(ext[i], sel)
    {
      assert fechas[i] == VentaFecha(ext[i]) == ext[i].venta.fecha;
    }
  }

  /** `mask &= col == v` keeps a row exactly when the mask did and its cell is `v`. */
  lemma {:induction false} NarrowSpec(ext: seq<SaleExt>, mask: seq<bool>, col: SaleExt -> Option<string>, v: string)
    requires |mask| == |ext|
    ensures forall i :: 0 <= i < |ext| ==>
              (AndMask(mask, EqMask(Column(ext, col), v))[i] <==> mask[i] && col(ext[i]) == Some(v))
  {
    forall i | 0 <= i < |ext|
      ensures AndMask(mask, EqMask(Column(ext, col), v))[i] <==> mask[i] && col(ext[i]) == Some(v)
    {
      assert Column(ext, col)[i] == col(ext[i]);
    }
  }

  /** A mask that holds exactly of the rows `Keep` accepts is the filter's mask. */
  lemma {:induction false} KeepMask(ext: seq<SaleExt>, sel: Selection, mask: seq<bool>)
    requires |mask| == |ext|
    requires forall i :: 0 <= i < |ext| ==> (mask[i] <==> Keep(ext[i], sel))
    ensures mask == Column(ext, KeepRow(sel))
  {
    forall i | 0 <= i < |ext|
      ensures mask[i] == Column(ext, KeepRow(sel))[i]
    {
      assert Column(ext, KeepRow(sel))[i] == KeepRow(sel)(ext[i]) == Keep(ext[i], sel);
    }
  }

  /** Every row the filter returns satisfies `Keep`. */
  lemma {:induction false} FilterKeeps(ext: seq<SaleExt>, sel: Selection)
    ensures forall k :: 0 <= k < |FilterSales(ext, sel)| ==> Keep(FilterSales(ext, sel)[k], sel)
  {
    var m := Column(ext, KeepRow(sel));
    WhereAt(ext, m);
    KeptMember(m);
    forall k | 0 <= k < |FilterSales(ext, sel)|
      ensures Keep(FilterSales(ext, sel)[k], sel)
    {
      var i := Kept(m)[k];
      assert i in Kept(m) && m[i];
    }
  }

  /** The filtered table is the order-preserving subsequence of the enriched
      rows that keeps row `i` exactly when `Keep` holds of it. */
  lemma FilterSpec(ext: seq<SaleExt>, sel: Selection)
    ensures |FilterSales(ext, sel)| == |Kept(Column(ext, KeepRow(sel)))| <= |ext|
    ensures Increasing(Kept(Column(ext, KeepRow(sel))))
    ensures forall k :: 0 <= k < |FilterSales(ext, sel)| ==>
              FilterSales(ext, sel)[k] == ext[Kept(Column(ext, KeepRow(sel)))[k]]
    ensures forall i :: 0 <= i < |ext| ==> (Keep(ext[i], sel) <==> i in Kept(Column(ext, KeepRow(sel))))
    ensures forall k :: 0 <= k < |FilterSales(ext, sel)| ==> Keep(FilterSales(ext, sel)[k], sel)
  {
    WhereSelects(ext, Column(ext, KeepRow(sel)));
    FilterKeeps(ext, sel);
  }

  /** A reversed range (`desde > hasta`) selects nothing. */
  lemma FilterEmptyRange(ext: seq<SaleExt>, sel: Selection)
    requires DateLt(sel.hasta, sel.desde)
    ensures FilterSales(ext, sel) == []
  {
    WhereNone(ext, Column(ext, KeepRow(sel)));
  }

  /** A region (segment) that no row carries selects nothing. */
  lemma FilterUnknownCategory(ext: seq<SaleExt>, sel: Selection)
    requires (sel.region != Todos && forall i :: 0 <= i < |ext| ==> ext[i].Region() != Some(sel.region))
          || (sel.segmento != Todos && forall i :: 0 <= i < |ext| ==> ext[i].Segmento() != Some(sel.segmento))
    ensures FilterSales(ext, sel) == []
  {
    WhereNone(ext, Column(ext, KeepRow(sel)));
  }

  /** With no category chosen and every date inside the range, the filter
      returns the table unchanged. */
  lemma FilterIdentity(ext: seq<SaleExt>, sel: Selection)
    requires sel.region == Todos && sel.segmento == Todos
    requires forall i :: 0 <= i < |ext| ==>
               ext[i].venta.fecha.Some? && DateLe(sel.desde, ext[i].venta.fecha.value) && DateLe(ext[i].venta.fecha.value, sel.hasta)
    ensures FilterSales(ext, sel) == ext
  {
    WhereAll(ext, Column(ext, KeepRow(sel)));
  }

  /** The initial state of the sidebar (the whole global range, "Todos" for
      both selectboxes) keeps every enriched sale, once every sale has a date
      as cleaning guarantees. */
  lemma InitialSelectionKeepsAll(t: Tables)
    requires |t.ventasExt| > 0
    requires forall i :: 0 <= i < |t.ventasExt| ==> t.ventasExt[i].venta.fecha.Some?
    ensures MinDate(t).Some? && MaxDate(t).Some?
    ensures FilterSales(t.ventasExt, Selection(MinDate(t).value, MaxDate(t).value, Todos, Todos)) == t.ventasExt
  {
    assert t.ventasExt[0].venta.fecha.Some?;
    EnvelopeSpec(t);
    var cols := DateColumns(t);
    assert cols[0] == Column(t.ventasExt, VentaFecha);
    forall i | 0 <= i < |t.ventasExt|
      ensures DateLe(MinDate(t).value, t.ventasExt[i].venta.fecha.value)
      ensures DateLe(t.ventasExt[i].venta.fecha.value, MaxDate(t).value)
    {
      assert cols[0][i] == t.ventasExt[i].venta.fecha;
    }
    FilterIdentity(t.ventasExt, Selection(MinDate(t).value, MaxDate(t).value, Todos, Todos));
  }
}
