/** The global date range offered by the sidebar: the Python builtin `min`
    of the four per-table minimum dates and `max` of the four maxima, over
    sales `fecha`, receivables `fecha_factura`, inventory `fecha_corte` and
    imports `fecha_orden`. */
module Envelope {
  import opened Calendar
  import opened Schema
  import opened Frames

  /** `Series.min()` on a datetime column: NaT cells are skipped, and the
      result is NaT when no date is left. */
  function SeriesMin(col: seq<Option<Date>>): (m: Option<Date>)
    ensures m.Some? ==> m in col && forall i :: 0 <= i < |col| && col[i].Some? ==> DateLe(m.value, col[i].value)
    ensures m.None? <==> forall i :: 0 <= i < |col| ==> col[i].None?
  {
    if |col| == 0 then None
    else
      var rest := SeriesMin(col[1..]);
      assert forall i :: 1 <= i < |col| ==> col[i] == col[1..][i - 1];
      if col[0].None? then rest
      else if rest.None? || DateLe(col[0].value, rest.value) then col[0]
      else rest
  }

  /** `Series.max()` on a datetime column. */
  function SeriesMax(col: seq<Option<Date>>): (m: Option<Date>)
    ensures m.Some? ==> m in col && forall i :: 0 <= i < |col| && col[i].Some? ==> DateLe(col[i].value, m.value)
    ensures m.None? <==> forall i :: 0 <= i < |col| ==> col[i].None?
  {
    if |col| == 0 then None
    else
      var rest := SeriesMax(col[1..]);
      assert forall i :: 1 <= i < |col| ==> col[i] == col[1..][i - 1];
      if col[0].None? then rest
      else if rest.None? || DateLe(rest.value, col[0].value) then col[0]
      else rest
  }

  /** `a < b` between two timestamps; every comparison involving NaT is false. */
  predicate Lt(a: Option<Date>, b: Option<Date>)
  {
    a.Some? && b.Some? && DateLt(a.value, b.value)
  }

  /** The builtin `min(xs)`: start from the first item and replace the
      current one by each later item that compares `<` to it. */
  function PyMin(xs: seq<Option<Date>>): Option<Date>
    requires |xs| > 0
  {
    if |xs| == 1 then xs[0]
    else
      var m := PyMin(xs[..|xs| - 1]);
      if Lt(xs[|xs| - 1], m) then xs[|xs| - 1] else m
  }

  /** The builtin `max(xs)`: replace the current item by each later one that compares `>` to it. */
  function PyMax(xs: seq<Option<Date>>): Option<Date>
    requires |xs| > 0
  {
    if |xs| == 1 then xs[0]
    else
      var m := PyMax(xs[..|xs| - 1]);
      if Lt(m, xs[|xs| - 1]) then xs[|xs| - 1] else m
  }

  function VentaFecha(r: SaleExt): Option<Date> { r.venta.fecha }
  function FechaFactura(c: Receivable): Option<Date> { c.fechaFactura }
  function FechaCorte(s: InventorySnapshot): Option<Date> { s.fechaCorte }
  function FechaOrden(o: ImportOrder): Option<Date> { o.fechaOrden }

  /** The four date columns, in the order the source lists them. */
  function DateColumns(t: Tables): seq<seq<Option<Date>>>
  {
    [Column(t.ventasExt, VentaFecha), Column(t.cartera, FechaFactura),
     Column(t.inventario, FechaCorte), Column(t.importaciones, FechaOrden)]
  }

  /** `fechas_min` and `fechas_max`: one entry per column. */
  function Minima(cols: seq<seq<Option<Date>>>): (m: seq<Option<Date>>)
    ensures |m| == |cols|
  {
    seq(|cols|, c requires 0 <= c < |cols| => SeriesMin(cols[c]))
  }

  function Maxima(cols: seq<seq<Option<Date>>>): (m: seq<Option<Date>>)
    ensures |m| == |cols|
  {
    seq(|cols|, c requires 0 <= c < |cols| => SeriesMax(cols[c]))
  }

  function MinDate(t: Tables): Option<Date> { PyMin(Minima(DateColumns(t))) }
  function MaxDate(t: Tables): Option<Date> { PyMax(Maxima(DateColumns(t))) }

  /** When the first item is a date, the builtin `min` is the least date in the list. */
  lemma {:induction false} PyMinSpec(xs: seq<Option<Date>>)
    requires |xs| > 0 && xs[0].Some?
    ensures PyMin(xs).Some? && PyMin(xs) in xs
    ensures forall j :: 0 <= j < |xs| && xs[j].Some? ==> DateLe(PyMin(xs).value, xs[j].value)
  {
    if |xs| > 1 {
      var init := xs[..|xs| - 1];
      PyMinSpec(init);
      assert forall j :: 0 <= j < |xs| - 1 ==> xs[j] == init[j];
    }
  }

  lemma {:induction false} PyMaxSpec(xs: seq<Option<Date>>)
    requires |xs| > 0 && xs[0].Some?
    ensures PyMax(xs).Some? && PyMax(xs) in xs
    ensures forall j :: 0 <= j < |xs| && xs[j].Some? ==> DateLe(xs[j].value, PyMax(xs).value)
  {
    if |xs| > 1 {
      var init := xs[..|xs| - 1];
      PyMaxSpec(init);
      assert forall j :: 0 <= j < |xs| - 1 ==> xs[j] == init[j];
    }
  }

  /** NaT as the first item is never replaced: no later item compares `<` to it. */
  lemma {:induction false} PyMinNaTFirst(xs: seq<Option<Date>>)
    requires |xs| > 0 && xs[0].None?
    ensures PyMin(xs).None? && PyMax(xs).None?
  {
    if |xs| > 1 {
      PyMinNaTFirst(xs[..|xs| - 1]);
    }
  }

  /** The minimum of the column minima bounds every date of every column
      from below and is one of them, once the first column has a date. */
  lemma MinOfMinima(cols: seq<seq<Option<Date>>>)
    requires |cols| > 0 && SeriesMin(cols[0]).Some?
    ensures PyMin(Minima(cols)).Some?
    ensures forall c, i :: 0 <= c < |cols| && 0 <= i < |cols[c]| && cols[c][i].Some? ==>
              DateLe(PyMin(Minima(cols)).value, cols[c][i].value)
    ensures exists c :: 0 <= c < |cols| && PyMin(Minima(cols)) in cols[c]
  {
    var ms := Minima(cols);
    PyMinSpec(ms);
    var m := PyMin(ms);
    forall c, i | 0 <= c < |cols| && 0 <= i < |cols[c]| && cols[c][i].Some?
      ensures DateLe(m.value, cols[c][i].value)
    {
      assert ms[c] == SeriesMin(cols[c]);
    }
    var a :| 0 <= a < |ms| && ms[a] == m;
    assert m in cols[a];
  }

  lemma MaxOfMaxima(cols: seq<seq<Option<Date>>>)
    requires |cols| > 0 && SeriesMax(cols[0]).Some?
    ensures PyMax(Maxima(cols)).Some?
    ensures forall c, i :: 0 <= c < |cols| && 0 <= i < |cols[c]| && cols[c][i].Some? ==>
              DateLe(cols[c][i].value, PyMax(Maxima(cols)).value)
    ensures exists c :: 0 <= c < |cols| && PyMax(Maxima(cols)) in cols[c]
  {
    var ms := Maxima(cols);
    PyMaxSpec(ms);
    var m := PyMax(ms);
    forall c, i | 0 <= c < |cols| && 0 <= i < |cols[c]| && cols[c][i].Some?
      ensures DateLe(cols[c][i].value, m.value)
    {
      assert ms[c] == SeriesMax(cols[c]);
    }
    var a :| 0 <= a < |ms| && ms[a] == m;
    assert m in cols[a];
  }

  /** When some sale has a date, `min_date` and `max_date` are dates, every
      date of the four columns lies between them, and both occur in one of
      the columns. */
  lemma EnvelopeSpec(t: Tables)
    requires exists i :: 0 <= i < |t.ventasExt| && t.ventasExt[i].venta.fecha.Some?
    ensures MinDate(t).Some? && MaxDate(t).Some?
    ensures forall c, i :: 0 <= c < 4 && 0 <= i < |DateColumns(t)[c]| && DateColumns(t)[c][i].Some? ==>
              DateLe(MinDate(t).value, DateColumns(t)[c][i].value) && DateLe(DateColumns(t)[c][i].value, MaxDate(t).value)
    ensures exists c :: 0 <= c < 4 && MinDate(t) in DateColumns(t)[c]
    ensures exists c :: 0 <= c < 4 && MaxDate(t) in DateColumns(t)[c]
  {
    var cols: seq<seq<Option<Date>>> := DateColumns(t);
    var i :| 0 <= i < |t.ventasExt| && t.ventasExt[i].venta.fecha.Some?;
    assert cols[0] == Column(t.ventasExt, VentaFecha);
    assert cols[0][i] == VentaFecha(t.ventasExt[i]);
    MinOfMinima(cols);
    MaxOfMaxima(cols);
  }

  /** With no sale date at all the envelope is NaT at both ends, whatever
      dates the other three tables hold. */
  lemma EnvelopeWithoutSaleDates(t: Tables)
    requires forall i :: 0 <= i < |t.ventasExt| ==> t.ventasExt[i].venta.fecha.None?
    ensures MinDate(t).None? && MaxDate(t).None?
  {
    var col := Column(t.ventasExt, VentaFecha);
    assert DateColumns(t)[0] == col;
    assert forall i :: 0 <= i < |col| ==> col[i] == VentaFecha(t.ventasExt[i]);
    PyMinNaTFirst(Minima(DateColumns(t)));
    PyMinNaTFirst(Maxima(DateColumns(t)));
  }
}
