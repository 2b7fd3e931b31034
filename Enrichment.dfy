/** The enrichment half of `load_data`: the cleaned sales are left-joined to
    the customer columns on `cliente_id`, then to the product columns on
    `producto_id`, and the columns `anio` and `mes` are assigned. */
module Enrichment {
  import opened Calendar
  import opened Schema
  import opened Frames
  import opened Cleaning

  function KeyIs<R>(rkey: R -> Option<int>, k: Option<int>): R -> bool
  {
    (x: R) => rkey(x) == k
  }

  /** The rows of `right` whose key equals `k`, in their order. */
  function Matches<R>(right: seq<R>, rkey: R -> Option<int>, k: Option<int>): seq<R>
  {
    Where(right, Column(right, KeyIs(rkey, k)))
  }

  /** `left.merge(right, on=key, how="left")`: every left row, in order,
      paired with each matching right row in their order, or with `None` (all
      right columns NaN) when nothing matches. Duplicate right keys fan out. */
  function LeftMerge<L, R>(left: seq<L>, lkey: L -> Option<int>, right: seq<R>, rkey: R -> Option<int>)
    : (r: seq<(L, Option<R>)>)
    ensures |r| >= |left|
  {
    if |left| == 0 then []
    else
      var ms := Matches(right, rkey, lkey(left[0]));
      (if |ms| == 0 then [(left[0], None)] else seq(|ms|, j requires 0 <= j < |ms| => (left[0], Some(ms[j]))))
      + LeftMerge(left[1..], lkey, right, rkey)
  }

  /** Reference lookup: the first row of `right` whose key is `k`. */
  function Lookup<R>(right: seq<R>, rkey: R -> Option<int>, k: Option<int>): (o: Option<R>)
    ensures o.Some? ==> o.value in right && rkey(o.value) == k
    ensures o.None? <==> forall j :: 0 <= j < |right| ==> rkey(right[j]) != k
  {
    if |right| == 0 then None
    else if rkey(right[0]) == k then Some(right[0])
    else Lookup(right[1..], rkey, k)
  }

  ghost predicate DistinctKeys<R>(right: seq<R>, rkey: R -> Option<int>)
  {
    forall a, b :: 0 <= a < b < |right| ==> rkey(right[a]) != rkey(right[b])
  }

  lemma {:induction false} MatchesOfDistinct<R>(right: seq<R>, rkey: R -> Option<int>, k: Option<int>)
    requires DistinctKeys(right, rkey)
    ensures Matches(right, rkey, k) == if Lookup(right, rkey, k).Some? then [Lookup(right, rkey, k).value] else []
  {
    if |right| > 0 {
      var rest := right[1..];
      assert Column(right, KeyIs(rkey, k))[1..] == Column(rest, KeyIs(rkey, k));
      if rkey(right[0]) == k {
        WhereNone(rest, Column(rest, KeyIs(rkey, k)));
      } else {
        MatchesOfDistinct(rest, rkey, k);
      }
    }
  }

  /** With distinct keys on the right the left join neither drops nor
      duplicates a left row: row `i` of the result is left row `i` with the
      matching right row, or with `None` when there is none. */
  lemma {:induction false} LeftMergeOfDistinct<L, R>(left: seq<L>, lkey: L -> Option<int>, right: seq<R>, rkey: R -> Option<int>)
    requires DistinctKeys(right, rkey)
    ensures |LeftMerge(left, lkey, right, rkey)| == |left|
    ensures forall i :: 0 <= i < |left| ==>
              LeftMerge(left, lkey, right, rkey)[i] == (left[i], Lookup(right, rkey, lkey(left[i])))
  {
    if |left| > 0 {
      MatchesOfDistinct(right, rkey, lkey(left[0]));
      LeftMergeOfDistinct(left[1..], lkey, right, rkey);
    }
  }

  function SaleCustomerKey(v: Sale): Option<int> { v.clienteId }
  function SaleProductKey(p: (Sale, Option<Customer>)): Option<int> { p.0.productoId }

  /** `clientes[["cliente_id", "nombre_cliente", "segmento", "region", "ciudad"]]`. */
  function CustomerColumns(o: Option<Customer>): Option<CustomerAttrs>
  {
    if o.Some? then Some(CustomerAttrs(o.value.nombreCliente, o.value.segmento, o.value.region, o.value.ciudad)) else None
  }

  /** `productos[["producto_id", "sku", "categoria", "subcategoria", "marca", "descripcion"]]`. */
  function ProductColumns(o: Option<Product>): Option<ProductAttrs>
  {
    if o.Some? then Some(ProductAttrs(o.value.sku, o.value.categoria, o.value.subcategoria, o.value.marca, o.value.descripcion)) else None
  }

  /** A joined row before the derived columns exist. */
  function JoinedRow(j: ((Sale, Option<Customer>), Option<Product>)): SaleExt
  {
    SaleExt(j.0.0, CustomerColumns(j.0.1), ProductColumns(j.1), None, "")
  }

  /** `.dt.year` of one cell (NaN for NaT). */
  function FechaYear(r: SaleExt): Option<int>
  {
    if r.venta.fecha.Some? then Some(YearOf(r.venta.fecha.value)) else None
  }

  /** `.dt.to_period("M").astype(str)` of one cell ("NaT" for NaT). */
  function FechaMonth(r: SaleExt): string
  {
    if r.venta.fecha.Some? then MonthKey(r.venta.fecha.value) else "NaT"
  }

  /** `df["anio"] = col`. */
  function AssignAnio(rows: seq<SaleExt>, col: seq<Option<int>>): (r: seq<SaleExt>)
    requires |col| == |rows|
    ensures |r| == |rows|
  {
    seq(|rows|, i requires 0 <= i < |rows| => rows[i].(anio := col[i]))
  }

  /** `df["mes"] = col`. */
  function AssignMes(rows: seq<SaleExt>, col: seq<string>): (r: seq<SaleExt>)
    requires |col| == |rows|
    ensures |r| == |rows|
  {
    seq(|rows|, i requires 0 <= i < |rows| => rows[i].(mes := col[i]))
  }

  /** Reference definition of one enriched row: the sale unchanged, the
      columns of the customer and of the product with its ids (if any), and
      the year and month bucket of its date. */
  function EnrichedRow(v: Sale, clientes: seq<Customer>, productos: seq<Product>): SaleExt
  {
    SaleExt(
      v,
      CustomerColumns(Lookup(clientes, CustomerKey, v.clienteId)),
      ProductColumns(Lookup(productos, ProductKey, v.productoId)),
      if v.fecha.Some? then Some(v.fecha.value.year) else None,
      if v.fecha.Some? then MonthKey(v.fecha.value) else "NaT")
  }

  /** An enriched row keeps its sale, has absent customer (product) columns
      exactly when no customer (product) carries its id, and holds the year
      and month bucket of its date. */
  lemma EnrichedRowSpec(v: Sale, clientes: seq<Customer>, productos: seq<Product>)
    ensures EnrichedRow(v, clientes, productos).venta == v
    ensures EnrichedRow(v, clientes, productos).cliente.None? <==>
              forall j :: 0 <= j < |clientes| ==> clientes[j].clienteId != v.clienteId
    ensures EnrichedRow(v, clientes, productos).producto.None? <==>
              forall j :: 0 <= j < |productos| ==> productos[j].productoId != v.productoId
    ensures v.fecha.Some? ==>
              EnrichedRow(v, clientes, productos).anio == Some(v.fecha.value.year)
              && EnrichedRow(v, clientes, productos).mes == MonthKey(v.fecha.value)
  {
    var c := Lookup(clientes, CustomerKey, v.clienteId);
    var p := Lookup(productos, ProductKey, v.productoId);
    assert c.None? <==> forall j :: 0 <= j < |clientes| ==> CustomerKey(clientes[j]) != v.clienteId;
    assert p.None? <==> forall j :: 0 <= j < |productos| ==> ProductKey(productos[j]) != v.productoId;
  }

  /** The two joins against deduplicated dimensions give one row per sale, in
      sale order, carrying the looked-up customer and product columns. */
  lemma JoinRows(ventas: seq<Sale>, clientes: seq<Customer>, productos: seq<Product>)
    requires KeysUnique(clientes, CustomerKey) && KeysUnique(productos, ProductKey)
    ensures |LeftMerge(LeftMerge(ventas, SaleCustomerKey, clientes, CustomerKey), SaleProductKey, productos, ProductKey)| == |ventas|
    ensures forall i :: 0 <= i < |ventas| ==>
              JoinedRow(LeftMerge(LeftMerge(ventas, SaleCustomerKey, clientes, CustomerKey), SaleProductKey, productos, ProductKey)[i])
              == EnrichedRow(ventas[i], clientes, productos).(anio := None, mes := "")
  {
    var conCliente := LeftMerge(ventas, SaleCustomerKey, clientes, CustomerKey);
    LeftMergeOfDistinct(ventas, SaleCustomerKey, clientes, CustomerKey);
    LeftMergeOfDistinct(conCliente, SaleProductKey, productos, ProductKey);
  }

  /** Assigning `anio` to the joined rows fills in the year of each sale. */
  lemma {:induction false} AssignAnioSpec(rows: seq<SaleExt>, ventas: seq<Sale>, clientes: seq<Customer>, productos: seq<Product>)
    requires |rows| == |ventas|
    requires forall i :: 0 <= i < |rows| ==> rows[i] == EnrichedRow(ventas[i], clientes, productos).(anio := None, mes := "")
    ensures forall i :: 0 <= i < |rows| ==>
              AssignAnio(rows, Column(rows, FechaYear))[i] == EnrichedRow(ventas[i], clientes, productos).(mes := "")
  {
    forall i | 0 <= i < |rows|
      ensures AssignAnio(rows, Column(rows, FechaYear))[i] == EnrichedRow(ventas[i], clientes, productos).(mes := "")
    {
      assert Column(rows, FechaYear)[i] == FechaYear(rows[i]);
    }
  }

  /** Assigning `mes` then completes each row to its enriched row. */
  lemma {:induction false} AssignMesSpec(rows: seq<SaleExt>, ventas: seq<Sale>, clientes: seq<Customer>, productos: seq<Product>)
    requires |rows| == |ventas|
    requires forall i :: 0 <= i < |rows| ==> rows[i] == EnrichedRow(ventas[i], clientes, productos).(mes := "")
    ensures forall i :: 0 <= i < |rows| ==>
              AssignMes(rows, Column(rows, FechaMonth))[i] == EnrichedRow(ventas[i], clientes, productos)
  {
    forall i | 0 <= i < |rows|
      ensures AssignMes(rows, Column(rows, FechaMonth))[i] == EnrichedRow(ventas[i], clientes, productos)
    {
      assert Column(rows, FechaMonth)[i] == FechaMonth(rows[i]);
    }
  }

  /** `load_data` after the CSV files are read: cleaning, id coercion, the
      two left joins and the derived columns. */
  method LoadData(raw: RawTables) returns (data: Tables)
    ensures data.clientes == CleanClientes(raw.clientes) && KeysUnique(data.clientes, CustomerKey)
    ensures data.productos == CleanProductos(raw.productos) && KeysUnique(data.productos, ProductKey)
    ensures data.ventas == CleanVentas(raw.ventas)
    ensures data.cartera == CleanCartera(raw.cartera)
    ensures data.inventario == raw.inventario && data.importaciones == raw.importaciones
    ensures |data.ventasExt| == |data.ventas|
    ensures forall i :: 0 <= i < |data.ventas| ==>
              data.ventasExt[i] == EnrichedRow(data.ventas[i], data.clientes, data.productos)
    ensures forall i :: 0 <= i < |data.ventasExt| ==>
              data.ventasExt[i].venta.fecha.Some?
              && data.ventasExt[i].anio == Some(data.ventasExt[i].venta.fecha.value.year)
              && data.ventasExt[i].mes == MonthKey(data.ventasExt[i].venta.fecha.value)
  {
    var clientes := DedupByKey(raw.clientes, CustomerKey);
    var productos := DedupByKey(raw.productos, ProductKey);
    var ventas := DropNa(raw.ventas, SaleKeysPresent);
    var cartera := DropNa(raw.cartera, ReceivableKeysPresent);
    // `astype(int)` on the id columns: ids are integers here, so it changes nothing.
    DedupKeysUnique(raw.clientes, CustomerKey);
    DedupKeysUnique(raw.productos, ProductKey);
    DropNaComplete(raw.ventas, SaleKeysPresent);

    var conCliente := LeftMerge(ventas, SaleCustomerKey, clientes, CustomerKey);
    var joined := LeftMerge(conCliente, SaleProductKey, productos, ProductKey);
    JoinRows(ventas, clientes, productos);
    var ventasExt := Column(joined, JoinedRow);
    ventasExt := AssignAnio(ventasExt, Column(ventasExt, FechaYear));
    AssignAnioSpec(Column(joined, JoinedRow), ventas, clientes, productos);
    ghost var conAnio := ventasExt;
    ventasExt := AssignMes(ventasExt, Column(ventasExt, FechaMonth));
    AssignMesSpec(conAnio, ventas, clientes, productos);
    forall i | 0 <= i < |ventas|
      ensures ventasExt[i].venta.fecha.Some?
      ensures ventasExt[i].anio == Some(ventasExt[i].venta.fecha.value.year)
      ensures ventasExt[i].mes == MonthKey(ventasExt[i].venta.fecha.value)
    {
      assert SaleKeysPresent(ventas[i]);
    }
    data := Tables(clientes, productos, ventas, ventasExt, raw.inventario, raw.importaciones, cartera);
  }
}
