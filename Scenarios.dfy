/** Two small dashboards worked through the model: one sale of a customer in
    the North region, and a receivables table with one current and one
    overdue document. */
module Scenarios {
  import opened Calendar
  import opened Schema
  import opened Frames
  import opened Cleaning
  import opened Enrichment
  import opened Filtering
  import opened GroupBy
  import opened Aggregates

  const Venta1: Sale := Sale(Some(1), Some(Date(2024, 1, 15)), Some(10), Some(100), Some(2), Some(200), Some(50))
  const Cliente10: Customer := Customer(Some(10), Some("Ferreteria Norte"), Some("Retail"), Some("North"), Some("Medellin"), None)
  const Producto100: Product := Product(Some(100), Some("SKU-100"), Some("Herramientas"), None, None, Some("Taladro"))

  lemma MonthKeyOfJanuary2024()
    ensures MonthKey(Date(2024, 1, 15)) == "2024-01"
  {
    assert Digits(2024, 4) == "2024" by {
      assert Digits(2, 1) == "2";
      assert Digits(20, 2) == "20";
      assert Digits(202, 3) == "202";
    }
    assert Digits(1, 2) == "01" by {
      assert Digits(0, 1) == "0";
    }
  }

  /** Loading the three one-row tables keeps every row and joins the sale to
      its customer and product. */
  method LoadOneSale() returns (data: Tables)
    ensures data.clientes == [Cliente10] && data.productos == [Producto100]
    ensures data.ventas == [Venta1]
    ensures data.ventasExt == [EnrichedRow(Venta1, [Cliente10], [Producto100])]
  {
    data := LoadData(RawTables([Cliente10], [Producto100], [Venta1], [], [], []));
    WhereAll([Venta1], Column([Venta1], SaleKeysPresent));
    DedupOfOne(Cliente10, CustomerKey);
    DedupOfOne(Producto100, ProductKey);
  }

  /** A one-row table with a key is its own deduplication. */
  lemma DedupOfOne<T, K>(x: T, key: T -> Option<K>)
    requires key(x).Some?
    ensures DedupByKey([x], key) == [x]
  {
    var m := NotMask(Duplicated(Column([x], key)));
    assert m[0];
    WhereAll([x], m);
    WhereAll([x], Column([x], Present(key)));
  }

  /** The enriched row of the one sale: its customer's region and segment and
      the bucket "2024-01". */
  lemma EnrichedVenta1()
    ensures EnrichedRow(Venta1, [Cliente10], [Producto100]).Region() == Some("North")
    ensures EnrichedRow(Venta1, [Cliente10], [Producto100]).Segmento() == Some("Retail")
    ensures EnrichedRow(Venta1, [Cliente10], [Producto100]).mes == "2024-01"
  {
    MonthKeyOfJanuary2024();
  }

  /** January 2024 with region "North" keeps the sale, region "South" keeps
      nothing, and the monthly series of what is kept reports 200 in sales
      and 50 in margin for "2024-01". */
  lemma OneSaleDashboard()
    ensures var ext := [EnrichedRow(Venta1, [Cliente10], [Producto100])];
            && FilterSales(ext, Selection(Date(2024, 1, 1), Date(2024, 1, 31), "North", Todos)) == ext
            && FilterSales(ext, Selection(Date(2024, 1, 1), Date(2024, 1, 31), "South", Todos)) == []
            && MonthlySeries(ext) == [MonthRow("2024-01", 200, 50)]
            && TotalVentas(ext) == 200 && MargenTotal(ext) == 50 && TotalUnidades(ext) == 2
  {
    var e := EnrichedRow(Venta1, [Cliente10], [Producto100]);
    var ext := [e];
    EnrichedVenta1();
    var north := Selection(Date(2024, 1, 1), Date(2024, 1, 31), "North", Todos);
    var south := Selection(Date(2024, 1, 1), Date(2024, 1, 31), "South", Todos);
    assert Keep(e, north);
    WhereAll(ext, Column(ext, KeepRow(north)));
    assert !Keep(e, south);
    WhereNone(ext, Column(ext, KeepRow(south)));

    var ks := Column(ext, MesKey);
    assert ks[0] == MesKey(e) == Some([StrCell("2024-01")]);
    assert ks == [Some([StrCell("2024-01")])];
    assert GroupKeys(ks) == [[StrCell("2024-01")]];
    var k := [StrCell("2024-01")];
    assert e.venta == Venta1;
    assert Column(ext, Subtotal)[0] == Subtotal(e) == Some(200);
    assert Column(ext, Margen)[0] == Margen(e) == Some(50);
    assert Column(ext, Cantidad)[0] == Cantidad(e) == Some(2);
    assert Column(ext, Subtotal) == [Some(200)] && Column(ext, Margen) == [Some(50)] && Column(ext, Cantidad) == [Some(2)];
    assert Total([Some(200)]) == 200 && Total([Some(50)]) == 50 && Total([Some(2)]) == 2;
    assert SumWhere(ks, [Some(200)], k) == 200 && SumWhere(ks, [Some(50)], k) == 50;
    assert GroupSum(ks, Column(ext, Subtotal)) == [GroupRow([StrCell("2024-01")], 200)];
    assert GroupSum(ks, Column(ext, Margen)) == [GroupRow([StrCell("2024-01")], 50)];
    assert MonthlyGrouped(ext) == [MonthRow("2024-01", 200, 50)];
    assert SortByMes([MonthRow("2024-01", 200, 50)]) == [MonthRow("2024-01", 200, 50)];
  }

  const Mora: Receivable := Receivable(Some(1), Some(10), Some(Date(2024, 1, 2)), Some(Date(2024, 2, 1)), Some(500), Some("En mora"))
  const AlDia: Receivable := Receivable(Some(2), Some(10), Some(Date(2024, 1, 5)), Some(Date(2024, 2, 4)), Some(300), Some("Vigente"))

  /** One overdue document of 500 and one current document of 300. */
  lemma ReceivablesDashboard()
    ensures CarteraMora([Mora, AlDia]) == 500
    ensures CarteraVigente([Mora, AlDia]) == 300
  {
    CarteraSpec([Mora], AlDia);
    CarteraSpec([], Mora);
    assert [] + [Mora] == [Mora];
    assert [Mora] + [AlDia] == [Mora, AlDia];
  }
}
