/** The rows of the six tables the dashboard loads, and the enriched sales
    row. A cell that pandas may hold as NaN/NaT is an `Option`; money and
    quantities are integers, identifiers are integers. */
module Schema {
  import opened Calendar

  datatype Option<+T> = None | Some(value: T)

  /** The contribution of one cell to a pandas `sum()`: NaN is skipped. */
  function Amount(o: Option<int>): int
  {
    if o.Some? then o.value else 0
  }

  /** A row of `clientes_andina.csv`. */
  datatype Customer = Customer(
    clienteId: Option<int>,
    nombreCliente: Option<string>,
    segmento: Option<string>,
    region: Option<string>,
    ciudad: Option<string>,
    fechaAlta: Option<Date>)

  /** A row of `productos_andina.csv`. */
  datatype Product = Product(
    productoId: Option<int>,
    sku: Option<string>,
    categoria: Option<string>,
    subcategoria: Option<string>,
    marca: Option<string>,
    descripcion: Option<string>)

  /** A row of `ventas_andina.csv`. */
  datatype Sale = Sale(
    ventaId: Option<int>,
    fecha: Option<Date>,
    clienteId: Option<int>,
    productoId: Option<int>,
    cantidad: Option<int>,
    subtotalCop: Option<int>,
    margenTotalCop: Option<int>)

  /** A row of `inventario_andina.csv`. */
  datatype InventorySnapshot = InventorySnapshot(
    centroLogistico: Option<string>,
    fechaCorte: Option<Date>,
    valorInventarioCop: Option<int>)

  /** A row of `importaciones_andina.csv`. */
  datatype ImportOrder = ImportOrder(
    fechaOrden: Option<Date>,
    fechaLlegada: Option<Date>,
    paisOrigen: Option<string>,
    costoMercanciaUsd: Option<int>)

  /** A row of `cartera_andina.csv`. */
  datatype Receivable = Receivable(
    documentoId: Option<int>,
    clienteId: Option<int>,
    fechaFactura: Option<Date>,
    fechaVencimiento: Option<Date>,
    saldoCop: Option<int>,
    estado: Option<string>)

  /** The customer columns carried into the sales table. */
  datatype CustomerAttrs = CustomerAttrs(
    nombreCliente: Option<string>,
    segmento: Option<string>,
    region: Option<string>,
    ciudad: Option<string>)

  /** The product columns carried into the sales table. */
  datatype ProductAttrs = ProductAttrs(
    sku: Option<string>,
    categoria: Option<string>,
    subcategoria: Option<string>,
    marca: Option<string>,
    descripcion: Option<string>)

  /** A row of `ventas_ext`: the sale unchanged, the joined customer and
      product columns (`None` when the left join found no match), and the
      derived `anio` and `mes`. */
  datatype SaleExt = SaleExt(
    venta: Sale,
    cliente: Option<CustomerAttrs>,
    producto: Option<ProductAttrs>,
    anio: Option<int>,
    mes: string)
  {
    function Region(): Option<string> { if cliente.Some? then cliente.value.region else None }
    function Segmento(): Option<string> { if cliente.Some? then cliente.value.segmento else None }
    function Ciudad(): Option<string> { if cliente.Some? then cliente.value.ciudad else None }
    function NombreCliente(): Option<string> { if cliente.Some? then cliente.value.nombreCliente else None }
    function Sku(): Option<string> { if producto.Some? then producto.value.sku else None }
    function Descripcion(): Option<string> { if producto.Some? then producto.value.descripcion else None }
  }

  /** The six tables as read from disk. */
  datatype RawTables = RawTables(
    clientes: seq<Customer>,
    productos: seq<Product>,
    ventas: seq<Sale>,
    inventario: seq<InventorySnapshot>,
    importaciones: seq<ImportOrder>,
    cartera: seq<Receivable>)

  /** What `load_data` returns. */
  datatype Tables = Tables(
    clientes: seq<Customer>,
    productos: seq<Product>,
    ventas: seq<Sale>,
    ventasExt: seq<SaleExt>,
    inventario: seq<InventorySnapshot>,
    importaciones: seq<ImportOrder>,
    cartera: seq<Receivable>)
}
